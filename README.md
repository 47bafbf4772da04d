# A lease lock on a versioned object store, in Dafny

This project models `DistributedLock` from `distributed_lock.py`. It is a mutual-exclusion
lock over one storage object `gs://<bucket>/<object>`. A client takes the lock by creating
the object with its identity and an expiration time. While it holds the lock, a renewer
thread patches the object every `refresh_interval` seconds, each patch conditional on
the object's metageneration (its version token). The client releases the lock by stopping
the renewer and deleting the object, also conditional on the version. A contender that
finds the object reads it:
- it deletes the object when the object carries its own identity or has expired;
- otherwise it sleeps a random jitter and tries again.

The project has seven modules:

- `Wrappers` (`wrappers.dfy`): `Option` and `Result`.
- `GcsUrl` (`gcs_url.dfy`): the URL parser `_parse_gcs_url` and its inverse.
- `ObjectStore` (`object_store.dfy`): the bucket as a value.
  - A map from object name to `Record(version, identity, expiration)`, plus a counter of
    the versions handed out.
  - The three requests the lock makes: create-if-absent, a version-conditional patch and a
    version-conditional delete.
  - What another process may do between two requests (`Rival`).
  - The fencing property: once anyone has rewritten the object, a request that presents
    the old version is refused. This holds because the store's versions never repeat.
- `GcsGenerations` (`gcs_generations.dfy`): Cloud Storage's own versioning. Every create
  starts a new generation, and the metageneration restarts at 1 for each generation.
  - A request conditioned on the metageneration alone, as the lock sends it, can be
    accepted after the object was deleted and re-created (see Findings).
  - A request conditioned on the pair (generation, metageneration) is fenced. The pair
    is what `ObjectStore`'s single version stands for.
- `LockProtocol` (`lock_protocol.dfy`): the client's logic as functions on the store.
  - `_create_lock_object` and `_delete_lock_object`.
  - One renewal pass and the renewal loop.
  - One pass of `take_lock` and the loop.
  - `release_lock`.
  - Every request and every sleep is recorded as an `Action`, in order.
- `LockProperties` (`lock_properties.dfy`): lemmas about those functions.
  - The failure budget.
  - The renewer stops on a lost lease.
  - The order of the checks in `take_lock`.
  - Exclusion while another client's lease is live, also while its holder renews it.
  - Reclaims happen without backoff.
  - A fenced and stale release cannot harm a successor.
  - The whole lifecycle.
- `DistributedLocks` (`distributed_lock.dfy`): the client as it runs.
  - A `Bucket` class whose request methods update its contents in place.
  - A `DistributedLock` class with the fields `lockThread`, `stopRefreshing` and
    `metageneration`, and a ghost `trace` of the actions.
  - `_refresh_lock` and `take_lock` are `while` loops. Each method is proved to reach
    exactly the state and trace of its `LockProtocol` function, so every lemma about the
    functions holds of the methods.

Time is an integer number of seconds. A clock reading, a jitter, a transient failure or
another process's interleaved request is an input:
- a `Round` for each pass of `take_lock`;
- a `Tick` for each pass of the renewer.

`take_lock`'s `while True` and the renewer's loop run over a finite sequence of such
passes. A `take_lock` run that ends because the sequence ran out (`Waiting`) is still
blocked.

Behaviour of the code a reader might not expect:
- The code never checks that `refresh_interval < ttl`, and neither does the model.
- With `max_refresh_failures <= 0`, the first transient failure already stops the renewer,
  and the counter then stands at 1. The budget is therefore `max(1, max_refresh_failures)`
  (`Budget`).
- A client that never took the lock releases with `metageneration = None`. Its delete is
  unconditional and removes whoever's object is there (`ReleaseWithoutTakeDeletesAnyLock`).
- Only `delete`'s PreconditionFailed is caught. If the object vanished between
  `take_lock`'s read and its reclaiming delete, the NotFound escapes `take_lock`
  (`VanishedBeforeReclaimRaises`).

## Model

| member | source | states |
|---|---|---|
| GcsUrl.SplitOnce | distributed_lock.py:28 | `split("/", 1)`: one part iff the separator is absent, else the part before the first separator and the rest, joined back by it |
| GcsUrl.ParseGcsUrl | distributed_lock.py:25-31 | a URL without the `gs://` prefix fails with MissingScheme; a remainder without `/` fails with MissingObject; on success the `/`-free bucket and the object name format back to the URL |
| GcsUrl.ParseFormatRoundTrip | distributed_lock.py:25-31 | every location whose bucket has no `/` parses back from its URL, even if the object name holds `/` |
| ObjectStore.Create | distributed_lock.py:57 | `if_generation_match=0`: succeeds iff the object is absent, and then stores our identity and expiration under the next version and leaves every other object as it was; otherwise PreconditionFailed and nothing changes |
| ObjectStore.Patch | distributed_lock.py:79 | NotFound iff absent; success iff present and the version matches (None matches any), and then the new metadata is stored under the next version and every other object is as it was; otherwise the store is unchanged |
| ObjectStore.Get | distributed_lock.py:34 | `get_blob`: the object's record iff it is present, else None |
| ObjectStore.Put | distributed_lock.py:78-79 | a successful write: the object holds the new metadata under the next version, every other object is as it was, and the state is a later one |
| ObjectStore.Interfere | distributed_lock.py:57-61 | another process's request, which the code races against: it touches only the lock object, and only by removing it or writing it under a fresh version |
| ObjectStore.Delete | distributed_lock.py:67 | as Patch, and on success exactly that object is removed |
| GcsGenerations.Upload | distributed_lock.py:57 | on Cloud Storage a create starts a new generation whose metageneration is 1 |
| GcsGenerations.PatchByMetageneration | distributed_lock.py:79 | the renewal as sent: accepted iff the object is present and its metageneration matches, whatever its generation |
| GcsGenerations.DeleteByMetageneration | distributed_lock.py:67 | the delete as sent: accepted iff the object is present and its metageneration matches, whatever its generation |
| GcsGenerations.StalePatchAcceptedAfterRecreate | distributed_lock.py:79 | a holder's renewal with the metageneration it last saw is accepted on a successor's re-created object and overwrites the successor's lease |
| GcsGenerations.PatchByToken | distributed_lock.py:79 | the renewal conditioned on generation and metageneration together: accepted iff both match |
| GcsGenerations.DeleteByToken | distributed_lock.py:67 | the delete conditioned on generation and metageneration together: accepted iff both match |
| GcsGenerations.StaleTokenRefused | distributed_lock.py:79 | once the object was rewritten or re-created, a patch or delete presenting the pair it had before is refused |
| GcsGenerations.RecreatedLockRefusesStaleToken | distributed_lock.py:79 | the re-creation that fools the metageneration condition is refused under the pair |
| ObjectStore.StaleVersionRefused | distributed_lock.py:79 | when versions never repeat: once the object has been rewritten or re-created, a patch or delete presenting the old version is refused |
| LockProtocol.CreateLockObject | distributed_lock.py:45-62 | False with only an existence check when the object exists; True iff it was absent and nobody created it before the upload, and then it holds our identity and `now + ttl` under a fresh version; a lost race returns False |
| LockProtocol.DeleteLockObject | distributed_lock.py:64-69 | one delete request; removes the object iff the version matches (always with None); a mismatch is swallowed and changes nothing; a missing object raises NotFound |
| LockProtocol.Renew | distributed_lock.py:74-80 | sleep `refresh_interval`, then one patch with the last known version: Failed iff transient; Gone iff the object is absent; Renewed iff it matches, with our identity and `now + ttl` under a newer version |
| LockProtocol.RefreshTick | distributed_lock.py:74-92 | one renewal pass: a sleep and a patch with the version known; it never clears the flag; a newly known version is the one the patch just wrote, with the counter at 0; if the loop goes on, the counter was reset or bumped and is below `max_refresh_failures` |
| LockProtocol.RefreshLoop | distributed_lock.py:71-92 | a stopped renewer makes no request; the renewer's only requests are sleeps of `refresh_interval` and patches with our identity (their order is LockProperties.RefreshLoopPassAt); the loop leaves passes unused only when it has set the flag |
| LockProtocol.StartRenewer | distributed_lock.py:98-100 | the renewer thread starts with the flag cleared and its counter at 0 (line 72) |
| LockProtocol.AcquireRound | distributed_lock.py:95-111 | a take makes three requests, the second the upload of our identity with `now + ttl` and the last the read, and returns the version of the object left in the store; the store only moves to a later state and stays well formed |
| LockProperties.PassRequests | distributed_lock.py:95-102 | every pass starts with an existence check and makes at least two requests |
| LockProperties.PassEndings | distributed_lock.py:96-111 | a backoff ends with the jitter's sleep and leaves another client's live object; a read that finds nothing after a create leaves no object; a NotFound escapes only from a delete |
| LockProtocol.Reclaim | distributed_lock.py:104-109 | the reclaiming delete presents the version read; the pass goes round again unless the object is gone by then, in which case NotFound escapes |
| LockProtocol.TakeLockRun | distributed_lock.py:94-111 | with no pass the client is still waiting and has made no request; the version returned on acquiring is that of the object left in the store; the store only moves to a later state and stays well formed |
| LockProperties.TakeStartsRenewer | distributed_lock.py:97-100 | after a take the renewer thread runs, and the flag and version are the renewer's start state with the version read |
| LockProtocol.ReleaseAfterPass | distributed_lock.py:114-117 | the join finishes the renewer's pass (its sleep and patch); then, after what others do in the gap, one delete with the version that patch wrote if it got through, else the one held; its effect is DeleteEffect on the store the delete meets |
| LockProtocol.ReleaseLock | distributed_lock.py:113-117 | the flag ends set; the actions are the delete alone, or a sleep, a patch and the delete, so the last action is the only delete. If the renewer was in a pass during the join, that pass's sleep and patch come first, and the delete uses the version that patch wrote when it got through, else the one held before, and what others do between that patch and the delete (`beforeDelete`) comes before it. The delete removes the object iff it matches that version, raises NotFound iff the object is gone, and otherwise changes nothing |
| LockProperties.Budget | distributed_lock.py:89-90 | the number of transient failures in a row that stops the renewer is at least 1 and at least `max_refresh_failures` (exact: LockProperties.GivesUpAfterBudget) |
| LockProperties.TickKeepsBudget | distributed_lock.py:88-92 | one pass keeps the failure counter within the budget, and below it while the loop runs |
| LockProperties.RefreshLoopKeepsBudget | distributed_lock.py:72-92 | the whole renewal loop keeps that invariant |
| LockProperties.FailuresNeverExceedMax | distributed_lock.py:89-90 | with `max_refresh_failures >= 1` the counter stays between 0 and `max_refresh_failures` |
| LockProperties.TransientStreak | distributed_lock.py:73-92 | in a streak of transient failures, pass `k` is a sleep of `refresh_interval` and then a patch with `ticks[k].now + ttl` and the unchanged version. Each pass adds one to the counter, and the loop stops exactly when the streak reaches the budget |
| LockProperties.RefreshLoopPassAt | distributed_lock.py:73-79 | pass `k` of the renewer is a sleep of `refresh_interval` followed by a patch with our identity expiring at `ticks[k].now + ttl`, so every patch comes right after a sleep |
| LockProperties.RefreshLoopFollows | distributed_lock.py:71-92 | the renewer's requests are whole passes, one per tick in order, each a sleep and then our patch for that tick |
| LockProperties.GivesUpAfterBudget | distributed_lock.py:88-92 | a fresh renewer stops after exactly `Budget` transient failures in a row, and not before |
| LockProperties.RenewedTickTracksVersion | distributed_lock.py:79-81 | after a successful patch the renewer's version is the store's newest, which is the object's, and the counter is 0 |
| LockProperties.LostLeaseEndsLoop | distributed_lock.py:82-87 | NotFound or PreconditionFailed sets the flag and ends the loop with no further request |
| LockProperties.SupersededRenewerStops | distributed_lock.py:79-87 | when versions never repeat: once anyone else has written the object, the renewer's patch is refused, it stops, and the other object is untouched |
| LockProperties.QuietRenewalsKeepHold | distributed_lock.py:73-81 | uncontested, fault-free renewals keep the lock held and push the expiration to the last pass's clock plus `ttl` |
| LockProperties.FreeLockIsTaken | distributed_lock.py:96-101 | a free lock is taken in one pass: exists, upload, read; the version returned is the new object's |
| LockProperties.EmptyReadRetries | distributed_lock.py:102-103 | a failed create followed by an empty read retries at once, with no delete and no sleep |
| LockProperties.OwnLeftoverReclaimed | distributed_lock.py:104-106 | an object with our identity is deleted by its version and retried without sleeping, before the expiration is looked at |
| LockProperties.ExpiredLeaseReclaimed | distributed_lock.py:107-109 | another client's object past its expiration is deleted by its version, without sleeping |
| LockProperties.LiveLeaseBacksOff | distributed_lock.py:110-111 | in a pass nobody else touches, another client's live object: no write, a sleep of the drawn jitter, the store unchanged |
| LockProperties.LiveLeasePassBacksOff | distributed_lock.py:96-111 | whatever others did, a pass whose create finds the object and whose read finds another client's live lease makes no write and ends with the jitter's sleep; the store is what others left |
| LockProperties.VanishedBeforeReclaimRaises | distributed_lock.py:104-109 | an own or expired object that vanished before the reclaiming delete makes its NotFound escape `take_lock` |
| LockProperties.RewrittenBeforeReclaimSurvives | distributed_lock.py:104-109 | when versions never repeat: an own or expired object rewritten before the reclaiming delete survives it; the refusal is swallowed and the loop goes on |
| LockProperties.LiveLeaseExcludesOthers | distributed_lock.py:94-111 | with nobody, the holder included, touching the object: while another client's lease is live, `take_lock` keeps waiting, never writes, leaves the store as it is, and sleeps only drawn jitters |
| LockProperties.LiveLeaseExcludesOthersDuringRenewals | distributed_lock.py:94-111 | while the holder renews its lease between the contender's calls and keeps it live past every clock the contender reads, `take_lock` keeps waiting, never writes, sleeps only drawn jitters, and the lease is still live at the end |
| LockProperties.AcquiredMeansHeld | distributed_lock.py:96-101 | if nobody intervenes between create and read, `take_lock` never fails on the read, and on return the client holds the newest version |
| LockProperties.ReclaimThenTake | distributed_lock.py:104-109 | an own leftover or expired object costs one pass and no sleep; the next pass takes the lock |
| LockProperties.HaltedHolderIsSucceeded | distributed_lock.py:94-111 | a contender waits out a stopped holder's live lease and then takes the lock in the second pass after it expires |
| LockProperties.ReleaseFreesHeldLock | distributed_lock.py:113-117 | with nobody else acting during the join: releasing a held lock deletes it, also when the renewer's pending pass renews it during the join |
| LockProperties.RemovedDuringJoinRaises | distributed_lock.py:114-117 | if another process removes the object between the renewer's last patch and the delete, the delete's NotFound escapes `release_lock` |
| LockProperties.ReleaseSparesSuccessor | distributed_lock.py:113-117 | when versions never repeat and nobody acts during the join: releasing after the lease went to someone else changes nothing and raises nothing |
| LockProperties.ReleaseOfVanishedLockRaises | distributed_lock.py:117 | releasing when the object is gone, and nobody writes it back before the delete, raises NotFound |
| LockProperties.ReleaseWithoutTakeDeletesAnyLock | distributed_lock.py:113-117 | without a taken lock the delete is unconditional and removes any object |
| LockProperties.QuietLifecycle | distributed_lock.py:94-117 | uncontested take, renewals and release: acquired with the fresh version, then the object is gone |
| DistributedLocks.Bucket.Exists | distributed_lock.py:47 | true iff the object is present |
| DistributedLocks.Bucket.GetBlob | distributed_lock.py:34 | the object's record, or None |
| DistributedLocks.Bucket.Upload | distributed_lock.py:57 | updates the bucket as ObjectStore.Create |
| DistributedLocks.Bucket.PatchBlob | distributed_lock.py:79-80 | updates the bucket as ObjectStore.Patch and returns the new metageneration on success |
| DistributedLocks.Bucket.Interleave | distributed_lock.py:57-61 | the bucket changes as ObjectStore.Interfere |
| DistributedLocks.Bucket.DeleteBlob | distributed_lock.py:67 | updates the bucket as ObjectStore.Delete |
| DistributedLocks.DistributedLock.constructor | distributed_lock.py:12-23 | settings as given; no renewer thread, flag clear, no version known |
| DistributedLocks.DistributedLock.Open | distributed_lock.py:12-15 | a malformed URL yields the parser's error; otherwise a fresh client on the parsed bucket and object whose URL formats back to `url` |
| DistributedLocks.DistributedLock.GetObjectMetadata | distributed_lock.py:33-43 | one read: the object's version, identity and expiration, or None |
| DistributedLocks.DistributedLock.CreateLockObject | distributed_lock.py:45-62 | bucket, result and trace as LockProtocol.CreateLockObject |
| DistributedLocks.DistributedLock.DeleteLockObject | distributed_lock.py:64-69 | bucket, outcome and trace as LockProtocol.DeleteLockObject |
| DistributedLocks.DistributedLock.RenewOnce | distributed_lock.py:74-81 | bucket, outcome and trace as LockProtocol.Renew; `metageneration` takes the new version only on success |
| DistributedLocks.DistributedLock.RefreshPass | distributed_lock.py:74-92 | one pass of the loop reaches the bucket, trace, version, flag and counter of LockProtocol.RefreshTick |
| DistributedLocks.DistributedLock.RefreshLock | distributed_lock.py:71-92 | the loop, with its early returns, reaches the bucket, trace, version and flag of LockProtocol.RefreshLoop from a counter of 0 |
| DistributedLocks.DistributedLock.AcquirePass | distributed_lock.py:95-111 | one pass reaches the bucket, outcome and trace of LockProtocol.AcquireRound; taking the lock sets the version, clears the flag and starts the renewer |
| DistributedLocks.DistributedLock.TakeLock | distributed_lock.py:94-111 | the loop reaches the bucket, outcome and trace of LockProtocol.TakeLockRun; on return the fields are those after a take, otherwise they are untouched |
| DistributedLocks.DistributedLock.ReleaseLock | distributed_lock.py:113-117 | set the flag, let the renewer finish a pending pass, let others act, then delete: bucket, fields, outcome and trace as LockProtocol.ReleaseLock |

## Left out

- LockProperties.FailuresNeverExceedMax: requires `max_refresh_failures >= 1`, because with 0 or less the counter reaches 1 (see `Budget`).
- Google Cloud Storage client calls: `storage.Client` and `bucket.blob` are replaced by the `ObjectStore` value and the `Bucket` class.
- Real metagenerations restart at 1 for each new generation of an object. `ObjectStore` draws every version from one counter that only grows, so its version stands for the pair (generation, metageneration), not for the metageneration the code sends. `GcsGenerations` models the real numbering and what it does to the lock (see Findings).
- ObjectStore.StaleVersionRefused, LockProperties.SupersededRenewerStops, LockProperties.RewrittenBeforeReclaimSurvives, LockProperties.ReleaseSparesSuccessor: these fencing properties are proved for versions that never repeat. With the metagenerations the code actually sends, they fail after a delete and re-create (GcsGenerations.StalePatchAcceptedAfterRecreate).
- LockProtocol.Renew, LockProperties.ReleaseFreesHeldLock: a patch that fails transiently is taken not to have reached the store. A request that was applied before its response was lost would leave the object at a version the client does not know. The renewer's next patch, or the release's delete, would then be refused and the object would stay until it expires.
- Threads: the renewer thread is `RefreshLock`, run on its own. `release_lock`'s join is modelled as: the renewer finishes at most the one pass it is in (`pending`), and only if it had not left its loop. The data race on `metageneration` is not modelled.
- `time.sleep` and `random.uniform(0.1, 1.0)`: a sleep is recorded as an action. The jitter is an input of each pass, and its range is not enforced.
- `datetime`: ISO-8601 formatting and parsing, time zones and float timestamps. Time is an integer `now` per pass, and an expiration is an integer.
- One clock reading per pass of `take_lock`. The code reads the clock once when it creates and once when it compares. These readings are the same `now`.
- Defaulting `identity` to `process-<id(self)>`: the identity is a given string.
- The unused `json` import.
- Transient failures of `exists`, `upload_from_string`, `get_blob` and `delete`, which the code does not catch. Only the renewer's patch has transient failures in the model.
- `update_timestamp` in `_get_object_metadata`, which no caller uses.
- Metadata missing from an object, or an unparsable expiration: the model's `Record` always has both fields.
- `cache_control = "no-store"` on the upload.
- `take_lock`'s unbounded `while True` and the renewer's unbounded loop: both run over a finite sequence of passes. A run still blocked at the end is reported as `Waiting`.

## Findings

| source | as written | input that shows it | evidently intended | confidence | as-written member | corrected member |
|---|---|---|---|---|---|---|
| distributed_lock.py:79, distributed_lock.py:67 | renewals and deletes are conditioned on `if_metageneration_match` alone, and Cloud Storage restarts the metageneration at 1 for each new generation | holder A creates the lock (generation 1, metageneration 1) and stalls past its ttl; B deletes the expired object with metageneration 1 and creates its own (generation 2, metageneration 1); A's renewer patches with metageneration 1 and is accepted, overwriting B's identity, so both clients hold the lock | a renewal or release of an object that was re-created since the client read it is refused, which conditioning on generation and metageneration together provides | medium, not executed | GcsGenerations.StalePatchAcceptedAfterRecreate | GcsGenerations.StaleTokenRefused |
