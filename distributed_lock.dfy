/**
 * The `DistributedLock` client as it runs: a bucket whose contents its requests
 * update in place, and the lock object with the fields `take_lock`, the renewer
 * loop and `release_lock` update.  Each method is proved to do what the matching
 * function of LockProtocol says, so the properties proved there hold of it.
 */
module DistributedLocks {
  import opened Wrappers
  import opened ObjectStore
  import opened GcsUrl
  import opened LockProtocol

  /** The constructor's defaults for `ttl`, `refresh_interval` and `max_refresh_failures`. */
  const DefaultTtl: int := 300
  const DefaultRefreshInterval: int := 37
  const DefaultMaxRefreshFailures: int := 3

  lemma ConcatAssoc<T>(a: seq<T>, b: seq<T>, c: seq<T>)
    ensures (a + b) + c == a + (b + c)
  {
  }

  /** The storage bucket: its objects and the last version token it handed out. */
  class Bucket {
    var objects: map<string, Record>
    var lastVersion: nat

    /** The bucket's contents as a value. */
    function State(): Store
      reads this
    {
      Store(objects, lastVersion)
    }

    constructor (s: Store)
      ensures State() == s
    {
      objects := s.objects;
      lastVersion := s.lastVersion;
    }

    /** `blob.exists()`. */
    method Exists(name: string) returns (present: bool)
      ensures present <==> Get(State(), name).Some?
    {
      present := name in objects;
    }

    /** `get_blob`: the object's version and metadata, or None. */
    method GetBlob(name: string) returns (blob: Option<Record>)
      ensures blob == Get(State(), name)
      ensures blob.Some? ==> name in State().objects && blob.value == State().objects[name]
    {
      if name in objects {
        blob := Some(objects[name]);
      } else {
        blob := None;
      }
    }

    /** `upload_from_string(..., if_generation_match=0)`. */
    method Upload(name: string, identity: string, expiration: int) returns (status: Status)
      modifies this
      ensures var r := Create(old(State()), name, identity, expiration);
        status == r.status && State() == r.store
    {
      if name in objects {
        status := PreconditionFailed;
      } else {
        lastVersion := lastVersion + 1;
        objects := objects[name := Record(lastVersion, identity, expiration)];
        status := Done;
      }
    }

    /** `patch(if_metageneration_match=expected)`; on success also the object's new metageneration. */
    method PatchBlob(name: string, identity: string, expiration: int, expected: Option<nat>)
      returns (status: Status, version: nat)
      modifies this
      ensures var r := Patch(old(State()), name, identity, expiration, expected);
        status == r.status && State() == r.store
      ensures status == Done ==> name in objects && version == objects[name].version
    {
      version := 0;
      if name !in objects {
        status := NotFound;
      } else if expected.Some? && expected.value != objects[name].version {
        status := PreconditionFailed;
      } else {
        lastVersion := lastVersion + 1;
        objects := objects[name := Record(lastVersion, identity, expiration)];
        status, version := Done, lastVersion;
      }
    }

    /** `delete(if_metageneration_match=expected)`. */
    method DeleteBlob(name: string, expected: Option<nat>) returns (status: Status)
      modifies this
      ensures var r := Delete(old(State()), name, expected);
        status == r.status && State() == r.store
    {
      if name !in objects {
        status := NotFound;
      } else if expected.Some? && expected.value != objects[name].version {
        status := PreconditionFailed;
      } else {
        objects := objects - {name};
        status := Done;
      }
    }

    /** A request of another process that lands between two of ours. */
    method Interleave(name: string, rival: Rival)
      modifies this
      ensures State() == ObjectStore.Interfere(old(State()), name, rival)
    {
      match rival
      case Quiet =>
      case Removes =>
        objects := objects - {name};
      case Writes(identity, expiration) =>
        lastVersion := lastVersion + 1;
        objects := objects[name := Record(lastVersion, identity, expiration)];
    }
  }

  /**
   * The lock client.  `lockThread` says whether the renewer thread was started,
   * `stopRefreshing` is the event it polls, and `trace` records the bucket requests
   * and sleeps the client has made.
   */
  class DistributedLock {
    const bucket: Bucket
    const bucketName: string
    const objectName: string
    const ttl: int
    const refreshInterval: int
    const maxRefreshFailures: int
    const identity: string
    var lockThread: bool
    var stopRefreshing: bool
    var metageneration: Option<nat>
    ghost var trace: seq<Action>

    /** The settings, as the protocol functions take them. */
    function Cfg(): Config {
      Config(objectName, ttl, refreshInterval, maxRefreshFailures, identity)
    }

    /** The fields `release_lock` reads and writes. */
    function Fields(): Holder
      reads this
    {
      Holder(metageneration, stopRefreshing, lockThread)
    }

    /** `__init__` with an already parsed URL: no thread, flag clear, no version known. */
    constructor (bucket: Bucket, loc: Location, ttl: int, refreshInterval: int, maxRefreshFailures: int,
                 identity: string)
      ensures this.bucket == bucket && bucketName == loc.bucket && objectName == loc.name
      ensures Cfg() == Config(loc.name, ttl, refreshInterval, maxRefreshFailures, identity)
      ensures Fields() == Holder(None, false, false) && trace == []
    {
      this.bucket := bucket;
      bucketName := loc.bucket;
      objectName := loc.name;
      this.ttl := ttl;
      this.refreshInterval := refreshInterval;
      this.maxRefreshFailures := maxRefreshFailures;
      this.identity := identity;
      lockThread := false;
      stopRefreshing := false;
      metageneration := None;
      trace := [];
    }

    /** `__init__`: parse the URL; a malformed one raises instead of building the client. */
    static method Open(bucket: Bucket, url: string, identity: string, ttl: int := DefaultTtl,
                       refreshInterval: int := DefaultRefreshInterval,
                       maxRefreshFailures: int := DefaultMaxRefreshFailures) returns (r: Result<DistributedLock, UrlError>)
      ensures ParseGcsUrl(url).Err? ==> r == Err(ParseGcsUrl(url).error)
      ensures ParseGcsUrl(url).Ok? ==>
        && r.Ok? && fresh(r.value) && r.value.bucket == bucket
        && FormatGcsUrl(Location(r.value.bucketName, r.value.objectName)) == url
        && r.value.Cfg() == Config(ParseGcsUrl(url).value.name, ttl, refreshInterval, maxRefreshFailures, identity)
        && r.value.Fields() == Holder(None, false, false) && r.value.trace == []
    {
      var parsed := ParseGcsUrl(url);
      if parsed.Err? {
        return Err(parsed.error);
      }
      var lock := new DistributedLock(bucket, parsed.value, ttl, refreshInterval, maxRefreshFailures, identity);
      return Ok(lock);
    }

    /** `_get_object_metadata`: the object's version, identity and expiration, or None. */
    method GetObjectMetadata() returns (metadata: Option<Record>)
      modifies this`trace
      ensures metadata == Get(bucket.State(), objectName) && trace == old(trace) + [GetCall]
    {
      metadata := bucket.GetBlob(objectName);
      trace := trace + [GetCall];
    }

    /** `_create_lock_object`; `beforeUpload` is what others do between the check and the upload. */
    method CreateLockObject(now: int, beforeUpload: Rival) returns (created: bool)
      modifies this`trace, bucket
      ensures var r := LockProtocol.CreateLockObject(Cfg(), old(bucket.State()), now, beforeUpload);
        created == r.created && bucket.State() == r.store && trace == old(trace) + r.actions
    {
      var present := bucket.Exists(objectName);
      trace := trace + [ExistsCall];
      if present {
        return false;
      }
      var expiration := now + ttl;
      bucket.Interleave(objectName, beforeUpload);
      var status := bucket.Upload(objectName, identity, expiration);
      trace := trace + [UploadCall(identity, expiration)];
      created := status == Done;
    }

    /** `_delete_lock_object`: PreconditionFailed is swallowed, NotFound escapes. */
    method DeleteLockObject(expected: Option<nat>) returns (outcome: Outcome)
      modifies this`trace, bucket
      ensures var r := LockProtocol.DeleteLockObject(Cfg(), old(bucket.State()), expected);
        outcome == r.outcome && bucket.State() == r.store && trace == old(trace) + r.actions
    {
      var status := bucket.DeleteBlob(objectName, expected);
      trace := trace + [DeleteCall(expected)];
      outcome := if status == NotFound then Raised(NotFoundRaised) else Fine;
    }

    /**
     * The body of the renewer loop up to its exception handlers: sleep, let others
     * act, patch with the last known version, and keep the new version on success.
     */
    method RenewOnce(t: Tick) returns (outcome: PatchOutcome)
      modifies this`metageneration, this`trace, bucket
      ensures var r := Renew(Cfg(), old(bucket.State()), old(metageneration), t);
        && outcome == r.outcome && bucket.State() == r.store && trace == old(trace) + r.actions
        && metageneration == if r.outcome.Renewed? then Some(r.outcome.version) else old(metageneration)
    {
      trace := trace + [Sleep(refreshInterval as real)];
      bucket.Interleave(objectName, t.rival);
      var expiration := t.now + ttl;
      trace := trace + [PatchCall(identity, expiration, metageneration)];
      if t.transient {
        return Failed;
      }
      var status, version := bucket.PatchBlob(objectName, identity, expiration, metageneration);
      match status
      case Done =>
        metageneration := Some(version);
        outcome := Renewed(version);
      case NotFound =>
        outcome := Gone;
      case PreconditionFailed =>
        outcome := Superseded;
    }

    /**
     * One pass of `_refresh_lock`'s loop body with its exception handlers, given the
     * thread's failure counter; returns the new counter. NotFound and
     * PreconditionFailed set the flag; another failure bumps the counter and sets the
     * flag once it reaches `max_refresh_failures`. The `return` that follows each
     * `set()` in the code is the loop head finding the flag set.
     */
    method RefreshPass(failures: int, t: Tick) returns (count: int)
      modifies this`metageneration, this`stopRefreshing, this`trace, bucket
      ensures var p := RefreshTick(Cfg(), old(bucket.State()), Renewer(old(metageneration), old(stopRefreshing), failures), t);
        && bucket.State() == p.store && trace == old(trace) + p.actions
        && Renewer(metageneration, stopRefreshing, count) == p.renewer
    {
      var outcome := RenewOnce(t);
      count := failures;
      match outcome {
        case Renewed(_) =>
          count := 0;
        case Gone =>
          stopRefreshing := true;
        case Superseded =>
          stopRefreshing := true;
        case Failed =>
          count := failures + 1;
          if count >= maxRefreshFailures {
            stopRefreshing := true;
          }
      }
    }

    /** `_refresh_lock`, the renewer thread, over the passes `ticks`. */
    method RefreshLock(ticks: seq<Tick>)
      modifies this`metageneration, this`stopRefreshing, this`trace, bucket
      ensures var r := RefreshLoop(Cfg(), old(bucket.State()), Renewer(old(metageneration), old(stopRefreshing), 0), ticks);
        && bucket.State() == r.store && trace == old(trace) + r.actions
        && metageneration == r.renewer.metageneration && stopRefreshing == r.renewer.stop
    {
      ghost var run := RefreshLoop(Cfg(), bucket.State(), Renewer(metageneration, stopRefreshing, 0), ticks);
      ghost var start := trace;
      var consecutiveFailures := 0;
      var i := 0;
      while !stopRefreshing && i < |ticks|
        invariant 0 <= i <= |ticks|
        invariant var rest := RefreshLoop(Cfg(), bucket.State(), Renewer(metageneration, stopRefreshing, consecutiveFailures), ticks[i..]);
          && rest.store == run.store && rest.renewer == run.renewer && trace + rest.actions == start + run.actions
      {
        ghost var before := trace;
        ghost var pass := RefreshTick(Cfg(), bucket.State(), Renewer(metageneration, stopRefreshing, consecutiveFailures), ticks[i]);
        ghost var rest := RefreshLoop(Cfg(), pass.store, pass.renewer, ticks[i + 1..]);
        assert ticks[i..][0] == ticks[i] && ticks[i..][1..] == ticks[i + 1..];
        consecutiveFailures := RefreshPass(consecutiveFailures, ticks[i]);
        ConcatAssoc(before, pass.actions, rest.actions);
        i := i + 1;
      }
    }

    /**
     * One pass of `take_lock`'s loop: try to create; on success read the version and
     * start the renewer; otherwise read the object and reclaim it or back off.
     */
    method AcquirePass(r: Round) returns (outcome: RoundOutcome)
      modifies this`metageneration, this`stopRefreshing, this`lockThread, this`trace, bucket
      ensures var p := AcquireRound(Cfg(), old(bucket.State()), r);
        outcome == p.outcome && bucket.State() == p.store && trace == old(trace) + p.actions
      ensures outcome.Took? ==> Fields() == HolderAfterTake(outcome.version)
      ensures !outcome.Took? ==> Fields() == old(Fields())
    {
      ghost var s0 := bucket.State();
      ghost var c := LockProtocol.CreateLockObject(Cfg(), ObjectStore.Interfere(s0, objectName, r.beforeCreate), r.now, r.beforeUpload);
      bucket.Interleave(objectName, r.beforeCreate);
      var created := CreateLockObject(r.now, r.beforeUpload);
      bucket.Interleave(objectName, r.beforeRead);
      ghost var s1 := bucket.State();
      assert s1 == ObjectStore.Interfere(c.store, objectName, r.beforeRead) && created == c.created;
      var metadata := GetObjectMetadata();
      ConcatAssoc(old(trace), c.actions, [GetCall]);
      if created {
        if metadata.None? {
          return Aborted(NoMetadata);
        }
        metageneration := Some(metadata.value.version);
        stopRefreshing := false;
        lockThread := true;
        return Took(metadata.value.version);
      }
      if metadata.None? {
        return Retry;
      }
      if metadata.value.identity == identity || r.now > metadata.value.expiration {
        ghost var d := LockProtocol.DeleteLockObject(Cfg(), ObjectStore.Interfere(s1, objectName, r.beforeDelete), Some(metadata.value.version));
        bucket.Interleave(objectName, r.beforeDelete);
        var deleted := DeleteLockObject(Some(metadata.value.version));
        ConcatAssoc(old(trace), c.actions + [GetCall], d.actions);
        assert AcquireRound(Cfg(), s0, r) == Reclaim(Cfg(), s1, c.actions + [GetCall], metadata.value.version, r.beforeDelete);
        outcome := if deleted.Raised? then Aborted(deleted.error) else Retry;
      } else {
        trace := trace + [Sleep(r.jitter)];
        ConcatAssoc(old(trace), c.actions + [GetCall], [Sleep(r.jitter)]);
        outcome := BackedOff;
      }
    }

    /**
     * `take_lock` over the passes `rounds`: returns Acquired once the create succeeds,
     * Waiting while it is still looping, Failure when an exception escapes.
     */
    method TakeLock(rounds: seq<Round>) returns (outcome: TakeOutcome)
      modifies this`metageneration, this`stopRefreshing, this`lockThread, this`trace, bucket
      ensures var r := TakeLockRun(Cfg(), old(bucket.State()), rounds);
        outcome == r.outcome && bucket.State() == r.store && trace == old(trace) + r.actions
      ensures outcome.Acquired? ==> Fields() == HolderAfterTake(outcome.version)
      ensures !outcome.Acquired? ==> Fields() == old(Fields())
    {
      ghost var run := TakeLockRun(Cfg(), bucket.State(), rounds);
      ghost var start := trace;
      var i := 0;
      while i < |rounds|
        invariant 0 <= i <= |rounds|
        invariant Fields() == old(Fields())
        invariant var rest := TakeLockRun(Cfg(), bucket.State(), rounds[i..]);
          && rest.store == run.store && rest.outcome == run.outcome && trace + rest.actions == start + run.actions
      {
        ghost var before := trace;
        ghost var p := AcquireRound(Cfg(), bucket.State(), rounds[i]);
        TakeLockRunStep(Cfg(), bucket.State(), rounds, i);
        var pass := AcquirePass(rounds[i]);
        match pass {
          case Took(v) =>
            return Acquired(v);
          case Aborted(e) =>
            return Failure(e);
          case _ =>
        }
        ghost var rest := TakeLockRun(Cfg(), p.store, rounds[i + 1..]);
        ConcatAssoc(before, p.actions, rest.actions);
        i := i + 1;
      }
      outcome := Waiting;
    }

    /**
     * `release_lock`: set the flag, join the renewer (which finishes the pass it is in,
     * `pending`, if it had not left its loop), then delete with the version known now.
     */
    method ReleaseLock(pending: Option<Tick>, beforeDelete: Rival) returns (outcome: Outcome)
      modifies this`metageneration, this`stopRefreshing, this`trace, bucket
      ensures var r := LockProtocol.ReleaseLock(Cfg(), old(bucket.State()), old(Fields()), pending, beforeDelete);
        && outcome == r.outcome && bucket.State() == r.store && Fields() == r.holder
        && trace == old(trace) + r.actions
    {
      var renewerLooping := lockThread && !stopRefreshing;
      stopRefreshing := true;
      if renewerLooping && pending.Some? {
        var _ := RenewOnce(pending.value);
        bucket.Interleave(objectName, beforeDelete);
      }
      outcome := DeleteLockObject(metageneration);
    }
  }
}
