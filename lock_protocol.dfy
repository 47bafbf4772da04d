/**
 * The lock client's decision logic as transitions on the store: create-if-absent,
 * conditional delete, one renewal tick and the renewal loop, one round of the
 * acquisition loop and the loop itself, and release.  Clock readings, the backoff
 * jitter, transient store failures and the requests of other processes are inputs.
 */
module LockProtocol {
  import opened Wrappers
  import opened ObjectStore

  /** The lock's settings (`object_name`, `ttl`, `refresh_interval`, `max_refresh_failures`, `identity`). */
  datatype Config = Config(objectName: string, ttl: int, refreshInterval: int, maxRefreshFailures: int, identity: string)

  /** What the client does, in order: its store requests and its sleeps. */
  datatype Action =
    | ExistsCall                                                        // blob.exists()
    | UploadCall(identity: string, expiration: int)                     // upload_from_string(if_generation_match=0)
    | GetCall                                                           // get_blob
    | PatchCall(identity: string, expiration: int, expected: Option<nat>) // patch(if_metageneration_match=...)
    | DeleteCall(expected: Option<nat>)                                 // delete(if_metageneration_match=...)
    | Sleep(seconds: real)                                              // time.sleep

  /** The exceptions that escape the lock's methods. */
  datatype LockError =
    | NotFoundRaised  // NotFound from a delete, which only catches PreconditionFailed
    | NoMetadata      // the read after a successful create found no object: None["metageneration"]

  datatype Outcome = Fine | Raised(error: LockError)

  // ---------------------------------------------------------------------------
  // _create_lock_object and _delete_lock_object

  datatype Created = Created(store: Store, actions: seq<Action>, created: bool)

  /**
   * `_create_lock_object`: an existence check, then an upload that succeeds only if
   * the object is still absent; `beforeUpload` is what others do between the two.
   */
  function CreateLockObject(cfg: Config, s: Store, now: int, beforeUpload: Rival): (r: Created)
    ensures cfg.objectName in s.objects ==> !r.created && r.store == s && r.actions == [ExistsCall]
    ensures r.created <==> cfg.objectName !in s.objects && !beforeUpload.Writes?
    ensures r.created ==>
      && r.actions == [ExistsCall, UploadCall(cfg.identity, now + cfg.ttl)]
      && r.store.lastVersion == s.lastVersion + 1
      && Get(r.store, cfg.objectName) == Some(Record(r.store.lastVersion, cfg.identity, now + cfg.ttl))
    ensures !r.created && cfg.objectName !in s.objects ==> r.store == Interfere(s, cfg.objectName, beforeUpload)
    ensures forall other :: other != cfg.objectName ==> Get(r.store, other) == Get(s, other)
    ensures Later(s, r.store) && (Valid(s) ==> Valid(r.store))
  {
    if cfg.objectName in s.objects then Created(s, [ExistsCall], false)
    else
      var expiration := now + cfg.ttl;
      var s1 := Interfere(s, cfg.objectName, beforeUpload);
      var r := Create(s1, cfg.objectName, cfg.identity, expiration);
      LaterTransitive(s, s1, r.store);
      Created(r.store, [ExistsCall, UploadCall(cfg.identity, expiration)], r.status == Done)
  }

  datatype Deleted = Deleted(store: Store, actions: seq<Action>, outcome: Outcome)

  /**
   * The effect of `_delete_lock_object(expected)` on the store `before`: NotFound
   * escapes for a missing object, a matching object is removed, anything else stays.
   */
  ghost predicate DeleteEffect(cfg: Config, before: Store, expected: Option<nat>, after: Store, outcome: Outcome) {
    && (outcome == Raised(NotFoundRaised) <==> cfg.objectName !in before.objects)
    && (outcome == Fine <==> cfg.objectName in before.objects)
    && (cfg.objectName in before.objects && Matches(before, cfg.objectName, expected) ==>
          after == Store(before.objects - {cfg.objectName}, before.lastVersion))
    && (!(cfg.objectName in before.objects && Matches(before, cfg.objectName, expected)) ==> after == before)
  }

  /** `_delete_lock_object`: a conditional delete that swallows PreconditionFailed and nothing else. */
  function DeleteLockObject(cfg: Config, s: Store, expected: Option<nat>): (r: Deleted)
    ensures r.actions == [DeleteCall(expected)]
    ensures cfg.objectName !in s.objects ==> r.outcome == Raised(NotFoundRaised) && r.store == s
    ensures cfg.objectName in s.objects ==> r.outcome == Fine
    ensures cfg.objectName in s.objects && Matches(s, cfg.objectName, expected) ==>
      r.store == Store(s.objects - {cfg.objectName}, s.lastVersion)
    ensures cfg.objectName in s.objects && !Matches(s, cfg.objectName, expected) ==> r.store == s
    ensures DeleteEffect(cfg, s, expected, r.store, r.outcome)
    ensures Later(s, r.store) && (Valid(s) ==> Valid(r.store))
  {
    var r := Delete(s, cfg.objectName, expected);
    Deleted(r.store, [DeleteCall(expected)], if r.status == NotFound then Raised(NotFoundRaised) else Fine)
  }

  // ---------------------------------------------------------------------------
  // _refresh_lock

  /**
   * What one pass of the renewal loop meets: the clock after the sleep, what others
   * did to the object during the sleep, and whether the patch failed with an error
   * other than NotFound and PreconditionFailed.
   */
  datatype Tick = Tick(now: int, rival: Rival, transient: bool)

  /** How the patch of one pass ends. */
  datatype PatchOutcome =
    | Renewed(version: nat)   // success; the object's new metageneration
    | Gone                    // NotFound
    | Superseded              // PreconditionFailed
    | Failed                  // any other exception

  datatype Renewal = Renewal(store: Store, actions: seq<Action>, outcome: PatchOutcome)

  /** The body of the renewal loop up to the patch: sleep, then patch with the last known version. */
  function Renew(cfg: Config, s: Store, metageneration: Option<nat>, t: Tick): (r: Renewal)
    ensures r.actions == [Sleep(cfg.refreshInterval as real), PatchCall(cfg.identity, t.now + cfg.ttl, metageneration)]
    ensures var s1 := Interfere(s, cfg.objectName, t.rival);
      && (r.outcome == Failed <==> t.transient)
      && (r.outcome == Gone <==> !t.transient && cfg.objectName !in s1.objects)
      && (r.outcome.Renewed? <==>
            !t.transient && cfg.objectName in s1.objects && Matches(s1, cfg.objectName, metageneration))
      && (!r.outcome.Renewed? ==> r.store == s1)
      && (r.outcome.Renewed? ==>
            && r.outcome.version > s1.lastVersion
            && Get(r.store, cfg.objectName) == Some(Record(r.outcome.version, cfg.identity, t.now + cfg.ttl)))
    ensures Later(s, r.store) && (Valid(s) ==> Valid(r.store))
  {
    var s1 := Interfere(s, cfg.objectName, t.rival);
    var expiration := t.now + cfg.ttl;
    var actions := [Sleep(cfg.refreshInterval as real), PatchCall(cfg.identity, expiration, metageneration)];
    if t.transient then Renewal(s1, actions, Failed)
    else
      var r := Patch(s1, cfg.objectName, cfg.identity, expiration, metageneration);
      LaterTransitive(s, s1, r.store);
      Renewal(r.store, actions,
        match r.status
        case Done => Renewed(r.store.lastVersion)
        case NotFound => Gone
        case PreconditionFailed => Superseded)
  }

  /** The state the renewal loop works on: the shared fields and its local failure counter. */
  datatype Renewer = Renewer(metageneration: Option<nat>, stop: bool, failures: int)

  datatype Refreshed = Refreshed(store: Store, actions: seq<Action>, renewer: Renewer)

  /**
   * One pass of the renewal loop, after the loop head has found the stop flag clear:
   * the pass never clears the flag, a new known version is the one the patch just
   * wrote, and if the loop goes on the counter is either reset or bumped and still
   * below `max_refresh_failures`.
   */
  function RefreshTick(cfg: Config, s: Store, w: Renewer, t: Tick): (r: Refreshed)
    ensures r.actions == [Sleep(cfg.refreshInterval as real), PatchCall(cfg.identity, t.now + cfg.ttl, w.metageneration)]
    ensures w.stop ==> r.renewer.stop
    ensures r.renewer.metageneration != w.metageneration ==>
      && r.renewer.metageneration.Some?
      && Get(r.store, cfg.objectName) == Some(Record(r.renewer.metageneration.value, cfg.identity, t.now + cfg.ttl))
      && r.renewer.failures == 0
    ensures !r.renewer.stop ==>
      r.renewer.failures == 0 || (r.renewer.failures == w.failures + 1 && r.renewer.failures < cfg.maxRefreshFailures)
    ensures Later(s, r.store) && (Valid(s) ==> Valid(r.store))
  {
    var r := Renew(cfg, s, w.metageneration, t);
    Refreshed(r.store, r.actions,
      match r.outcome
      case Renewed(v) => w.(metageneration := Some(v), failures := 0)
      case Gone => w.(stop := true)
      case Superseded => w.(stop := true)
      case Failed =>
        var f := w.failures + 1;
        w.(failures := f, stop := if f >= cfg.maxRefreshFailures then true else w.stop))
  }

  /**
   * The renewal loop over the passes `ticks`; the stop flag is tested only at the loop
   * head. A stopped renewer makes no request and stays stopped, every pass is a sleep
   * and a patch (the only request the renewer makes), and the loop leaves passes
   * unused only when it has set the flag.
   */
  function RefreshLoop(cfg: Config, s: Store, w: Renewer, ticks: seq<Tick>): (r: Refreshed)
    ensures w.stop ==> r == Refreshed(s, [], w)
    ensures |r.actions| <= 2 * |ticks|
    ensures !r.renewer.stop ==> |r.actions| == 2 * |ticks|
    ensures forall i :: 0 <= i < |r.actions| ==>
      r.actions[i] == Sleep(cfg.refreshInterval as real) || (r.actions[i].PatchCall? && r.actions[i].identity == cfg.identity)
    ensures Later(s, r.store) && (Valid(s) ==> Valid(r.store))
    decreases |ticks|
  {
    if w.stop || ticks == [] then Refreshed(s, [], w)
    else
      var first := RefreshTick(cfg, s, w, ticks[0]);
      var rest := RefreshLoop(cfg, first.store, first.renewer, ticks[1..]);
      LaterTransitive(s, first.store, rest.store);
      Refreshed(rest.store, first.actions + rest.actions, rest.renewer)
  }

  /** The renewer thread as it starts: flag clear, no failures yet. */
  function StartRenewer(metageneration: Option<nat>): (w: Renewer)
    ensures !w.stop && w.failures == 0 && w.metageneration == metageneration
  {
    Renewer(metageneration, false, 0)
  }

  // ---------------------------------------------------------------------------
  // take_lock

  /**
   * What one pass of `take_lock`'s loop meets: the clock, what others do before the
   * existence check, before the upload, before the read and before the delete, and
   * the jitter `random.uniform(0.1, 1.0)` draws.
   */
  datatype Round = Round(now: int, beforeCreate: Rival, beforeUpload: Rival, beforeRead: Rival,
                         beforeDelete: Rival, jitter: real)

  datatype RoundOutcome = Took(version: nat) | Retry | BackedOff | Aborted(error: LockError)

  datatype RoundResult = RoundResult(store: Store, actions: seq<Action>, outcome: RoundOutcome)

  /**
   * One pass of `take_lock`: try to create; on success read the new object's
   * version; otherwise read the object and reclaim it if it is ours, reclaim it if
   * it has expired, or back off. A take returns the version of the object read.
   */
  function AcquireRound(cfg: Config, s: Store, r: Round): (p: RoundResult)
    ensures p.outcome.Took? ==> cfg.objectName in p.store.objects && p.store.objects[cfg.objectName].version == p.outcome.version
    ensures p.outcome.Took? ==>
      |p.actions| == 3 && p.actions[1] == UploadCall(cfg.identity, r.now + cfg.ttl) && p.actions[2] == GetCall
    ensures Later(s, p.store) && (Valid(s) ==> Valid(p.store))
  {
    var name := cfg.objectName;
    var s0 := Interfere(s, name, r.beforeCreate);
    var c := CreateLockObject(cfg, s0, r.now, r.beforeUpload);
    var s1 := Interfere(c.store, name, r.beforeRead);
    LaterTransitive(s, s0, c.store);
    LaterTransitive(s, c.store, s1);
    var actions := c.actions + [GetCall];
    var seen := Get(s1, name);
    if c.created then
      if seen.None? then RoundResult(s1, actions, Aborted(NoMetadata))
      else RoundResult(s1, actions, Took(seen.value.version))
    else if seen.None? then RoundResult(s1, actions, Retry)
    else if seen.value.identity == cfg.identity then
      var p := Reclaim(cfg, s1, actions, seen.value.version, r.beforeDelete);
      LaterTransitive(s, s1, p.store);
      p
    else if r.now > seen.value.expiration then
      var p := Reclaim(cfg, s1, actions, seen.value.version, r.beforeDelete);
      LaterTransitive(s, s1, p.store);
      p
    else RoundResult(s1, actions + [Sleep(r.jitter)], BackedOff)
  }

  /**
   * Delete the object that was read, by its version, and go round again; only a
   * NotFound, when the object is gone by the time of the delete, escapes.
   */
  function Reclaim(cfg: Config, s: Store, actions: seq<Action>, version: nat, beforeDelete: Rival): (p: RoundResult)
    ensures p.actions == actions + [DeleteCall(Some(version))]
    ensures p.outcome.Retry? || p.outcome == Aborted(NotFoundRaised)
    ensures p.outcome.Aborted? <==> cfg.objectName !in Interfere(s, cfg.objectName, beforeDelete).objects
    ensures Later(s, p.store) && (Valid(s) ==> Valid(p.store))
  {
    var s1 := Interfere(s, cfg.objectName, beforeDelete);
    var d := DeleteLockObject(cfg, s1, Some(version));
    LaterTransitive(s, s1, d.store);
    RoundResult(d.store, actions + d.actions, if d.outcome.Raised? then Aborted(d.outcome.error) else Retry)
  }

  /** How `take_lock` ends: it returned True, it is still looping, or an exception escaped. */
  datatype TakeOutcome = Acquired(version: nat) | Waiting | Failure(error: LockError)

  datatype Acquisition = Acquisition(store: Store, actions: seq<Action>, outcome: TakeOutcome)

  /**
   * `take_lock`'s `while True` loop, over the passes `rounds`. The version returned
   * is that of the object the loop leaves behind.
   */
  function TakeLockRun(cfg: Config, s: Store, rounds: seq<Round>): (r: Acquisition)
    ensures rounds == [] ==> r == Acquisition(s, [], Waiting)
    ensures r.outcome.Acquired? ==> cfg.objectName in r.store.objects && r.store.objects[cfg.objectName].version == r.outcome.version
    ensures Later(s, r.store) && (Valid(s) ==> Valid(r.store))
    decreases |rounds|
  {
    if rounds == [] then Acquisition(s, [], Waiting)
    else
      var first := AcquireRound(cfg, s, rounds[0]);
      match first.outcome
      case Took(v) => Acquisition(first.store, first.actions, Acquired(v))
      case Aborted(e) => Acquisition(first.store, first.actions, Failure(e))
      case _ =>
        var rest := TakeLockRun(cfg, first.store, rounds[1..]);
        var actions := first.actions + rest.actions;
        LaterTransitive(s, first.store, rest.store);
        Acquisition(rest.store, actions, rest.outcome)
  }

  /** One step of the loop at pass `i`: that pass either ends the loop or hands over to the passes after it. */
  lemma TakeLockRunStep(cfg: Config, s: Store, rounds: seq<Round>, i: nat)
    requires i < |rounds|
    ensures var p := AcquireRound(cfg, s, rounds[i]);
      var whole := TakeLockRun(cfg, s, rounds[i..]);
      && (p.outcome.Took? ==> whole == Acquisition(p.store, p.actions, Acquired(p.outcome.version)))
      && (p.outcome.Aborted? ==> whole == Acquisition(p.store, p.actions, Failure(p.outcome.error)))
      && (p.outcome.Retry? || p.outcome.BackedOff? ==>
            var rest := TakeLockRun(cfg, p.store, rounds[i + 1..]);
            whole == Acquisition(rest.store, p.actions + rest.actions, rest.outcome))
  {
    assert rounds[i..][0] == rounds[i] && rounds[i..][1..] == rounds[i + 1..];
  }

  // ---------------------------------------------------------------------------
  // release_lock

  /** The client's fields: `metageneration`, `stop_refreshing`, and whether `lock_thread` was started. */
  datatype Holder = Holder(metageneration: Option<nat>, stop: bool, renewerStarted: bool)

  /** The fields after `take_lock` returned True with `version`. */
  function HolderAfterTake(version: nat): (h: Holder) {
    Holder(Some(version), false, true)
  }

  datatype Released = Released(store: Store, actions: seq<Action>, holder: Holder, outcome: Outcome)

  /** The join finishes the renewer's pass at `t`, then the delete presents the version it left. */
  function ReleaseAfterPass(cfg: Config, s: Store, h: Holder, t: Tick, beforeDelete: Rival): (r: Released)
    ensures var last := Renew(cfg, s, h.metageneration, t);
      && r.actions == last.actions + [DeleteCall(r.holder.metageneration)]
      && r.holder == Holder(if last.outcome.Renewed? then Some(last.outcome.version) else h.metageneration, true, h.renewerStarted)
      && DeleteEffect(cfg, Interfere(last.store, cfg.objectName, beforeDelete), r.holder.metageneration, r.store, r.outcome)
    ensures Later(s, r.store) && (Valid(s) ==> Valid(r.store))
  {
    var last := Renew(cfg, s, h.metageneration, t);
    var version := if last.outcome.Renewed? then Some(last.outcome.version) else h.metageneration;
    var s1 := Interfere(last.store, cfg.objectName, beforeDelete);
    var d := DeleteLockObject(cfg, s1, version);
    LaterTransitive(s, last.store, s1);
    LaterTransitive(s, s1, d.store);
    Released(d.store, last.actions + d.actions, Holder(version, true, h.renewerStarted), d.outcome)
  }

  /**
   * `release_lock`: set the stop flag; join the renewer, which, if it is still in its
   * loop and inside a pass (`pending`), finishes that pass's patch first; what others
   * do between that patch and the delete is `beforeDelete`; then delete with the
   * version known after the join. Without a pending pass the delete is the first
   * request, and `s` is already the store it meets.
   */
  function ReleaseLock(cfg: Config, s: Store, h: Holder, pending: Option<Tick>, beforeDelete: Rival): (r: Released)
    ensures r.holder.stop && r.holder.renewerStarted == h.renewerStarted
    ensures |r.actions| > 0 && r.actions[|r.actions| - 1] == DeleteCall(r.holder.metageneration)
    ensures |r.actions| == 1 || (|r.actions| == 3 && r.actions[0].Sleep? && r.actions[1].PatchCall?)
    ensures h.renewerStarted && !h.stop && pending.Some? ==>
      var last := Renew(cfg, s, h.metageneration, pending.value);
      && r.actions == last.actions + [DeleteCall(r.holder.metageneration)]
      && r.holder.metageneration == (if last.outcome.Renewed? then Some(last.outcome.version) else h.metageneration)
      && DeleteEffect(cfg, Interfere(last.store, cfg.objectName, beforeDelete), r.holder.metageneration, r.store, r.outcome)
    ensures !(h.renewerStarted && !h.stop && pending.Some?) ==>
      && r.actions == [DeleteCall(h.metageneration)] && r.holder.metageneration == h.metageneration
      && DeleteEffect(cfg, s, h.metageneration, r.store, r.outcome)
    ensures Later(s, r.store) && (Valid(s) ==> Valid(r.store))
  {
    if h.renewerStarted && !h.stop && pending.Some? then
      ReleaseAfterPass(cfg, s, h, pending.value, beforeDelete)
    else
      var d := DeleteLockObject(cfg, s, h.metageneration);
      Released(d.store, d.actions, Holder(h.metageneration, true, h.renewerStarted), d.outcome)
  }
}
