/**
 * What the protocol guarantees, stated over the transitions of LockProtocol:
 * the renewer's failure budget and its stop on a lost lease, fencing of stale
 * renewals and deletes, the order of the acquisition checks, exclusion while a
 * lease is live, reclaiming stale and own leftover objects without backoff, and
 * a release that deletes exactly once with the last confirmed version.
 */
module LockProperties {
  import opened Wrappers
  import opened ObjectStore
  import opened LockProtocol

  /** The client whose last known version is `m` holds the lock in `s`. */
  ghost predicate Holds(cfg: Config, s: Store, m: Option<nat>) {
    && m.Some?
    && cfg.objectName in s.objects
    && s.objects[cfg.objectName].version == m.value
    && s.objects[cfg.objectName].identity == cfg.identity
  }

  /** Another process's object, still live at time `now`. */
  ghost predicate LiveForeignLease(cfg: Config, s: Store, now: int) {
    && cfg.objectName in s.objects
    && s.objects[cfg.objectName].identity != cfg.identity
    && now <= s.objects[cfg.objectName].expiration
  }

  /** The action is a write request: an upload, a patch or a delete. */
  predicate IsWrite(a: Action) {
    a.UploadCall? || a.PatchCall? || a.DeleteCall?
  }

  // ---------------------------------------------------------------------------
  // Renewal

  /** How many consecutive transient failures the renewer absorbs, the last one included; at least one. */
  function Budget(cfg: Config): (b: int)
    ensures b >= 1 && b >= cfg.maxRefreshFailures
  {
    if cfg.maxRefreshFailures < 1 then 1 else cfg.maxRefreshFailures
  }

  /** The failure counter stays within the budget, and below it while the loop runs. */
  ghost predicate WithinBudget(cfg: Config, w: Renewer) {
    && 0 <= w.failures <= Budget(cfg)
    && (!w.stop ==> w.failures < Budget(cfg))
  }

  lemma TickKeepsBudget(cfg: Config, s: Store, w: Renewer, t: Tick)
    requires WithinBudget(cfg, w) && !w.stop
    ensures WithinBudget(cfg, RefreshTick(cfg, s, w, t).renewer)
  {
  }

  /** The renewal loop preserves the budget invariant. */
  lemma {:induction false} RefreshLoopKeepsBudget(cfg: Config, s: Store, w: Renewer, ticks: seq<Tick>)
    requires WithinBudget(cfg, w)
    ensures WithinBudget(cfg, RefreshLoop(cfg, s, w, ticks).renewer)
    decreases |ticks|
  {
    if !w.stop && ticks != [] {
      var first := RefreshTick(cfg, s, w, ticks[0]);
      TickKeepsBudget(cfg, s, w, ticks[0]);
      RefreshLoopKeepsBudget(cfg, first.store, first.renewer, ticks[1..]);
    }
  }

  /** `a` is passes of two requests, one per tick: a sleep, then our patch expiring at that tick's `now + ttl`. */
  ghost predicate PassesFollow(cfg: Config, a: seq<Action>, ticks: seq<Tick>)
    decreases |a|
  {
    || a == []
    || (&& |a| >= 2 && ticks != []
        && a[0] == Sleep(cfg.refreshInterval as real)
        && a[1].PatchCall? && a[1].identity == cfg.identity && a[1].expiration == ticks[0].now + cfg.ttl
        && PassesFollow(cfg, a[2..], ticks[1..]))
  }

  lemma {:induction false} RefreshLoopFollows(cfg: Config, s: Store, w: Renewer, ticks: seq<Tick>)
    ensures PassesFollow(cfg, RefreshLoop(cfg, s, w, ticks).actions, ticks)
    decreases |ticks|
  {
    if !w.stop && ticks != [] {
      var first := RefreshTick(cfg, s, w, ticks[0]);
      var rest := RefreshLoop(cfg, first.store, first.renewer, ticks[1..]);
      RefreshLoopFollows(cfg, first.store, first.renewer, ticks[1..]);
      assert (first.actions + rest.actions)[2..] == rest.actions;
    }
  }

  lemma {:induction false} PassesFollowAt(cfg: Config, a: seq<Action>, ticks: seq<Tick>, k: nat)
    requires PassesFollow(cfg, a, ticks) && 2 * k < |a|
    ensures k < |ticks| && 2 * k + 1 < |a|
    ensures a[2 * k] == Sleep(cfg.refreshInterval as real)
    ensures a[2 * k + 1].PatchCall? && a[2 * k + 1].identity == cfg.identity
    ensures a[2 * k + 1].expiration == ticks[k].now + cfg.ttl
    decreases k
  {
    if k > 0 {
      PassesFollowAt(cfg, a[2..], ticks[1..], k - 1);
      assert a[2..][2 * (k - 1)] == a[2 * k] && a[2..][2 * (k - 1) + 1] == a[2 * k + 1];
      assert ticks[1..][k - 1] == ticks[k];
    }
  }

  /**
   * The order of the renewer's requests: pass `k` is a sleep of `refresh_interval`
   * followed by a patch with our identity and `ticks[k].now + ttl`.
   */
  lemma RefreshLoopPassAt(cfg: Config, s: Store, w: Renewer, ticks: seq<Tick>, k: nat)
    requires 2 * k < |RefreshLoop(cfg, s, w, ticks).actions|
    ensures var a := RefreshLoop(cfg, s, w, ticks).actions;
      && k < |ticks|
      && a[2 * k] == Sleep(cfg.refreshInterval as real)
      && 2 * k + 1 < |a|
      && a[2 * k + 1].PatchCall? && a[2 * k + 1].identity == cfg.identity
      && a[2 * k + 1].expiration == ticks[k].now + cfg.ttl
  {
    RefreshLoopFollows(cfg, s, w, ticks);
    PassesFollowAt(cfg, RefreshLoop(cfg, s, w, ticks).actions, ticks, k);
  }

  /** With a positive `max_refresh_failures`, the counter of a renewer never exceeds it. */
  lemma FailuresNeverExceedMax(cfg: Config, s: Store, m: Option<nat>, ticks: seq<Tick>)
    requires cfg.maxRefreshFailures >= 1
    ensures 0 <= RefreshLoop(cfg, s, StartRenewer(m), ticks).renewer.failures <= cfg.maxRefreshFailures
  {
    RefreshLoopKeepsBudget(cfg, s, StartRenewer(m), ticks);
  }

  /** The requests of passes that all fail: each a sleep, then a patch with the version `m` held throughout. */
  function StreakRequests(cfg: Config, m: Option<nat>, ticks: seq<Tick>): (a: seq<Action>)
    ensures |a| == 2 * |ticks|
    decreases |ticks|
  {
    if ticks == [] then []
    else [Sleep(cfg.refreshInterval as real), PatchCall(cfg.identity, ticks[0].now + cfg.ttl, m)] + StreakRequests(cfg, m, ticks[1..])
  }

  /** Pass `k` of a failing streak sleeps `refresh_interval` and then patches with `ticks[k].now + ttl`. */
  lemma {:induction false} StreakRequestsAt(cfg: Config, m: Option<nat>, ticks: seq<Tick>, k: nat)
    requires k < |ticks|
    ensures var a := StreakRequests(cfg, m, ticks);
      && a[2 * k] == Sleep(cfg.refreshInterval as real)
      && a[2 * k + 1] == PatchCall(cfg.identity, ticks[k].now + cfg.ttl, m)
    decreases k
  {
    if k > 0 {
      StreakRequestsAt(cfg, m, ticks[1..], k - 1);
      assert ticks[1..][k - 1] == ticks[k];
    }
  }

  /**
   * A streak of transient failures: every pass sleeps and patches once with the
   * unchanged version and bumps the counter, and the loop stops exactly when the
   * streak reaches the budget.
   */
  lemma {:induction false} TransientStreak(cfg: Config, s: Store, w: Renewer, ticks: seq<Tick>)
    requires !w.stop && 0 <= w.failures < Budget(cfg)
    requires |ticks| <= Budget(cfg) - w.failures
    requires forall i :: 0 <= i < |ticks| ==> ticks[i].transient
    ensures var run := RefreshLoop(cfg, s, w, ticks);
      && run.renewer.failures == w.failures + |ticks|
      && (run.renewer.stop <==> |ticks| == Budget(cfg) - w.failures)
      && run.renewer.metageneration == w.metageneration
      && run.actions == StreakRequests(cfg, w.metageneration, ticks)
      && forall k :: 0 <= k < |ticks| ==>
           && run.actions[2 * k] == Sleep(cfg.refreshInterval as real)
           && run.actions[2 * k + 1] == PatchCall(cfg.identity, ticks[k].now + cfg.ttl, w.metageneration)
    decreases |ticks|
  {
    forall k | 0 <= k < |ticks| {
      StreakRequestsAt(cfg, w.metageneration, ticks, k);
    }
    if ticks != [] {
      var first := RefreshTick(cfg, s, w, ticks[0]);
      assert first.renewer.failures == w.failures + 1;
      if first.renewer.stop {
        assert ticks[1..] == [];
      } else {
        TransientStreak(cfg, first.store, first.renewer, ticks[1..]);
      }
    }
  }

  /** A fresh renewer gives up after exactly `max_refresh_failures` transient failures in a row (one, if that is below one). */
  lemma GivesUpAfterBudget(cfg: Config, s: Store, m: Option<nat>, ticks: seq<Tick>)
    requires |ticks| == Budget(cfg)
    requires forall i :: 0 <= i < |ticks| ==> ticks[i].transient
    ensures RefreshLoop(cfg, s, StartRenewer(m), ticks).renewer.stop
    ensures forall k :: 0 <= k < |ticks| ==> !RefreshLoop(cfg, s, StartRenewer(m), ticks[..k]).renewer.stop
  {
    TransientStreak(cfg, s, StartRenewer(m), ticks);
    forall k | 0 <= k < |ticks|
      ensures !RefreshLoop(cfg, s, StartRenewer(m), ticks[..k]).renewer.stop
    {
      TransientStreak(cfg, s, StartRenewer(m), ticks[..k]);
    }
  }

  /**
   * A patch that gets through: the renewer now knows the object's new version, which
   * is the newest in the store, the counter is back at zero, and the stop flag is as it was.
   */
  lemma RenewedTickTracksVersion(cfg: Config, s: Store, w: Renewer, t: Tick)
    requires Renew(cfg, s, w.metageneration, t).outcome.Renewed?
    ensures var tick := RefreshTick(cfg, s, w, t);
      && tick.renewer == Renewer(Some(tick.store.lastVersion), w.stop, 0)
      && Get(tick.store, cfg.objectName) == Some(Record(tick.store.lastVersion, cfg.identity, t.now + cfg.ttl))
      && tick.store.lastVersion > s.lastVersion
  {
  }

  /** NotFound or PreconditionFailed on a patch sets the stop flag and ends the loop: no further request. */
  lemma LostLeaseEndsLoop(cfg: Config, s: Store, w: Renewer, ticks: seq<Tick>)
    requires !w.stop && ticks != []
    requires Renew(cfg, s, w.metageneration, ticks[0]).outcome in {Gone, Superseded}
    ensures var run := RefreshLoop(cfg, s, w, ticks);
      var r := Renew(cfg, s, w.metageneration, ticks[0]);
      && run.renewer.stop
      && run.renewer.metageneration == w.metageneration
      && run.store == r.store
      && run.actions == r.actions
  {
    var first := RefreshTick(cfg, s, w, ticks[0]);
    assert RefreshLoop(cfg, first.store, first.renewer, ticks[1..]) == Refreshed(first.store, [], first.renewer);
  }

  /**
   * Fencing of the renewer: once anyone else has written or re-created the object the
   * client held, the client's next patch is refused, the loop stops, and the other
   * writer's object is left as it is.
   */
  lemma SupersededRenewerStops(cfg: Config, held: Store, s: Store, w: Renewer, t: Tick)
    requires Valid(held) && Holds(cfg, held, w.metageneration) && Later(held, s)
    requires !t.transient
    requires var s1 := Interfere(s, cfg.objectName, t.rival);
      cfg.objectName in s1.objects && s1.objects[cfg.objectName] != held.objects[cfg.objectName]
    ensures var tick := RefreshTick(cfg, s, w, t);
      tick.renewer.stop && tick.store == Interfere(s, cfg.objectName, t.rival)
  {
    var s1 := Interfere(s, cfg.objectName, t.rival);
    LaterTransitive(held, s, s1);
    StaleVersionRefused(held, s1, cfg.objectName, cfg.identity, t.now + cfg.ttl);
  }

  /**
   * While nobody else touches the object and every patch gets through, the renewer
   * keeps holding the lock, tracks the object's version and pushes the expiration
   * forward to the last pass's clock plus the ttl.
   */
  lemma {:induction false} QuietRenewalsKeepHold(cfg: Config, s: Store, w: Renewer, ticks: seq<Tick>)
    requires Holds(cfg, s, w.metageneration)
    requires forall i :: 0 <= i < |ticks| ==> ticks[i].rival == Quiet && !ticks[i].transient
    ensures var run := RefreshLoop(cfg, s, w, ticks);
      && Holds(cfg, run.store, run.renewer.metageneration)
      && run.renewer.stop == w.stop
      && (!w.stop && ticks != [] ==>
            run.renewer.failures == 0
            && run.store.objects[cfg.objectName].expiration == ticks[|ticks| - 1].now + cfg.ttl)
    decreases |ticks|
  {
    if !w.stop && ticks != [] {
      var first := RefreshTick(cfg, s, w, ticks[0]);
      assert first.renewer.failures == 0 && !first.renewer.stop;
      QuietRenewalsKeepHold(cfg, first.store, first.renewer, ticks[1..]);
      if |ticks| == 1 {
        assert ticks[1..] == [];
      } else {
        assert ticks[1..][|ticks[1..]| - 1] == ticks[|ticks| - 1];
      }
    }
  }

  // ---------------------------------------------------------------------------
  // One pass of take_lock

  /** Nobody else touches the object during the pass. */
  ghost predicate QuietRound(r: Round) {
    && r.beforeCreate == Quiet && r.beforeUpload == Quiet
    && r.beforeRead == Quiet && r.beforeDelete == Quiet
  }

  /** Every pass, whatever others do, starts with an existence check and then a read. */
  lemma PassRequests(cfg: Config, s: Store, r: Round)
    ensures var pass := AcquireRound(cfg, s, r);
      |pass.actions| >= 2 && pass.actions[0] == ExistsCall
  {
    var pass := AcquireRound(cfg, s, r);
    var c := CreateLockObject(cfg, Interfere(s, cfg.objectName, r.beforeCreate), r.now, r.beforeUpload);
    var s1 := Interfere(c.store, cfg.objectName, r.beforeRead);
    var actions := c.actions + [GetCall];
    assert actions[0] == ExistsCall && |actions| >= 2;
    var seen := Get(s1, cfg.objectName);
    if !c.created && seen.Some? && (seen.value.identity == cfg.identity || r.now > seen.value.expiration) {
      var p := Reclaim(cfg, s1, actions, seen.value.version, r.beforeDelete);
      assert pass == p;
      assert p.actions[0] == ExistsCall;
    }
  }

  /**
   * How a pass ends, whatever others do: a backoff sleeps the drawn jitter and leaves
   * another client's live object; a read that finds nothing after a create raises;
   * a NotFound escapes with the reclaiming delete, the pass's last request.
   */
  lemma PassEndings(cfg: Config, s: Store, r: Round)
    ensures var pass := AcquireRound(cfg, s, r);
      && (pass.outcome.BackedOff? ==>
            && pass.actions[|pass.actions| - 1] == Sleep(r.jitter)
            && LiveForeignLease(cfg, pass.store, r.now))
      && (pass.outcome == Aborted(NoMetadata) ==> cfg.objectName !in pass.store.objects)
      && (pass.outcome == Aborted(NotFoundRaised) ==> pass.actions[|pass.actions| - 1].DeleteCall?)
  {
    var pass := AcquireRound(cfg, s, r);
    var c := CreateLockObject(cfg, Interfere(s, cfg.objectName, r.beforeCreate), r.now, r.beforeUpload);
    var s1 := Interfere(c.store, cfg.objectName, r.beforeRead);
    var actions := c.actions + [GetCall];
    var seen := Get(s1, cfg.objectName);
    if !c.created && seen.Some? {
      if seen.value.identity == cfg.identity || r.now > seen.value.expiration {
        assert pass == Reclaim(cfg, s1, actions, seen.value.version, r.beforeDelete);
      } else {
        assert pass == RoundResult(s1, actions + [Sleep(r.jitter)], BackedOff);
      }
    }
  }

  /** A free lock is taken in one pass; the version returned is that of the object just created. */
  lemma FreeLockIsTaken(cfg: Config, s: Store, r: Round)
    requires QuietRound(r) && cfg.objectName !in s.objects
    ensures var pass := AcquireRound(cfg, s, r);
      && pass.outcome == Took(s.lastVersion + 1)
      && Holds(cfg, pass.store, Some(s.lastVersion + 1))
      && pass.store.objects[cfg.objectName].expiration == r.now + cfg.ttl
      && pass.actions == [ExistsCall, UploadCall(cfg.identity, r.now + cfg.ttl), GetCall]
  {
  }

  /** The holder released between our failed create and our read: go round again at once. */
  lemma EmptyReadRetries(cfg: Config, s: Store, r: Round)
    requires cfg.objectName in s.objects && r.beforeCreate == Quiet && r.beforeRead == Removes
    ensures var pass := AcquireRound(cfg, s, r);
      && pass.outcome == Retry
      && pass.actions == [ExistsCall, GetCall]
      && cfg.objectName !in pass.store.objects
  {
  }

  /**
   * An object under our own identity is deleted by its version and the pass goes
   * round again without sleeping, whatever its expiration says: the identity test
   * comes before the expiry test.
   */
  lemma OwnLeftoverReclaimed(cfg: Config, s: Store, r: Round)
    requires QuietRound(r) && cfg.objectName in s.objects
    requires s.objects[cfg.objectName].identity == cfg.identity
    ensures var pass := AcquireRound(cfg, s, r);
      && pass.outcome == Retry
      && pass.actions == [ExistsCall, GetCall, DeleteCall(Some(s.objects[cfg.objectName].version))]
      && pass.store == Store(s.objects - {cfg.objectName}, s.lastVersion)
  {
  }

  /** Another process's object whose expiration has passed is deleted by its version, without sleeping. */
  lemma ExpiredLeaseReclaimed(cfg: Config, s: Store, r: Round)
    requires QuietRound(r) && cfg.objectName in s.objects
    requires s.objects[cfg.objectName].identity != cfg.identity
    requires r.now > s.objects[cfg.objectName].expiration
    ensures var pass := AcquireRound(cfg, s, r);
      && pass.outcome == Retry
      && pass.actions == [ExistsCall, GetCall, DeleteCall(Some(s.objects[cfg.objectName].version))]
      && pass.store == Store(s.objects - {cfg.objectName}, s.lastVersion)
  {
  }

  /** Another process's live object: no write, a sleep for the drawn jitter, the store as it was. */
  lemma LiveLeaseBacksOff(cfg: Config, s: Store, r: Round)
    requires QuietRound(r) && LiveForeignLease(cfg, s, r.now)
    ensures var pass := AcquireRound(cfg, s, r);
      && pass.outcome == BackedOff
      && pass.actions == [ExistsCall, GetCall, Sleep(r.jitter)]
      && pass.store == s
  {
  }

  /** The object vanished between our read and our delete: the NotFound escapes `take_lock`. */
  lemma VanishedBeforeReclaimRaises(cfg: Config, s: Store, r: Round)
    requires cfg.objectName in s.objects
    requires s.objects[cfg.objectName].identity == cfg.identity || r.now > s.objects[cfg.objectName].expiration
    requires r.beforeCreate == Quiet && r.beforeRead == Quiet && r.beforeDelete == Removes
    ensures AcquireRound(cfg, s, r).outcome == Aborted(NotFoundRaised)
  {
  }

  /** Someone rewrote the object between our read and our delete: the delete is refused and swallowed, their object stays. */
  lemma RewrittenBeforeReclaimSurvives(cfg: Config, s: Store, r: Round)
    requires Valid(s) && cfg.objectName in s.objects
    requires s.objects[cfg.objectName].identity == cfg.identity || r.now > s.objects[cfg.objectName].expiration
    requires r.beforeCreate == Quiet && r.beforeRead == Quiet && r.beforeDelete.Writes?
    ensures var pass := AcquireRound(cfg, s, r);
      && pass.outcome == Retry
      && pass.store == Interfere(s, cfg.objectName, r.beforeDelete)
  {
    var s1 := Interfere(s, cfg.objectName, r.beforeDelete);
    StaleVersionRefused(s, s1, cfg.objectName, cfg.identity, 0);
  }

  // ---------------------------------------------------------------------------
  // The take_lock loop

  /**
   * Mutual exclusion when nobody touches the object: while another process's lease is
   * live, a contender polls without ever writing, never returns, and leaves the holder's
   * object untouched.
   */
  lemma {:induction false} LiveLeaseExcludesOthers(cfg: Config, s: Store, rounds: seq<Round>)
    requires forall i :: 0 <= i < |rounds| ==> QuietRound(rounds[i]) && LiveForeignLease(cfg, s, rounds[i].now)
    ensures var run := TakeLockRun(cfg, s, rounds);
      && run.outcome == Waiting
      && run.store == s
      && (forall i :: 0 <= i < |run.actions| ==> !IsWrite(run.actions[i]))
      && (forall i :: 0 <= i < |run.actions| && run.actions[i].Sleep? ==>
            exists j :: 0 <= j < |rounds| && run.actions[i].seconds == rounds[j].jitter)
    decreases |rounds|
  {
    if rounds != [] {
      LiveLeaseBacksOff(cfg, s, rounds[0]);
      LiveLeaseExcludesOthers(cfg, s, rounds[1..]);
      var first := AcquireRound(cfg, s, rounds[0]);
      var rest := TakeLockRun(cfg, s, rounds[1..]);
      BackoffThenRest(first.actions, rest.actions, rounds);
    }
  }

  /**
   * What the holder of a live lease may do between a contender's calls: nothing, or
   * renew its own object to an expiration no earlier than `until`.
   */
  ghost predicate HolderRenewal(cfg: Config, rival: Rival, until: int) {
    || rival == Quiet
    || (rival.Writes? && rival.identity != cfg.identity && until <= rival.expiration)
  }

  /** A pass that finds another client's live lease when it reads backs off, whatever happened before. */
  lemma LiveLeasePassBacksOff(cfg: Config, s: Store, r: Round)
    requires cfg.objectName in Interfere(s, cfg.objectName, r.beforeCreate).objects
    requires LiveForeignLease(cfg, Interfere(Interfere(s, cfg.objectName, r.beforeCreate), cfg.objectName, r.beforeRead), r.now)
    ensures var pass := AcquireRound(cfg, s, r);
      && pass.outcome == BackedOff
      && pass.actions == [ExistsCall, GetCall, Sleep(r.jitter)]
      && pass.store == Interfere(Interfere(s, cfg.objectName, r.beforeCreate), cfg.objectName, r.beforeRead)
  {
  }

  /**
   * Sleeps of a run whose first pass sleeps only `rounds[0]`'s jitter and whose rest
   * sleeps only the jitters of `rounds[1..]` are all drawn jitters of `rounds`.
   */
  lemma SleepsFromRounds(first: seq<Action>, rest: seq<Action>, rounds: seq<Round>)
    requires rounds != []
    requires forall i :: 0 <= i < |first| && first[i].Sleep? ==> first[i].seconds == rounds[0].jitter
    requires forall i :: 0 <= i < |rest| && rest[i].Sleep? ==>
      exists j :: 0 <= j < |rounds[1..]| && rest[i].seconds == rounds[1..][j].jitter
    ensures forall i :: 0 <= i < |first + rest| && (first + rest)[i].Sleep? ==>
      exists j :: 0 <= j < |rounds| && (first + rest)[i].seconds == rounds[j].jitter
  {
    forall i | 0 <= i < |first + rest| && (first + rest)[i].Sleep?
      ensures exists j :: 0 <= j < |rounds| && (first + rest)[i].seconds == rounds[j].jitter
    {
      if i < |first| {
        assert (first + rest)[i].seconds == rounds[0].jitter;
      } else {
        assert (first + rest)[i] == rest[i - |first|];
        var j :| 0 <= j < |rounds[1..]| && rest[i - |first|].seconds == rounds[1..][j].jitter;
        assert rounds[1..][j] == rounds[j + 1];
      }
    }
  }

  /** A backoff pass in front of a run that neither writes nor sleeps anything but drawn jitters. */
  lemma BackoffThenRest(first: seq<Action>, rest: seq<Action>, rounds: seq<Round>)
    requires rounds != [] && first == [ExistsCall, GetCall, Sleep(rounds[0].jitter)]
    requires forall i :: 0 <= i < |rest| ==> !IsWrite(rest[i])
    requires forall i :: 0 <= i < |rest| && rest[i].Sleep? ==>
      exists j :: 0 <= j < |rounds[1..]| && rest[i].seconds == rounds[1..][j].jitter
    ensures forall i :: 0 <= i < |first + rest| ==> !IsWrite((first + rest)[i])
    ensures forall i :: 0 <= i < |first + rest| && (first + rest)[i].Sleep? ==>
      exists j :: 0 <= j < |rounds| && (first + rest)[i].seconds == rounds[j].jitter
  {
    SleepsFromRounds(first, rest, rounds);
  }

  /**
   * Mutual exclusion while the holder renews: its lease is live up to `until`, every pass
   * of the contender reads the clock before `until`, and between the contender's calls
   * the holder renews its object or leaves it alone. The contender then polls without
   * writing, never returns, and the holder's lease is still live up to `until` at the end.
   */
  lemma {:induction false} LiveLeaseExcludesOthersDuringRenewals(cfg: Config, s: Store, rounds: seq<Round>, until: int)
    requires LiveForeignLease(cfg, s, until)
    requires forall i :: 0 <= i < |rounds| ==>
      && rounds[i].now <= until
      && HolderRenewal(cfg, rounds[i].beforeCreate, until)
      && HolderRenewal(cfg, rounds[i].beforeRead, until)
    ensures var run := TakeLockRun(cfg, s, rounds);
      && run.outcome == Waiting
      && LiveForeignLease(cfg, run.store, until)
      && (forall i :: 0 <= i < |run.actions| ==> !IsWrite(run.actions[i]))
      && (forall i :: 0 <= i < |run.actions| && run.actions[i].Sleep? ==>
            exists j :: 0 <= j < |rounds| && run.actions[i].seconds == rounds[j].jitter)
    decreases |rounds|
  {
    if rounds != [] {
      var r := rounds[0];
      var s0 := Interfere(s, cfg.objectName, r.beforeCreate);
      var s1 := Interfere(s0, cfg.objectName, r.beforeRead);
      assert LiveForeignLease(cfg, s0, until);
      assert LiveForeignLease(cfg, s1, until);
      LiveLeasePassBacksOff(cfg, s, r);
      var first := AcquireRound(cfg, s, r);
      assert first == RoundResult(s1, [ExistsCall, GetCall, Sleep(r.jitter)], BackedOff);
      assert forall i :: 0 <= i < |rounds[1..]| ==> rounds[1..][i] == rounds[i + 1];
      LiveLeaseExcludesOthersDuringRenewals(cfg, s1, rounds[1..], until);
      var rest := TakeLockRun(cfg, s1, rounds[1..]);
      assert TakeLockRun(cfg, s, rounds) == Acquisition(rest.store, first.actions + rest.actions, Waiting);
      BackoffThenRest(first.actions, rest.actions, rounds);
    }
  }

  /**
   * When `take_lock` returns and nobody touched the object between the create and the
   * read that follows it, the client holds the object it created, and the version it
   * returned is the newest the store has handed out.
   */
  lemma {:induction false} AcquiredMeansHeld(cfg: Config, s: Store, rounds: seq<Round>)
    requires forall i :: 0 <= i < |rounds| ==> rounds[i].beforeRead == Quiet
    ensures var run := TakeLockRun(cfg, s, rounds);
      && run.outcome != Failure(NoMetadata)
      && (run.outcome.Acquired? ==>
            Holds(cfg, run.store, Some(run.outcome.version)) && run.store.lastVersion == run.outcome.version)
    decreases |rounds|
  {
    if rounds != [] {
      var first := AcquireRound(cfg, s, rounds[0]);
      if !first.outcome.Took? && !first.outcome.Aborted? {
        AcquiredMeansHeld(cfg, first.store, rounds[1..]);
      }
    }
  }

  /**
   * A leftover under our own identity, or anyone's expired object, costs one pass and
   * no sleep: the next pass takes the lock.
   */
  lemma ReclaimThenTake(cfg: Config, s: Store, r1: Round, r2: Round)
    requires QuietRound(r1) && QuietRound(r2) && cfg.objectName in s.objects
    requires s.objects[cfg.objectName].identity == cfg.identity || r1.now > s.objects[cfg.objectName].expiration
    ensures var run := TakeLockRun(cfg, s, [r1, r2]);
      && run.outcome == Acquired(s.lastVersion + 1)
      && Holds(cfg, run.store, Some(s.lastVersion + 1))
      && (forall i :: 0 <= i < |run.actions| ==> !run.actions[i].Sleep?)
  {
    var first := AcquireRound(cfg, s, r1);
    if s.objects[cfg.objectName].identity == cfg.identity {
      OwnLeftoverReclaimed(cfg, s, r1);
    } else {
      ExpiredLeaseReclaimed(cfg, s, r1);
    }
    FreeLockIsTaken(cfg, first.store, r2);
    assert [r1, r2][1..] == [r2];
    assert TakeLockRun(cfg, first.store, [r2]) == Acquisition(AcquireRound(cfg, first.store, r2).store,
      AcquireRound(cfg, first.store, r2).actions, Acquired(s.lastVersion + 1));
  }

  /**
   * A holder that stopped renewing: a contender backs off through every pass while the
   * lease is live, sleeping only the drawn jitters, and takes the lock in the second
   * pass after the clock has passed the expiration.
   */
  lemma {:induction false} HaltedHolderIsSucceeded(cfg: Config, s: Store, waiting: seq<Round>, r1: Round, r2: Round)
    requires forall i :: 0 <= i < |waiting| ==> QuietRound(waiting[i]) && LiveForeignLease(cfg, s, waiting[i].now)
    requires QuietRound(r1) && QuietRound(r2) && cfg.objectName in s.objects
    requires r1.now > s.objects[cfg.objectName].expiration
    ensures var run := TakeLockRun(cfg, s, waiting + [r1, r2]);
      && run.outcome == Acquired(s.lastVersion + 1)
      && Holds(cfg, run.store, Some(s.lastVersion + 1))
      && (forall i :: 0 <= i < |run.actions| && run.actions[i].Sleep? ==>
            exists j :: 0 <= j < |waiting| && run.actions[i].seconds == waiting[j].jitter)
    decreases |waiting|
  {
    if waiting == [] {
      assert waiting + [r1, r2] == [r1, r2];
      ReclaimThenTake(cfg, s, r1, r2);
    } else {
      var all := waiting + [r1, r2];
      assert all[0] == waiting[0] && all[1..] == waiting[1..] + [r1, r2];
      LiveLeaseBacksOff(cfg, s, waiting[0]);
      HaltedHolderIsSucceeded(cfg, s, waiting[1..], r1, r2);
      var first := AcquireRound(cfg, s, waiting[0]);
      var rest := TakeLockRun(cfg, s, waiting[1..] + [r1, r2]);
      assert TakeLockRun(cfg, s, all) == Acquisition(rest.store, first.actions + rest.actions, rest.outcome);
      SleepsFromRounds(first.actions, rest.actions, waiting);
    }
  }

  /**
   * A take leaves the renewer thread running, with the flag and the version the
   * renewer starts from.
   */
  lemma TakeStartsRenewer(version: nat)
    ensures var h := HolderAfterTake(version);
      h.renewerStarted && Renewer(h.metageneration, h.stop, 0) == StartRenewer(Some(version))
  {
  }

  // ---------------------------------------------------------------------------
  // release_lock

  /**
   * Releasing a held lock frees it, also when the renewer's last pass renews the
   * object during the join: the delete uses the version confirmed last.
   */
  lemma ReleaseFreesHeldLock(cfg: Config, s: Store, h: Holder, pending: Option<Tick>, beforeDelete: Rival)
    requires Holds(cfg, s, h.metageneration)
    requires pending.Some? ==> pending.value.rival == Quiet && beforeDelete == Quiet
    ensures var rel := ReleaseLock(cfg, s, h, pending, beforeDelete);
      rel.outcome == Fine && cfg.objectName !in rel.store.objects
  {
  }

  /**
   * Releasing after the lease was lost never harms the new holder: if anyone has
   * written or re-created the object since the client held it, neither the renewer's
   * last patch nor the delete changes it, and the refusal is swallowed.
   */
  lemma ReleaseSparesSuccessor(cfg: Config, held: Store, s: Store, h: Holder, pending: Option<Tick>, beforeDelete: Rival)
    requires Valid(held) && Holds(cfg, held, h.metageneration) && Later(held, s)
    requires cfg.objectName in s.objects && s.objects[cfg.objectName] != held.objects[cfg.objectName]
    requires pending.Some? ==> pending.value.rival == Quiet && beforeDelete == Quiet
    ensures var rel := ReleaseLock(cfg, s, h, pending, beforeDelete);
      rel.outcome == Fine && rel.store == s && rel.holder.metageneration == h.metageneration
  {
    StaleVersionRefused(held, s, cfg.objectName, cfg.identity,
      if pending.Some? then pending.value.now + cfg.ttl else 0);
  }

  /** Releasing when the object is gone lets the delete's NotFound escape. */
  lemma ReleaseOfVanishedLockRaises(cfg: Config, s: Store, h: Holder, pending: Option<Tick>, beforeDelete: Rival)
    requires cfg.objectName !in s.objects
    requires pending.Some? ==> !pending.value.rival.Writes? && !beforeDelete.Writes?
    ensures ReleaseLock(cfg, s, h, pending, beforeDelete).outcome == Raised(NotFoundRaised)
  {
  }

  /**
   * The renewer's last pass leaves the object in place, but another process removes it
   * between the join and the delete: the delete's NotFound escapes `release_lock`.
   */
  lemma RemovedDuringJoinRaises(cfg: Config, s: Store, h: Holder, t: Tick)
    requires h.renewerStarted && !h.stop
    ensures var rel := ReleaseLock(cfg, s, h, Some(t), Removes);
      && rel.outcome == Raised(NotFoundRaised)
      && cfg.objectName !in rel.store.objects
      && |rel.actions| == 3 && rel.actions[1].PatchCall? && rel.actions[2].DeleteCall?
  {
  }

  /**
   * A client that never took the lock deletes with no version condition, so its
   * release removes whoever's object is there.
   */
  lemma ReleaseWithoutTakeDeletesAnyLock(cfg: Config, s: Store, pending: Option<Tick>, beforeDelete: Rival)
    requires cfg.objectName in s.objects
    ensures var rel := ReleaseLock(cfg, s, Holder(None, false, false), pending, beforeDelete);
      rel.actions == [DeleteCall(None)] && rel.outcome == Fine && cfg.objectName !in rel.store.objects
  {
  }

  /**
   * The whole life of a lock on a free object, with nobody else around: take it in one
   * pass, renew it, release it with the renewer mid-pass; the object is gone afterwards.
   */
  lemma QuietLifecycle(cfg: Config, s: Store, r: Round, ticks: seq<Tick>, pending: Option<Tick>, beforeDelete: Rival)
    requires QuietRound(r) && cfg.objectName !in s.objects
    requires forall i :: 0 <= i < |ticks| ==> ticks[i].rival == Quiet && !ticks[i].transient
    requires pending.Some? ==> pending.value.rival == Quiet && beforeDelete == Quiet
    ensures var take := TakeLockRun(cfg, s, [r]);
      var run := RefreshLoop(cfg, take.store, StartRenewer(Some(s.lastVersion + 1)), ticks);
      var rel := ReleaseLock(cfg, run.store, Holder(run.renewer.metageneration, run.renewer.stop, true), pending, beforeDelete);
      && take.outcome == Acquired(s.lastVersion + 1)
      && rel.outcome == Fine && cfg.objectName !in rel.store.objects
  {
    FreeLockIsTaken(cfg, s, r);
    var take := TakeLockRun(cfg, s, [r]);
    QuietRenewalsKeepHold(cfg, take.store, StartRenewer(Some(s.lastVersion + 1)), ticks);
    var run := RefreshLoop(cfg, take.store, StartRenewer(Some(s.lastVersion + 1)), ticks);
    ReleaseFreesHeldLock(cfg, run.store, Holder(run.renewer.metageneration, run.renewer.stop, true), pending, beforeDelete);
  }
}
