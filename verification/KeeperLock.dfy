/** The keeper advisory lock: `WaitKeeperLock`, the liveness monitor it starts and the release function it returns,
    as a timed protocol between any number of lock sessions and the database server.

    Every successful call owns one session. The server may drop a session at any moment without telling its owner,
    and answers may be delayed; what is assumed is only that a running monitor acts when its ticker or its ping
    deadline is due. Times are in milliseconds. */
module KeeperLock {
  import opened Options

  const PING_EVERY: int := 10_000
  const PING_TIMEOUT: int := 5_000

  datatype Monitor =
    | NotStarted
    | Waiting(next: int)    // for the ticker
    | Pinging(since: int)
    | Closing               // the ping failed: the context is cancelled, the connection not yet closed
    | Exited

  /** `startedAt` is when the caller's context was created, `live` whether it still is. `endedAt` is when the server
      stopped holding the lock for this session, and `dropped` whether it did so of its own accord. */
  datatype Session = Session(grantedAt: int, startedAt: Option<int>, live: bool, monitor: Monitor,
                             releasing: bool, endedAt: Option<int>, dropped: bool)

  datatype State = State(now: int, holder: Option<nat>, sessions: map<nat, Session>)

  datatype Step =
    | Advance(to: int)
    | Grant(id: nat)          // pg_try_advisory_lock returns true on the server
    | Start(id: nat)          // the answer arrives: context and monitor are created
    | GiveUp(id: nat)         // the answer is lost: the connection is closed
    | Drop(id: nat)           // the server loses the session
    | PingStart(id: nat)
    | PingOk(id: nat)
    | PingFail(id: nat)       // cancel()
    | CloseLost(id: nat)      // then conn.Close
    | ParentDone(id: nat)     // the caller's own context ends
    | MonitorExit(id: nat)    // the monitor sees its context done
    | ReleaseCall(id: nat)    // release(): cancel()
    | ReleaseUnlock(id: nat)  // then, once the monitor has exited, unlock and close

  const INIT: State := State(0, None, map[])

  predicate Live(s: State, id: nat) {
    id in s.sessions && s.sessions[id].live
  }

  /** Time never runs past the moment at which a running monitor has to act. */
  predicate MayAdvance(s: State, to: int) {
    s.now <= to && forall id :: id in s.sessions && s.sessions[id].live ==>
      (s.sessions[id].monitor.Waiting? ==> to <= s.sessions[id].monitor.next)
      && (s.sessions[id].monitor.Pinging? ==> to <= s.sessions[id].monitor.since + PING_TIMEOUT)
  }

  predicate Enabled(s: State, step: Step) {
    match step
    case Advance(to) => MayAdvance(s, to)
    case Grant(id) => id !in s.sessions && s.holder.None?
    case Drop(id) => id in s.sessions && s.holder == Some(id)
    case _ =>
      step.id in s.sessions &&
      var x := s.sessions[step.id];
      match step
      case Start(_) => x.monitor.NotStarted?
      case GiveUp(_) => x.monitor.NotStarted?
      case PingStart(_) => x.live && x.monitor.Waiting? && s.now == x.monitor.next
      // A reply proves that the server still had the session when, or after, the ping was sent.
      case PingOk(_) => x.live && x.monitor.Pinging? && (x.endedAt.Some? ==> x.monitor.since <= x.endedAt.value)
      case PingFail(_) => x.live && x.monitor.Pinging?
      case CloseLost(_) => x.monitor.Closing?
      case ParentDone(_) => x.live
      case MonitorExit(_) => !x.live && (x.monitor.Waiting? || x.monitor.Pinging?)
      case ReleaseCall(_) => x.startedAt.Some?
      case ReleaseUnlock(_) => x.releasing && x.monitor.Exited?
      case _ => false
  }

  function Put(s: State, id: nat, x: Session): State {
    s.(sessions := s.sessions[id := x])
  }

  /** The server gives the session's lock back, if it still holds it. */
  function Free(s: State, id: nat, x: Session, dropped: bool): State {
    if s.holder == Some(id)
    then State(s.now, None, s.sessions[id := x.(endedAt := Some(s.now), dropped := dropped)])
    else Put(s, id, x)
  }

  function Apply(s: State, step: Step): State
    requires Enabled(s, step)
  {
    match step
    case Advance(to) => s.(now := to)
    case Grant(id) =>
      State(s.now, Some(id), s.sessions[id := Session(s.now, None, false, NotStarted, false, None, false)])
    case Start(id) =>
      Put(s, id, s.sessions[id].(startedAt := Some(s.now), live := true, monitor := Waiting(s.now + PING_EVERY)))
    case GiveUp(id) => Free(s, id, s.sessions[id].(monitor := Exited), false)
    case Drop(id) => Free(s, id, s.sessions[id], true)
    case PingStart(id) => Put(s, id, s.sessions[id].(monitor := Pinging(s.now)))
    case PingOk(id) => Put(s, id, s.sessions[id].(monitor := Waiting(s.sessions[id].monitor.since + PING_EVERY)))
    case PingFail(id) => Put(s, id, s.sessions[id].(live := false, monitor := Closing))
    case CloseLost(id) => Free(s, id, s.sessions[id].(monitor := Exited), false)
    case ParentDone(id) => Put(s, id, s.sessions[id].(live := false))
    case MonitorExit(id) => Put(s, id, s.sessions[id].(monitor := Exited))
    case ReleaseCall(id) => Put(s, id, s.sessions[id].(live := false, releasing := true))
    case ReleaseUnlock(id) => Free(s, id, s.sessions[id], false)
  }

  /** A step that is not enabled does not happen. */
  function After(steps: seq<Step>): State {
    if steps == [] then INIT
    else
      var s, step := After(steps[..|steps| - 1]), steps[|steps| - 1];
      if Enabled(s, step) then Apply(s, step) else s
  }

  ghost predicate Reachable(s: State) {
    exists steps :: After(steps) == s
  }

  lemma ReachNext(s: State, step: Step)
    requires Reachable(s) && Enabled(s, step)
    ensures Reachable(Apply(s, step))
  {
    var steps :| After(steps) == s;
    assert (steps + [step])[..|steps|] == steps;
    assert After(steps + [step]) == Apply(s, step);
  }

  // ---------------------------------------------------------------- the invariant

  /** From when on the monitor of a dropped session is sure to notice. */
  function NoticeFrom(x: Session): int
    requires x.startedAt.Some? && x.endedAt.Some?
  {
    if x.startedAt.value > x.endedAt.value then x.startedAt.value else x.endedAt.value
  }

  predicate Timely(now: int, x: Session) {
    && x.grantedAt <= now
    && (x.endedAt.Some? ==> x.grantedAt <= x.endedAt.value <= now)
    && (x.startedAt.Some? ==> x.grantedAt <= x.startedAt.value <= now)
    && (x.monitor.NotStarted? ==> x.startedAt.None? && (x.endedAt.Some? ==> x.dropped))
    && (x.monitor.Waiting? || x.monitor.Pinging? || x.monitor.Closing? ==> x.startedAt.Some?)
    && (x.releasing ==> x.startedAt.Some? && !x.live)
  }

  /** A live context has a monitor at work, and only a drop can have ended its session. The monitor's next move is
      never more than one ping interval after the session was last known to be good. */
  predicate Watched(now: int, x: Session) {
    x.live ==>
      && x.startedAt.Some?
      && (x.endedAt.Some? ==> x.dropped)
      && (x.monitor.Waiting? || x.monitor.Pinging?)
      && (x.monitor.Waiting? ==> now <= x.monitor.next <= now + PING_EVERY)
      && (x.monitor.Pinging? ==> x.monitor.since <= now <= x.monitor.since + PING_TIMEOUT)
      && (x.endedAt.Some? && x.monitor.Waiting? ==> x.monitor.next <= NoticeFrom(x) + PING_EVERY)
      && (x.endedAt.Some? && x.monitor.Pinging? ==> x.monitor.since <= NoticeFrom(x) + PING_EVERY)
  }

  predicate Sound(now: int, x: Session) {
    Timely(now, x) && Watched(now, x)
  }

  /** The server's holds do not overlap: one of any two had ended when the other was granted. */
  predicate Apart(x: Session, y: Session) {
    (x.endedAt.Some? && x.endedAt.value <= y.grantedAt) || (y.endedAt.Some? && y.endedAt.value <= x.grantedAt)
  }

  ghost predicate Inv(s: State) {
    && (forall id :: s.holder == Some(id) <==> id in s.sessions && s.sessions[id].endedAt.None?)
    && (forall id :: id in s.sessions ==> Sound(s.now, s.sessions[id]))
    && (forall id, id' :: id in s.sessions && id' in s.sessions && id != id' ==> Apart(s.sessions[id], s.sessions[id']))
  }

  lemma PutKeepsInv(s: State, id: nat, x: Session)
    requires Inv(s) && id in s.sessions && Sound(s.now, x)
    requires x.grantedAt == s.sessions[id].grantedAt && x.endedAt == s.sessions[id].endedAt
    ensures Inv(Put(s, id, x))
  {
  }

  lemma FreeKeepsInv(s: State, id: nat, x: Session, dropped: bool)
    requires Inv(s) && id in s.sessions && Sound(s.now, x)
    requires x.grantedAt == s.sessions[id].grantedAt && x.endedAt == s.sessions[id].endedAt
    requires s.holder == Some(id) ==> Sound(s.now, x.(endedAt := Some(s.now), dropped := dropped))
    ensures Inv(Free(s, id, x, dropped))
  {
    if s.holder != Some(id) {
      PutKeepsInv(s, id, x);
    }
  }

  lemma AdvanceKeepsInv(s: State, to: int)
    requires Inv(s) && MayAdvance(s, to)
    ensures Inv(s.(now := to))
  {
    forall id | id in s.sessions ensures Sound(to, s.sessions[id]) {
    }
  }

  lemma GrantKeepsInv(s: State, id: nat)
    requires Inv(s) && Enabled(s, Grant(id))
    ensures Inv(Apply(s, Grant(id)))
  {
  }

  /** The steps of the monitor and of the contexts. */
  lemma ClientStepKeepsInv(s: State, step: Step)
    requires Inv(s) && Enabled(s, step)
    requires || step.Start? || step.PingStart? || step.PingOk? || step.PingFail?
             || step.ParentDone? || step.MonitorExit? || step.ReleaseCall?
    ensures Inv(Apply(s, step))
  {
    var id := step.id;
    var x := Apply(s, step).sessions[id];
    assert Sound(s.now, s.sessions[id]);
    assert Sound(s.now, x);
    PutKeepsInv(s, id, x);
  }

  /** The steps that give the lock back. */
  lemma FreeStepKeepsInv(s: State, step: Step)
    requires Inv(s) && Enabled(s, step)
    requires step.GiveUp? || step.Drop? || step.CloseLost? || step.ReleaseUnlock?
    ensures Inv(Apply(s, step))
  {
    var id := step.id;
    var x := if step.GiveUp? || step.CloseLost? then s.sessions[id].(monitor := Exited) else s.sessions[id];
    assert Sound(s.now, s.sessions[id]);
    FreeKeepsInv(s, id, x, step.Drop?);
  }

  lemma StepKeepsInv(s: State, step: Step)
    requires Inv(s) && Enabled(s, step)
    ensures Inv(Apply(s, step))
  {
    match step
    case Advance(to) => AdvanceKeepsInv(s, to);
    case Grant(id) => GrantKeepsInv(s, id);
    case GiveUp(_) => FreeStepKeepsInv(s, step);
    case Drop(_) => FreeStepKeepsInv(s, step);
    case CloseLost(_) => FreeStepKeepsInv(s, step);
    case ReleaseUnlock(_) => FreeStepKeepsInv(s, step);
    case _ => ClientStepKeepsInv(s, step);
  }

  lemma {:induction false} AlwaysInv(steps: seq<Step>)
    ensures Inv(After(steps))
  {
    if steps != [] {
      AlwaysInv(steps[..|steps| - 1]);
      if Enabled(After(steps[..|steps| - 1]), steps[|steps| - 1]) {
        StepKeepsInv(After(steps[..|steps| - 1]), steps[|steps| - 1]);
      }
    }
  }

  // ---------------------------------------------------------------- what the lock guarantees

  /** Two contexts are never live together unless the server dropped the session of one of them. */
  lemma NoSplitBrainWithoutADrop(steps: seq<Step>, id: nat, id': nat)
    requires id != id' && Live(After(steps), id) && Live(After(steps), id')
    ensures After(steps).sessions[id].dropped || After(steps).sessions[id'].dropped
  {
    AlwaysInv(steps);
    assert Apart(After(steps).sessions[id], After(steps).sessions[id']);
  }

  /** The context of a dropped session is cancelled within the ping interval plus the ping timeout of the drop, or of
      its own creation if the drop came first. */
  lemma DroppedSessionIsNoticed(steps: seq<Step>, id: nat)
    requires Live(After(steps), id) && After(steps).sessions[id].endedAt.Some?
    ensures After(steps).sessions[id].startedAt.Some?
    ensures After(steps).now <= NoticeFrom(After(steps).sessions[id]) + PING_EVERY + PING_TIMEOUT
  {
    AlwaysInv(steps);
  }

  /** Two contexts that are live together have been so for at most fifteen seconds. */
  lemma OverlapIsBounded(steps: seq<Step>, id: nat, id': nat)
    requires id != id' && Live(After(steps), id) && Live(After(steps), id')
    ensures After(steps).sessions[id].startedAt.Some? && After(steps).sessions[id'].startedAt.Some?
    ensures var a, b := After(steps).sessions[id].startedAt.value, After(steps).sessions[id'].startedAt.value;
            After(steps).now <= (if a > b then a else b) + 15_000
  {
    AlwaysInv(steps);
    assert Apart(After(steps).sessions[id], After(steps).sessions[id']);
  }

  predicate IsMonitorStep(step: Step, id: nat) {
    step in {PingStart(id), PingOk(id), PingFail(id), CloseLost(id), MonitorExit(id)}
  }

  predicate MonitorIsGone(s: State, id: nat) {
    id in s.sessions && s.sessions[id].monitor.Exited? && !s.sessions[id].live
  }

  lemma GoneStays(s: State, step: Step, id: nat)
    requires MonitorIsGone(s, id) && Enabled(s, step)
    ensures MonitorIsGone(Apply(s, step), id) && !IsMonitorStep(step, id)
  {
  }

  /** The session's connection is never used by release and the monitor at once: whatever the run, once release has
      unlocked no monitor step of that session is taken any more, and its context is never live again. */
  lemma {:induction false} NoMonitorStepAfterUnlock(steps: seq<Step>, k: nat, m: nat, id: nat)
    requires k < m <= |steps| && steps[k] == ReleaseUnlock(id) && Enabled(After(steps[..k]), steps[k])
    ensures MonitorIsGone(After(steps[..m]), id)
    ensures m < |steps| && IsMonitorStep(steps[m], id) ==> !Enabled(After(steps[..m]), steps[m])
    decreases m
  {
    var s, step := After(steps[..m - 1]), steps[m - 1];
    assert steps[..m][..m - 1] == steps[..m - 1];
    AlwaysInv(steps[..m - 1]);
    if k < m - 1 {
      NoMonitorStepAfterUnlock(steps, k, m - 1, id);
      if Enabled(s, step) {
        GoneStays(s, step, id);
      }
    }
    if m < |steps| && Enabled(After(steps[..m]), steps[m]) {
      GoneStays(After(steps[..m]), steps[m], id);
    }
  }

  // ---------------------------------------------------------------- the lock is given back

  /** The steps by which an instance parts with its session. */
  predicate IsParting(step: Step, id: nat) {
    step == ReleaseUnlock(id) || step == CloseLost(id) || step == GiveUp(id)
  }

  /** After the unlock of a release, the monitor's closing of a lost session, or giving up an unanswered one, the server
      does not hold the lock for it; and if it did, it grants it to whoever asks next. */
  lemma PartingFreesTheLock(steps: seq<Step>, step: Step, id: nat, other: nat)
    requires IsParting(step, id) && Enabled(After(steps), step)
    requires other !in After(steps).sessions
    ensures Apply(After(steps), step).holder != Some(id)
    ensures After(steps).holder == Some(id) ==> Enabled(Apply(After(steps), step), Grant(other))
    ensures After(steps).holder != Some(id) ==> Apply(After(steps), step).holder == After(steps).holder
  {
  }

  /** The steps can be taken one after the other from `s`, and end in `t`. */
  ghost predicate Leads(s: State, steps: seq<Step>, t: State)
    decreases |steps|
  {
    if steps == [] then s == t else Enabled(s, steps[0]) && Leads(Apply(s, steps[0]), steps[1..], t)
  }

  lemma LeadsOn(s: State, step: Step, rest: seq<Step>, t: State)
    requires Enabled(s, step) && Leads(Apply(s, step), rest, t)
    ensures Leads(s, [step] + rest, t)
  {
    assert ([step] + rest)[1..] == rest;
  }

  /** The session is on its way to the unlock: release was called on it. */
  ghost predicate IsReleasing(s: State, id: nat) {
    id in s.sessions && s.sessions[id].releasing && Sound(s.now, s.sessions[id])
  }

  lemma MonitorCanExit(s: State, id: nat) returns (steps: seq<Step>, t: State)
    requires IsReleasing(s, id)
    ensures Leads(s, steps, t) && t.sessions.Keys == s.sessions.Keys && IsReleasing(t, id)
    ensures t.sessions[id].monitor.Exited?
    ensures t.holder == s.holder || (s.holder == Some(id) && t.holder.None?)
  {
    var m := s.sessions[id].monitor;
    if m.Exited? {
      steps, t := [], s;
    } else {
      var step := if m.Closing? then CloseLost(id) else MonitorExit(id);
      t := Apply(s, step);
      steps := [step] + [];
      LeadsOn(s, step, [], t);
    }
  }

  /** Wherever a run has got to, once release was called it can always be continued until the lock is with another
      instance: `other`, if nobody else has been granted it meanwhile. */
  lemma ReleaseHandsOver(run: seq<Step>, id: nat, other: nat) returns (steps: seq<Step>, t: State)
    requires id in After(run).sessions && After(run).sessions[id].releasing && other !in After(run).sessions
    ensures Leads(After(run), steps, t)
    ensures t.holder.Some? && t.holder != Some(id)
    ensures After(run).holder == Some(id) || After(run).holder.None? ==> t.holder == Some(other)
  {
    AlwaysInv(run);
    var s := After(run);
    var first, exited := MonitorCanExit(s, id);
    var unlocked := Apply(exited, ReleaseUnlock(id));
    if unlocked.holder.None? {
      t := Apply(unlocked, Grant(other));
      LeadsOn(unlocked, Grant(other), [], t);
      LeadsOn(exited, ReleaseUnlock(id), [Grant(other)] + [], t);
      steps := first + ([ReleaseUnlock(id)] + ([Grant(other)] + []));
      LeadsThrough(s, first, exited, [ReleaseUnlock(id)] + ([Grant(other)] + []), t);
    } else {
      t := unlocked;
      LeadsOn(exited, ReleaseUnlock(id), [], t);
      steps := first + ([ReleaseUnlock(id)] + []);
      LeadsThrough(s, first, exited, [ReleaseUnlock(id)] + [], t);
    }
  }

  lemma {:induction false} LeadsThrough(s: State, steps: seq<Step>, m: State, more: seq<Step>, t: State)
    requires Leads(s, steps, m) && Leads(m, more, t)
    ensures Leads(s, steps + more, t)
    decreases |steps|
  {
    if steps == [] {
      assert steps + more == more;
    } else {
      LeadsThrough(Apply(s, steps[0]), steps[1..], m, more, t);
      assert (steps + more)[1..] == steps[1..] + more;
    }
  }

  /** A context ends with the caller's own, with the call of release, and with a failed ping; with nothing else; and it
      never comes back. */
  lemma ContextEnds(run: seq<Step>, step: Step, id: nat)
    requires Enabled(After(run), step) && id in After(run).sessions
    ensures var s, t := After(run), Apply(After(run), step);
            && id in t.sessions
            && (step in {ParentDone(id), ReleaseCall(id), PingFail(id)} ==> !Live(t, id))
            && (Live(s, id) && !Live(t, id) ==> step in {ParentDone(id), ReleaseCall(id), PingFail(id)})
            && (!Live(s, id) && Live(t, id) ==> step == Start(id) && s.sessions[id].startedAt.None?)
  {
    AlwaysInv(run);
    assert Sound(After(run).now, After(run).sessions[id]);
  }

  /** Fifteen seconds are reached: the first session is dropped just after its ping was answered. */
  lemma OverlapBoundIsReached() returns (s: State)
    ensures Reachable(s) && Live(s, 0) && Live(s, 1)
    ensures s.sessions[0].startedAt.Some? && s.sessions[1].startedAt.Some?
    ensures s.sessions[0].startedAt.value <= s.sessions[1].startedAt.value == s.now - 15_000
  {
    assert After([]) == INIT;
    s := Take(INIT, Grant(0));
    s := Take(s, Start(0));
    s := Take(s, Advance(10_000));
    s := Take(s, PingStart(0));
    s := Take(s, PingOk(0));
    s := Take(s, Drop(0));
    var x := Session(0, Some(0), true, Waiting(20_000), false, Some(10_000), true);
    assert s == State(10_000, None, map[0 := x]);
    s := SecondTakesOver(x);
  }

  lemma SecondTakesOver(x: Session) returns (s: State)
    requires x == Session(0, Some(0), true, Waiting(20_000), false, Some(10_000), true)
    requires Reachable(State(10_000, None, map[0 := x]))
    ensures Reachable(s) && Live(s, 0) && Live(s, 1)
    ensures s.sessions[0].startedAt == Some(0) && s.sessions[1].startedAt == Some(10_000) && s.now == 25_000
  {
    s := Take(State(10_000, None, map[0 := x]), Grant(1));
    s := Take(s, Start(1));
    var y := Session(10_000, Some(10_000), true, Waiting(20_000), false, None, false);
    assert s == State(10_000, Some(1), map[0 := x, 1 := y]);
    s := Take(s, Advance(20_000));
    s := Take(s, PingStart(0));
    s := Take(s, PingStart(1));
    s := Take(s, PingOk(1));
    assert s == State(20_000, Some(1), map[0 := x.(monitor := Pinging(20_000)), 1 := y.(monitor := Waiting(30_000))]);
    s := Take(s, Advance(25_000));
  }

  lemma Take(s: State, step: Step) returns (s': State)
    requires Reachable(s) && Enabled(s, step)
    ensures Reachable(s') && s' == Apply(s, step)
  {
    ReachNext(s, step);
    s' := Apply(s, step);
  }
}
