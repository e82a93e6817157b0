/** The health server's cached probe: `Check`, `Watch` and `cachedProbe` as a single-flight protocol between any number
    of callers. Every lock section, the probe and the look at the caller's context are steps of their own. Times are in
    milliseconds. */
module HealthProbe {
  import opened Options

  const CACHE_TTL: int := 10_000

  datatype Status = Serving | NotServing

  datatype Phase =
    | Looking                              // at the cached entry
    | WantingLock                          // refreshMu
    | Rechecking                           // holding refreshMu
    | Probing
    | Probed(status: Status, endedAt: int)
    | Storing(status: Status, endedAt: int)
    | Leaving(status: Status)              // holding refreshMu, about to release it

  datatype Caller = Caller(phase: Phase, cancelledAt: Option<int>)

  /** One write of the cached entry, and what is known of the probe behind it. */
  datatype Write = Write(status: Status, at: int, probeEndedAt: int, cancelledAt: Option<int>)

  datatype ProbeRun = ProbeRun(status: Status, endedAt: int)

  datatype Served = FromCache(status: Status, at: int) | FromProbe(status: Status)

  datatype State = State(now: int, cachedStatus: Status, expiresAt: int, holder: Option<nat>,
                         callers: map<nat, Caller>, probes: seq<ProbeRun>, writes: seq<Write>, served: seq<Served>)

  const INIT: State := State(0, NotServing, 0, None, map[], [], [], [])

  datatype Step =
    | Advance(to: int)
    | Call(id: nat)
    | Cancel(id: nat)
    | Look(id: nat)
    | Lock(id: nat)
    | Recheck(id: nat)
    | ProbeEnd(id: nat, status: Status)
    | CheckContext(id: nat)
    | Store(id: nat)
    | Unlock(id: nat)

  predicate Enabled(s: State, step: Step) {
    match step
    case Advance(to) => s.now <= to
    case Call(id) => id !in s.callers
    case _ =>
      step.id in s.callers &&
      var c := s.callers[step.id];
      var p := c.phase;
      match step
      case Cancel(_) => c.cancelledAt.None?
      case Look(_) => p.Looking?
      case Lock(_) => p.WantingLock? && s.holder.None?
      case Recheck(_) => p.Rechecking?
      case ProbeEnd(_, _) => p.Probing?
      case CheckContext(_) => p.Probed?
      case Store(_) => p.Storing?
      case Unlock(_) => p.Leaving?
      case _ => false
  }

  predicate Fresh(s: State) {
    s.now < s.expiresAt
  }

  function To(s: State, id: nat, phase: Phase): State
    requires id in s.callers
  {
    s.(callers := s.callers[id := s.callers[id].(phase := phase)])
  }

  function Apply(s: State, step: Step): State
    requires Enabled(s, step)
  {
    match step
    case Advance(to) => s.(now := to)
    case Call(id) => s.(callers := s.callers[id := Caller(Looking, None)])
    case Cancel(id) => s.(callers := s.callers[id := s.callers[id].(cancelledAt := Some(s.now))])
    case Look(id) =>
      if Fresh(s) then s.(callers := s.callers - {id}, served := s.served + [FromCache(s.cachedStatus, s.now)])
      else To(s, id, WantingLock)
    case Lock(id) => To(s, id, Rechecking).(holder := Some(id))
    case Recheck(id) =>
      if Fresh(s) then To(s, id, Leaving(s.cachedStatus)).(served := s.served + [FromCache(s.cachedStatus, s.now)])
      else To(s, id, Probing)
    case ProbeEnd(id, status) =>
      To(s, id, Probed(status, s.now)).(probes := s.probes + [ProbeRun(status, s.now)])
    case CheckContext(id) =>
      var p := s.callers[id].phase;
      if s.callers[id].cancelledAt.Some?
      then To(s, id, Leaving(p.status)).(served := s.served + [FromProbe(p.status)])
      else To(s, id, Storing(p.status, p.endedAt))
    case Store(id) =>
      var c := s.callers[id];
      To(s, id, Leaving(c.phase.status)).(
        cachedStatus := c.phase.status, expiresAt := s.now + CACHE_TTL,
        writes := s.writes + [Write(c.phase.status, s.now, c.phase.endedAt, c.cancelledAt)],
        served := s.served + [FromProbe(c.phase.status)])
    case Unlock(id) => s.(holder := None, callers := s.callers - {id})
  }

  /** A step that is not enabled does not happen. */
  function After(steps: seq<Step>): State {
    if steps == [] then INIT
    else
      var s, step := After(steps[..|steps| - 1]), steps[|steps| - 1];
      if Enabled(s, step) then Apply(s, step) else s
  }

  // ---------------------------------------------------------------- the invariant

  predicate Refreshing(p: Phase) {
    p.Rechecking? || p.Probing? || p.Probed? || p.Storing? || p.Leaving?
  }

  /** Past its recheck, and before it stores, the holder knows that the entry has expired. */
  predicate PastRecheck(p: Phase) {
    p.Probing? || p.Probed? || p.Storing?
  }

  ghost predicate LockInv(s: State) {
    (s.holder.Some? ==> s.holder.value in s.callers) &&
    forall id :: id in s.callers ==>
      && (Refreshing(s.callers[id].phase) <==> s.holder == Some(id))
      && (PastRecheck(s.callers[id].phase) ==> !Fresh(s))
  }

  /** A status on its way into the cache comes from a probe that had ended before its caller hung up. */
  predicate ContextWasLive(endedAt: int, cancelledAt: Option<int>) {
    cancelledAt.Some? ==> endedAt <= cancelledAt.value
  }

  ghost predicate ContextInv(s: State) {
    && (forall id :: id in s.callers && s.callers[id].phase.Probed? ==>
          var p := s.callers[id].phase;
          p.endedAt <= s.now && ProbeRun(p.status, p.endedAt) in s.probes)
    && (forall id :: id in s.callers && s.callers[id].phase.Storing? ==>
          var p := s.callers[id].phase;
          p.endedAt <= s.now && ProbeRun(p.status, p.endedAt) in s.probes
          && ContextWasLive(p.endedAt, s.callers[id].cancelledAt))
    && (forall w :: w in s.writes ==>
          ContextWasLive(w.probeEndedAt, w.cancelledAt) && ProbeRun(w.status, w.probeEndedAt) in s.probes)
  }

  ghost predicate WritesInv(s: State) {
    && s.now >= 0
    && (forall i :: 0 <= i < |s.writes| ==> 0 <= s.writes[i].at <= s.now)
    && (forall i :: 0 <= i < |s.writes| - 1 ==> s.writes[i].at + CACHE_TTL <= s.writes[i + 1].at)
    && (s.writes == [] ==> s.expiresAt == 0)
    && (s.writes != [] ==>
          var last := s.writes[|s.writes| - 1];
          s.expiresAt == last.at + CACHE_TTL && s.cachedStatus == last.status)
  }

  /** What the cache answered had been written less than a ttl before. */
  predicate JustWritten(f: Served, w: Write) {
    f.FromCache? && w.status == f.status && w.at <= f.at < w.at + CACHE_TTL
  }

  ghost predicate ServedInv(s: State) {
    forall f :: f in s.served && f.FromCache? ==> exists w :: w in s.writes && JustWritten(f, w)
  }

  ghost predicate Inv(s: State) {
    LockInv(s) && ContextInv(s) && WritesInv(s) && ServedInv(s)
  }

  lemma FreshIsJustWritten(s: State)
    requires WritesInv(s) && Fresh(s)
    ensures s.writes != [] && JustWritten(FromCache(s.cachedStatus, s.now), s.writes[|s.writes| - 1])
    ensures s.writes[|s.writes| - 1] in s.writes
  {
  }

  lemma ServedGrows(s: State, s': State)
    requires ServedInv(s) && WritesInv(s)
    requires s.writes <= s'.writes
    requires s'.served == s.served || (s'.served == s.served + [FromCache(s.cachedStatus, s.now)] && Fresh(s))
             || exists st :: s'.served == s.served + [FromProbe(st)]
    ensures ServedInv(s')
  {
    forall f | f in s'.served && f.FromCache? ensures exists w :: w in s'.writes && JustWritten(f, w) {
      if f in s.served {
        var w :| w in s.writes && JustWritten(f, w);
        assert w in s'.writes;
      } else {
        FreshIsJustWritten(s);
      }
    }
  }

  lemma StepKeepsLock(s: State, step: Step)
    requires LockInv(s) && WritesInv(s) && Enabled(s, step)
    ensures LockInv(Apply(s, step))
  {
  }

  lemma StepKeepsContext(s: State, step: Step)
    requires ContextInv(s) && Enabled(s, step)
    ensures ContextInv(Apply(s, step))
  {
  }

  lemma StepKeepsWrites(s: State, step: Step)
    requires LockInv(s) && WritesInv(s) && Enabled(s, step)
    ensures WritesInv(Apply(s, step))
  {
  }

  lemma StepKeepsServed(s: State, step: Step)
    requires ServedInv(s) && WritesInv(s) && Enabled(s, step)
    ensures ServedInv(Apply(s, step))
  {
    var s' := Apply(s, step);
    if step.CheckContext? {
      assert s'.served == s.served || s'.served == s.served + [FromProbe(s.callers[step.id].phase.status)];
    }
    ServedGrows(s, s');
  }

  lemma StepKeepsInv(s: State, step: Step)
    requires Inv(s) && Enabled(s, step)
    ensures Inv(Apply(s, step))
  {
    StepKeepsLock(s, step);
    StepKeepsContext(s, step);
    StepKeepsWrites(s, step);
    StepKeepsServed(s, step);
  }

  lemma {:induction false} AlwaysInv(steps: seq<Step>)
    ensures Inv(After(steps))
  {
    if steps != [] {
      var s, step := After(steps[..|steps| - 1]), steps[|steps| - 1];
      AlwaysInv(steps[..|steps| - 1]);
      if Enabled(s, step) {
        StepKeepsInv(s, step);
      }
    }
  }

  // ---------------------------------------------------------------- what every interleaving guarantees

  /** At most one probe runs at a time, and never while the cached entry is fresh. */
  lemma ProbesAreSingleFlight(steps: seq<Step>, id: nat, id': nat)
    requires id in After(steps).callers && After(steps).callers[id].phase.Probing?
    requires id' in After(steps).callers && After(steps).callers[id'].phase.Probing?
    ensures id == id' && !Fresh(After(steps))
  {
    AlwaysInv(steps);
  }

  /** A status enters the cache only as the result of a probe that ended while its caller's context was live. */
  lemma OnlyLiveProbesAreCached(steps: seq<Step>, w: Write)
    requires w in After(steps).writes
    ensures ProbeRun(w.status, w.probeEndedAt) in After(steps).probes
    ensures w.cancelledAt.Some? ==> w.probeEndedAt <= w.cancelledAt.value
  {
    AlwaysInv(steps);
  }

  /** Cache writes are at least a ttl apart, however many callers there are; so a stretch of time holds few of them. */
  lemma {:induction false} WritesAreApart(steps: seq<Step>, i: nat, j: nat)
    requires i <= j < |After(steps).writes|
    ensures After(steps).writes[i].at + (j - i) * CACHE_TTL <= After(steps).writes[j].at <= After(steps).now
    decreases j - i
  {
    AlwaysInv(steps);
    if i < j {
      WritesAreApart(steps, i, j - 1);
    }
  }

  /** Whoever is answered from the cache gets a status that was written less than a ttl before. */
  lemma CachedAnswersAreFresh(steps: seq<Step>, f: Served)
    requires f in After(steps).served && f.FromCache?
    ensures exists w :: w in After(steps).writes && w.status == f.status && w.at <= f.at < w.at + CACHE_TTL
  {
    AlwaysInv(steps);
    var w :| w in After(steps).writes && JustWritten(f, w);
    assert w.status == f.status && w.at <= f.at < w.at + CACHE_TTL;
  }

  // ---------------------------------------------------------------- what a call is answered

  ghost predicate Leads(s: State, steps: seq<Step>, t: State)
    decreases |steps|
  {
    if steps == [] then s == t else Enabled(s, steps[0]) && Leads(Apply(s, steps[0]), steps[1..], t)
  }

  lemma LeadsOn(s: State, step: Step, rest: seq<Step>, t: State)
    requires Enabled(s, step) && Leads(Apply(s, step), rest, t)
    ensures Leads(s, [step] + rest, t)
  {
    assert ([step] + rest)[1..] == rest;
  }

  /** From the end of a probe: a live context stores the status for a ttl, a cancelled one does not; either way the
      caller is answered with it and the lock is free. */
  lemma ProbeEndsIn(s: State, id: nat, status: Status) returns (steps: seq<Step>, t: State)
    requires id in s.callers && s.callers[id].phase.Probing? && s.holder == Some(id)
    ensures Leads(s, steps, t)
    ensures t.holder == None && t.callers == s.callers - {id} && t.now == s.now
    ensures t.served == s.served + [FromProbe(status)]
    ensures if s.callers[id].cancelledAt.None? then t.cachedStatus == status && t.expiresAt == s.now + CACHE_TTL
            else t.cachedStatus == s.cachedStatus && t.expiresAt == s.expiresAt && t.writes == s.writes
  {
    var probed := Apply(s, ProbeEnd(id, status));
    var checked := Apply(probed, CheckContext(id));
    var leaving := if s.callers[id].cancelledAt.None? then Apply(checked, Store(id)) else checked;
    t := Apply(leaving, Unlock(id));
    assert t.callers == s.callers - {id};
    LeadsOn(leaving, Unlock(id), [], t);
    steps := [Unlock(id)] + [];
    if s.callers[id].cancelledAt.None? {
      LeadsOn(checked, Store(id), steps, t);
      steps := [Store(id)] + steps;
    }
    LeadsOn(probed, CheckContext(id), steps, t);
    steps := [CheckContext(id)] + steps;
    LeadsOn(s, ProbeEnd(id, status), steps, t);
    steps := [ProbeEnd(id, status)] + steps;
  }

  /** A call that nobody interrupts is answered from the cache, without a probe, if and only if the entry is fresh;
      otherwise with the status its probe finds, which is then the entry, fresh for a ttl. */
  lemma CheckAlone(s: State, id: nat, status: Status) returns (steps: seq<Step>, t: State)
    requires id !in s.callers && s.holder == None
    ensures Leads(s, steps, t)
    ensures t.holder == None && t.callers == s.callers && t.now == s.now
    ensures Fresh(s) ==>
              && t.served == s.served + [FromCache(s.cachedStatus, s.now)] && t.probes == s.probes
              && t.cachedStatus == s.cachedStatus && t.expiresAt == s.expiresAt
    ensures !Fresh(s) ==>
              && t.served == s.served + [FromProbe(status)]
              && t.cachedStatus == status && t.expiresAt == s.now + CACHE_TTL
  {
    var called := Apply(s, Call(id));
    var looked := Apply(called, Look(id));
    if Fresh(s) {
      t := looked;
      steps := [];
    } else {
      var locked := Apply(looked, Lock(id));
      var probing := Apply(locked, Recheck(id));
      steps, t := ProbeEndsIn(probing, id, status);
      LeadsOn(locked, Recheck(id), steps, t);
      steps := [Recheck(id)] + steps;
      LeadsOn(looked, Lock(id), steps, t);
      steps := [Lock(id)] + steps;
    }
    assert t.callers == s.callers;
    LeadsOn(called, Look(id), steps, t);
    steps := [Look(id)] + steps;
    LeadsOn(s, Call(id), steps, t);
    steps := [Call(id)] + steps;
  }

  /** A caller that waited for the lock looks again: it takes the entry that was stored meanwhile instead of probing. */
  lemma WaiterTakesTheEntry(s: State, id: nat) returns (steps: seq<Step>, t: State)
    requires id in s.callers && s.callers[id].phase.WantingLock? && s.holder == None && Fresh(s)
    ensures Leads(s, steps, t)
    ensures t == s.(callers := s.callers - {id}, served := s.served + [FromCache(s.cachedStatus, s.now)])
  {
    var locked := Apply(s, Lock(id));
    var leaving := Apply(locked, Recheck(id));
    t := Apply(leaving, Unlock(id));
    assert t.callers == s.callers - {id};
    LeadsOn(leaving, Unlock(id), [], t);
    LeadsOn(locked, Recheck(id), [Unlock(id)] + [], t);
    LeadsOn(s, Lock(id), [Recheck(id)] + ([Unlock(id)] + []), t);
    steps := [Lock(id)] + ([Recheck(id)] + ([Unlock(id)] + []));
  }

  /** How many steps of its own the holder has left before it releases the lock. */
  function StepsLeft(p: Phase): nat {
    match p
    case Rechecking => 5
    case Probing => 4
    case Probed(_, _) => 3
    case Storing(_, _) => 2
    case Leaving(_) => 1
    case _ => 0
  }

  /** Wherever a run has got to, whoever holds the lock can go on, and comes closer to releasing it with every step: no
      path leaves it locked. */
  lemma HolderGoesOn(run: seq<Step>, id: nat, status: Status) returns (step: Step)
    requires After(run).holder == Some(id)
    ensures step in {Recheck(id), ProbeEnd(id, status), CheckContext(id), Store(id), Unlock(id)}
    ensures Enabled(After(run), step)
    ensures var s, t := After(run), Apply(After(run), step);
            && id in s.callers && StepsLeft(s.callers[id].phase) > 0
            && (t.holder == None || (t.holder == Some(id) && id in t.callers
                                     && StepsLeft(t.callers[id].phase) < StepsLeft(s.callers[id].phase)))
  {
    AlwaysInv(run);
    var p := After(run).callers[id].phase;
    step := match p
            case Rechecking => Recheck(id)
            case Probing => ProbeEnd(id, status)
            case Probed(_, _) => CheckContext(id)
            case Storing(_, _) => Store(id)
            case _ => Unlock(id);
  }

  ghost predicate ProbedAnswers(s: State) {
    forall f :: f in s.served && f.FromProbe? ==> exists r :: r in s.probes && r.status == f.status
  }

  lemma StepKeepsProbedAnswers(s: State, step: Step)
    requires ProbedAnswers(s) && ContextInv(s) && Enabled(s, step)
    ensures ProbedAnswers(Apply(s, step))
  {
    var t := Apply(s, step);
    assert s.probes <= t.probes;
    forall f | f in t.served && f.FromProbe? ensures exists r :: r in t.probes && r.status == f.status {
      if f in s.served {
        var r :| r in s.probes && r.status == f.status;
        assert r in t.probes;
      } else {
        var p := s.callers[step.id].phase;
        assert ProbeRun(p.status, p.endedAt) in t.probes;
      }
    }
  }

  /** Every answer that did not come from the cache is the result of a probe that was run. */
  lemma {:induction false} AnswersWereProbed(steps: seq<Step>)
    ensures ProbedAnswers(After(steps))
  {
    if steps != [] {
      var s, step := After(steps[..|steps| - 1]), steps[|steps| - 1];
      AnswersWereProbed(steps[..|steps| - 1]);
      AlwaysInv(steps[..|steps| - 1]);
      if Enabled(s, step) {
        StepKeepsProbedAnswers(s, step);
      }
    }
  }
}
