/** The audit queue: `Log`, the background worker and `Close` of `PgAuditLogger`, as a protocol between any number of
    loggers and closers over one buffered channel. The channel operations, the checks of `quit` and the inserts are
    steps of their own. */
module AuditQueue {
  import opened Options

  const CAPACITY: nat := 1024

  datatype Entry = Entry(event: string, wallet: string, ip: string, userAgent: string, outcome: string, details: string)

  datatype Logger = Checking(entry: Entry) | Passed(entry: Entry)   // Passed: saw that quit was not closed

  datatype Worker =
    | Selecting
    | Inserting(entry: Entry, draining: bool)
    | Draining
    | Exited

  /** `accepted` is every entry ever put on the channel, `inserted` every entry whose insert has returned.
      `signalled` is how many had been accepted when `quit` was closed. */
  datatype State = State(ch: seq<Entry>, quit: bool, done: bool, worker: Worker, loggers: map<nat, Logger>,
                         closers: map<nat, bool>,
                         accepted: seq<Entry>, inserted: seq<Entry>, signalled: Option<nat>)

  const INIT: State := State([], false, false, Selecting, map[], map[], [], [], None)

  datatype Step =
    | LogStart(id: nat, entry: Entry)
    | LogCheck(id: nat)
    | LogSend(id: nat)
    | Take                 // the worker receives from the channel
    | InsertReturns
    | SeeQuit
    | Exit                 // nothing left to drain: close(done)
    | CloseStart(id: nat)  // closeOnce: close(quit)
    | CloseReturn(id: nat) // <-done

  predicate Enabled(s: State, step: Step) {
    match step
    case LogStart(id, _) => id !in s.loggers
    case LogCheck(id) => id in s.loggers && s.loggers[id].Checking?
    case LogSend(id) => id in s.loggers && s.loggers[id].Passed?
    case Take => (s.worker.Selecting? || s.worker.Draining?) && s.ch != []
    case InsertReturns => s.worker.Inserting?
    case SeeQuit => s.worker.Selecting? && s.quit
    case Exit => s.worker.Draining? && s.ch == []
    case CloseStart(id) => id !in s.closers
    case CloseReturn(id) => id in s.closers && !s.closers[id] && s.done
  }

  /** The documented default: an empty details column would not be valid JSON. */
  function WithDetails(e: Entry): (r: Entry)
    ensures r.details != "" && (e.details != "" ==> r == e)
    ensures e.details == "" ==> r.(details := "") == e && r.details == "{}"
  {
    if e.details == "" then e.(details := "{}") else e
  }

  function Apply(s: State, step: Step): State
    requires Enabled(s, step)
  {
    match step
    case LogStart(id, e) => s.(loggers := s.loggers[id := Checking(WithDetails(e))])
    case LogCheck(id) =>
      if s.quit then s.(loggers := s.loggers - {id})
      else s.(loggers := s.loggers[id := Passed(s.loggers[id].entry)])
    case LogSend(id) =>
      var e := s.loggers[id].entry;
      if |s.ch| < CAPACITY
      then s.(loggers := s.loggers - {id}, ch := s.ch + [e], accepted := s.accepted + [e])
      else s.(loggers := s.loggers - {id})
    case Take => s.(worker := Inserting(s.ch[0], s.worker.Draining?), ch := s.ch[1..])
    case InsertReturns =>
      s.(worker := if s.worker.draining then Draining else Selecting, inserted := s.inserted + [s.worker.entry])
    case SeeQuit => s.(worker := Draining)
    case Exit => s.(worker := Exited, done := true)
    case CloseStart(id) =>
      var s' := s.(closers := s.closers[id := false]);
      if s.quit then s' else s'.(quit := true, signalled := Some(|s.accepted|))
    case CloseReturn(id) => s.(closers := s.closers[id := true])
  }

  /** A step that is not enabled does not happen. */
  function Next(s: State, step: Step): State {
    if Enabled(s, step) then Apply(s, step) else s
  }

  /** From any state. */
  function From(start: State, steps: seq<Step>): State {
    if steps == [] then start else Next(From(start, steps[..|steps| - 1]), steps[|steps| - 1])
  }

  // ---------------------------------------------------------------- the invariant

  function InHand(s: State): seq<Entry> {
    if s.worker.Inserting? then [s.worker.entry] else []
  }

  ghost predicate Inv(s: State) {
    && s.accepted == s.inserted + InHand(s) + s.ch
    && |s.ch| <= CAPACITY
    && (s.done <==> s.worker.Exited?)
    && (s.worker.Draining? || s.worker.Exited? || (s.worker.Inserting? && s.worker.draining) ==> s.quit)
    && (s.quit <==> s.signalled.Some?)
    && (s.quit ==> s.signalled.value <= |s.accepted|)
    && (s.done ==> s.signalled.value <= |s.inserted|)
    && (forall id :: id in s.closers && s.closers[id] ==> s.done)
    && (forall id :: id in s.loggers ==> s.loggers[id].entry.details != "")
    && (forall e :: e in s.accepted ==> e.details != "")
  }

  lemma LoggerStepKeepsInv(s: State, step: Step)
    requires Inv(s) && Enabled(s, step) && (step.LogStart? || step.LogCheck? || step.LogSend?)
    ensures Inv(Apply(s, step))
  {
    if step.LogSend? && |s.ch| < CAPACITY {
      var e := s.loggers[step.id].entry;
      assert s.accepted + [e] == s.inserted + InHand(s) + (s.ch + [e]);
    }
  }

  lemma TakeKeepsInv(s: State)
    requires Inv(s) && Enabled(s, Take)
    ensures Inv(Apply(s, Take))
  {
    assert InHand(s) == [] && s.ch == [s.ch[0]] + s.ch[1..];
  }

  lemma WorkerStepKeepsInv(s: State, step: Step)
    requires Inv(s) && Enabled(s, step) && (step.InsertReturns? || step.SeeQuit? || step.Exit?)
    ensures Inv(Apply(s, step))
  {
    if step.InsertReturns? {
      assert s.inserted + [s.worker.entry] + [] + s.ch == s.accepted;
    }
  }

  lemma CloserStepKeepsInv(s: State, step: Step)
    requires Inv(s) && Enabled(s, step) && (step.CloseStart? || step.CloseReturn?)
    ensures Inv(Apply(s, step))
  {
  }

  lemma StepKeepsInv(s: State, step: Step)
    requires Inv(s) && Enabled(s, step)
    ensures Inv(Apply(s, step))
  {
    if step.LogStart? || step.LogCheck? || step.LogSend? {
      LoggerStepKeepsInv(s, step);
    } else if step.CloseStart? || step.CloseReturn? {
      CloserStepKeepsInv(s, step);
    } else if step.Take? {
      TakeKeepsInv(s);
    } else {
      WorkerStepKeepsInv(s, step);
    }
  }

  lemma {:induction false} AlwaysInv(start: State, steps: seq<Step>)
    requires Inv(start)
    ensures Inv(From(start, steps))
  {
    if steps != [] {
      var s, step := From(start, steps[..|steps| - 1]), steps[|steps| - 1];
      AlwaysInv(start, steps[..|steps| - 1]);
      if Enabled(s, step) {
        StepKeepsInv(s, step);
      }
    }
  }

  // ---------------------------------------------------------------- what every interleaving guarantees

  /** Close returns only after each entry accepted before shutdown was signalled has been handed to insert, exactly once
      and in queue order: what has been inserted is the accepted entries up to some point at or after the signal. */
  lemma CloseFlushes(steps: seq<Step>, id: nat)
    requires id in From(INIT, steps).closers && From(INIT, steps).closers[id]
    ensures var s := From(INIT, steps);
            s.signalled.Some? && s.signalled.value <= |s.inserted| <= |s.accepted|
              && s.inserted == s.accepted[..|s.inserted|]
  {
    AlwaysInv(INIT, steps);
  }

  /** At every moment the inserted entries are a prefix of the accepted ones, the buffer stays within its capacity, and
      no entry without details is ever inserted. */
  lemma QueueOrderIsKept(steps: seq<Step>)
    ensures var s := From(INIT, steps);
            s.inserted <= s.accepted && |s.ch| <= CAPACITY && |s.accepted| <= |s.inserted| + 1 + CAPACITY
    ensures forall e :: e in From(INIT, steps).inserted ==> e.details != ""
  {
    AlwaysInv(INIT, steps);
  }

  /** Once the worker has exited nothing is inserted any more. */
  lemma {:induction false} ExitIsFinal(start: State, steps: seq<Step>)
    requires Inv(start) && start.done
    ensures From(start, steps).inserted == start.inserted && From(start, steps).done
    ensures start.ch <= From(start, steps).ch
  {
    if steps != [] {
      ExitIsFinal(start, steps[..|steps| - 1]);
      AlwaysInv(start, steps[..|steps| - 1]);
    }
  }

  lemma StepInsertsBeforeExit(s: State, step: Step, i: nat)
    requires Inv(s) && Enabled(s, step) && i < |s.accepted| && (s.done ==> i < |s.inserted|)
    ensures Apply(s, step).done ==> i < |Apply(s, step).inserted|
    ensures s.accepted <= Apply(s, step).accepted
  {
  }

  /** The worker exits from an empty channel, so all that was accepted before is inserted by then. */
  lemma {:induction false} InsertedByTheExit(start: State, steps: seq<Step>, i: nat)
    requires Inv(start) && i < |start.accepted| && (start.done ==> i < |start.inserted|)
    ensures From(start, steps).done ==> i < |From(start, steps).inserted|
    ensures start.accepted <= From(start, steps).accepted
  {
    if steps != [] {
      var s, step := From(start, steps[..|steps| - 1]), steps[|steps| - 1];
      InsertedByTheExit(start, steps[..|steps| - 1], i);
      AlwaysInv(start, steps[..|steps| - 1]);
      if Enabled(s, step) {
        StepInsertsBeforeExit(s, step, i);
      }
    }
  }

  /** Whether an entry is lost is decided when Log sends it: if there is room, it is inserted, in its place in the
      queue, if and only if the worker has not exited yet. Then quit had been closed, which that Log had looked at
      before. */
  lemma SentIsInsertedIff(steps: seq<Step>, id: nat, more: seq<Step>)
    requires Enabled(From(INIT, steps), LogSend(id)) && |From(INIT, steps).ch| < CAPACITY
    requires From(Apply(From(INIT, steps), LogSend(id)), more).done
    ensures var s, s' := From(INIT, steps), From(Apply(From(INIT, steps), LogSend(id)), more);
            && (|s.accepted| < |s'.inserted| <==> !s.done)
            && (!s.done ==> s'.inserted[|s.accepted|] == s.loggers[id].entry)
            && (s.done ==> s.quit && s'.inserted == s.inserted)
  {
    AlwaysInv(INIT, steps);
    var s := From(INIT, steps);
    var sent := Apply(s, LogSend(id));
    StepKeepsInv(s, LogSend(id));
    AlwaysInv(sent, more);
    if s.done {
      ExitIsFinal(sent, more);
    } else {
      InsertedByTheExit(sent, more, |s.accepted|);
      assert sent.accepted[|s.accepted|] == s.loggers[id].entry;
    }
  }

  /** It happens: a Log looks at quit, Close is called, the worker drains and exits, and then the Log sends. */
  lemma LateEntryIsLost(e: Entry)
    ensures var steps := [LogStart(0, e), LogCheck(0), CloseStart(0), SeeQuit, Exit, LogSend(0)];
            var s := From(INIT, steps);
            s.done && s.ch == [WithDetails(e)] && s.accepted == [WithDetails(e)] && s.inserted == []
  {
    assert From(INIT, []) == INIT;
    var p1 := AndThen([], LogStart(0, e));
    var p2 := AndThen(p1, LogCheck(0));
    var p3 := AndThen(p2, CloseStart(0));
    var p4 := AndThen(p3, SeeQuit);
    var p5 := AndThen(p4, Exit);
    assert From(INIT, p5).loggers[0] == Passed(WithDetails(e));
    var p6 := AndThen(p5, LogSend(0));
    assert p6 == [LogStart(0, e), LogCheck(0), CloseStart(0), SeeQuit, Exit, LogSend(0)];
  }

  lemma AndThen(steps: seq<Step>, step: Step) returns (longer: seq<Step>)
    requires Enabled(From(INIT, steps), step)
    ensures longer == steps + [step] && From(INIT, longer) == Apply(From(INIT, steps), step)
  {
    longer := steps + [step];
    assert longer[..|steps|] == steps;
  }

  /** A Log that nothing interrupts: the entry joins the end of the queue if and only if quit is not closed and the
      buffer has room; otherwise it is dropped. The caller never waits, and nothing else changes. */
  lemma LogAlone(start: State, id: nat, e: Entry)
    requires id !in start.loggers
    ensures var s := From(start, [LogStart(id, e), LogCheck(id), LogSend(id)]);
            var added := if !start.quit && |start.ch| < CAPACITY then [WithDetails(e)] else [];
            s == start.(ch := start.ch + added, accepted := start.accepted + added)
  {
    FromThree(start, LogStart(id, e), LogCheck(id), LogSend(id));
    if start.quit {
      LogWhenClosed(start, id, e);
    } else {
      LogWhenOpen(start, id, e);
    }
  }

  lemma LogWhenClosed(start: State, id: nat, e: Entry)
    requires id !in start.loggers && start.quit
    ensures Next(Next(Next(start, LogStart(id, e)), LogCheck(id)), LogSend(id)) == start
  {
    assert start.loggers[id := Checking(WithDetails(e))] - {id} == start.loggers;
    assert Next(Next(start, LogStart(id, e)), LogCheck(id)) == start;
  }

  lemma LogWhenOpen(start: State, id: nat, e: Entry)
    requires id !in start.loggers && !start.quit
    ensures Next(Next(Next(start, LogStart(id, e)), LogCheck(id)), LogSend(id)) ==
            if |start.ch| < CAPACITY
            then start.(ch := start.ch + [WithDetails(e)], accepted := start.accepted + [WithDetails(e)])
            else start
  {
    var passed := start.loggers[id := Passed(WithDetails(e))];
    assert Next(start, LogStart(id, e)) == start.(loggers := start.loggers[id := Checking(WithDetails(e))]);
    assert Next(Next(start, LogStart(id, e)), LogCheck(id)) == start.(loggers := passed);
    assert passed - {id} == start.loggers;
  }

  lemma FromThree(start: State, a: Step, b: Step, c: Step)
    ensures From(start, [a, b, c]) == Next(Next(Next(start, a), b), c)
  {
    assert [a][..0] == [] && [a, b][..1] == [a] && [a, b, c][..2] == [a, b];
    assert From(start, []) == start;
    assert From(start, [a]) == Next(start, a);
    assert From(start, [a, b]) == Next(Next(start, a), b);
  }

  /** The worker left alone after shutdown empties the buffer and exits: what it takes is inserted, in order. */
  lemma {:induction false} DrainAlone(start: State) returns (steps: seq<Step>)
    requires start.worker.Draining? && !start.done
    ensures forall step :: step in steps ==> IsWorkers(step)
    ensures From(start, steps) ==
            start.(worker := Exited, done := true, ch := [], inserted := start.inserted + start.ch)
    decreases |start.ch|
  {
    if start.ch == [] {
      steps := [Exit];
      assert [Exit][..0] == [];
      assert From(start, []) == start;
    } else {
      var e, rest := start.ch[0], start.ch[1..];
      var next := start.(ch := rest, inserted := start.inserted + [e]);
      var more := DrainAlone(next);
      assert start.inserted + [e] + rest == start.inserted + start.ch;
      TakeAndInsert(start, next);
      FromTwo(start, [Take, InsertReturns], more);
      steps := [Take, InsertReturns] + more;
    }
  }

  lemma TakeAndInsert(start: State, next: State)
    requires start.worker.Draining? && start.ch != []
    requires next == start.(ch := start.ch[1..], inserted := start.inserted + [start.ch[0]])
    ensures From(start, [Take, InsertReturns]) == next
  {
    assert [Take][..0] == [] && [Take, InsertReturns][..1] == [Take];
    assert From(start, []) == start;
    assert From(start, [Take]) == start.(worker := Inserting(start.ch[0], true), ch := start.ch[1..]);
  }

  /** One run after the other. */
  lemma {:induction false} FromTwo(start: State, first: seq<Step>, more: seq<Step>)
    ensures From(start, first + more) == From(From(start, first), more)
    decreases |more|
  {
    if more == [] {
      assert first + more == first;
    } else {
      assert (first + more)[..|first + more| - 1] == first + more[..|more| - 1];
      FromTwo(start, first, more[..|more| - 1]);
    }
  }

  lemma FromOne(start: State, step: Step)
    ensures From(start, [step]) == Next(start, step)
  {
    assert [step][..0] == [];
    assert From(start, []) == start;
  }

  /** From wherever the worker is once shutdown has been signalled. */
  lemma WorkerCanExit(start: State) returns (steps: seq<Step>)
    requires Inv(start) && start.quit
    ensures From(start, steps).done && From(start, steps).closers == start.closers
    decreases if start.worker.Draining? then 0 else if start.worker.Selecting? then 1 else 2
  {
    if start.worker.Exited? {
      steps := [];
    } else if start.worker.Draining? {
      steps := DrainAlone(start);
    } else {
      var step := if start.worker.Selecting? then SeeQuit else InsertReturns;
      StepKeepsInv(start, step);
      var more := WorkerCanExit(Next(start, step));
      FromOne(start, step);
      FromTwo(start, [step], more);
      steps := [step] + more;
    }
  }

  /** Whatever state it finds, a Close that is called can return. */
  lemma CloseCanReturn(start: State, id: nat) returns (steps: seq<Step>)
    requires Inv(start) && id !in start.closers
    ensures id in From(start, steps).closers && From(start, steps).closers[id]
  {
    var called := Next(start, CloseStart(id));
    StepKeepsInv(start, CloseStart(id));
    var more := WorkerCanExit(called);
    FromOne(start, CloseStart(id));
    FromTwo(start, [CloseStart(id)], more);
    var before := [CloseStart(id)] + more;
    FromOne(From(called, more), CloseReturn(id));
    FromTwo(start, before, [CloseReturn(id)]);
    steps := before + [CloseReturn(id)];
  }

  // ---------------------------------------------------------------- the drain ends

  ghost function PassedLoggers(s: State): set<nat> {
    set id | id in s.loggers && s.loggers[id].Passed?
  }

  function Weight(w: Worker): nat {
    match w
    case Selecting => 2
    case Draining => 1
    case Inserting(_, draining) => if draining then 2 else 3
    case Exited => 0
  }

  /** How many more steps the worker can take once shutdown has been signalled. */
  ghost function Budget(s: State): nat {
    2 * (|s.ch| + |PassedLoggers(s)|) + Weight(s.worker)
  }

  predicate IsWorkers(step: Step) {
    step.Take? || step.InsertReturns? || step.SeeQuit? || step.Exit?
  }

  lemma StepSpends(s: State, step: Step)
    requires s.quit && Enabled(s, step)
    ensures Apply(s, step).quit
    ensures Budget(Apply(s, step)) + (if IsWorkers(step) then 1 else 0) <= Budget(s)
  {
    var s' := Apply(s, step);
    if step.LogSend? {
      assert PassedLoggers(s') == PassedLoggers(s) - {step.id};
    } else {
      assert PassedLoggers(s') == PassedLoggers(s);
    }
  }

  ghost function WorkerSteps(start: State, steps: seq<Step>): nat {
    if steps == [] then 0
    else
      var before, step := steps[..|steps| - 1], steps[|steps| - 1];
      WorkerSteps(start, before) + if IsWorkers(step) && Enabled(From(start, before), step) then 1 else 0
  }

  /** After the signal the worker takes a bounded number of steps, whatever loggers do; and until it has exited it
      always has one to take. So Close returns. */
  lemma {:induction false} DrainIsBounded(start: State, steps: seq<Step>)
    requires start.quit
    ensures From(start, steps).quit
    ensures WorkerSteps(start, steps) + Budget(From(start, steps)) <= Budget(start)
  {
    if steps != [] {
      var s, step := From(start, steps[..|steps| - 1]), steps[|steps| - 1];
      DrainIsBounded(start, steps[..|steps| - 1]);
      if Enabled(s, step) {
        StepSpends(s, step);
      }
    }
  }

  lemma WorkerIsNeverStuck(s: State)
    requires s.quit && !s.worker.Exited?
    ensures exists step :: IsWorkers(step) && Enabled(s, step)
  {
    var step := if s.worker.Inserting? then InsertReturns
                else if s.ch != [] then Take
                else if s.worker.Draining? then Exit
                else SeeQuit;
    assert IsWorkers(step) && Enabled(s, step);
  }
}
