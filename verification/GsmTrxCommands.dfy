/** What a thread of the transceiver module achieves when nobody gets in its way: starting and stopping on command,
    halting, the unexpected end of the control thread, and a failed start. */
module GsmTrxCommands {
  import opened Options
  import opened GsmTrx

  /** A run of thread i alone. */
  predicate OnlyOf(i: nat, es: seq<Event>) {
    forall e <- es :: e.Run? && e.i == i
  }

  /** Thread i is about to do these instructions, and holds no transceiver. */
  predicate At(s: System, i: nat, todo: seq<Instr>) {
    i < |s.threads| && s.threads[i].todo == todo && s.threads[i].held == None
  }

  lemma {:induction false} Joined(s: System, es: seq<Event>, fs: seq<Event>)
    ensures Exec(s, es + fs) == Exec(Exec(s, es), fs)
  {
    if fs == [] {
      assert es + fs == es;
    } else {
      Joined(s, es, fs[..|fs| - 1]);
      assert (es + fs)[..|es + fs| - 1] == es + fs[..|fs| - 1];
    }
  }

  /** One step that neither takes nor stops a transceiver, nor starts one or a thread. */
  lemma Plain(s: System, i: nat, instr: Instr, rest: seq<Instr>, c: Choice) returns (es: seq<Event>)
    requires At(s, i, [instr] + rest) && !instr.Take? && !instr.Stop? && !instr.EndStart? && !(instr.StartCtrl? && c.started)
    ensures OnlyOf(i, es) && At(Exec(s, es), i, Follow(s.m, instr, c) + rest) && |Exec(s, es).threads| == |s.threads|
    ensures var s' := Exec(s, es);
            && s'.m == Effect(s.m, instr, c, s.trxs, s.workers) && s'.stopped == s.stopped
            && s'.trxs == s.trxs && s'.workers == s.workers
  {
    es := [Run(i, c)];
    Ran(s, i, c);
    hide Exec;
    assert ([instr] + rest)[1..] == rest;
  }

  lemma Ran(s: System, i: nat, c: Choice)
    requires Ready(s, i)
    ensures Exec(s, [Run(i, c)]) == Execute(s, i, c)
  {
    Then(s, [], Run(i, c));
    assert [] + [Run(i, c)] == [Run(i, c)];
  }

  lemma TakeStep(s: System, i: nat, rest: seq<Instr>, c: Choice)
    requires At(s, i, [Take] + rest)
    ensures var s' := Exec(s, [Run(i, c)]);
            && s'.m == s.m.(trx := None, state := if s.m.trx.Some? && s.m.state == Running then Waiting else s.m.state)
            && s'.stopped == s.stopped && s'.trxs == s.trxs && s'.workers == s.workers && |s'.threads| == |s.threads|
            && s'.threads[i].todo == (if s.m.trx.Some? then [Stop] + rest else rest) && s'.threads[i].held == s.m.trx
  {
    Ran(s, i, c);
    hide Exec;
    assert ([Take] + rest)[1..] == rest && [] + rest == rest;
  }

  lemma StopStep(s: System, i: nat, rest: seq<Instr>, c: Choice)
    requires i < |s.threads| && s.threads[i].todo == [Stop] + rest
    ensures var s' := Exec(s, [Run(i, c)]);
            && s'.m == s.m && s'.stopped == s.stopped + Single(s.threads[i].held) && s'.trxs == s.trxs
            && s'.workers == s.workers && |s'.threads| == |s.threads| && At(s', i, rest)
  {
    Ran(s, i, c);
    hide Exec;
    assert ([Stop] + rest)[1..] == rest && [] + rest == rest;
  }

  /** Stopping the transceiver: it is taken out of use and stopped; running becomes waiting. */
  lemma TakesOut(s: System, i: nat, rest: seq<Instr>, c: Choice) returns (es: seq<Event>)
    requires At(s, i, [Take] + rest)
    ensures OnlyOf(i, es) && At(Exec(s, es), i, rest) && |Exec(s, es).threads| == |s.threads|
    ensures var s' := Exec(s, es);
            && s'.m == s.m.(trx := None, state := if s.m.trx.Some? && s.m.state == Running then Waiting else s.m.state)
            && s'.stopped == s.stopped + Single(s.m.trx) && s'.trxs == s.trxs && s'.workers == s.workers
  {
    es := [Run(i, c)];
    TakeStep(s, i, rest, c);
    if s.m.trx.Some? {
      StopStep(Exec(s, es), i, rest, c);
      Joined(s, es, es);
      es := es + es;
      hide Exec;
    } else {
      hide Exec;
      assert s.stopped + Single(None) == s.stopped;
    }
  }

  /** The second half of a start. */
  lemma Starts(s: System, i: nat, rest: seq<Instr>, c: Choice) returns (es: seq<Event>)
    requires At(s, i, [EndStart] + rest) && s.m.trx == None
    ensures OnlyOf(i, es) && At(Exec(s, es), i, rest)
    ensures var s' := Exec(s, es);
            && s'.m == (if c.yes && c.started && s.m.state == Waiting then s.m.(state := Running, trx := Some(s.trxs)) else s.m)
            && s'.stopped == s.stopped
  {
    es := [Run(i, c)];
    Ran(s, i, c);
    hide Exec;
    assert ([EndStart] + rest)[1..] == rest && [] + rest == rest;
  }

  /** A RESET command stops the transceiver in use and starts a new one: the module runs afterwards exactly if it was
      not idle, a radio was created and the transceiver started. */
  lemma ResetStarts(s: System, i: nat, id: nat, radio: bool, started: bool) returns (es: seq<Event>)
    requires At(s, i, [Loop(id)]) && RunningHasTrx(s.m)
    ensures OnlyOf(i, es) && At(Exec(s, es), i, [Loop(id)])
    ensures var s' := Exec(s, es);
            && s'.stopped == s.stopped + Single(s.m.trx)
            && if s.m.state != Idle && radio && started then s'.m.state == Running && s'.m.trx == Some(s.trxs)
               else s'.m.trx == None && s'.m.state == if s.m.state == Idle then Idle else Waiting
  {
    hide Exec, Execute;
    var no := Choice(false, false, Reset, 0);
    assert [Loop(id)] == [Loop(id)] + [];
    var e1 := Plain(s, i, Loop(id), [], no);
    var s1 := Exec(s, e1);
    assert Follow(s.m, Loop(id), no) + [] == [Take] + [BeginStart, Loop(id)];
    var e2 := TakesOut(s1, i, [BeginStart, Loop(id)], no);
    var s2 := Exec(s1, e2);
    assert [BeginStart, Loop(id)] == [BeginStart] + [Loop(id)];
    var e3 := Plain(s2, i, BeginStart, [Loop(id)], no);
    var s3 := Exec(s2, e3);
    var e4 := Starts(s3, i, [Loop(id)], Choice(radio, started, Reset, 0));
    Joined(s, e1, e2);
    Joined(s, e1 + e2, e3);
    Joined(s, e1 + e2 + e3, e4);
    es := e1 + e2 + e3 + e4;
  }

  /** A STOP command, or a failure to write to the control socket, leaves no transceiver in use. */
  lemma StopStops(s: System, i: nat, id: nat) returns (es: seq<Event>)
    requires At(s, i, [Loop(id)]) && RunningHasTrx(s.m)
    ensures OnlyOf(i, es) && At(Exec(s, es), i, [Loop(id)])
    ensures var s' := Exec(s, es);
            && s'.m.trx == None && s'.m.state == (if s.m.state == Idle then Idle else Waiting)
            && s'.stopped == s.stopped + Single(s.m.trx)
  {
    hide Exec, Execute;
    var c := Choice(false, false, StopTrx, 0);
    assert [Loop(id)] == [Loop(id)] + [];
    var e1 := Plain(s, i, Loop(id), [], c);
    assert Follow(s.m, Loop(id), c) + [] == [Take] + [Loop(id)];
    var e2 := TakesOut(Exec(s, e1), i, [Loop(id)], c);
    Joined(s, e1, e2);
    es := e1 + e2;
  }

  /** Stopping the control thread: waiting for it ends when the waiting thread is cancelled, and then it is killed. */
  lemma CtrlStops(s: System, i: nat, rest: seq<Instr>) returns (es: seq<Event>)
    requires At(s, i, [HaltCtrl] + rest)
    ensures OnlyOf(i, es) && At(Exec(s, es), i, rest) && |Exec(s, es).threads| == |s.threads|
    ensures var s' := Exec(s, es);
            && s'.m == s.m.(state := Idle, ctrlThread := None) && s'.stopped == s.stopped
            && s'.trxs == s.trxs && s'.workers == s.workers
  {
    hide Exec, Execute;
    var c := Choice(true, false, Other, 0);
    var e1 := Plain(s, i, HaltCtrl, rest, c);
    var s1 := Exec(s, e1);
    es := e1;
    if s.m.ctrlThread.Some? {
      assert [AwaitCtrl, DropCtrl] + rest == [AwaitCtrl] + ([DropCtrl] + rest);
      var e2 := Plain(s1, i, AwaitCtrl, [DropCtrl] + rest, c);
      assert [] + ([DropCtrl] + rest) == [DropCtrl] + rest && [] + rest == rest;
      var e3 := Plain(Exec(s1, e2), i, DropCtrl, rest, c);
      Joined(s, e1, e2);
      Joined(s, e1 + e2, e3);
      es := e1 + e2 + e3;
    } else {
      assert [] + rest == rest;
    }
  }

  /** Halting leaves the module idle, without transceiver and control thread. */
  lemma HaltEnds(s: System) returns (es: seq<Event>)
    ensures var i, s' := |s.threads|, Exec(Next(s, Halt), es);
            && OnlyOf(i, es) && At(s', i, [])
            && s'.m == s.m.(state := Idle, trx := None, ctrlThread := None) && s'.stopped == s.stopped + Single(s.m.trx)
  {
    var i, s0 := |s.threads|, Next(s, Halt);
    hide Exec, Execute;
    assert [Take, HaltCtrl] == [Take] + [HaltCtrl] && [HaltCtrl] == [HaltCtrl] + [];
    var e1 := TakesOut(s0, i, [HaltCtrl], Choice(true, false, Other, 0));
    var e2 := CtrlStops(Exec(s0, e1), i, []);
    Joined(s0, e1, e2);
    es := e1 + e2;
  }

  /** The end of the control thread: expected, when the engine exits or the module is idle, it changes no more than who
      the control thread is; otherwise the module goes idle without a transceiver. */
  lemma ControlThreadEnds(s: System, i: nat, id: nat, rest: seq<Instr>, exiting: bool) returns (es: seq<Event>)
    requires At(s, i, [Terminated(id)] + rest) && s.m.ctrlThread == Some(id)
    ensures OnlyOf(i, es) && At(Exec(s, es), i, rest)
    ensures var s' := Exec(s, es);
            if exiting || s.m.state == Idle then s'.m == s.m.(ctrlThread := None) && s'.stopped == s.stopped
            else s'.m == s.m.(state := Idle, trx := None, ctrlThread := None) && s'.stopped == s.stopped + Single(s.m.trx)
  {
    hide Exec, Execute;
    var c := Choice(exiting, false, Other, 0);
    var e1 := Plain(s, i, Terminated(id), rest, c);
    es := e1;
    if exiting || s.m.state == Idle {
      assert [] + rest == rest;
    } else {
      assert [Take, HaltCtrl] + rest == [Take] + ([HaltCtrl] + rest);
      var e2 := TakesOut(Exec(s, e1), i, [HaltCtrl] + rest, c);
      var e3 := CtrlStops(Exec(Exec(s, e1), e2), i, rest);
      Joined(s, e1, e2);
      Joined(s, e1 + e2, e3);
      es := e1 + e2 + e3;
    }
  }

  /** A transceiver found in error or shutting down by a timer message that was asked to look is stopped. */
  lemma ErrorStops(s: System, i: nat, rest: seq<Instr>) returns (es: seq<Event>)
    requires At(s, i, [CheckTrx] + rest) && s.m.checkTrx && s.m.trx.Some?
    ensures OnlyOf(i, es) && At(Exec(s, es), i, rest)
    ensures var s' := Exec(s, es);
            && s'.m == s.m.(checkTrx := false, trx := None, state := if s.m.state == Running then Waiting else s.m.state)
            && s'.stopped == s.stopped + Single(s.m.trx)
  {
    hide Exec, Execute;
    var c := Choice(true, false, Other, 0);
    var e1 := Plain(s, i, CheckTrx, rest, c);
    var s1 := Exec(s, e1);
    var e2 := Plain(s1, i, Inspect, rest, c);
    var e3 := TakesOut(Exec(s1, e2), i, rest, c);
    Joined(s, e1, e2);
    Joined(s, e1 + e2, e3);
    es := e1 + e2 + e3;
  }

  /** A retry that fails is planned again, after one second the first time and twice the last interval up to the first
      one of two minutes or more. */
  lemma FailedRetryPlans(s: System, i: nat, rest: seq<Instr>, now: nat) returns (es: seq<Event>)
    requires At(s, i, [StartCtrl(true)] + rest) && s.m.ctrlThread == None
    ensures OnlyOf(i, es) && At(Exec(s, es), i, rest)
    ensures var m, last := Exec(s, es).m, s.m.ctrlStartInterval;
            && m.state == Idle && m.ctrlThread == None && m.nextCtrlStart == now + m.ctrlStartInterval
            && m.ctrlStartInterval == if last == 0 then 1_000_000 else if last < 120_000_000 then 2 * last else last
  {
    hide Exec, Execute;
    var c := Choice(false, false, Other, now);
    var e1 := Plain(s, i, StartCtrl(true), rest, c);
    assert [HaltCtrl, Schedule] + rest == [HaltCtrl] + ([Schedule] + rest);
    var e2 := CtrlStops(Exec(s, e1), i, [Schedule] + rest);
    var e3 := Plain(Exec(Exec(s, e1), e2), i, Schedule, rest, c);
    assert [] + rest == rest;
    Joined(s, e1, e2);
    Joined(s, e1 + e2, e3);
    es := e1 + e2 + e3;
  }

  /** The start of the control thread, which then waits for its first command. */
  lemma ControlStarts(s: System, i: nat, rest: seq<Instr>, retry: bool, c: Choice)
    requires At(s, i, [StartCtrl(retry)] + rest) && c.started
    ensures var s' := Exec(s, [Run(i, c)]);
            && s'.m == s.m.(state := Waiting, ctrlThread := Some(s.workers), nextCtrlStart := 0, ctrlStartInterval := 0)
            && At(s', i, rest) && |s'.threads| == |s.threads| + 1 && At(s', |s.threads|, [Loop(s.workers)])
  {
    Ran(s, i, c);
    hide Exec;
    assert ([StartCtrl(retry)] + rest)[1..] == rest && [] + rest == rest;
  }

  /** Initializing an idle module starts the control thread, if it can be started. */
  lemma InitializeStarts(s: System) returns (es: seq<Event>)
    requires s.m.state == Idle
    ensures var i, s' := |s.threads|, Exec(Next(s, Initialize), es);
            && OnlyOf(i, es) && At(s', i, []) && At(s', i + 1, [Loop(s.workers)])
            && s'.m == s.m.(state := Waiting, ctrlThread := Some(s.workers), nextCtrlStart := 0, ctrlStartInterval := 0)
  {
    hide *;
    var i, s0, c := |s.threads|, Next(s, Initialize), Choice(false, true, Other, 0);
    var e1 := InitChecks(s, c);
    var e2 := ThenControlStarts(Exec(s0, e1), i, c);
    Joined(s0, e1, e2);
    es := e1 + e2;
    assert OnlyOf(i, es) by { OnlyBoth(i, e1, e2); }
  }

  lemma InitChecks(s: System, c: Choice) returns (es: seq<Event>)
    requires s.m.state == Idle
    ensures var i, s1 := |s.threads|, Exec(Next(s, Initialize), es);
            && OnlyOf(i, es) && At(s1, i, [HaltCtrl] + [StartCtrl(false)])
            && s1.m == s.m && |s1.threads| == i + 1 && s1.workers == s.workers
  {
    var i, s0 := |s.threads|, Next(s, Initialize);
    var todo := [HaltCtrl] + [StartCtrl(false)];
    assert [InitCheck] == [InitCheck] + [] && At(s0, i, [InitCheck]);
    es := Plain(s0, i, InitCheck, [], c);
    assert Follow(s.m, InitCheck, c) + [] == todo;
    hide Exec, Execute, Follow;
  }

  lemma OnlyBoth(i: nat, es: seq<Event>, fs: seq<Event>)
    requires OnlyOf(i, es) && OnlyOf(i, fs)
    ensures OnlyOf(i, es + fs)
  {
  }

  lemma ThenControlStarts(s: System, i: nat, c: Choice) returns (es: seq<Event>)
    requires At(s, i, [HaltCtrl] + [StartCtrl(false)]) && c.started
    ensures var s' := Exec(s, es);
            && OnlyOf(i, es) && At(s', i, []) && At(s', |s.threads|, [Loop(s.workers)])
            && s'.m == s.m.(state := Waiting, ctrlThread := Some(s.workers), nextCtrlStart := 0, ctrlStartInterval := 0)
  {
    var e1 := CtrlStops(s, i, [StartCtrl(false)]);
    assert [StartCtrl(false)] == [StartCtrl(false)] + [];
    hide Exec, Execute;
    ControlStarts(Exec(s, e1), i, [], false, c);
    Joined(s, e1, [Run(i, c)]);
    es := e1 + [Run(i, c)];
  }
}
