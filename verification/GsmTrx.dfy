/** The life of the GSM transceiver and its control thread: regions under the state mutex, and what every
    interleaving of control, timer, init and halt threads keeps. */
module GsmTrx {
  import opened Options

  datatype State = Idle | Waiting | Running

  const FIRST_INTERVAL: nat := 1_000_000
  const LAST_INTERVAL: nat := 120_000_000

  /** What the state mutex protects. Transceivers and control threads are known by serial numbers. */
  datatype Shared = Shared(state: State, trx: Option<nat>, ctrlThread: Option<nat>, checkTrx: bool,
                           nextCtrlStart: nat, ctrlStartInterval: nat)

  const START := Shared(Idle, None, None, false, 0, 0)

  // ----- The locked regions, as changes of what they protect -----

  function TakeTrx(m: Shared): Shared {
    if m.trx.Some? then m.(trx := None, state := if m.state == Running then Waiting else m.state) else m
  }

  /** The second half of starting a transceiver: the state may have changed while the radio was created. */
  function FinishStart(m: Shared, radio: bool, started: bool, id: nat): Shared {
    if !radio || m.state != Waiting then m
    else if started then m.(trx := Some(id), state := Running)
    else m.(trx := None)
  }

  function StartControl(m: Shared, started: bool, id: nat): Shared {
    if started then m.(ctrlThread := Some(id), nextCtrlStart := 0, ctrlStartInterval := 0, state := Waiting) else m
  }

  function NextInterval(interval: nat): nat {
    if interval == 0 then FIRST_INTERVAL else if interval < LAST_INTERVAL then 2 * interval else interval
  }

  function Reschedule(m: Shared, now: nat): Shared {
    var interval := NextInterval(m.ctrlStartInterval);
    m.(ctrlStartInterval := interval, nextCtrlStart := now + interval)
  }

  /** What the timer decides about an idle module: to try again only while the deadline has not passed. */
  datatype Decision = Nothing | Try | Plan

  function Decide(m: Shared, time: nat): Decision {
    if m.state != Idle then Nothing
    else if m.nextCtrlStart == 0 then Plan
    else if m.nextCtrlStart >= time then Try
    else Nothing
  }

  // ----- The module, whose methods are the locked regions -----

  class GsmTrxModule {
    var state: State
    var trx: Option<nat>
    var ctrlThread: Option<nat>
    var checkTrx: bool
    var nextCtrlStart: nat
    var ctrlStartInterval: nat

    constructor ()
      ensures View() == START
    {
      state, trx, ctrlThread, checkTrx := Idle, None, None, false;
      nextCtrlStart, ctrlStartInterval := 0, 0;
    }

    ghost function View(): Shared
      reads this
    {
      Shared(state, trx, ctrlThread, checkTrx, nextCtrlStart, ctrlStartInterval)
    }

    method ChangeState(newState: State)
      modifies this`state
      ensures state == newState
    {
      if newState == state {
        return;
      }
      state := newState;
    }

    method GetTransceiver(take: bool) returns (found: Option<nat>)
      modifies this`trx, this`state
      ensures found == old(trx)
      ensures View() == if take then TakeTrx(old(View())) else old(View())
      ensures take ==> trx == None && (state == if found.Some? && old(state) == Running then Waiting else old(state))
    {
      found := trx;
      if take && trx.Some? {
        trx := None;
        if state == Running {
          ChangeState(Waiting);
        }
      }
    }

    /** The region of trxStart after the radio was created. Returns the transceivers it let go of. */
    method FinishTrxStart(radio: bool, initialized: bool, started: bool, id: nat) returns (ok: bool, dropped: multiset<nat>)
      modifies this`trx, this`state
      ensures View() == FinishStart(old(View()), radio, initialized && started, id)
      ensures ok == (radio && old(state) == Waiting && initialized && started)
      ensures if ok then state == Running && trx == Some(id)
              else state == old(state) && trx == if radio && state == Waiting then None else old(trx)
      ensures dropped == Dropped(old(View()), radio, initialized && started, id)
    {
      ok, dropped := false, multiset{};
      if !radio {
        return;
      }
      if state != Waiting {
        return;
      }
      if trx.Some? {
        dropped := multiset{trx.value};
      }
      trx := Some(id);
      if initialized && started {
        ChangeState(Running);
        return true, dropped;
      }
      trx := None;
      dropped := dropped + multiset{id};
    }

    /** The first region of ctrlStop. Returns whether a control thread was told to end. */
    method HaltControl() returns (cancelled: bool)
      modifies this`state
      ensures View() == old(View()).(state := Idle) && cancelled == ctrlThread.Some?
    {
      ChangeState(Idle);
      cancelled := ctrlThread.Some?;
    }

    /** The region of ctrlStop after waiting: a thread that has not ended is killed. */
    method DropControl() returns (killed: Option<nat>)
      modifies this`ctrlThread
      ensures View() == old(View()).(ctrlThread := None) && killed == old(ctrlThread)
    {
      killed := None;
      if ctrlThread.Some? {
        killed := ctrlThread;
        ctrlThread := None;
      }
    }

    method StartCtrl(started: bool, id: nat) returns (ok: bool)
      modifies this
      ensures View() == StartControl(old(View()), started, id) && ok == started
      ensures ok ==> state == Waiting && ctrlThread == Some(id) && nextCtrlStart == 0 && ctrlStartInterval == 0
    {
      if !started {
        return false;
      }
      ctrlThread := Some(id);
      nextCtrlStart, ctrlStartInterval := 0, 0;
      ChangeState(Waiting);
      ok := true;
    }

    /** Returns whether the thread was the control thread, and whether its end was expected. */
    method WorkerTerminated(thread: nat, exiting: bool) returns (acts: bool, expected: bool)
      modifies this`ctrlThread
      ensures acts == (old(ctrlThread) == Some(thread)) && expected == (exiting || state == Idle)
      ensures View() == if acts then old(View()).(ctrlThread := None) else old(View())
    {
      acts, expected := false, exiting || state == Idle;
      if ctrlThread == Some(thread) {
        ctrlThread := None;
        acts := true;
      }
    }

    method Retry(time: nat, now: nat) returns (decision: Decision)
      modifies this`nextCtrlStart, this`ctrlStartInterval
      ensures decision == Decide(old(View()), time)
      ensures decision.Try? <==> state == Idle && old(nextCtrlStart) != 0 && old(nextCtrlStart) >= time
      ensures decision.Plan? <==> state == Idle && old(nextCtrlStart) == 0
      ensures View() == if decision.Plan? then Reschedule(old(View()), now) else old(View())
    {
      decision := Nothing;
      if state == Idle {
        var schedule := true;
        if nextCtrlStart != 0 {
          schedule := false;
          if nextCtrlStart >= time {
            decision := Try;
          }
        }
        if schedule {
          Schedule(now);
          decision := Plan;
        }
      }
    }

    method Schedule(now: nat)
      modifies this`nextCtrlStart, this`ctrlStartInterval
      ensures View() == Reschedule(old(View()), now)
      ensures ctrlStartInterval == if old(ctrlStartInterval) == 0 then 1_000_000
                                   else if old(ctrlStartInterval) < 120_000_000 then 2 * old(ctrlStartInterval)
                                   else old(ctrlStartInterval)
      ensures nextCtrlStart == now + ctrlStartInterval
    {
      if ctrlStartInterval != 0 {
        if ctrlStartInterval < LAST_INTERVAL {
          ctrlStartInterval := 2 * ctrlStartInterval;
        }
      } else {
        ctrlStartInterval := FIRST_INTERVAL;
      }
      nextCtrlStart := now + ctrlStartInterval;
    }
  }

  function Single(x: Option<nat>): multiset<nat> {
    if x.Some? then multiset{x.value} else multiset{}
  }

  /** The transceivers the second half of a start lets go of: an old one, and the new one if it fails. */
  function Dropped(m: Shared, radio: bool, started: bool, id: nat): multiset<nat> {
    if !radio || m.state != Waiting then multiset{}
    else Single(m.trx) + (if started then multiset{} else multiset{id})
  }

  // ----- Threads -----

  /** What a thread does between two uses of the mutex, or without it. */
  datatype Instr =
    | Take | Stop                                 // trxStop: take the transceiver out, stop it
    | BeginStart | EndStart                       // trxStart: before and after the radio is created
    | HaltCtrl | AwaitCtrl | DropCtrl             // ctrlStop: go idle, wait for the control thread, kill it
    | StartCtrl(retry: bool) | Schedule           // ctrlStart after ctrlStop; a failed retry is planned again
    | CheckTrx | Inspect                          // onTimer: look at the transceiver if asked to
    | TimerState(time: nat) | TimerRetry(time: nat)
    | InitCheck                                   // initialize
    | Loop(id: nat)                               // readCtrlLoop
    | Terminated(id: nat)                         // workerTerminated, called at the end of run, cleanup and destruction

  /** A thread holds the transceiver it has taken and not stopped yet. */
  datatype Thread = Thread(todo: seq<Instr>, held: Option<nat>, worker: Option<nat>)

  datatype Command = Reset | StopTrx | Other | Done

  /** What the model does not decide: engine state, radio, sockets, commands and the clock. */
  datatype Choice = Choice(yes: bool, started: bool, cmd: Command, now: nat)

  datatype Event =
    | Run(i: nat, c: Choice)
    | Kill(i: nat)          // a control thread that was cancelled the hard way
    | Tick(time: nat)
    | Halt
    | Initialize
    | Flag                  // setCheckTrx

  /** trxs and workers count the transceivers and control threads created so far; the rest is history. */
  datatype System = System(m: Shared, threads: seq<Thread>, trxs: nat, workers: nat,
                           stopped: multiset<nat>, dropped: multiset<nat>, acted: multiset<nat>)

  const INITIAL := System(START, [], 0, 0, multiset{}, multiset{}, multiset{})

  /** A killed thread still reports its end when it is cleaned up and when it is destroyed. */
  function Ended(id: nat): Thread {
    Thread([Terminated(id), Terminated(id)], None, None)
  }

  /** The instructions that replace the first one. */
  function Follow(m: Shared, instr: Instr, c: Choice): seq<Instr> {
    match instr
    case Take => if m.trx.Some? then [Stop] else []
    case Stop => []
    case BeginStart => if c.yes then [] else [EndStart]
    case EndStart => []
    case HaltCtrl => if m.ctrlThread.Some? then [AwaitCtrl, DropCtrl] else []
    case AwaitCtrl => if m.ctrlThread.Some? && !c.yes then [AwaitCtrl] else []
    case DropCtrl => []
    case StartCtrl(retry) => if c.started then [] else if retry then [HaltCtrl, Schedule] else [HaltCtrl]
    case Schedule => []
    case CheckTrx => if m.checkTrx then [Inspect] else []
    case Inspect => if m.trx.Some? && c.yes then [Take] else []
    case TimerState(time) => if m.state == Idle then [Take, TimerRetry(time)] else []
    case TimerRetry(time) => if Decide(m, time).Try? then [HaltCtrl, StartCtrl(true)] else []
    case InitCheck => if m.state == Idle then [HaltCtrl, StartCtrl(false)] else []
    case Loop(id) =>
      (match c.cmd
       case Reset => [Take, BeginStart, Loop(id)]
       case StopTrx => [Take, Loop(id)]
       case Other => [Loop(id)]
       case Done => [Terminated(id), Terminated(id), Terminated(id)])
    case Terminated(id) =>
      if m.ctrlThread == Some(id) && !c.yes && m.state != Idle then [Take, HaltCtrl] else []
  }

  function Effect(m: Shared, instr: Instr, c: Choice, trxs: nat, workers: nat): Shared {
    match instr
    case Take => TakeTrx(m)
    case EndStart => FinishStart(m, c.yes, c.started, trxs)
    case HaltCtrl => m.(state := Idle)
    case DropCtrl => m.(ctrlThread := None)
    case StartCtrl(_) => StartControl(m, c.started, workers)
    case Schedule => Reschedule(m, c.now)
    case CheckTrx => m.(checkTrx := false)
    case TimerRetry(time) => if Decide(m, time).Plan? then Reschedule(m, c.now) else m
    case Terminated(id) => if m.ctrlThread == Some(id) then m.(ctrlThread := None) else m
    case _ => m
  }

  predicate Ready(s: System, i: nat) {
    i < |s.threads| && s.threads[i].todo != []
  }

  function Execute(s: System, i: nat, c: Choice): System
    requires Ready(s, i)
  {
    var t := s.threads[i];
    var instr := t.todo[0];
    var t' := t.(todo := Follow(s.m, instr, c) + t.todo[1..],
                 held := if instr.Take? then s.m.trx else if instr.Stop? then None else t.held);
    var spawned := if instr.StartCtrl? && c.started then [Thread([Loop(s.workers)], None, Some(s.workers))] else [];
    System(Effect(s.m, instr, c, s.trxs, s.workers), s.threads[i := t'] + spawned,
           s.trxs + (if instr.EndStart? && c.yes && s.m.state == Waiting then 1 else 0),
           s.workers + |spawned|,
           s.stopped + (if instr.Stop? then Single(t.held) else multiset{}),
           s.dropped + (if instr.EndStart? then Dropped(s.m, c.yes, c.started, s.trxs) else multiset{}),
           s.acted + (if instr.Terminated? && s.m.ctrlThread == Some(instr.id) then multiset{instr.id} else multiset{}))
  }

  function Spawn(s: System, todo: seq<Instr>): System {
    s.(threads := s.threads + [Thread(todo, None, None)])
  }

  /** One event; one that is not possible changes nothing. */
  function Next(s: System, e: Event): System {
    match e
    case Run(i, c) => if Ready(s, i) then Execute(s, i, c) else s
    case Kill(i) =>
      if i < |s.threads| && s.threads[i].worker.Some?
      then s.(threads := s.threads[i := Ended(s.threads[i].worker.value)],
              dropped := s.dropped + Single(s.threads[i].held))
      else s
    case Tick(time) => Spawn(s, [CheckTrx, TimerState(time)])
    case Halt => Spawn(s, [Take, HaltCtrl])
    case Initialize => Spawn(s, [InitCheck])
    case Flag => s.(m := s.m.(checkTrx := true))
  }

  function Exec(s: System, es: seq<Event>): System {
    if es == [] then s else Next(Exec(s, es[..|es| - 1]), es[|es| - 1])
  }

  // ----- What every run keeps -----

  function Hits(o: Option<nat>, x: nat): nat {
    if o == Some(x) then 1 else 0
  }

  /** How many threads hold transceiver x. */
  function Held(threads: seq<Thread>, x: nat): nat {
    if threads == [] then 0 else Hits(threads[0].held, x) + Held(threads[1..], x)
  }

  lemma {:induction false} HeldChanged(threads: seq<Thread>, i: nat, t: Thread, x: nat)
    requires i < |threads|
    ensures Held(threads[i := t], x) == Held(threads, x) - Hits(threads[i].held, x) + Hits(t.held, x)
  {
    if i > 0 {
      HeldChanged(threads[1..], i - 1, t, x);
      assert threads[i := t][1..] == threads[1..][i - 1 := t];
    } else {
      assert threads[i := t][1..] == threads[1..];
    }
  }

  lemma {:induction false} HeldAdded(threads: seq<Thread>, t: Thread, x: nat)
    ensures Held(threads + [t], x) == Held(threads, x) + Hits(t.held, x)
  {
    if threads == [] {
      assert (threads + [t])[1..] == [];
    } else {
      assert (threads + [t])[1..] == threads[1..] + [t];
      HeldAdded(threads[1..], t, x);
    }
  }

  /** A transceiver that was created is in exactly one place: in use, taken by exactly one thread, stopped, or let
      go of unstopped. */
  ghost predicate Conserved(s: System, x: nat) {
    Hits(s.m.trx, x) + Held(s.threads, x) + s.stopped[x] + s.dropped[x] == if x < s.trxs then 1 else 0
  }

  /** A thread that holds a transceiver is about to stop it. */
  ghost predicate AboutToStop(t: Thread) {
    (t.held.Some? <==> t.todo != [] && t.todo[0].Stop?) && forall k :: 1 <= k < |t.todo| ==> !t.todo[k].Stop?
  }

  ghost predicate RunningHasTrx(m: Shared) {
    m.state == Running ==> m.trx.Some?
  }

  /** The end of a control thread was acted on at most once, and not before the thread was created or while it is
      the control thread. */
  ghost predicate ActedOnce(s: System, id: nat) {
    s.acted[id] <= (if id < s.workers && s.m.ctrlThread != Some(id) then 1 else 0)
  }

  ghost predicate ControlKnown(s: System) {
    s.m.ctrlThread.Some? ==> s.m.ctrlThread.value < s.workers
  }

  /** The interval is the first one doubled at most seven times; a start is planned exactly when there is one. */
  predicate IntervalOk(m: Shared) {
    && m.ctrlStartInterval in {0, 1_000_000, 2_000_000, 4_000_000, 8_000_000, 16_000_000, 32_000_000, 64_000_000, 128_000_000}
    && (m.nextCtrlStart == 0 <==> m.ctrlStartInterval == 0)
  }

  ghost predicate Inv(s: System) {
    && RunningHasTrx(s.m) && ControlKnown(s) && IntervalOk(s.m)
    && (forall t <- s.threads :: AboutToStop(t))
    && (forall x: nat :: Conserved(s, x))
    && (forall id: nat :: ActedOnce(s, id))
  }

  lemma StepHeld(s: System, i: nat, c: Choice, x: nat)
    requires Ready(s, i)
    ensures var s' := Execute(s, i, c);
            Held(s'.threads, x) == Held(s.threads, x) - Hits(s.threads[i].held, x) + Hits(s'.threads[i].held, x)
  {
    hide Held, Follow, Effect, Dropped, Hits;
    var t', worker := Execute(s, i, c).threads[i], Thread([Loop(s.workers)], None, Some(s.workers));
    HeldChanged(s.threads, i, t', x);
    HeldAdded(s.threads[i := t'], worker, x);
    assert Hits(None, x) == 0 by { NoHit(x); }
    assert s.threads[i := t'] + [] == s.threads[i := t'];
  }

  lemma NoHit(x: nat)
    ensures Hits(None, x) == 0
  {
  }

  lemma StepConserves(s: System, i: nat, c: Choice, x: nat)
    requires Ready(s, i) && Conserved(s, x) && AboutToStop(s.threads[i])
    ensures Conserved(Execute(s, i, c), x)
  {
    var t, s' := s.threads[i], Execute(s, i, c);
    var instr := t.todo[0];
    EffectOnTrx(s.m, instr, c, s.trxs, s.workers, x);
    hide Held, Follow, Effect, Dropped;
    StepHeld(s, i, c, x);
    assert s'.stopped[x] == s.stopped[x] + if instr.Stop? then Hits(t.held, x) else 0;
    match instr {
      case EndStart => assert s'.dropped[x] == s.dropped[x] + Dropped(s.m, c.yes, c.started, s.trxs)[x];
      case _ => assert s'.dropped[x] == s.dropped[x];
    }
  }

  /** Where transceiver x goes when the one in use changes. */
  lemma EffectOnTrx(m: Shared, instr: Instr, c: Choice, trxs: nat, workers: nat, x: nat)
    ensures var m' := Effect(m, instr, c, trxs, workers);
            match instr
            case Take => m'.trx == None
            case EndStart =>
              Hits(m'.trx, x) + Dropped(m, c.yes, c.started, trxs)[x]
              == Hits(m.trx, x) + if c.yes && m.state == Waiting && x == trxs then 1 else 0
            case _ => m'.trx == m.trx
  {
  }

  lemma StepAboutToStop(s: System, i: nat, c: Choice)
    requires Ready(s, i) && AboutToStop(s.threads[i])
    ensures AboutToStop(Execute(s, i, c).threads[i])
  {
    var t := s.threads[i];
    var now, rest := Follow(s.m, t.todo[0], c), t.todo[1..];
    FollowStops(s.m, t.todo[0], c);
    hide Follow, Effect, Dropped;
    assert forall k :: 0 <= k < |rest| ==> !rest[k].Stop?;
    assert Execute(s, i, c).threads[i].todo == now + rest;
  }

  /** Only taking a transceiver is followed by stopping it, at once. */
  lemma FollowStops(m: Shared, instr: Instr, c: Choice)
    ensures var now := Follow(m, instr, c);
            && (instr.Take? && m.trx.Some? <==> now != [] && now[0].Stop?)
            && forall k :: 1 <= k < |now| ==> !now[k].Stop?
  {
  }

  lemma StepRunning(s: System, i: nat, c: Choice)
    requires Ready(s, i) && RunningHasTrx(s.m) && ControlKnown(s)
    ensures RunningHasTrx(Execute(s, i, c).m) && ControlKnown(Execute(s, i, c))
  {
    hide Follow, Dropped, Decide, NextInterval;
  }

  lemma StepActed(s: System, i: nat, c: Choice, id: nat)
    requires Ready(s, i) && ControlKnown(s) && ActedOnce(s, id)
    ensures ActedOnce(Execute(s, i, c), id)
  {
    hide Follow, Dropped, Decide, NextInterval;
    var instr, s' := s.threads[i].todo[0], Execute(s, i, c);
    assert s'.acted[id] == s.acted[id] + if instr.Terminated? && s.m.ctrlThread == Some(id) && instr.id == id then 1 else 0;
  }

  lemma StepInterval(s: System, i: nat, c: Choice)
    requires Ready(s, i) && IntervalOk(s.m)
    ensures IntervalOk(Execute(s, i, c).m)
  {
    hide Follow, Dropped, Decide;
  }

  lemma StepInv(s: System, i: nat, c: Choice)
    requires Ready(s, i) && Inv(s)
    ensures Inv(Execute(s, i, c))
  {
    var s' := Execute(s, i, c);
    forall x: nat
      ensures Conserved(s', x) && ActedOnce(s', x)
    {
      assert Conserved(s, x) && ActedOnce(s, x);
      StepConserves(s, i, c, x);
      StepActed(s, i, c, x);
    }
    StepAboutToStop(s, i, c);
    StepRunning(s, i, c);
    StepInterval(s, i, c);
    StepOthers(s, i, c);
    hide *;
  }

  lemma StepOthers(s: System, i: nat, c: Choice)
    requires Ready(s, i) && (forall t <- s.threads :: AboutToStop(t)) && AboutToStop(Execute(s, i, c).threads[i])
    ensures forall t <- Execute(s, i, c).threads :: AboutToStop(t)
  {
    hide Follow, AboutToStop;
    var s', u := Execute(s, i, c), Thread([Loop(s.workers)], None, Some(s.workers));
    FreshIsIdle(u);
    forall t <- s'.threads
      ensures t in s.threads || t == s'.threads[i] || t == u
    {
      var k :| 0 <= k < |s'.threads| && s'.threads[k] == t;
      assert k < |s.threads| && k != i ==> t == s.threads[k];
    }
  }

  lemma FreshIsIdle(t: Thread)
    requires t.held == None && forall instr <- t.todo :: !instr.Stop?
    ensures AboutToStop(t)
  {
  }

  lemma ReplaceInv(s: System, s': System, x: nat)
    requires Conserved(s, x) && s'.m.trx == s.m.trx && s'.trxs == s.trxs
    requires Held(s'.threads, x) + s'.stopped[x] + s'.dropped[x] == Held(s.threads, x) + s.stopped[x] + s.dropped[x]
    ensures Conserved(s', x)
  {
  }

  lemma KillInv(s: System, i: nat)
    requires Inv(s) && i < |s.threads| && s.threads[i].worker.Some?
    ensures Inv(Next(s, Kill(i)))
  {
    hide Held, Conserved;
    var t, s' := Ended(s.threads[i].worker.value), Next(s, Kill(i));
    forall x: nat
      ensures Conserved(s', x)
    {
      assert Conserved(s, x);
      HeldChanged(s.threads, i, t, x);
      ReplaceInv(s, s', x);
    }
    forall x: nat
      ensures ActedOnce(s', x)
    {
      assert ActedOnce(s, x);
    }
    FreshIsIdle(t);
  }

  lemma SpawnInv(s: System, todo: seq<Instr>)
    requires Inv(s) && forall instr <- todo :: !instr.Stop?
    ensures Inv(Spawn(s, todo))
  {
    hide Held, Conserved;
    var t, s' := Thread(todo, None, None), Spawn(s, todo);
    forall x: nat
      ensures Conserved(s', x)
    {
      assert Conserved(s, x);
      HeldAdded(s.threads, t, x);
      ReplaceInv(s, s', x);
    }
    forall x: nat
      ensures ActedOnce(s', x)
    {
      assert ActedOnce(s, x);
    }
    FreshIsIdle(t);
  }

  lemma NextInv(s: System, e: Event)
    requires Inv(s)
    ensures Inv(Next(s, e))
  {
    hide Held, Execute, Spawn, AboutToStop;
    match e {
      case Run(i, c) => if Ready(s, i) { StepInv(s, i, c); }
      case Kill(i) => if i < |s.threads| && s.threads[i].worker.Some? { KillInv(s, i); }
      case Tick(time) => SpawnInv(s, [CheckTrx, TimerState(time)]);
      case Halt => SpawnInv(s, [Take, HaltCtrl]);
      case Initialize => SpawnInv(s, [InitCheck]);
      case Flag =>
        forall x: nat
          ensures Conserved(Next(s, e), x) && ActedOnce(Next(s, e), x)
        {
          assert Conserved(s, x) && ActedOnce(s, x);
        }
    }
  }

  lemma {:induction false} ExecInv(es: seq<Event>)
    ensures Inv(Exec(INITIAL, es))
  {
    hide Next;
    if es == [] {
      assert forall x: nat :: Conserved(INITIAL, x) && ActedOnce(INITIAL, x);
    } else {
      ExecInv(es[..|es| - 1]);
      NextInv(Exec(INITIAL, es[..|es| - 1]), es[|es| - 1]);
    }
  }

  /** In every run, running implies a transceiver; the state becomes running exactly when, waiting, the second half of
      a start has got its radio and starts the transceiver, which that very step creates. */
  lemma RunningOnlyFromWaiting(es: seq<Event>, e: Event)
    ensures RunningHasTrx(Exec(INITIAL, es).m)
    ensures var s, s' := Exec(INITIAL, es), Next(Exec(INITIAL, es), e);
            s'.m.state == Running && s.m.state != Running <==>
              && s.m.state == Waiting && e.Run? && Ready(s, e.i) && s.threads[e.i].todo[0] == EndStart
              && e.c.yes && e.c.started
    ensures var s, s' := Exec(INITIAL, es), Next(Exec(INITIAL, es), e);
            s'.m.state == Running && s.m.state != Running ==> s'.m.trx == Some(s.trxs) && s'.trxs == s.trxs + 1
  {
    hide Exec, Held, Inv, Follow, Dropped, Decide, NextInterval;
    ExecInv(es);
    InvParts(Exec(INITIAL, es), 0);
  }

  lemma InvParts(s: System, x: nat)
    requires Inv(s)
    ensures RunningHasTrx(s.m) && Conserved(s, x) && ActedOnce(s, x)
  {
  }

  /** In every run each transceiver ever created is in exactly one place; so it is stopped at most once, and not
      while it is in use or held by a thread. */
  lemma StoppedAtMostOnce(es: seq<Event>, x: nat)
    ensures var s := Exec(INITIAL, es);
            Hits(s.m.trx, x) + Held(s.threads, x) + s.stopped[x] + s.dropped[x] == if x < s.trxs then 1 else 0
  {
    hide Exec, Held, Inv;
    ExecInv(es);
    InvParts(Exec(INITIAL, es), x);
  }

  /** When all threads are done, every transceiver ever created is in use, was stopped, or was let go of. */
  lemma NoneLostWhenQuiet(es: seq<Event>, x: nat)
    requires forall t <- Exec(INITIAL, es).threads :: t.todo == []
    ensures var s := Exec(INITIAL, es);
            Hits(s.m.trx, x) + s.stopped[x] + s.dropped[x] == if x < s.trxs then 1 else 0
  {
    StoppedAtMostOnce(es, x);
    ExecInv(es);
    NoneHeld(Exec(INITIAL, es).threads, x);
  }

  lemma {:induction false} NoneHeld(threads: seq<Thread>, x: nat)
    requires forall t <- threads :: t.todo == [] && AboutToStop(t)
    ensures Held(threads, x) == 0
  {
    if threads != [] {
      assert threads[0] in threads;
      NoneHeld(threads[1..], x);
    }
  }

  /** In every run the end of a control thread is acted on at most once, though a thread reports it up to three times. */
  lemma TerminationActsOnce(es: seq<Event>, id: nat)
    ensures Exec(INITIAL, es).acted[id] <= 1
  {
    hide Exec, Held, Inv;
    ExecInv(es);
    InvParts(Exec(INITIAL, es), id);
  }

  /** In every run the time between two planned starts is the first interval doubled at most seven times. */
  lemma {:induction false} IntervalBounded(es: seq<Event>)
    ensures IntervalOk(Exec(INITIAL, es).m)
  {
    hide Exec, Held;
    ExecInv(es);
  }

  // ----- Trying again -----

  /** An instruction of a thread that is not going to start the control thread. */
  predicate Harmless(instr: Instr, deadline: nat) {
    match instr
    case StartCtrl(_) => false
    case Schedule => false
    case InitCheck => false
    case TimerState(time) => deadline < time
    case TimerRetry(time) => deadline < time
    case _ => true
  }

  /** The module is idle and its planned start is overdue. */
  ghost predicate Missed(s: System, deadline: nat) {
    && s.m.state == Idle && s.m.nextCtrlStart == deadline > 0
    && forall t <- s.threads :: forall instr <- t.todo :: Harmless(instr, deadline)
  }

  predicate Late(e: Event, deadline: nat) {
    !e.Initialize? && (e.Tick? ==> deadline < e.time)
  }

  lemma MissedStep(s: System, deadline: nat, e: Event)
    requires Missed(s, deadline) && Late(e, deadline)
    ensures Missed(Next(s, e), deadline) && Next(s, e).workers == s.workers
  {
    if e.Run? && e.i < |s.threads| && s.threads[e.i].todo != [] {
      var t, s' := s.threads[e.i], Next(s, e);
      assert t in s.threads && t.todo[0] in t.todo;
      assert forall instr <- t.todo[1..] :: instr in t.todo;
      FollowHarmless(s.m, t.todo[0], e.c, deadline);
      hide Follow, Harmless;
      assert s'.threads == s.threads[e.i := s'.threads[e.i]];
      assert forall instr <- s'.threads[e.i].todo :: Harmless(instr, deadline);
    }
  }

  lemma FollowHarmless(m: Shared, instr: Instr, c: Choice, deadline: nat)
    requires m.state == Idle && m.nextCtrlStart == deadline > 0 && Harmless(instr, deadline)
    ensures forall next <- Follow(m, instr, c) :: Harmless(next, deadline)
    ensures !instr.StartCtrl? && !instr.Schedule?
    ensures forall trxs, workers :: Effect(m, instr, c, trxs, workers).state == Idle
                                    && Effect(m, instr, c, trxs, workers).nextCtrlStart == deadline
  {
  }

  /** Which is what happens when the first timer message finds the module idle: a run of five steps plans a start,
      after which only messages up to that time would be heard. */
  lemma CanBeMissed(time: nat, c: Choice)
    ensures Missed(Exec(INITIAL, [Tick(time), Run(0, c), Run(0, c), Run(0, c), Run(0, c)]), c.now + 1_000_000)
  {
    hide *;
    var r := Run(0, c);
    Then(INITIAL, [], Tick(time));
    Then(INITIAL, [Tick(time)], r);
    Then(INITIAL, [Tick(time), r], r);
    Then(INITIAL, [Tick(time), r, r], r);
    Then(INITIAL, [Tick(time), r, r, r], r);
    TickPlans(time, c);
    assert [] + [Tick(time)] == [Tick(time)] && [Tick(time)] + [r] == [Tick(time), r];
    assert [Tick(time), r] + [r] == [Tick(time), r, r] && [Tick(time), r, r] + [r] == [Tick(time), r, r, r];
    assert [Tick(time), r, r, r] + [r] == [Tick(time), r, r, r, r];
  }

  lemma TickPlans(time: nat, c: Choice)
    ensures var r := Run(0, c);
            Missed(Next(Next(Next(Next(Next(INITIAL, Tick(time)), r), r), r), r), c.now + 1_000_000)
  {
    Ticked(time);
    Walk(START, [CheckTrx, TimerState(time)], [TimerState(time)], c);
    Walk(START, [TimerState(time)], [Take, TimerRetry(time)], c);
    Walk(START, [Take, TimerRetry(time)], [TimerRetry(time)], c);
    Walk(START, [TimerRetry(time)], [], c);
    hide Next, Follow, Exec, Execute;
  }

  lemma Walk(m: Shared, todo: seq<Instr>, todo': seq<Instr>, c: Choice)
    requires m.trx == None && todo != [] && todo' == Follow(m, todo[0], c) + todo[1..]
    requires !todo[0].StartCtrl? && !todo[0].EndStart? && !todo[0].Terminated?
    ensures Next(Only(m, todo), Run(0, c)) == Only(Effect(m, todo[0], c, 0, 0), todo')
  {
  }

  lemma Ticked(time: nat)
    ensures Next(INITIAL, Tick(time)) == Only(START, [CheckTrx, TimerState(time)])
  {
    var t := Thread([CheckTrx, TimerState(time)], None, None);
    assert INITIAL.threads + [t] == [t];
  }

  lemma Then(s: System, es: seq<Event>, e: Event)
    ensures Exec(s, []) == s && Exec(s, es + [e]) == Next(Exec(s, es), e)
  {
    assert (es + [e])[..|es|] == es;
  }

  function Only(m: Shared, todo: seq<Instr>): System {
    INITIAL.(m := m, threads := [Thread(todo, None, None)])
  }

  /** Once the planned start is overdue, no timer message ever starts the control thread again: whatever happens
      but a new initialization, the module stays idle. */
  lemma {:induction false} MissedForever(s: System, deadline: nat, es: seq<Event>)
    requires Missed(s, deadline) && forall e <- es :: Late(e, deadline)
    ensures Missed(Exec(s, es), deadline) && Exec(s, es).workers == s.workers
  {
    if es != [] {
      var last := |es| - 1;
      assert es[last] in es;
      MissedForever(s, deadline, es[..last]);
      MissedStep(Exec(s, es[..last]), deadline, es[last]);
    }
  }

  // ----- Timer messages handled one after the other -----

  /** A timer message, and the choices of the steps of the thread that handles it. */
  datatype Message = Message(time: nat, choices: seq<Choice>)

  /** The most steps a timer message takes when the start it tries succeeds. */
  const MOST_STEPS: nat := 12

  function Steps(i: nat, cs: seq<Choice>): (es: seq<Event>)
    ensures |es| == |cs|
  {
    seq(|cs|, k requires 0 <= k < |cs| => Run(i, cs[k]))
  }

  function Handle(s: System, msg: Message): System {
    Exec(Next(s, Tick(msg.time)), Steps(|s.threads|, msg.choices))
  }

  function HandleAll(s: System, ms: seq<Message>): System {
    if ms == [] then s else Handle(HandleAll(s, ms[..|ms| - 1]), ms[|ms| - 1])
  }

  /** What is left to do of a timer message, by the number of steps that are still possible. */
  function Left(time: nat, n: nat): seq<Instr>
    requires n <= MOST_STEPS
  {
    match n
    case 0 => []
    case 1 => [StartCtrl(true)]
    case 2 => [DropCtrl, StartCtrl(true)]
    case 3 => [AwaitCtrl, DropCtrl, StartCtrl(true)]
    case 4 => [HaltCtrl, StartCtrl(true)]
    case 5 => [TimerRetry(time)]
    case 6 => [Stop, TimerRetry(time)]
    case 7 => [Take, TimerRetry(time)]
    case 8 => [TimerState(time)]
    case 9 => [Stop, TimerState(time)]
    case 10 => [Take, TimerState(time)]
    case 11 => [Inspect, TimerState(time)]
    case _ => [CheckTrx, TimerState(time)]
  }

  /** A start is planned for d; the control thread, if there is one, was started earlier. */
  predicate Planned(s: System, d: nat, ctrl: Option<nat>, workers: nat) {
    s.m.state == Idle && s.m.nextCtrlStart == d > 0 && s.m.ctrlThread == ctrl && s.workers == workers
  }

  predicate Under(s: System, workers: nat) {
    s.m.state == Waiting && s.workers == workers
  }

  /** Starting succeeds, and waiting for a control thread to end gives up. */
  predicate Willing(c: Choice, ctrl: Option<nat>) {
    c.started && (ctrl.Some? ==> c.yes)
  }

  /** Thread i handles a message of an idle module with n steps left at most, or is done with it. */
  predicate OnTrack(s: System, i: nat, time: nat, n: nat, d: nat, ctrl: Option<nat>, workers: nat) {
    && i < |s.threads| && n <= MOST_STEPS && s.threads[i].todo == Left(time, n)
    && (0 < n <= 4 ==> time <= d)
    && if n == 0 && time <= d then Under(s, workers + 1)
       else if n == 1 then Planned(s, d, s.m.ctrlThread, workers)
       else Planned(s, d, ctrl, workers)
  }

  lemma OnTrackStep(s: System, i: nat, time: nat, n: nat, d: nat, ctrl: Option<nat>, workers: nat, c: Choice) returns (n': nat)
    requires OnTrack(s, i, time, n, d, ctrl, workers) && Willing(c, ctrl)
    ensures OnTrack(Next(s, Run(i, c)), i, time, n', d, ctrl, workers) && (n' < n || n' == n == 0)
  {
    if n == 0 {
      return 0;
    }
    var s' := Next(s, Run(i, c));
    var instr, rest := s.threads[i].todo[0], s.threads[i].todo[1..];
    n' := match instr
      case CheckTrx => if s.m.checkTrx then 11 else 8
      case Inspect => if s.m.trx.Some? && c.yes then 10 else 8
      case Take => if s.m.trx.Some? then n - 1 else n - 2
      case TimerRetry(_) => if time <= d then 4 else 0
      case HaltCtrl => if s.m.ctrlThread.Some? then 3 else 1
      case _ => n - 1;
    assert s'.threads[i].todo == Follow(s.m, instr, c) + rest == Left(time, n');
  }

  lemma {:induction false} OnTrackRun(s: System, i: nat, time: nat, n: nat, d: nat, ctrl: Option<nat>, workers: nat, cs: seq<Choice>)
    returns (n': nat)
    requires OnTrack(s, i, time, n, d, ctrl, workers) && forall c <- cs :: Willing(c, ctrl)
    ensures OnTrack(Exec(s, Steps(i, cs)), i, time, n', d, ctrl, workers) && (n' == 0 || n' + |cs| <= n)
  {
    hide OnTrack, Willing, Next;
    if cs == [] {
      n' := n;
    } else {
      var most, last := cs[..|cs| - 1], cs[|cs| - 1];
      n' := OnTrackRun(s, i, time, n, d, ctrl, workers, most);
      n' := OnTrackStep(Exec(s, Steps(i, most)), i, time, n', d, ctrl, workers, last);
      StepsSnoc(i, most, last);
      assert cs == most + [last];
      Then(s, Steps(i, most), Run(i, last));
    }
  }

  lemma StepsSnoc(i: nat, cs: seq<Choice>, c: Choice)
    ensures Steps(i, cs + [c]) == Steps(i, cs) + [Run(i, c)]
  {
  }

  /** Handled alone, a timer message starts the control thread exactly when it is not late. */
  lemma IdleHandles(s: System, msg: Message, d: nat, ctrl: Option<nat>, workers: nat)
    requires Planned(s, d, ctrl, workers) && |msg.choices| >= MOST_STEPS && forall c <- msg.choices :: Willing(c, ctrl)
    ensures if msg.time <= d then Under(Handle(s, msg), workers + 1) else Planned(Handle(s, msg), d, ctrl, workers)
  {
    var n := OnTrackRun(Next(s, Tick(msg.time)), |s.threads|, msg.time, MOST_STEPS, d, ctrl, workers, msg.choices);
  }

  /** Thread i handles a message of a module that is not idle. */
  predicate Idles(s: System, i: nat, time: nat, n: nat, workers: nat) {
    i < |s.threads| && (n == 0 || 8 <= n <= MOST_STEPS) && s.threads[i].todo == Left(time, n) && Under(s, workers)
  }

  lemma IdlesStep(s: System, i: nat, time: nat, n: nat, workers: nat, c: Choice) returns (n': nat)
    requires Idles(s, i, time, n, workers)
    ensures Idles(Next(s, Run(i, c)), i, time, n', workers)
  {
    if n == 0 {
      return 0;
    }
    var s' := Next(s, Run(i, c));
    var instr, rest := s.threads[i].todo[0], s.threads[i].todo[1..];
    n' := match instr
      case CheckTrx => if s.m.checkTrx then 11 else 8
      case Inspect => if s.m.trx.Some? && c.yes then 10 else 8
      case Take => if s.m.trx.Some? then 9 else 8
      case TimerState(_) => 0
      case _ => 8;
    assert s'.threads[i].todo == Follow(s.m, instr, c) + rest == Left(time, n');
  }

  lemma {:induction false} IdlesRun(s: System, i: nat, time: nat, n: nat, workers: nat, cs: seq<Choice>) returns (n': nat)
    requires Idles(s, i, time, n, workers)
    ensures Idles(Exec(s, Steps(i, cs)), i, time, n', workers)
  {
    hide Idles, Next;
    if cs == [] {
      n' := n;
    } else {
      var most, last := cs[..|cs| - 1], cs[|cs| - 1];
      n' := IdlesRun(s, i, time, n, workers, most);
      n' := IdlesStep(Exec(s, Steps(i, most)), i, time, n', workers, last);
      StepsSnoc(i, most, last);
      assert cs == most + [last];
      Then(s, Steps(i, most), Run(i, last));
    }
  }

  lemma BusyHandles(s: System, msg: Message, workers: nat)
    requires Under(s, workers)
    ensures Under(Handle(s, msg), workers)
  {
    var n := IdlesRun(Next(s, Tick(msg.time)), |s.threads|, msg.time, MOST_STEPS, workers, msg.choices);
  }

  predicate Timely(ms: seq<Message>, d: nat) {
    exists k :: 0 <= k < |ms| && ms[k].time <= d
  }

  predicate AllWilling(ms: seq<Message>, ctrl: Option<nat>) {
    forall k :: 0 <= k < |ms| ==> |ms[k].choices| >= MOST_STEPS && forall c <- ms[k].choices :: Willing(c, ctrl)
  }

  lemma LastMessage(ms: seq<Message>, d: nat, ctrl: Option<nat>)
    requires ms != [] && AllWilling(ms, ctrl)
    ensures var most, last := ms[..|ms| - 1], ms[|ms| - 1];
            && (Timely(ms, d) <==> Timely(most, d) || last.time <= d)
            && AllWilling(most, ctrl) && |last.choices| >= MOST_STEPS && forall c <- last.choices :: Willing(c, ctrl)
  {
    var most := ms[..|ms| - 1];
    assert forall k :: 0 <= k < |most| ==> most[k] == ms[k];
    if Timely(most, d) {
      var k :| 0 <= k < |most| && most[k].time <= d;
      assert ms[k].time <= d;
    }
  }

  /** Of any timer messages handled one after the other by an idle module with a planned start that would succeed, the
      control thread is started, once, exactly if one is stamped no later than planned; else the plan stands. */
  lemma {:induction false} StartedIffTimely(s: System, d: nat, ms: seq<Message>)
    requires Planned(s, d, s.m.ctrlThread, s.workers) && AllWilling(ms, s.m.ctrlThread)
    ensures HandleAll(s, ms).workers > s.workers <==> Timely(ms, d)
    ensures if Timely(ms, d) then Under(HandleAll(s, ms), s.workers + 1)
            else Planned(HandleAll(s, ms), d, s.m.ctrlThread, s.workers)
  {
    if ms != [] {
      var most, last := ms[..|ms| - 1], ms[|ms| - 1];
      LastMessage(ms, d, s.m.ctrlThread);
      StartedIffTimely(s, d, most);
      hide Handle, Willing, AllWilling, Timely;
      if Timely(most, d) {
        BusyHandles(HandleAll(s, most), last, s.workers + 1);
      } else {
        IdleHandles(HandleAll(s, most), last, d, s.m.ctrlThread, s.workers);
      }
    }
  }
}
