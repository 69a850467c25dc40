/** Timer, drop and routing threads of a driver under every interleaving: the latch that admits one scan at a time,
    the counters of routers, and the mutex. */
module DriverThreads {
  import opened Options

  /** Where a thread is. Each step is a use of the mutex or an access to the latch; left counts the channels the
      iterator has not offered yet. */
  datatype Pc =
    | TimerStart | TimerWait | TimerLocked
    | ScanLocked(left: nat) | ScanFree(left: nat, found: bool) | ScanWait(left: nat) | ScanOver
    | DropWait(left: nat) | DropLocked(left: nat) | DropFree(left: nat, found: bool)
    | RouteWait | RouteLocked | Routing | FindWait | FindLocked | LeaveWait(ok: bool) | LeaveLocked(ok: bool)
    | Ended
    | RouterEnded(ok: bool)

  /** owner is the thread that has the mutex. */
  datatype State = State(owner: Option<nat>, doExpire: bool, routing: int, routed: nat, pcs: seq<Pc>)

  const INITIAL := State(None, true, 0, 0, [])

  /** What the model leaves open: whether a lock is had, a channel is alive, a lookup is made or routing succeeds. */
  datatype Choice = Choice(yes: bool, ok: bool, channels: nat)

  datatype Event = Run(i: nat, c: Choice) | Timer | DropAll(channels: nat) | Router

  predicate Owns(pc: Pc) {
    pc.TimerLocked? || pc.ScanLocked? || pc.DropLocked? || pc.RouteLocked? || pc.FindLocked? || pc.LeaveLocked?
  }

  predicate Waits(pc: Pc) {
    pc.TimerWait? || pc.ScanWait? || pc.DropWait? || pc.RouteWait? || pc.FindWait? || pc.LeaveWait?
  }

  /** The iterator offers a living channel, having passed over dead ones, or is at its end. */
  function Offer(left: nat, c: Choice): (nat, bool) {
    if left > 0 && c.yes then (if c.channels < left then c.channels else left - 1, true) else (0, false)
  }

  /** Where a thread goes; a waiting one has just been given the mutex. */
  function Move(pc: Pc, doExpire: bool, c: Choice): Pc {
    match pc
    case TimerStart => if doExpire then TimerWait else Ended
    case TimerWait => TimerLocked
    case TimerLocked => if doExpire then ScanLocked(c.channels) else Ended
    case ScanLocked(left) => ScanFree(Offer(left, c).0, Offer(left, c).1)
    case ScanFree(left, found) => if found then ScanWait(left) else ScanOver
    case ScanWait(left) => ScanLocked(left)
    case ScanOver => Ended
    case DropWait(left) => DropLocked(left)
    case DropLocked(left) => DropFree(Offer(left, c).0, Offer(left, c).1)
    case DropFree(left, found) => if found then DropWait(left) else Ended
    case RouteWait => RouteLocked
    case RouteLocked => Routing
    case Routing => if c.yes then FindWait else LeaveWait(c.ok)
    case FindWait => FindLocked
    case FindLocked => Routing
    case LeaveWait(ok) => LeaveLocked(ok)
    case LeaveLocked(ok) => RouterEnded(ok)
    case Ended => Ended
    case RouterEnded(ok) => RouterEnded(ok)
  }

  /** One step of thread i. Only the first lock of a timer message can time out; other threads wait. */
  function Execute(s: State, i: nat, c: Choice): State
    requires i < |s.pcs|
  {
    var pc := s.pcs[i];
    if Waits(pc) && s.owner.Some? then
      if pc.TimerWait? && c.yes then s.(pcs := s.pcs[i := Ended]) else s
    else
      var pc' := Move(pc, s.doExpire, c);
      State(if Owns(pc') then Some(i) else if Owns(pc) then None else s.owner,
            if pc.TimerLocked? && s.doExpire then false else if pc.ScanOver? then true else s.doExpire,
            if pc.RouteLocked? then s.routing + 1 else if pc.LeaveLocked? then s.routing - 1 else s.routing,
            if pc.LeaveLocked? && pc.ok then s.routed + 1 else s.routed,
            s.pcs[i := pc'])
  }

  function Next(s: State, e: Event): State {
    match e
    case Run(i, c) => if i < |s.pcs| then Execute(s, i, c) else s
    case Timer => s.(pcs := s.pcs + [TimerStart])
    case DropAll(channels) => s.(pcs := s.pcs + [DropWait(channels)])
    case Router => s.(pcs := s.pcs + [RouteWait])
  }

  function Exec(s: State, es: seq<Event>): State {
    if es == [] then s else Next(Exec(s, es[..|es| - 1]), es[|es| - 1])
  }

  // ----- Counting threads -----

  datatype Kind = Scanning | AtWork | Succeeded | Finished

  predicate Is(pc: Pc, k: Kind) {
    match k
    case Scanning => pc.ScanLocked? || pc.ScanFree? || pc.ScanWait? || pc.ScanOver?
    case AtWork => pc.Routing? || pc.FindWait? || pc.FindLocked? || pc.LeaveWait? || pc.LeaveLocked?
    case Succeeded => pc == RouterEnded(true)
    case Finished => pc.RouterEnded?
  }

  function One(pc: Pc, k: Kind): nat {
    if Is(pc, k) then 1 else 0
  }

  function Count(pcs: seq<Pc>, k: Kind): nat {
    if pcs == [] then 0 else One(pcs[0], k) + Count(pcs[1..], k)
  }

  lemma {:induction false} CountChanged(pcs: seq<Pc>, i: nat, pc: Pc, k: Kind)
    requires i < |pcs|
    ensures Count(pcs[i := pc], k) == Count(pcs, k) - One(pcs[i], k) + One(pc, k)
  {
    hide Is;
    if i > 0 {
      CountChanged(pcs[1..], i - 1, pc, k);
      assert pcs[i := pc][1..] == pcs[1..][i - 1 := pc];
    } else {
      assert pcs[i := pc][1..] == pcs[1..];
    }
  }

  lemma {:induction false} CountAdded(pcs: seq<Pc>, pc: Pc, k: Kind)
    ensures Count(pcs + [pc], k) == Count(pcs, k) + One(pc, k)
  {
    hide Is;
    if pcs == [] {
      assert (pcs + [pc])[1..] == [];
    } else {
      assert (pcs + [pc])[1..] == pcs[1..] + [pc];
      CountAdded(pcs[1..], pc, k);
    }
  }

  lemma {:induction false} CountAtMost(pcs: seq<Pc>, k: Kind, m: Kind)
    requires forall pc <- pcs :: Is(pc, k) ==> Is(pc, m)
    ensures Count(pcs, k) <= Count(pcs, m)
  {
    hide Is;
    if pcs != [] {
      assert pcs[0] in pcs;
      CountAtMost(pcs[1..], k, m);
    }
  }

  lemma {:induction false} CountOne(pcs: seq<Pc>, k: Kind, i: nat)
    requires i < |pcs| && Is(pcs[i], k)
    ensures Count(pcs, k) >= 1
    ensures Count(pcs, k) == 1 ==> forall j :: 0 <= j < |pcs| && Is(pcs[j], k) ==> j == i
  {
    hide Is;
    forall j | 0 <= j < |pcs| && Is(pcs[j], k) && j != i
      ensures Count(pcs, k) >= 2
    {
      CountTwo(pcs, k, if i < j then i else j, if i < j then j else i);
    }
    if i > 0 {
      CountOne(pcs[1..], k, i - 1);
    }
  }

  lemma {:induction false} CountTwo(pcs: seq<Pc>, k: Kind, i: nat, j: nat)
    requires i < j < |pcs| && Is(pcs[i], k) && Is(pcs[j], k)
    ensures Count(pcs, k) >= 2
  {
    hide Is;
    if i > 0 {
      CountTwo(pcs[1..], k, i - 1, j - 1);
    } else {
      CountSome(pcs[1..], k, j - 1);
    }
  }

  lemma {:induction false} CountSome(pcs: seq<Pc>, k: Kind, i: nat)
    requires i < |pcs| && Is(pcs[i], k)
    ensures Count(pcs, k) >= 1
  {
    hide Is;
    if i > 0 {
      CountSome(pcs[1..], k, i - 1);
    }
  }

  // ----- What every run keeps -----

  ghost predicate MutexOk(s: State) {
    forall i :: 0 <= i < |s.pcs| ==> (Owns(s.pcs[i]) <==> s.owner == Some(i))
  }

  ghost predicate CountsOk(s: State) {
    && Count(s.pcs, Scanning) == (if s.doExpire then 0 else 1)
    && s.routing == Count(s.pcs, AtWork) && s.routed == Count(s.pcs, Succeeded)
  }

  lemma StepMutex(s: State, i: nat, c: Choice)
    requires i < |s.pcs| && MutexOk(s)
    ensures MutexOk(Execute(s, i, c))
  {
    MoveOwns(s.pcs[i], s.doExpire, c);
    hide Owns, Waits, Move;
  }

  /** A thread comes to own the mutex only by waiting for it, and keeps it otherwise at most. */
  lemma MoveOwns(pc: Pc, doExpire: bool, c: Choice)
    ensures Owns(Move(pc, doExpire, c)) ==> Owns(pc) || Waits(pc)
    ensures !Owns(Ended) && !(Owns(pc) && Waits(pc))
  {
  }

  lemma StepCounts(s: State, i: nat, c: Choice)
    requires i < |s.pcs| && CountsOk(s)
    ensures CountsOk(Execute(s, i, c))
  {
    var pc, s' := s.pcs[i], Execute(s, i, c);
    var pc' := s'.pcs[i];
    CountChanged(s.pcs, i, pc', Scanning);
    CountChanged(s.pcs, i, pc', AtWork);
    CountChanged(s.pcs, i, pc', Succeeded);
    if pc.ScanOver? {
      CountSome(s.pcs, Scanning, i);
    }
    MoveCounts(pc, s.doExpire, c);
    hide Count, One, Move, Offer, Owns;
    assert Waits(pc) ==> !pc.TimerLocked? && !pc.ScanOver? && !pc.RouteLocked? && !pc.LeaveLocked?;
    assert One(Ended, Scanning) == One(TimerWait, Scanning) && One(Ended, AtWork) == One(TimerWait, AtWork)
           && One(Ended, Succeeded) == One(TimerWait, Succeeded) by { TimedOut(); }
  }

  lemma TimedOut()
    ensures forall k :: One(Ended, k) == One(TimerWait, k)
  {
  }

  /** How each step changes the counts: as it changes the counters. */
  lemma MoveCounts(pc: Pc, doExpire: bool, c: Choice)
    ensures var pc' := Move(pc, doExpire, c);
            && One(pc', Scanning) - One(pc, Scanning)
               == (if pc.TimerLocked? && doExpire then 1 else if pc.ScanOver? then -1 else 0)
            && One(pc', AtWork) - One(pc, AtWork) == (if pc.RouteLocked? then 1 else if pc.LeaveLocked? then -1 else 0)
            && One(pc', Succeeded) - One(pc, Succeeded) == (if pc.LeaveLocked? && pc.ok then 1 else 0)
  {
  }

  lemma StartCounts(s: State, pc: Pc)
    requires CountsOk(s) && (pc.TimerStart? || pc.DropWait? || pc.RouteWait?)
    ensures CountsOk(s.(pcs := s.pcs + [pc]))
  {
    CountAdded(s.pcs, pc, Scanning);
    CountAdded(s.pcs, pc, AtWork);
    CountAdded(s.pcs, pc, Succeeded);
    hide Count;
  }

  lemma NextOk(s: State, e: Event)
    requires MutexOk(s) && CountsOk(s) && (s.owner.Some? ==> s.owner.value < |s.pcs|)
    ensures var s' := Next(s, e); MutexOk(s') && CountsOk(s') && (s'.owner.Some? ==> s'.owner.value < |s'.pcs|)
  {
    hide Count;
    match e {
      case Run(i, c) =>
        if i < |s.pcs| {
          StepMutex(s, i, c);
          StepCounts(s, i, c);
        }
      case Timer => StartCounts(s, TimerStart);
      case DropAll(n) => StartCounts(s, DropWait(n));
      case Router => StartCounts(s, RouteWait);
    }
  }

  lemma {:induction false} ExecOk(es: seq<Event>)
    ensures var s := Exec(INITIAL, es); MutexOk(s) && CountsOk(s) && (s.owner.Some? ==> s.owner.value < |s.pcs|)
  {
    if es != [] {
      ExecOk(es[..|es| - 1]);
      NextOk(Exec(INITIAL, es[..|es| - 1]), es[|es| - 1]);
    }
  }

  /** In every run at most one thread scans, and the latch is down exactly while one does. */
  lemma OneScanAtATime(es: seq<Event>, i: nat)
    requires i < |Exec(INITIAL, es).pcs| && Is(Exec(INITIAL, es).pcs[i], Scanning)
    ensures !Exec(INITIAL, es).doExpire
    ensures forall j :: 0 <= j < |Exec(INITIAL, es).pcs| && Is(Exec(INITIAL, es).pcs[j], Scanning) ==> j == i
  {
    ExecOk(es);
    CountOne(Exec(INITIAL, es).pcs, Scanning, i);
  }

  /** In every run, if the latch is down there is a thread in a scan, which will lift it. */
  lemma LatchHasScan(es: seq<Event>)
    requires !Exec(INITIAL, es).doExpire
    ensures exists i :: 0 <= i < |Exec(INITIAL, es).pcs| && Is(Exec(INITIAL, es).pcs[i], Scanning)
  {
    ExecOk(es);
    CountFind(Exec(INITIAL, es).pcs, Scanning);
  }

  lemma {:induction false} CountFind(pcs: seq<Pc>, k: Kind)
    requires Count(pcs, k) > 0
    ensures exists i :: 0 <= i < |pcs| && Is(pcs[i], k)
  {
    hide Is;
    if !Is(pcs[0], k) {
      CountFind(pcs[1..], k);
      var i :| 0 <= i < |pcs[1..]| && Is(pcs[1..][i], k);
      assert Is(pcs[i + 1], k);
    }
  }

  /** In every run the mutex is balanced: a thread that is done does not have it, and two never do. */
  lemma MutexBalanced(es: seq<Event>, i: nat, j: nat)
    requires i < |Exec(INITIAL, es).pcs| && j < |Exec(INITIAL, es).pcs| && Owns(Exec(INITIAL, es).pcs[i])
    ensures !Exec(INITIAL, es).pcs[i].Ended? && !Exec(INITIAL, es).pcs[i].RouterEnded?
    ensures Owns(Exec(INITIAL, es).pcs[j]) ==> i == j
  {
    ExecOk(es);
  }

  /** In every run the counter of routers is the number of threads between its two updates, and no more calls count
      as routed than routers have finished. */
  lemma RoutersCounted(es: seq<Event>)
    ensures var s := Exec(INITIAL, es); s.routing == Count(s.pcs, AtWork) && s.routed == Count(s.pcs, Succeeded) <= Count(s.pcs, Finished)
  {
    ExecOk(es);
    CountAtMost(Exec(INITIAL, es).pcs, Succeeded, Finished);
  }

  /** Once all threads are done, nobody has the mutex, the latch is up and no router is counted. */
  lemma QuietDriver(es: seq<Event>)
    requires forall pc <- Exec(INITIAL, es).pcs :: pc.Ended? || pc.RouterEnded?
    ensures Exec(INITIAL, es).owner == None && Exec(INITIAL, es).doExpire && Exec(INITIAL, es).routing == 0
  {
    var s := Exec(INITIAL, es);
    ExecOk(es);
    forall i | 0 <= i < |s.pcs|
      ensures !Owns(s.pcs[i])
    {
      assert s.pcs[i] in s.pcs;
    }
    CountNone(s.pcs, Scanning);
    CountNone(s.pcs, AtWork);
  }

  lemma {:induction false} CountNone(pcs: seq<Pc>, k: Kind)
    requires forall pc <- pcs :: !Is(pc, k)
    ensures Count(pcs, k) == 0
  {
    hide Is;
    if pcs != [] {
      assert pcs[0] in pcs;
      CountNone(pcs[1..], k);
    }
  }

  // ----- What a thread achieves when the mutex is free -----

  /** A run of thread i alone. */
  predicate OnlyOf(i: nat, es: seq<Event>) {
    forall e <- es :: e.Run? && e.i == i
  }

  lemma {:induction false} Joined(s: State, es: seq<Event>, fs: seq<Event>)
    ensures Exec(s, es + fs) == Exec(Exec(s, es), fs)
  {
    if fs == [] {
      assert es + fs == es;
    } else {
      Joined(s, es, fs[..|fs| - 1]);
      assert (es + fs)[..|es + fs| - 1] == es + fs[..|fs| - 1];
    }
  }

  /** The state with one more thread. */
  function With(s: State, pc: Pc): State {
    s.(pcs := s.pcs + [pc])
  }

  /** One step of a further thread that has the mutex or finds it free. */
  lemma Moves(s: State, pc: Pc, c: Choice)
    requires s.owner == if Owns(pc) then Some(|s.pcs|) else None
    ensures var pc' := Move(pc, s.doExpire, c);
            Exec(With(s, pc), [Run(|s.pcs|, c)])
            == With(State(if Owns(pc') then Some(|s.pcs|) else None,
                          if pc.TimerLocked? && s.doExpire then false else if pc.ScanOver? then true else s.doExpire,
                          if pc.RouteLocked? then s.routing + 1 else if pc.LeaveLocked? then s.routing - 1 else s.routing,
                          if pc.LeaveLocked? && pc.ok then s.routed + 1 else s.routed, s.pcs), pc')
  {
    var r := Run(|s.pcs|, c);
    var pc' := Move(pc, s.doExpire, c);
    assert [r][..0] == [] && Exec(With(s, pc), []) == With(s, pc);
    assert With(s, pc).pcs[|s.pcs| := pc'] == s.pcs + [pc'];
    hide Move;
  }

  lemma Repeated(i: nat, c: Choice)
    ensures var r := [Run(i, c)]; OnlyOf(i, r + r) && OnlyOf(i, r + r + r)
  {
  }

  /** A router is counted as soon as it starts to route. */
  lemma RouterEnters(s: State, c: Choice)
    requires s.owner == None
    ensures var r := [Run(|s.pcs|, c)]; Exec(Next(s, Router), r + r) == With(s.(routing := s.routing + 1), Routing)
  {
    var i := |s.pcs|;
    var r := [Run(i, c)];
    assert Next(s, Router) == With(s, RouteWait);
    assert Exec(With(s, RouteWait), r) == With(s.(owner := Some(i)), RouteLocked) by { Moves(s, RouteWait, c); }
    assert Exec(With(s.(owner := Some(i)), RouteLocked), r) == With(s.(routing := s.routing + 1), Routing) by {
      Moves(s.(owner := Some(i)), RouteLocked, c);
    }
    hide *;
    Joined(With(s, RouteWait), r, r);
  }

  /** And when done, it leaves the counter as it was before, having added one to the routed calls exactly if routing
      succeeded. */
  lemma RouterLeaves(s: State, ok: bool, c: Choice)
    requires s.owner == None && !c.yes && c.ok == ok
    ensures var r := [Run(|s.pcs|, c)];
            Exec(With(s, Routing), r + r + r)
            == With(s.(routing := s.routing - 1, routed := s.routed + if ok then 1 else 0), RouterEnded(ok))
  {
    var i := |s.pcs|;
    var r := [Run(i, c)];
    var after := s.(routing := s.routing - 1, routed := s.routed + if ok then 1 else 0);
    assert Exec(With(s, Routing), r) == With(s, LeaveWait(ok)) by { Moves(s, Routing, c); }
    assert Exec(With(s, LeaveWait(ok)), r) == With(s.(owner := Some(i)), LeaveLocked(ok)) by { Moves(s, LeaveWait(ok), c); }
    assert Exec(With(s.(owner := Some(i)), LeaveLocked(ok)), r) == With(after, RouterEnded(ok)) by {
      Moves(s.(owner := Some(i)), LeaveLocked(ok), c);
    }
    hide *;
    Joined(With(s, Routing), r, r);
    Joined(With(s, Routing), r + r, r);
  }

  /** A router looking up its channel takes the mutex and gives it back. */
  lemma RouterLooksUp(s: State, c: Choice)
    requires s.owner == None && c.yes
    ensures var r := [Run(|s.pcs|, c)]; Exec(With(s, Routing), r + r + r) == With(s, Routing)
  {
    var i := |s.pcs|;
    var r := [Run(i, c)];
    assert Exec(With(s, Routing), r) == With(s, FindWait) by { Moves(s, Routing, c); }
    assert Exec(With(s, FindWait), r) == With(s.(owner := Some(i)), FindLocked) by { Moves(s, FindWait, c); }
    assert Exec(With(s.(owner := Some(i)), FindLocked), r) == With(s, Routing) by {
      Moves(s.(owner := Some(i)), FindLocked, c);
    }
    hide *;
    Joined(With(s, Routing), r, r);
    Joined(With(s, Routing), r + r, r);
  }

  /** A timer message that finds the latch up scans: it holds the latch down while it visits the channels one after the
      other, three steps for each, and lifts it in the end. */
  lemma TimerScans(s: State, channels: nat) returns (es: seq<Event>, fs: seq<Event>)
    requires s.owner == None && s.doExpire
    ensures var i := |s.pcs|; OnlyOf(i, es) && OnlyOf(i, fs) && |fs| == 3 * channels + 3
    ensures Exec(Next(s, Timer), es) == With(s.(owner := Some(|s.pcs|), doExpire := false), ScanLocked(channels))
    ensures Exec(Exec(Next(s, Timer), es), fs) == With(s, Ended)
  {
    var i, c := |s.pcs|, Choice(false, false, channels);
    var r := [Run(i, c)];
    assert Next(s, Timer) == With(s, TimerStart);
    Moves(s, TimerStart, c);
    Moves(s, TimerWait, c);
    Moves(s.(owner := Some(i)), TimerLocked, c);
    hide Exec, Next, With;
    Joined(With(s, TimerStart), r, r);
    Joined(With(s, TimerStart), r + r, r);
    es := r + r + r;
    fs := ScanRest(s.(doExpire := false), channels);
  }

  /** The scan of a thread that has the mutex: its last channels, each looked at without the mutex. */
  lemma {:induction false} ScanRest(s: State, left: nat) returns (fs: seq<Event>)
    requires s.owner == None && !s.doExpire
    ensures OnlyOf(|s.pcs|, fs) && |fs| == 3 * left + 3
    ensures Exec(With(s.(owner := Some(|s.pcs|)), ScanLocked(left)), fs) == With(s.(doExpire := true), Ended)
  {
    var i := |s.pcs|;
    var s1 := s.(owner := Some(i));
    var c := Choice(true, false, if left > 0 then left - 1 else 0);
    var r := [Run(i, c)];
    var free := ScanFree(c.channels, left > 0);
    var next := if left > 0 then ScanWait(c.channels) else ScanOver;
    assert Exec(With(s1, ScanLocked(left)), r) == With(s, free) by { Moves(s1, ScanLocked(left), c); }
    assert Exec(With(s, free), r) == With(s, next) by { Moves(s, free, c); }
    assert Exec(With(s, next), r)
           == if left > 0 then With(s1, ScanLocked(left - 1)) else With(s.(doExpire := true), Ended) by { Moves(s, next, c); }
    assert OnlyOf(i, r + r + r) by { Repeated(i, c); }
    hide Exec, With;
    Joined(With(s1, ScanLocked(left)), r, r);
    Joined(With(s1, ScanLocked(left)), r + r, r);
    fs := r + r + r;
    if left > 0 {
      var gs := ScanRest(s, left - 1);
      Joined(With(s1, ScanLocked(left)), fs, gs);
      fs := fs + gs;
    }
  }

  /** One that finds the latch down ends at once and changes nothing. */
  lemma TimerStays(s: State, c: Choice)
    requires s.owner == None && !s.doExpire
    ensures Exec(Next(s, Timer), [Run(|s.pcs|, c)]) == With(s, Ended)
  {
    Moves(s, TimerStart, c);
    assert Next(s, Timer) == With(s, TimerStart);
  }

  /** Dropping all calls visits the channels in the same way. */
  lemma {:induction false} DropAllRuns(s: State, channels: nat) returns (es: seq<Event>)
    requires s.owner == None
    ensures OnlyOf(|s.pcs|, es) && |es| == 3 * channels + 3
    ensures Exec(Next(s, DropAll(channels)), es) == With(s, Ended)
    decreases channels
  {
    var i := |s.pcs|;
    var c := Choice(true, false, if channels > 0 then channels - 1 else 0);
    var r := [Run(i, c)];
    assert Next(s, DropAll(channels)) == With(s, DropWait(channels));
    assert channels > 0 ==> Next(s, DropAll(channels - 1)) == With(s, DropWait(channels - 1));
    var s1, free := s.(owner := Some(i)), DropFree(c.channels, channels > 0);
    assert Exec(With(s, DropWait(channels)), r) == With(s1, DropLocked(channels)) by { Moves(s, DropWait(channels), c); }
    assert Exec(With(s1, DropLocked(channels)), r) == With(s, free) by { Moves(s1, DropLocked(channels), c); }
    assert Exec(With(s, free), r) == With(s, if channels > 0 then DropWait(channels - 1) else Ended) by { Moves(s, free, c); }
    assert OnlyOf(i, r + r + r) by { Repeated(i, c); }
    hide Exec, Next, With;
    Joined(With(s, DropWait(channels)), r, r);
    Joined(With(s, DropWait(channels)), r + r, r);
    es := r + r + r;
    if channels > 0 {
      var fs := DropAllRuns(s, channels - 1);
      Joined(With(s, DropWait(channels)), es, fs);
      es := es + fs;
    }
  }
}
