/**
 Any number of threads calling disconnect on the ends of connected pairs. The test for a peer is made
 before the common mutex is taken and again after; taking the mutex may fail; the two references of the
 pairing are dropped after the mutex is released. Every sequence of actions is an interleaving.
 */
module DisconnectRace {
  import opened Options

  type Tid = nat
  type EndId = nat

  /** Where a disconnect call stands. */
  datatype Pc =
    | Start                                // about to test the peer without the mutex
    | Wait                                 // about to take the mutex
    | Locked                               // holds the mutex, about to read and clear its own peer
    | Cleared(temp: EndId)                 // holds the mutex, about to clear the peer of temp
    | Checked(temp: EndId, dead: bool)     // holds the mutex, about to release it
    | DropPeer(temp: EndId, dead: bool)    // about to dereference temp
    | DropSelf(dead: bool)                 // about to dereference its own end, unless that was dead
    | Done(result: bool)

  datatype Thread = Thread(target: EndId, pc: Pc)

  /** An endpoint with history: its peer at the start, how many calls began to take its pair apart,
      how many peering references of it were dropped, which call still has to drop one, and which call dropped
      the last reference of all, if one did. */
  datatype End = End(peer: Option<EndId>, refs: int, outside: int,
                     wasPeer: Option<EndId>, parted: nat, dropped: nat, owes: Option<Tid>, killer: Option<Tid>)

  datatype State = State(ends: map<EndId, End>, threads: map<Tid, Thread>, lock: Option<Tid>)

  datatype Action =
    | Spawn(t: Tid, e: EndId)              // a thread calls disconnect on e
    | Step(t: Tid, lockFails: bool)        // thread t makes its next step
    | Take(e: EndId)                       // someone else takes a reference
    | Drop(e: EndId)                       // someone else drops one

  function Count<T>(o: Option<T>): nat {
    if o.Some? then 1 else 0
  }

  ghost predicate Init(s: State) {
    && s.threads == map[] && s.lock == None
    && forall e <- s.ends ::
         var x := s.ends[e];
         && (x.peer.Some? ==> x.peer.value in s.ends && x.peer.value != e && s.ends[x.peer.value].peer == Some(e))
         && x.wasPeer == x.peer && x.outside >= 0
         && x.refs == x.outside + Count(x.peer)
         && x.parted == x.dropped == 0 && x.owes == None && x.killer == None
  }

  function Move(s: State, t: Tid, pc: Pc): State
    requires t in s.threads
  {
    s.(threads := s.threads[t := s.threads[t].(pc := pc)])
  }

  /** The next state; an action that is not enabled leaves the state as it is. */
  function Next(s: State, a: Action): (s': State)
    ensures s'.ends.Keys == s.ends.Keys
    ensures forall e <- s.ends :: s'.ends[e].wasPeer == s.ends[e].wasPeer
  {
    match a
    case Spawn(t, e) =>
      if t in s.threads || e !in s.ends then s else s.(threads := s.threads[t := Thread(e, Start)])
    case Take(e) =>
      if e !in s.ends || s.ends[e].refs <= 0 then s
      else s.(ends := s.ends[e := s.ends[e].(refs := s.ends[e].refs + 1, outside := s.ends[e].outside + 1)])
    case Drop(e) =>
      if e !in s.ends || s.ends[e].outside <= 0 then s
      else s.(ends := s.ends[e := s.ends[e].(refs := s.ends[e].refs - 1, outside := s.ends[e].outside - 1)])
    case Step(t, lockFails) =>
      if t !in s.threads || s.threads[t].target !in s.ends then s else ThreadStep(s, t, lockFails)
  }

  /** The end after call t has dropped its peering reference. */
  function Dereferenced(x: End, t: Tid): End {
    x.(refs := x.refs - 1, dropped := x.dropped + 1, owes := None, killer := if x.refs == 1 then Some(t) else x.killer)
  }

  function ThreadStep(s: State, t: Tid, lockFails: bool): (s': State)
    requires t in s.threads && s.threads[t].target in s.ends
    ensures s'.ends.Keys == s.ends.Keys
    ensures forall e <- s.ends :: s'.ends[e].wasPeer == s.ends[e].wasPeer
  {
    var e := s.threads[t].target;
    var x := s.ends[e];
    match s.threads[t].pc
    case Start =>
      Move(s, t, if x.peer.None? then Done(false) else Wait)
    case Wait =>
      if lockFails then Move(s, t, Done(false))
      else if s.lock.Some? then s
      else Move(s, t, Locked).(lock := Some(t))
    case Locked =>
      match x.peer {
        case None => Move(s, t, Done(false)).(lock := None)
        case Some(temp) =>
          if temp !in s.ends then s else
          var y := s.ends[temp];
          Move(s, t, Cleared(temp)).(ends :=
            s.ends[temp := y.(parted := y.parted + 1, owes := Some(t))]
                  [e := x.(peer := None, parted := x.parted + 1, owes := Some(t))])
      }
    case Cleared(temp) =>
      if temp !in s.ends then s else
      Move(s, t, Checked(temp, x.refs <= 0)).(ends := s.ends[temp := s.ends[temp].(peer := None)])
    case Checked(temp, dead) =>
      Move(s, t, DropPeer(temp, dead)).(lock := None)
    case DropPeer(temp, dead) =>
      if temp !in s.ends then s else
      var y := s.ends[temp];
      Move(s, t, DropSelf(dead)).(ends := s.ends[temp := Dereferenced(y, t)])
    case DropSelf(dead) =>
      if dead then Move(s, t, Done(true))
      else Move(s, t, Done(x.refs - 1 == 0)).(ends := s.ends[e := Dereferenced(x, t)])
    case Done(_) => s
  }

  function Exec(s: State, acts: seq<Action>): (s': State)
    ensures s'.ends.Keys == s.ends.Keys
    ensures forall e <- s.ends :: s'.ends[e].wasPeer == s.ends[e].wasPeer
  {
    if |acts| == 0 then s else Next(Exec(s, acts[..|acts| - 1]), acts[|acts| - 1])
  }

  // ----- What every interleaving keeps -----

  predicate Critical(pc: Pc) {
    pc.Locked? || pc.Cleared? || pc.Checked?
  }

  /** The call still has to drop a peering reference of e. */
  predicate Owes(th: Thread, e: EndId) {
    match th.pc
    case Cleared(temp) => e == th.target || e == temp
    case Checked(temp, _) => e == th.target || e == temp
    case DropPeer(temp, _) => e == th.target || e == temp
    case DropSelf(_) => e == th.target
    case _ => false
  }

  ghost predicate ThreadOk(s: State, t: Tid)
    requires t in s.threads
  {
    var th := s.threads[t];
    && th.target in s.ends
    && (Critical(th.pc) <==> s.lock == Some(t))
    && (th.pc.Cleared? || th.pc.Checked? || th.pc.DropPeer? ==> th.pc.temp in s.ends && th.pc.temp != th.target)
    && (th.pc.Cleared? ==> s.ends[th.pc.temp].peer == Some(th.target))
    && (th.pc.Checked? || th.pc.DropPeer? || th.pc.DropSelf? ==> !th.pc.dead)
    && (th.pc.Checked? || th.pc.DropPeer? ==> s.ends[th.pc.temp].peer == None)
    && (th.pc.Cleared? || th.pc.Checked? || th.pc.DropPeer? || th.pc.DropSelf? ==> s.ends[th.target].peer == None)
    && (s.ends[th.target].killer == Some(t) <==> th.pc == Done(true))
    && forall e <- s.ends :: Owes(th, e) ==> s.ends[e].owes == Some(t)
  }

  ghost predicate EndOk(s: State, e: EndId)
    requires e in s.ends
  {
    var x := s.ends[e];
    && (x.wasPeer.Some? ==>
          var f := x.wasPeer.value;
          f in s.ends && f != e && s.ends[f].wasPeer == Some(e) && s.ends[f].parted == x.parted)
    && (x.peer.Some? ==> x.peer == x.wasPeer)
    && (x.owes.Some? ==> x.owes.value in s.threads && Owes(s.threads[x.owes.value], e))
    && (x.owes.Some? && x.peer.Some? ==> s.threads[x.owes.value] == Thread(x.peer.value, Cleared(e)))
    && x.outside >= 0
    && (x.killer.Some? ==> x.refs == 0 && x.dropped > 0 && x.killer.value in s.threads)
    && x.refs == x.outside + Count(x.wasPeer) - x.dropped
    && x.parted == x.dropped + Count(x.owes)
    && x.parted + (if x.owes.None? then Count(x.peer) else 0) == Count(x.wasPeer)
  }

  ghost predicate ThreadsOk(s: State) {
    && (forall t <- s.threads :: ThreadOk(s, t))
    && (s.lock.Some? ==> s.lock.value in s.threads)
  }

  ghost predicate EndsOk(s: State) {
    forall e <- s.ends :: EndOk(s, e)
  }

  ghost predicate Inv(s: State) {
    ThreadsOk(s) && EndsOk(s)
  }

  lemma InitInv(s: State)
    requires Init(s)
    ensures Inv(s)
  {
  }

  /** What other threads do from outside: call disconnect, take or drop references of their own. */
  lemma OutsideThread(s: State, a: Action, u: Tid)
    requires !a.Step? && u in Next(s, a).threads && (s.lock.Some? ==> s.lock.value in s.threads)
    requires u in s.threads ==> ThreadOk(s, u)
    requires a.Spawn? && a.e in s.ends ==> EndOk(s, a.e)
    ensures ThreadOk(Next(s, a), u)
  {
  }

  lemma OutsideEnd(s: State, a: Action, f: EndId)
    requires !a.Step? && f in s.ends && EndOk(s, f)
    ensures EndOk(Next(s, a), f)
  {
  }

  lemma NextInv(s: State, a: Action)
    requires Inv(s)
    ensures Inv(Next(s, a))
  {
    var s' := Next(s, a);
    if a.Step? {
      if a.t in s.threads {
        assert ThreadOk(s, a.t);
        StepInv(s, a.t, a.lockFails);
      }
    } else {
      forall u <- s'.threads
        ensures ThreadOk(s', u)
      {
        OutsideThread(s, a, u);
      }
      forall f <- s'.ends
        ensures EndOk(s', f)
      {
        OutsideEnd(s, a, f);
      }
    }
  }

  /** The endpoint and its peer point at each other and no call owes a reference of either. */
  ghost predicate Intact(s: State, e: EndId)
    requires e in s.ends
  {
    s.ends[e].peer.Some? ==>
      var f := s.ends[e].peer.value;
      && f in s.ends && f != e && EndOk(s, f)
      && s.ends[f].peer == Some(e) && s.ends[e].owes.None? && s.ends[f].owes.None?
  }

  /** The holder of the mutex finds a peer only if no other call got to that pair before. */
  lemma HolderFindsIntact(s: State, t: Tid)
    requires Inv(s) && t in s.threads && s.threads[t].pc.Locked?
    ensures Intact(s, s.threads[t].target)
  {
    var e := s.threads[t].target;
    assert ThreadOk(s, t) && EndOk(s, e);
    if s.ends[e].owes.Some? {
      assert ThreadOk(s, s.ends[e].owes.value);
    }
    if s.ends[e].peer.Some? {
      assert EndOk(s, s.ends[e].peer.value);
    }
  }

  /** What a step of thread t relies on: its own state, and that of the ends it is about to touch. */
  ghost predicate StepOk(s: State, t: Tid) {
    && t in s.threads && ThreadOk(s, t) && EndOk(s, s.threads[t].target)
    && (s.threads[t].pc.Locked? ==> Intact(s, s.threads[t].target))
    && (s.threads[t].pc.Cleared? || s.threads[t].pc.Checked? || s.threads[t].pc.DropPeer? ==> EndOk(s, s.threads[t].pc.temp))
  }

  // Steps that only move the call or drop its own reference, the one that begins a parting, and those that touch the other end.

  predicate Own(pc: Pc) {
    pc.Start? || pc.Wait? || pc.Checked? || pc.DropSelf? || pc.Done?
  }

  lemma OwnThread(s: State, t: Tid, lockFails: bool, u: Tid)
    requires StepOk(s, t) && Own(s.threads[t].pc) && u in s.threads && ThreadOk(s, u)
    ensures ThreadOk(ThreadStep(s, t, lockFails), u)
  {
  }

  lemma OwnEnd(s: State, t: Tid, lockFails: bool, f: EndId)
    requires StepOk(s, t) && Own(s.threads[t].pc) && f in s.ends && EndOk(s, f)
    ensures EndOk(ThreadStep(s, t, lockFails), f)
  {
  }

  lemma LockedThread(s: State, t: Tid, lockFails: bool, u: Tid)
    requires t in s.threads && s.threads[t].pc.Locked? && ThreadOk(s, t) && Intact(s, s.threads[t].target)
    requires u in s.threads && ThreadOk(s, u)
    ensures ThreadOk(ThreadStep(s, t, lockFails), u)
  {
  }

  lemma LockedEnd(s: State, t: Tid, lockFails: bool, f: EndId)
    requires t in s.threads && s.threads[t].pc.Locked? && s.threads[t].target in s.ends && f in s.ends && EndOk(s, f)
    requires EndOk(s, s.threads[t].target) && Intact(s, s.threads[t].target)
    ensures EndOk(ThreadStep(s, t, lockFails), f)
  {
  }

  lemma OtherThread(s: State, t: Tid, lockFails: bool, u: Tid)
    requires StepOk(s, t) && (s.threads[t].pc.Cleared? || s.threads[t].pc.DropPeer?) && u in s.threads && ThreadOk(s, u)
    ensures ThreadOk(ThreadStep(s, t, lockFails), u)
  {
  }

  lemma OtherEnd(s: State, t: Tid, lockFails: bool, f: EndId)
    requires StepOk(s, t) && (s.threads[t].pc.Cleared? || s.threads[t].pc.DropPeer?) && f in s.ends && EndOk(s, f)
    ensures EndOk(ThreadStep(s, t, lockFails), f)
  {
  }

  lemma StepThread(s: State, t: Tid, lockFails: bool, u: Tid)
    requires StepOk(s, t) && u in s.threads && ThreadOk(s, u)
    ensures ThreadOk(ThreadStep(s, t, lockFails), u)
  {
    hide StepOk, ThreadOk, ThreadStep;
    StepOkParts(s, t);
    if Own(s.threads[t].pc) {
      OwnThread(s, t, lockFails, u);
    } else if s.threads[t].pc.Locked? {
      LockedThread(s, t, lockFails, u);
    } else {
      OtherThread(s, t, lockFails, u);
    }
  }

  lemma StepOkParts(s: State, t: Tid)
    requires StepOk(s, t)
    ensures t in s.threads && ThreadOk(s, t) && s.threads[t].target in s.ends
    ensures s.threads[t].pc.Locked? ==> Intact(s, s.threads[t].target)
  {
  }

  lemma StepEnd(s: State, t: Tid, lockFails: bool, f: EndId)
    requires StepOk(s, t) && f in s.ends && EndOk(s, f)
    ensures EndOk(ThreadStep(s, t, lockFails), f)
  {
    hide EndOk, ThreadStep;
    if Own(s.threads[t].pc) {
      OwnEnd(s, t, lockFails, f);
    } else if s.threads[t].pc.Locked? {
      LockedEnd(s, t, lockFails, f);
    } else {
      OtherEnd(s, t, lockFails, f);
    }
  }

  lemma StepInv(s: State, t: Tid, lockFails: bool)
    requires Inv(s) && t in s.threads
    ensures Inv(ThreadStep(s, t, lockFails))
  {
    EndsKnown(s, t);
    Relies(s, t);
    StepThreads(s, t, lockFails);
    StepEnds(s, t, lockFails);
    hide *;
  }

  lemma StepThreads(s: State, t: Tid, lockFails: bool)
    requires ThreadsOk(s) && t in s.threads && s.threads[t].target in s.ends && StepOk(s, t)
    ensures ThreadsOk(ThreadStep(s, t, lockFails))
  {
    var s' := ThreadStep(s, t, lockFails);
    ThreadsKnown(s, t, lockFails);
    hide StepOk, ThreadOk, ThreadStep;
    forall u <- s'.threads
      ensures ThreadOk(s', u)
    {
      StepThread(s, t, lockFails, u);
    }
  }

  lemma StepEnds(s: State, t: Tid, lockFails: bool)
    requires EndsOk(s) && t in s.threads && s.threads[t].target in s.ends && StepOk(s, t)
    ensures EndsOk(ThreadStep(s, t, lockFails))
  {
    hide StepOk, EndOk, ThreadStep;
    forall f <- s.ends
      ensures EndOk(ThreadStep(s, t, lockFails), f)
    {
      StepEnd(s, t, lockFails, f);
    }
  }

  lemma Relies(s: State, t: Tid)
    requires Inv(s) && t in s.threads
    ensures StepOk(s, t)
  {
    assert ThreadOk(s, t);
    if s.threads[t].pc.Locked? {
      HolderFindsIntact(s, t);
    }
  }

  lemma ThreadsKnown(s: State, t: Tid, lockFails: bool)
    requires t in s.threads && s.threads[t].target in s.ends && (s.lock.Some? ==> s.lock.value in s.threads)
    ensures var s' := ThreadStep(s, t, lockFails);
            s'.threads.Keys == s.threads.Keys && (s'.lock.Some? ==> s'.lock.value in s'.threads)
  {
  }

  lemma {:induction false} ExecInv(s: State, acts: seq<Action>)
    requires Init(s)
    ensures Inv(Exec(s, acts))
    ensures forall e <- s.ends :: Exec(s, acts).ends[e].wasPeer == s.ends[e].peer
  {
    hide Inv, Next;
    if |acts| == 0 {
      InitInv(s);
    } else {
      ExecInv(s, acts[..|acts| - 1]);
      NextInv(Exec(s, acts[..|acts| - 1]), acts[|acts| - 1]);
    }
  }

  /** All calls have returned. */
  ghost predicate Quiet(s: State) {
    forall t <- s.threads :: s.threads[t].pc.Done?
  }

  /** Under every interleaving at most one call takes a pair apart, always both ends of it, and each end's
      peering reference is dropped at most once; a reference counter never lies about the references held,
      and an endpoint that reached zero has no peer and is nobody's peer. */
  lemma AtMostOncePerPair(s0: State, acts: seq<Action>, e: EndId)
    requires Init(s0) && e in s0.ends
    ensures var s := Exec(s0, acts); var x := s.ends[e];
            && x.dropped <= x.parted <= Count(s0.ends[e].peer)
            && (s0.ends[e].peer.Some? ==>
                  s0.ends[e].peer.value in s.ends && s.ends[s0.ends[e].peer.value].parted == x.parted)
            && x.refs == x.outside + Count(s0.ends[e].peer) - x.dropped
            && x.refs >= Count(x.peer)
            && (x.refs == 0 ==> forall f <- s.ends :: s.ends[f].peer != Some(e))
  {
    ExecInv(s0, acts);
    var s := Exec(s0, acts);
    assert EndOk(s, e);
    if s.ends[e].refs == 0 {
      forall f <- s.ends
        ensures s.ends[f].peer != Some(e)
      {
        assert EndOk(s, f);
        assert s.ends[f].owes.Some? ==> ThreadOk(s, s.ends[f].owes.value);
      }
    }
  }

  lemma QuietLock(s: State)
    requires ThreadsOk(s) && Quiet(s)
    ensures s.lock == None
  {
    assert s.lock.Some? ==> ThreadOk(s, s.lock.value);
  }

  lemma QuietEnd(s: State, e: EndId)
    requires Quiet(s) && e in s.ends && EndOk(s, e)
    requires s.ends[e].wasPeer.Some? && s.ends[e].wasPeer.value in s.ends ==> EndOk(s, s.ends[e].wasPeer.value)
    ensures var x := s.ends[e];
            && x.dropped == x.parted
            && (x.dropped == 1 <==> x.wasPeer.Some? && x.peer == None)
            && (x.peer.Some? ==> x.peer == x.wasPeer && x.peer.value in s.ends && s.ends[x.peer.value].peer == Some(e))
  {
  }

  /** Once all calls have returned, each pair is either as it was or gone with exactly one reference of each
      end dropped, and the peers that are left still match. */
  lemma ExactlyOnceWhenQuiet(s0: State, acts: seq<Action>, e: EndId)
    requires Init(s0) && e in s0.ends && Quiet(Exec(s0, acts))
    ensures var s := Exec(s0, acts); var x := s.ends[e];
            && s.lock == None
            && x.dropped == x.parted
            && (x.peer == s0.ends[e].peer || x.peer == None)
            && (x.dropped == 1 <==> s0.ends[e].peer.Some? && x.peer == None)
            && x.refs == x.outside + Count(x.peer)
            && (x.peer.Some? ==> x.peer.value in s.ends && s.ends[x.peer.value].peer == Some(e))
  {
    ExecInv(s0, acts);
    var s := Exec(s0, acts);
    QuietLock(s);
    QuietEnd(s, e);
    assert EndOk(s, e);
  }

  /** No call ever finds its own end dead, so each one that takes a pair apart drops both references. */
  lemma NeverDeadInside(s0: State, acts: seq<Action>, t: Tid)
    requires Init(s0) && t in Exec(s0, acts).threads
    ensures var pc := Exec(s0, acts).threads[t].pc;
            (pc.Checked? || pc.DropPeer? || pc.DropSelf?) ==> !pc.dead
  {
    ExecInv(s0, acts);
    assert ThreadOk(Exec(s0, acts), t);
  }

  // ----- What a call achieves -----

  /** If call t has returned, its end has no peer. */
  ghost predicate AloneWhenDone(s: State, t: Tid) {
    t in s.threads && s.threads[t].pc.Done? && s.threads[t].target in s.ends ==> s.ends[s.threads[t].target].peer == None
  }

  /** Nobody gives an end a new peer. */
  lemma PeersOnlyCleared(s: State, a: Action, e: EndId)
    requires e in s.ends
    ensures Next(s, a).ends[e].peer == s.ends[e].peer || Next(s, a).ends[e].peer == None
  {
  }

  /** A call that gets the mutex returns only when its end has no peer. */
  lemma AloneStep(s: State, a: Action, t: Tid)
    requires Inv(s) && AloneWhenDone(s, t) && a != Step(t, true)
    ensures AloneWhenDone(Next(s, a), t)
  {
    if t in s.threads {
      assert ThreadOk(s, t);
      if a == Step(t, false) {
        OwnProgress(s, t);
      } else {
        PeersOnlyCleared(s, a, s.threads[t].target);
        OthersLeave(s, a, t);
        hide Next, Inv, ThreadOk;
      }
    } else {
      SpawnedNotDone(s, a, t);
    }
  }

  lemma SpawnedNotDone(s: State, a: Action, t: Tid)
    requires t !in s.threads
    ensures t in Next(s, a).threads ==> Next(s, a).threads[t].pc == Start
  {
  }

  lemma OthersLeave(s: State, a: Action, t: Tid)
    requires t in s.threads && !(a.Step? && a.t == t)
    ensures t in Next(s, a).threads && Next(s, a).threads[t] == s.threads[t]
  {
  }

  lemma OwnProgress(s: State, t: Tid)
    requires t in s.threads && ThreadOk(s, t) && AloneWhenDone(s, t)
    ensures AloneWhenDone(Next(s, Step(t, false)), t)
  {
  }

  lemma {:induction false} AloneRun(s0: State, acts: seq<Action>, t: Tid)
    requires Init(s0) && forall a <- acts :: a != Step(t, true)
    ensures AloneWhenDone(Exec(s0, acts), t)
  {
    hide Next, AloneWhenDone, Inv;
    if acts == [] {
      NobodyDone(s0, t);
    } else {
      var most, last := acts[..|acts| - 1], acts[|acts| - 1];
      assert last in acts && forall a <- most :: a in acts;
      AloneRun(s0, most, t);
      ExecInv(s0, most);
      AloneStep(Exec(s0, most), last, t);
    }
  }

  lemma NobodyDone(s0: State, t: Tid)
    requires Init(s0)
    ensures AloneWhenDone(s0, t)
  {
  }

  /** A call whose own attempt at the mutex does not fail disconnects: once it has returned, its end has no peer, and
      the pair the end was in has been taken apart, once. */
  lemma ReturnedDisconnected(s0: State, acts: seq<Action>, t: Tid)
    requires Init(s0) && t in Exec(s0, acts).threads && Exec(s0, acts).threads[t].pc.Done?
    requires forall a <- acts :: a != Step(t, true)
    ensures var s := Exec(s0, acts); var e := s.threads[t].target;
            e in s.ends && s.ends[e].peer == None && s.ends[e].parted == if s0.ends[e].peer.Some? then 1 else 0
  {
    AloneRun(s0, acts, t);
    ExecInv(s0, acts);
    var s := Exec(s0, acts);
    assert ThreadOk(s, t);
    assert EndOk(s, s.threads[t].target);
    if s.ends[s.threads[t].target].owes.Some? {
      assert ThreadOk(s, s.ends[s.threads[t].target].owes.value);
    }
  }

  /** So when no attempt at the mutex fails and all calls have returned, every end that a call was made on is alone, and
      exactly one reference of it was dropped if it had a peer. */
  lemma AllDisconnectedWhenQuiet(s0: State, acts: seq<Action>, t: Tid)
    requires Init(s0) && Quiet(Exec(s0, acts)) && t in Exec(s0, acts).threads
    requires forall a <- acts :: a != Step(t, true)
    ensures var s := Exec(s0, acts); var e := s.threads[t].target;
            && e in s.ends && s.ends[e].peer == None
            && s.ends[e].dropped == (if s0.ends[e].peer.Some? then 1 else 0)
            && s.ends[e].refs == s.ends[e].outside
  {
    ReturnedDisconnected(s0, acts, t);
    ExactlyOnceWhenQuiet(s0, acts, Exec(s0, acts).threads[t].target);
  }

  /** A call returns true exactly when it was its own drop that took the last reference of its end; the end then is
      destroyed for good. */
  lemma TrueWhenDestroyed(s0: State, acts: seq<Action>, t: Tid)
    requires Init(s0) && t in Exec(s0, acts).threads && Exec(s0, acts).threads[t].pc.Done?
    ensures var s := Exec(s0, acts); var e := s.threads[t].target;
            && e in s.ends
            && (s.threads[t].pc == Done(true) <==> s.ends[e].killer == Some(t))
            && (s.ends[e].killer == Some(t) ==> s.ends[e].refs == 0 && s.ends[e].dropped == 1)
  {
    ExecInv(s0, acts);
    var s := Exec(s0, acts);
    hide Exec;
    assert ThreadOk(s, t) && EndOk(s, s.threads[t].target);
    DestroyedBy(s, t);
  }

  lemma DestroyedBy(s: State, t: Tid)
    requires t in s.threads && s.threads[t].target in s.ends && ThreadOk(s, t) && EndOk(s, s.threads[t].target)
    ensures var x := s.ends[s.threads[t].target];
            && (s.threads[t].pc == Done(true) <==> x.killer == Some(t))
            && (x.killer == Some(t) ==> x.refs == 0 && x.dropped == 1)
  {
  }

  /** How many steps a call still has to make at most. */
  function Remaining(pc: Pc): nat {
    match pc
    case Start => 7
    case Wait => 6
    case Locked => 5
    case Cleared(_) => 4
    case Checked(_, _) => 3
    case DropPeer(_, _) => 2
    case DropSelf(_) => 1
    case Done(_) => 0
  }

  predicate Enabled(s: State, t: Tid) {
    t in s.threads && !s.threads[t].pc.Done? && (s.threads[t].pc.Wait? ==> s.lock == None)
  }

  /** Every step of a call that does not wait for the mutex brings it closer to returning. */
  lemma StepProgress(s: State, t: Tid, lockFails: bool)
    requires Inv(s) && Enabled(s, t)
    ensures t in Next(s, Step(t, lockFails)).threads
    ensures Remaining(Next(s, Step(t, lockFails)).threads[t].pc) < Remaining(s.threads[t].pc)
  {
    EndsKnown(s, t);
    hide Inv, Dereferenced;
    if Own(s.threads[t].pc) {
      OwnMoves(s, t, lockFails);
    } else if s.threads[t].pc.Locked? {
      LockedMoves(s, t, lockFails);
    } else {
      OtherMoves(s, t, lockFails);
    }
    hide ThreadStep;
  }

  lemma OwnMoves(s: State, t: Tid, lockFails: bool)
    requires Enabled(s, t) && Own(s.threads[t].pc) && s.threads[t].target in s.ends
    ensures var s' := ThreadStep(s, t, lockFails);
            t in s'.threads && Remaining(s'.threads[t].pc) < Remaining(s.threads[t].pc)
  {
  }

  lemma LockedMoves(s: State, t: Tid, lockFails: bool)
    requires t in s.threads && s.threads[t].pc.Locked? && s.threads[t].target in s.ends
    requires var p := s.ends[s.threads[t].target].peer; p.Some? ==> p.value in s.ends
    ensures var s' := ThreadStep(s, t, lockFails);
            t in s'.threads && Remaining(s'.threads[t].pc) < Remaining(s.threads[t].pc)
  {
  }

  lemma OtherMoves(s: State, t: Tid, lockFails: bool)
    requires t in s.threads && (s.threads[t].pc.Cleared? || s.threads[t].pc.DropPeer?)
    requires s.threads[t].target in s.ends && s.threads[t].pc.temp in s.ends
    ensures var s' := ThreadStep(s, t, lockFails);
            t in s'.threads && Remaining(s'.threads[t].pc) < Remaining(s.threads[t].pc)
  {
  }

  lemma EndsKnown(s: State, t: Tid)
    requires Inv(s) && t in s.threads
    ensures var th := s.threads[t];
            && th.target in s.ends
            && (s.ends[th.target].peer.Some? ==> s.ends[th.target].peer.value in s.ends)
            && (th.pc.Cleared? || th.pc.Checked? || th.pc.DropPeer? ==> th.pc.temp in s.ends)
  {
    assert ThreadOk(s, t) && EndOk(s, s.threads[t].target);
  }

  /** In every run, as long as some call has not returned, one can make a step: nobody waits for a mutex that is never
      released. */
  lemma NeverStuck(s0: State, acts: seq<Action>, t: Tid)
    requires Init(s0) && t in Exec(s0, acts).threads && !Exec(s0, acts).threads[t].pc.Done?
    ensures var s := Exec(s0, acts); Enabled(s, t) || (s.lock.Some? && Enabled(s, s.lock.value))
  {
    ExecInv(s0, acts);
    if Exec(s0, acts).lock.Some? {
      HolderRuns(Exec(s0, acts));
    }
    hide Exec, Inv;
  }

  lemma HolderRuns(s: State)
    requires Inv(s) && s.lock.Some?
    ensures Enabled(s, s.lock.value)
  {
    assert ThreadOk(s, s.lock.value);
  }
}
