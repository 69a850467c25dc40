/** Pairing of call endpoints: who is whose peer, and the references the pairing holds. */
module CallEndpoints {

  class CallEndpoint {
    var refs: nat                  // reference counter; zero once destroyed
    var peer: CallEndpoint?
    var lastPeer: CallEndpoint?    // peer whose id is cached
    var lastPeerId: string
    var id: string
    const isChannel: bool          // channels cache their peer's id when connected
    ghost var outside: nat         // references held by anyone but the pairing, such as a call in progress

    constructor (id: string, isChannel: bool)
      ensures refs == outside == 1 && peer == null && lastPeer == null
      ensures this.id == id && this.isChannel == isChannel
    {
      refs, outside, peer, lastPeer := 1, 1, null, null;
      lastPeerId, this.id, this.isChannel := "", id, isChannel;
    }

    /** Increments the reference counter if not already zero; the new reference belongs to the caller. */
    method Ref(ghost U: set<CallEndpoint>) returns (ok: bool)
      requires Paired(U) && this in U
      modifies this`refs, this`outside
      ensures ok == (old(refs) > 0)
      ensures outside == if ok then old(outside) + 1 else old(outside)
      ensures Paired(U) && (old(CacheFresh(U)) ==> CacheFresh(U))
    {
      ok := refs > 0;
      if ok {
        refs := refs + 1;
        outside := outside + 1;
      }
    }

    /** Drops one of the caller's references, destroying the endpoint with the last one. A destroyed
        endpoint is never paired, so there is nothing left to disconnect then. */
    method Deref(ghost U: set<CallEndpoint>) returns (gone: bool)
      requires Paired(U) && this in U && outside > 0
      modifies this`refs, this`outside, this`lastPeer
      ensures refs == old(refs) - 1 && outside == old(outside) - 1 && gone == (refs == 0)
      ensures gone ==> peer == null && lastPeer == null
      ensures Paired(U) && (old(CacheFresh(U)) ==> CacheFresh(U))
    {
      refs := refs - 1;
      outside := outside - 1;
      gone := refs == 0;
      if gone {
        lastPeer := null;
      }
    }

    /** Caches the id of the current peer. locked tells whether the common mutex could be taken. */
    method SetLastPeerId(locked: bool)
      modifies this`lastPeer, this`lastPeerId
      ensures if peer == null || peer == old(lastPeer) || !locked
              then lastPeer == old(lastPeer) && lastPeerId == old(lastPeerId)
              else lastPeer == peer && lastPeerId == peer.id
    {
      if peer == null {
        return;
      }
      if peer == lastPeer {
        return;
      }
      if !locked {
        return;
      }
      lastPeer := peer;
      lastPeerId := peer.id;
    }

    method Connected(locked: bool)
      modifies this`lastPeer, this`lastPeerId
      ensures if !isChannel || peer == null || peer == old(lastPeer) || !locked
              then lastPeer == old(lastPeer) && lastPeerId == old(lastPeerId)
              else lastPeer == peer && lastPeerId == peer.id
    {
      if isChannel {
        SetLastPeerId(locked);
      }
    }

    method SetPeer(p: CallEndpoint?, locked: bool)
      modifies this`peer, this`lastPeer, this`lastPeerId
      ensures peer == p
      ensures if p == null then lastPeer == null && lastPeerId == old(lastPeerId)
              else if !isChannel || p == old(lastPeer) || !locked
              then lastPeer == old(lastPeer) && lastPeerId == old(lastPeerId)
              else lastPeer == p && lastPeerId == p.id
    {
      peer := p;
      if peer != null {
        Connected(locked);
      } else {
        lastPeer := null;
      }
    }

    /** The part of a disconnect call under the common mutex: the pairing ends, and its two references
        are handed over to the call, which has to drop them. */
    method Part(ghost U: set<CallEndpoint>) returns (temp: CallEndpoint)
      requires Paired(U) && this in U && peer != null
      modifies this, peer
      ensures temp == old(peer) && temp in U && temp != this
      ensures outside == old(outside) + 1 && temp.outside == old(temp.outside) + 1
      ensures forall e <- U | e != this && e != temp :: e.outside == old(e.outside)
      ensures forall e <- U :: e.id == old(e.id) && e.refs == old(e.refs)
      ensures forall e <- U :: e.peer == if e == this || e == temp then null else old(e.peer)
      ensures Paired(U) && (old(CacheFresh(U)) ==> CacheFresh(U))
    {
      temp := peer;
      peer := null;
      lastPeer := null;
      temp.SetPeer(null, true);
      outside, temp.outside := outside + 1, temp.outside + 1;
    }

    /** Takes the endpoint and its peer apart, dropping one reference of each. Returns whether the
        endpoint was destroyed. Nothing happens when the common mutex cannot be taken. */
    method Disconnect(locked: bool, ghost U: set<CallEndpoint>) returns (gone: bool)
      requires Paired(U) && this in U
      modifies this, peer
      ensures Paired(U) && (old(CacheFresh(U)) ==> CacheFresh(U))
      ensures forall e <- U :: e.outside == old(e.outside) && e.id == old(e.id)
      ensures forall e <- U :: e.peer == if locked && (e == this || e == old(peer)) then null else old(e.peer)
      ensures forall e <- U ::
                e.refs == old(e.refs) - (if locked && old(peer) != null && (e == this || e == old(peer)) then 1 else 0)
      ensures gone == (locked && old(peer) != null && refs == 0)
    {
      if peer == null {
        return false;
      }
      if !locked {
        return false;
      }
      var temp := Part(U);
      var dead := refs == 0;
      hide CacheFresh;
      var tempGone := temp.Deref(U);
      if dead {
        gone := true;
      } else {
        gone := Deref(U);
      }
    }

    /** The end of a connect call: its two references are handed over to the new pairing, which is sound
        exactly when neither end was paired before. */
    method Join(p: CallEndpoint, lockCache: bool, ghost U: set<CallEndpoint>)
      requires Paired(U) && this in U && p in U && p != this && p != peer
      requires outside > 0 && p.outside > 0
      modifies this, p
      ensures peer == p && p.peer == this && outside == old(outside) - 1 && p.outside == old(p.outside) - 1
      ensures refs == old(refs) && p.refs == old(p.refs) && id == old(id) && p.id == old(p.id)
      ensures isChannel && lockCache ==> lastPeer == p && lastPeerId == p.id
      ensures p.isChannel && lockCache ==> p.lastPeer == this && p.lastPeerId == id
      ensures Paired(U) <==> old(peer) == null && old(p.peer) == null
      ensures old(CacheFresh(U)) ==> CacheFresh(U)
    {
      ghost var q, r := peer, p.peer;
      peer := p;
      p.SetPeer(this, lockCache);
      Connected(lockCache);
      outside, p.outside := outside - 1, p.outside - 1;
      assert q != null ==> q in U && q != this && q != p && q.peer == this;
      assert r != null ==> r in U && r != this && r != p && r.peer == p;
    }

    /** Pairs this endpoint with p, taking one reference of each, after taking both apart from their
        former peers. lockThis and lockPeer tell whether the common mutex could be taken for that:
        the matching survives a failure exactly when there was nothing to take apart. */
    method Connect(p: CallEndpoint?, lockThis: bool, lockPeer: bool, lockCache: bool, ghost U: set<CallEndpoint>)
      returns (ok: bool)
      requires Paired(U) && this in U && (p != null ==> p in U)
      modifies this, p, peer, if p == null then null else p.peer
      ensures ok == (p != null && p != this && (p == old(peer) || (old(refs) > 0 && old(p.refs) > 0)))
      ensures ok ==> peer == p && p.peer == this
      ensures forall e <- U :: e.outside == old(e.outside) && e.id == old(e.id)
      ensures p != null && (p == old(peer) || p == this || old(refs) == 0) ==> forall e <- U :: e.peer == old(e.peer)
      ensures p == null || (p != this && p != old(peer) && old(p.refs) == 0 && old(refs) > 0) ==>
                forall e <- U :: e.peer == if lockThis && (e == this || e == old(peer)) then null else old(e.peer)
      ensures ok && p != old(peer) && isChannel && lockCache ==> lastPeer == p && lastPeerId == p.id
      ensures ok && p != old(peer) && p.isChannel && lockCache ==> p.lastPeer == this && p.lastPeerId == id
      ensures ok && p != old(peer) && Paired(U) ==> forall e <- U | e != this && e != p ::
                e.peer == if e == old(peer) || e == old(p.peer) then null else old(e.peer)
      ensures Paired(U) <==> !ok || p == old(peer) || ((old(peer) == null || lockThis) && (old(p.peer) == null || lockPeer))
      ensures old(CacheFresh(U)) ==> CacheFresh(U)
    {
      hide Paired, CacheFresh;
      if p == null {
        var _ := Disconnect(lockThis, U);
        return false;
      }
      if p == peer {
        PeerBack(this, U);
        return true;
      }
      if p == this {
        return false;
      }
      var alive := Ref(U);
      if !alive {
        return false;
      }
      var _ := Disconnect(lockThis, U);
      alive := p.Ref(U);
      if !alive {
        var _ := Deref(U);
        return false;
      }
      var _ := p.Disconnect(lockPeer, U);
      Join(p, lockCache, U);
      ok := true;
    }

    method SetId(newId: string)
      modifies this`id
      ensures id == newId
    {
      id := newId;
    }

    /** Reads the id of the current peer, from the cache when that peer is cached. While cached ids are
        current this is the id of the peer, and only an empty id makes the fast path report failure. */
    method GetPeerId(locked: bool, ghost U: set<CallEndpoint>) returns (ok: bool, pid: string)
      requires Paired(U) && this in U
      ensures CacheFresh(U) && (locked || peer == lastPeer) ==>
                && pid == (if peer == null then "" else peer.id)
                && ok == (peer != null && (peer == lastPeer ==> peer.id != ""))
      ensures peer != null && peer == lastPeer ==> pid == lastPeerId && ok == (pid != "")
      ensures peer != lastPeer && !locked ==> !ok && pid == ""
    {
      pid := "";
      if peer == null {
        return false, pid;
      }
      if peer == lastPeer {
        pid := lastPeerId;
        return pid != "", pid;
      }
      if !locked {
        return false, pid;
      }
      return true, peer.id;
    }
  }

  /** Peering among the endpoints of U is a symmetric irreflexive matching, every counter is the
      number of outside references plus one if paired, and a cached peer is the current one. */
  ghost predicate Paired(U: set<CallEndpoint>)
    reads U
  {
    forall e <- U ::
      && (e.peer != null ==> e.peer in U && e.peer != e && e.peer.peer == e)
      && e.refs == e.outside + (if e.peer != null then 1 else 0)
      && (e.lastPeer == null || e.lastPeer == e.peer)
  }

  lemma PeerBack(e: CallEndpoint, U: set<CallEndpoint>)
    requires Paired(U) && e in U && e.peer != null
    ensures e.peer != e && e.peer.peer == e
  {
  }

  /** Cached ids are the present ids of the cached peers. */
  ghost predicate CacheFresh(U: set<CallEndpoint>)
    reads U
  {
    forall e <- U :: e.lastPeer != null && e.lastPeer in U ==> e.lastPeerId == e.lastPeer.id
  }

  // ----- Runs -----

  datatype Op =
    | Create(id: string, isChannel: bool)
    | Connect(i: nat, j: nat)
    | ConnectToNone(i: nat)
    | Disconnect(i: nat, locked: bool)
    | SetLast(i: nat, locked: bool)
    | Rename(i: nat, id: string)
    | Take(i: nat)
    | Drop(i: nat)

  ghost predicate Distinct(pool: seq<CallEndpoint>) {
    forall i, j :: 0 <= i < j < |pool| ==> pool[i] != pool[j]
  }

  ghost function Members(pool: seq<CallEndpoint>): set<CallEndpoint> {
    set e | e in pool
  }

  /** What every single-threaded run keeps: the matching, and for each endpoint a counter equal to the
      references the run holds itself plus one if paired. */
  ghost predicate RunInv(pool: seq<CallEndpoint>, held: seq<nat>)
    reads pool
  {
    && |held| == |pool| && Distinct(pool)
    && Paired(Members(pool))
    && forall i :: 0 <= i < |pool| ==> held[i] == pool[i].outside
  }

  lemma DeadIsAlone(pool: seq<CallEndpoint>, held: seq<nat>, d: nat)
    requires RunInv(pool, held) && d < |pool| && pool[d].refs == 0
    ensures held[d] == 0 && pool[d].peer == null
    ensures forall e <- pool :: e.peer != pool[d] && e.lastPeer != pool[d]
  {
    assert pool[d] in Members(pool);
    forall e <- pool
      ensures e.peer != pool[d]
    {
      assert e in Members(pool);
    }
  }

  /** Executes any sequence of operations on endpoints the run creates itself. Alone, a thread always
      gets the recursive common mutex inside connect. */
  method Run(ops: seq<Op>) returns (pool: seq<CallEndpoint>, held: seq<nat>)
    ensures fresh(Members(pool)) && RunInv(pool, held)
    ensures (forall k :: 0 <= k < |ops| ==> !ops[k].Rename?) ==> CacheFresh(Members(pool))
  {
    pool, held := [], [];
    for k := 0 to |ops|
      invariant fresh(Members(pool)) && RunInv(pool, held)
      invariant (forall m :: 0 <= m < k ==> !ops[m].Rename?) ==> CacheFresh(Members(pool))
    {
      pool, held := Step(ops[k], pool, held);
    }
  }

  /** One operation: on the pairing, on references, or on the pool itself. */
  method Step(op: Op, pool: seq<CallEndpoint>, held: seq<nat>) returns (pool': seq<CallEndpoint>, held': seq<nat>)
    requires RunInv(pool, held)
    modifies Members(pool)
    ensures RunInv(pool', held') && pool <= pool' && fresh(Members(pool') - Members(pool))
    ensures old(CacheFresh(Members(pool))) && !op.Rename? ==> CacheFresh(Members(pool'))
    ensures if op.Create? then |pool'| == |pool| + 1 && pool'[|pool|].id == op.id else pool' == pool
    ensures op.Connect? || op.ConnectToNone? || op.Disconnect? || op.SetLast? || op.Rename? ==> held' == held
    ensures op.Connect? && op.i < |pool| && op.j < |pool| && op.i != op.j
            && old(pool[op.i].refs) > 0 && old(pool[op.j].refs) > 0 ==>
              pool[op.i].peer == pool[op.j] && pool[op.j].peer == pool[op.i]
    ensures (op.ConnectToNone? || (op.Disconnect? && op.locked)) && op.i < |pool| ==> pool[op.i].peer == null
    ensures op.SetLast? && op.locked && op.i < |pool| && pool[op.i].peer != null ==> pool[op.i].lastPeer == pool[op.i].peer
    ensures op.Rename? && op.i < |pool| ==> pool[op.i].id == op.id
    ensures op.Take? && op.i < |pool| && old(pool[op.i].refs) > 0 ==> held' == held[op.i := held[op.i] + 1]
    ensures op.Drop? && op.i < |pool| && held[op.i] > 0 ==> held' == held[op.i := held[op.i] - 1]
  {
    pool', held' := pool, held;
    if op.Create? {
      var e := new CallEndpoint(op.id, op.isChannel);
      pool', held' := pool + [e], held + [1];
      assert Members(pool') == Members(pool) + {e};
    } else if op.i < |pool| {
      if op.Take? || op.Drop? {
        held' := RefStep(op, pool, held);
      } else {
        PairStep(op, pool, held);
      }
    }
  }

  method RefStep(op: Op, pool: seq<CallEndpoint>, held: seq<nat>) returns (held': seq<nat>)
    requires RunInv(pool, held) && (op.Take? || op.Drop?) && op.i < |pool|
    modifies Members(pool)
    ensures RunInv(pool, held')
    ensures old(CacheFresh(Members(pool))) ==> CacheFresh(Members(pool))
    ensures op.Take? && old(pool[op.i].refs) > 0 ==> held' == held[op.i := held[op.i] + 1]
    ensures op.Drop? && held[op.i] > 0 ==> held' == held[op.i := held[op.i] - 1]
  {
    hide Paired, CacheFresh;
    held' := held;
    var e := pool[op.i];
    if op.Take? {
      var ok := e.Ref(Members(pool));
      if ok {
        held' := held[op.i := held[op.i] + 1];
      }
    } else if held[op.i] > 0 {
      var _ := e.Deref(Members(pool));
      held' := held[op.i := held[op.i] - 1];
    }
  }

  method PairStep(op: Op, pool: seq<CallEndpoint>, ghost held: seq<nat>)
    requires RunInv(pool, held) && !op.Take? && !op.Drop? && !op.Create? && op.i < |pool|
    modifies Members(pool)
    ensures RunInv(pool, held)
    ensures old(CacheFresh(Members(pool))) && !op.Rename? ==> CacheFresh(Members(pool))
    ensures op.Connect? && op.j < |pool| && op.i != op.j && old(pool[op.i].refs) > 0 && old(pool[op.j].refs) > 0 ==>
              pool[op.i].peer == pool[op.j] && pool[op.j].peer == pool[op.i]
    ensures op.ConnectToNone? || (op.Disconnect? && op.locked) ==> pool[op.i].peer == null
    ensures op.SetLast? && op.locked && pool[op.i].peer != null ==> pool[op.i].lastPeer == pool[op.i].peer
    ensures op.Rename? ==> pool[op.i].id == op.id
  {
    ghost var U := Members(pool);
    var e := pool[op.i];
    assert e in U && (e.peer != null ==> e.peer in U);
    assert forall k :: 0 <= k < |pool| ==> pool[k] in U && (pool[k].peer != null ==> pool[k].peer in U);
    match op {
      case Connect(i, j) =>
        if j < |pool| {
          hide Paired, CacheFresh;
          var _ := e.Connect(pool[j], true, true, true, U);
        }
      case ConnectToNone(i) =>
        hide Paired, CacheFresh;
        var _ := e.Connect(null, true, true, true, U);
      case Disconnect(i, locked) =>
        hide Paired, CacheFresh;
        var _ := e.Disconnect(locked, U);
      case SetLast(i, locked) =>
        e.SetLastPeerId(locked);
      case Rename(i, id) =>
        e.SetId(id);
    }
  }
}
