/** The message relays of a module: a list of them and the mask of their identifiers. */
module Relays {

  class MessageRelay {
    const id: bv32

    constructor (id: bv32)
      ensures this.id == id
    {
      this.id := id;
    }
  }

  // ----- Masks -----

  predicate Apart(a: bv32, b: bv32) {
    a & b == 0
  }

  function Join(a: bv32, b: bv32): bv32 {
    a | b
  }

  function Less(a: bv32, b: bv32): bv32 {
    a & !b
  }

  lemma ApartSwaps(a: bv32, b: bv32)
    ensures Apart(a, b) <==> Apart(b, a)
  {
  }

  lemma ApartLeft(x: bv32, a: bv32, b: bv32)
    requires Apart(x, Join(a, b))
    ensures Apart(x, a) && Apart(x, b)
  {
    ApartFirst(x, a, b);
    ApartFirst(x, b, a);
    JoinSwaps(a, b);
    hide *;
  }

  lemma ApartFirst(x: bv32, a: bv32, b: bv32)
    ensures Apart(x, Join(a, b)) ==> Apart(x, a)
  {
  }

  lemma JoinSwaps(a: bv32, b: bv32)
    ensures Join(a, b) == Join(b, a)
  {
  }

  lemma ApartBoth(x: bv32, a: bv32, b: bv32)
    requires Apart(x, a) && Apart(x, b)
    ensures Apart(x, Join(a, b))
  {
  }

  lemma LessLast(u: bv32, last: bv32)
    requires Apart(last, u)
    ensures Less(Join(u, last), last) == u
  {
  }

  lemma LessInner(u: bv32, last: bv32, id: bv32)
    requires Apart(last, id)
    ensures Less(Join(u, last), id) == Join(Less(u, id), last)
  {
  }

  lemma ApartSelf(a: bv32)
    ensures Apart(a, a) <==> a == 0
  {
  }

  lemma ApartZero(a: bv32)
    ensures Apart(a, 0)
  {
  }

  function Union(rs: seq<MessageRelay>): bv32 {
    if rs == [] then 0 else Join(Union(rs[..|rs| - 1]), rs[|rs| - 1].id)
  }

  ghost predicate Disjoint(rs: seq<MessageRelay>) {
    forall i, j :: 0 <= i < j < |rs| ==> Apart(rs[i].id, rs[j].id) && rs[i] != rs[j]
  }

  /** A mask is apart from the union exactly when it is from every identifier. */
  lemma {:induction false} UnionApart(rs: seq<MessageRelay>, x: bv32)
    ensures Apart(x, Union(rs)) <==> forall i :: 0 <= i < |rs| ==> Apart(x, rs[i].id)
  {
    hide Apart, Join, Less;
    if rs == [] {
      ApartZero(x);
    } else {
      var most, last := rs[..|rs| - 1], rs[|rs| - 1];
      UnionApart(most, x);
      assert forall i :: 0 <= i < |most| ==> most[i] == rs[i];
      if Apart(x, Union(rs)) {
        ApartLeft(x, Union(most), last.id);
      }
      if Apart(x, Union(most)) && Apart(x, last.id) {
        ApartBoth(x, Union(most), last.id);
      }
      assert forall i :: 0 <= i < |rs| ==> i < |most| || rs[i] == last;
    }
  }

  function Without(rs: seq<MessageRelay>, k: nat): seq<MessageRelay>
    requires k < |rs|
  {
    rs[..k] + rs[k + 1..]
  }

  lemma DisjointWithout(rs: seq<MessageRelay>, k: nat)
    requires k < |rs| && Disjoint(rs)
    ensures Disjoint(Without(rs, k))
  {
    hide Apart, Join, Less;
  }

  /** Taking a relay out of a disjoint list takes its bits out of the union. */
  lemma {:induction false} UnionWithout(rs: seq<MessageRelay>, k: nat)
    requires k < |rs| && Disjoint(rs)
    ensures Union(Without(rs, k)) == Less(Union(rs), rs[k].id)
    decreases |rs|
  {
    hide Apart, Join, Less;
    var most, last := rs[..|rs| - 1], rs[|rs| - 1];
    ApartSwaps(rs[k].id, last.id);
    if k == |rs| - 1 {
      assert Without(rs, k) == most;
      UnionApart(most, last.id);
      forall i | 0 <= i < |most|
        ensures Apart(last.id, most[i].id)
      {
        ApartSwaps(rs[i].id, last.id);
      }
      LessLast(Union(most), last.id);
    } else {
      UnionWithout(most, k);
      assert Without(rs, k) == Without(most, k) + [last];
      assert Without(rs, k)[..|rs| - 2] == Without(most, k);
      LessInner(Union(most), last.id, rs[k].id);
    }
  }

  lemma UnionWith(rs: seq<MessageRelay>, r: MessageRelay)
    requires Disjoint(rs) && Apart(r.id, Union(rs)) && r !in rs
    ensures Union(rs + [r]) == Join(Union(rs), r.id) && Disjoint(rs + [r])
  {
    hide Apart, Join, Less;
    UnionApart(rs, r.id);
    assert (rs + [r])[..|rs|] == rs;
    forall i | 0 <= i < |rs|
      ensures Apart(rs[i].id, r.id)
    {
      ApartSwaps(r.id, rs[i].id);
    }
  }

  /** The list's relays, among which each occurs once, but for the one at k. */
  lemma MembersWithout(rs: seq<MessageRelay>, k: nat)
    requires k < |rs| && Disjoint(rs)
    ensures forall r :: r in Without(rs, k) <==> r in rs && r != rs[k]
  {
    hide Apart;
    assert rs == rs[..k] + [rs[k]] + rs[k + 1..];
  }

  /** A relay of the list meets the union exactly when it has a bit at all. */
  lemma OwnBits(rs: seq<MessageRelay>, k: nat)
    requires k < |rs| && Disjoint(rs)
    ensures Apart(rs[k].id, Union(rs)) <==> rs[k].id == 0
  {
    hide Apart, Join, Less, Union;
    UnionApart(rs, rs[k].id);
    ApartSelf(rs[k].id);
    if rs[k].id == 0 {
      forall i | 0 <= i < |rs|
        ensures Apart(rs[k].id, rs[i].id)
      {
        ApartZero(rs[i].id);
        ApartSwaps(rs[i].id, 0);
      }
    }
  }

  /** No two relays of the list with a bit have the same identifier. */
  lemma OneEach(rs: seq<MessageRelay>, k: nat, r: MessageRelay)
    requires k < |rs| && Disjoint(rs) && r in rs && r.id == rs[k].id != 0
    ensures r == rs[k]
  {
    hide Apart;
    ApartSelf(r.id);
    var i :| 0 <= i < |rs| && rs[i] == r;
  }

  // ----- The module -----

  class Module {
    var relays: bv32
    var relayList: seq<MessageRelay>
    var installed: set<MessageRelay>    // what the engine dispatches to

    constructor ()
      ensures Valid() && relayList == []
    {
      relays, relayList, installed := 0, [], {};
    }

    /** The identifiers share no bits, the mask is their union, and the engine knows exactly the relays listed. */
    ghost predicate Valid()
      reads this
    {
      Disjoint(relayList) && relays == Union(relayList) && installed == set r <- relayList
    }

    /** Adds a relay to list, mask and engine. */
    method Append(r: MessageRelay)
      requires Valid() && Apart(r.id, relays) && r !in relayList
      modifies this
      ensures Valid() && relayList == old(relayList) + [r]
    {
      hide Apart, Join, Less, Union;
      UnionWith(relayList, r);
      relays := Join(relays, r.id);
      relayList := relayList + [r];
      installed := installed + {r};
    }

    /** Takes the relay at a position out of list, mask and engine. */
    method RemoveAt(k: nat)
      requires Valid() && k < |relayList|
      modifies this
      ensures Valid() && relayList == Without(old(relayList), k) && relays == Less(old(relays), old(relayList[k].id))
    {
      hide Apart, Join, Less, Union;
      UnionWithout(relayList, k);
      DisjointWithout(relayList, k);
      MembersWithout(relayList, k);
      installed := installed - {relayList[k]};
      relays := Less(relays, relayList[k].id);
      relayList := Without(relayList, k);
    }

    /** Installs a new relay. An identifier that has a bit in common with those installed counts as installed,
        though nothing is. */
    method InstallId(id: bv32, named: bool, priority: nat) returns (ok: bool)
      requires Valid()
      modifies this
      ensures Valid() && ok == (id != 0 && named && priority != 0)
      ensures if ok && Apart(id, old(relays))
              then |relayList| == |old(relayList)| + 1 && relayList[..|old(relayList)|] == old(relayList)
                   && fresh(relayList[|old(relayList)|]) && relayList[|old(relayList)|].id == id
              else unchanged(this)
    {
      hide Apart, Join, Less, Union;
      if !(id != 0 && named && priority != 0) {
        return false;
      }
      ApartSwaps(relays, id);
      if !Apart(relays, id) {
        return true;
      }
      var r := new MessageRelay(id);
      Append(r);
      ok := true;
    }

    method Install(r: MessageRelay) returns (ok: bool)
      requires Valid()
      modifies this
      ensures Valid() && ok == (Apart(r.id, old(relays)) && r !in old(relayList))
      ensures if ok then relayList == old(relayList) + [r] else unchanged(this)
    {
      hide Apart, Join, Less, Union;
      if !Apart(r.id, relays) || r in relayList {
        return false;
      }
      Append(r);
      ok := true;
    }

    method Uninstall(r: MessageRelay) returns (ok: bool)
      requires Valid()
      modifies this
      ensures Valid() && ok == (r.id != 0 && r in old(relayList))
      ensures if ok then relays == Less(old(relays), r.id) && forall q :: q in relayList <==> q in old(relayList) && q != r
              else unchanged(this)
    {
      hide Apart, Join, Less, Union;
      forall i | 0 <= i < |relayList|
        ensures Apart(relayList[i].id, relays) <==> relayList[i].id == 0
      {
        OwnBits(relayList, i);
      }
      if Apart(r.id, relays) {
        return false;
      }
      var k := 0;
      while k < |relayList| && relayList[k] != r
        invariant k <= |relayList| && r !in relayList[..k]
      {
        k := k + 1;
      }
      if k == |relayList| {
        return false;
      }
      MembersWithout(relayList, k);
      RemoveAt(k);
      ok := true;
    }

    /** Uninstalls the relay with exactly this identifier, if there is one. The result is false even then. */
    method UninstallId(id: bv32) returns (ok: bool)
      requires Valid()
      modifies this
      ensures Valid() && !ok
      ensures if id != 0 && exists r :: r in old(relayList) && r.id == id
              then relays == Less(old(relays), id) && |relayList| == |old(relayList)| - 1
                   && forall q :: q in relayList <==> q in old(relayList) && q.id != id
              else unchanged(this)
    {
      hide Apart, Join, Less, Union;
      ok := false;
      forall i | 0 <= i < |relayList|
        ensures Apart(relayList[i].id, relays) <==> relayList[i].id == 0
      {
        OwnBits(relayList, i);
      }
      if Apart(id, relays) {
        return;
      }
      var k := 0;
      while k < |relayList| && relayList[k].id != id
        invariant k <= |relayList| && forall i :: 0 <= i < k ==> relayList[i].id != id
      {
        k := k + 1;
      }
      if k < |relayList| {
        MembersWithout(relayList, k);
        forall q | q in relayList && q.id == id
          ensures q == relayList[k]
        {
          OneEach(relayList, k, q);
        }
        RemoveAt(k);
      }
    }

    /** Uninstalls everything, and finds that nothing is left. */
    method UninstallAll() returns (ok: bool)
      requires Valid()
      modifies this
      ensures Valid() && ok && relays == 0 && relayList == [] && installed == {}
    {
      while relayList != []
        invariant Valid()
        decreases |relayList|
      {
        RemoveAt(0);
      }
      ok := relays == 0 && |relayList| == 0;
    }
  }

  datatype Op =
    | InstallNew(id: bv32, named: bool, priority: nat)
    | InstallOwn(id: bv32)
    | InstallAgain(k: nat)
    | UninstallOne(k: nat)
    | UninstallBits(id: bv32)

  /** Over any sequence of installs and uninstalls the identifiers listed are pairwise disjoint, the mask is their
      union and the engine has exactly the relays listed. */
  method Run(ops: seq<Op>) returns (m: Module)
    ensures fresh(m) && m.Valid()
  {
    m := new Module();
    for k := 0 to |ops|
      invariant fresh(m) && m.Valid()
    {
      match ops[k] {
        case InstallNew(id, named, priority) =>
          var _ := m.InstallId(id, named, priority);
        case InstallOwn(id) =>
          var r := new MessageRelay(id);
          var _ := m.Install(r);
        case InstallAgain(n) =>
          if n < |m.relayList| {
            var _ := m.Install(m.relayList[n]);
          }
        case UninstallOne(n) =>
          if n < |m.relayList| {
            var _ := m.Uninstall(m.relayList[n]);
          }
        case UninstallBits(id) =>
          var _ := m.UninstallId(id);
      }
    }
  }

  /** So whatever was installed and uninstalled before, uninstalling everything succeeds and leaves nothing behind. */
  method RunToEnd(ops: seq<Op>) returns (ok: bool, mask: bv32, left: nat)
    ensures ok && mask == 0 && left == 0
  {
    var m := Run(ops);
    ok := m.UninstallAll();
    mask, left := m.relays, |m.relayList|;
  }
}
