/** Vectors that are windows on reference-counted storage. */
module SliceVectors {
  import opened Options

  const TWO32: nat := 0x1_0000_0000

  /** A fixed block of cells with a reference counter; it is released when the counter reaches zero. */
  class Storage<T> {
    var refs: nat
    const cells: array<T>

    constructor (cells: array<T>)
      ensures refs == 1 && this.cells == cells
    {
      refs := 1;
      this.cells := cells;
    }

    method Ref() returns (ok: bool)
      modifies this
      ensures ok == (old(refs) > 0) && refs == old(refs) + (if ok then 1 else 0)
    {
      ok := refs > 0;
      if ok {
        refs := refs + 1;
      }
    }

    method Deref()
      requires refs > 0
      modifies this
      ensures refs == old(refs) - 1
    {
      refs := refs - 1;
    }
  }

  class SliceVector<T> {
    var storage: Storage?<T>
    var offs: nat        // position of the first element in the storage
    var length: nat
    var maxLen: nat

    constructor ()
      ensures storage == null && length == maxLen == 0
    {
      storage, offs, length, maxLen := null, 0, 0, 0;
    }

    /** The window, up to its maximum length, lies inside the storage. */
    ghost predicate Inside()
      reads this
    {
      if storage == null then length == 0 && maxLen == 0
      else length <= maxLen && offs + maxLen <= storage.cells.Length < TWO32
    }

    ghost function Contents(): seq<T>
      requires Inside()
      reads this, if storage == null then null else storage.cells
    {
      if storage == null then [] else storage.cells[..][offs..offs + length]
    }

    /** Whether n elements are available from o, in 32-bit arithmetic. */
    predicate Available(o: nat, n: nat)
      reads this
    {
      n > 0 && length > 0 && (o + n) % TWO32 <= length
    }

    /** Gives up the storage; the last vector to do so releases it. */
    method Clear(ghost U: set<SliceVector<T>>, ghost S: set<Storage<T>>)
      requires Linked(U, S) && this in U
      modifies this, storage
      ensures Linked(U, S) && storage == null && length == maxLen == 0
      ensures forall s <- S :: s.refs == old(s.refs) - (if s == old(storage) then 1 else 0)
    {
      hide Owners;
      ghost var at := Pointing(U);
      Repoint(at, this, null);
      OwnerCounts(at, this);
      length, maxLen := 0, 0;
      if storage != null {
        storage.Deref();
        storage := null;
      }
      assert Pointing(U) == at[this := null];
    }

    /** References the storage of another vector and gives up the old one for it. The reference cannot
        fail: a storage in use was never released. */
    method Adopt(other: SliceVector<T>, ghost U: set<SliceVector<T>>, ghost S: set<Storage<T>>) returns (ok: bool)
      requires Counted(U, S) && this in U && other in U
      requires other.storage != null && other.storage != storage
      modifies this`storage, storage, other.storage
      ensures ok && storage == old(other.storage) && Counted(U, S)
    {
      hide Owners;
      var tmp := other.storage;
      ghost var at := Pointing(U);
      Repoint(at, this, tmp);
      OwnerCounts(at, this);
      OwnerCounts(at, other);
      ok := tmp.Ref();
      if ok {
        if storage != null {
          storage.Deref();
        }
        storage := tmp;
        assert Pointing(U) == at[this := tmp];
      }
    }

    /** Becomes a window of n elements from o on the storage of another vector; n = 0 stands for the length
        of the other vector. A refused window empties this vector if del is set. The window lies inside the
        storage exactly when the 32-bit sum o + n did not wrap around. */
    method InitSlice(del: bool, other: SliceVector<T>, o: nat, n: nat, ghost U: set<SliceVector<T>>, ghost S: set<Storage<T>>)
      returns (ok: bool)
      requires Linked(U, S) && this in U && other in U && o < TWO32 && n < TWO32
      modifies this, storage, other.storage
      ensures Counted(U, S) && forall v <- U | v != this :: v.Inside()
      ensures var m := if n == 0 then old(other.length) else n;
              var granted := m > 0 && old(other.length) > 0 && (o + m) % 0x1_0000_0000 <= old(other.length);
              && ok == (m == 0 || granted)
              && (Inside() <==> !granted || o + m < 0x1_0000_0000)
              && (if granted then
                    storage == old(other.storage) && offs == old(other.offs) + o && length == maxLen == m
                  else if del then storage == null && length == 0
                  else unchanged(this))
    {
      hide Counted;
      var m := if n == 0 then other.length else n;
      if !other.Available(o, m) {
        if del {
          Clear(U, S);
        }
        return m == 0;
      }
      var d := other.offs + o;
      if storage == other.storage {
        SetWindow(d, m, U, S);
        return true;
      }
      ok := Adopt(other, U, S);
      if ok {
        SetWindow(d, m, U, S);
      } else {
        assert false;
      }
    }

    method SetWindow(d: nat, m: nat, ghost U: set<SliceVector<T>>, ghost S: set<Storage<T>>)
      requires Counted(U, S)
      modifies this`offs, this`length, this`maxLen
      ensures Counted(U, S) && offs == d && length == maxLen == m
    {
      offs, length, maxLen := d, m, m;
      assert Pointing(U) == old(Pointing(U));
    }

    /** Builds storage for at least len cells, filled from data or with zero. Assumes this vector is empty. */
    method InitStorage(len: nat, data: Option<seq<T>>, maximum: nat, zero: T,
                       ghost U: set<SliceVector<T>>, ghost S: set<Storage<T>>)
      returns (ok: bool, ghost S': set<Storage<T>>)
      requires Linked(U, S) && this in U && storage == null
      requires data.Some? ==> |data.value| == len
      requires len < TWO32 && maximum < TWO32
      modifies this
      ensures Linked(U, S')
      ensures var m := if maximum < len then len else maximum;
              && ok == (m > 0)
              && (!ok ==> S' == S && unchanged(this))
              && (ok ==> storage != null && fresh(storage) && fresh(storage.cells) && S' == S + {storage}
                         && offs == 0 && length == len && maxLen == m == storage.cells.Length && storage.refs == 1
                         && Initial(storage.cells[..], data, zero)
                         && (data.Some? ==> storage.cells[..][..len] == data.value)
                         && forall k :: (if data.Some? then len else 0) <= k < m ==> storage.cells[..][k] == zero)
    {
      hide Owners;
      ghost var at := Pointing(U);
      S' := S;
      var m := if maximum < len then len else maximum;
      if m == 0 {
        return false, S';
      }
      storage := NewStorage(m, data, zero);
      offs, length, maxLen := 0, len, m;
      S' := S + {storage};
      ok := true;
      assert Pointing(U) == at[this := storage];
      NoOwners(at, storage);
      Repoint(at, this, storage);
    }

    method Resize(len: nat, ghost U: set<SliceVector<T>>, ghost S: set<Storage<T>>) returns (ok: bool)
      requires Linked(U, S) && this in U
      modifies this`length
      ensures ok == (len <= maxLen) && length == if ok then len else old(length)
      ensures Linked(U, S)
    {
      hide Owners;
      ok := len <= maxLen;
      if ok {
        length := len;
      }
      assert Pointing(U) == old(Pointing(U));
    }

    method MoveFrom(other: SliceVector<T>)
      modifies this, other
      ensures other != this ==>
                && storage == old(other.storage) && offs == old(other.offs)
                && length == old(other.length) && maxLen == old(other.maxLen)
      ensures other.storage == null && other.length == other.maxLen == 0
    {
      storage := other.storage;
      offs := other.offs;
      length := other.length;
      maxLen := other.maxLen;
      other.storage := null;
      other.offs := 0;
      other.length, other.maxLen := 0, 0;
    }

    /** Takes over the window of another vector without giving up the own storage: counters stay right
        exactly when this vector had none. */
    method Steal(other: SliceVector<T>, ghost U: set<SliceVector<T>>, ghost S: set<Storage<T>>)
      requires Linked(U, S) && this in U && other in U
      modifies this, other
      ensures Linked(U, S) <==> old(storage) == null
      ensures other != this ==>
                && storage == old(other.storage) && offs == old(other.offs)
                && length == old(other.length) && maxLen == old(other.maxLen)
      ensures other.storage == null && other.length == other.maxLen == 0
    {
      hide Owners;
      ghost var mine, theirs, at := storage, other.storage, Pointing(U);
      ghost var at' := at[this := theirs];
      Repoint(at, this, theirs);
      Repoint(at', other, null);
      MoveFrom(other);
      assert Pointing(U) == at'[other := null];
      assert mine != null ==> mine.refs != |Owners(Pointing(U), mine)|;
    }

    // ----- Building vectors from others -----

    /** The elements, if there are any to point at. */
    function Data(): (d: Option<seq<T>>)
      requires Inside()
      reads this, if storage == null then null else storage.cells
      ensures Contents() == if d.Some? then d.value else []
      ensures d.Some? <==> length > 0
    {
      if length == 0 then None else Some(storage.cells[offs..offs + length])
    }

    /** Becomes a vector of n elements in storage of its own, starting with those of v. */
    method StartWith(v: SliceVector<T>, n: nat, zero: T, ghost U: set<SliceVector<T>>, ghost S: set<Storage<T>>)
      returns (ok: bool, ghost S': set<Storage<T>>)
      requires Linked(U, S) && this in U && v in U && storage == null && this != v && v.length <= n < TWO32
      modifies this
      ensures Linked(U, S') && ok == (n > 0) && length == n
      ensures if ok then storage != null && fresh(storage) && fresh(storage.cells) && v.Contents() <= Contents()
              else storage == null
    {
      hide Counted;
      ok, S' := InitStorage(v.length, v.Data(), n, zero, U, S);
      if ok {
        var _ := Resize(maxLen, U, S');
        assert v.Contents() <= Contents();
      }
    }

    /** Becomes the concatenation of two vectors, in storage of its own. */
    method Concat2(v1: SliceVector<T>, v2: SliceVector<T>, zero: T, ghost U: set<SliceVector<T>>, ghost S: set<Storage<T>>)
      returns (ghost S': set<Storage<T>>)
      requires Linked(U, S) && {this, v1, v2} <= U && storage == null
      requires this != v1 && this != v2 && v1.length + v2.length < TWO32
      modifies this
      ensures Linked(U, S') && Contents() == v1.Contents() + v2.Contents()
      ensures if v1.length + v2.length == 0 then storage == null
              else storage != null && fresh(storage) && fresh(storage.cells)
    {
      hide Counted, Contents, Inside;
      v1.Size();
      v2.Size();
      ghost var b := v2.Contents();
      var ok;
      ok, S' := StartWith(v1, v1.length + v2.length, zero, U, S);
      Size();
      if ok {
        ghost var c := Contents();
        Put(v2, v1.length);
        JoinParts(c, Contents(), Contents(), v1.Contents(), b, []);
      }
    }

    method Concat3(v1: SliceVector<T>, v2: SliceVector<T>, v3: SliceVector<T>, zero: T,
                   ghost U: set<SliceVector<T>>, ghost S: set<Storage<T>>)
      returns (ghost S': set<Storage<T>>)
      requires Linked(U, S) && {this, v1, v2, v3} <= U && storage == null
      requires this !in {v1, v2, v3} && v1.length + v2.length + v3.length < TWO32
      modifies this
      ensures Linked(U, S') && Contents() == v1.Contents() + v2.Contents() + v3.Contents()
      ensures if v1.length + v2.length + v3.length == 0 then storage == null
              else storage != null && fresh(storage) && fresh(storage.cells)
    {
      hide *;
      LinkedInside(U, S);
      v1.Size();
      v2.Size();
      v3.Size();
      ghost var a, b, c := v1.Contents(), v2.Contents(), v3.Contents();
      var ok;
      ok, S' := StartWith(v1, v1.length + v2.length + v3.length, zero, U, S);
      LinkedInside(U, S');
      Size();
      if ok {
        PutBoth(v2, v3, v1.length, a, b, c);
      }
    }

    /** Puts two vectors, kept in other storage, after the elements a. */
    method PutBoth(v2: SliceVector<T>, v3: SliceVector<T>, p: nat, ghost a: seq<T>, ghost b: seq<T>, ghost c: seq<T>)
      requires Inside() && v2.Inside() && v3.Inside() && storage != null
      requires forall v <- {v2, v3} :: v.storage != null ==> v.storage.cells != storage.cells
      requires a <= Contents() && p == |a| && b == v2.Contents() && c == v3.Contents()
      requires |b| == v2.length && |c| == v3.length && p + v2.length + v3.length == length == |Contents()|
      modifies storage.cells
      ensures Contents() == a + b + c
    {
      hide *;
      ghost var c0 := Contents();
      Put(v2, p);
      Size();
      ghost var c1 := Contents();
      Put(v3, p + v2.length);
      JoinParts(c0, c1, Contents(), a, b, c);
    }

    /** Overwrites the elements from position p on. */
    method Overwrite(p: nat, part: seq<T>)
      requires Inside() && storage != null && p + |part| <= length == |Contents()|
      modifies storage.cells
      ensures Contents() == old(Contents())[..p] + part + old(Contents())[p + |part|..]
    {
      hide *;
      ghost var was, window := storage.cells[..], Contents();
      Window();
      CopyIn(storage.cells, offs + p, part);
      Splice(was, storage.cells[..], offs, window, p, part);
      Window();
    }

    /** Copies the elements of another vector, kept in another storage, to position p. */
    method Put(v: SliceVector<T>, p: nat)
      requires Inside() && v.Inside() && storage != null && p + v.length <= length == |Contents()|
      requires v.storage != null ==> v.storage.cells != storage.cells
      modifies storage.cells
      ensures Contents() == old(Contents())[..p] + old(v.Contents()) + old(Contents())[p + v.length..]
    {
      hide *;
      v.Size();
      var d := v.Data();
      if d.None? {
        assert Contents() == Contents()[..p] + [] + Contents()[p..];
        return;
      }
      Overwrite(p, d.value);
    }

    /** n elements of both vectors at these positions share no cell, unless they are the same cells. */
    predicate Apart(v: SliceVector<T>, n: nat, o: nat, vo: nat)
      reads this, v
    {
      storage != null && v.storage != null && storage.cells == v.storage.cells ==>
        offs + o == v.offs + vo || offs + o + n <= v.offs + vo || v.offs + vo + n <= offs + o
    }

    /** Copies n elements of another vector from position vo to position o, as a block. */
    method Copy(v: SliceVector<T>, n: nat, o: nat, vo: nat) returns (ok: bool)
      requires Inside() && v.Inside() && o + n < TWO32 && vo + n < TWO32 && Apart(v, n, o, vo)
      modifies if storage == null then {} else {storage.cells}
      ensures ok == (n == 0 || (o + n <= |old(Contents())| && vo + n <= |old(v.Contents())|))
      ensures Contents() == if ok && n > 0
                            then old(Contents())[..o] + old(v.Contents())[vo..vo + n] + old(Contents())[o + n..]
                            else old(Contents())
    {
      hide Contents, Inside, Apart;
      Size();
      v.Size();
      if n == 0 || !Available(o, n) || !v.Available(vo, n) {
        return n == 0;
      }
      v.Window();
      SliceOfCells(v.storage.cells[..], v.offs, v.length, vo, n);
      Overwrite(o, v.storage.cells[v.offs + vo..v.offs + vo + n]);
      ok := true;
    }

    /** The elements as a stretch of the cells. */
    lemma Window()
      requires Inside() && storage != null
      ensures offs + length <= storage.cells.Length
      ensures Contents() == storage.cells[..][offs..offs + length]
    {
    }

    lemma Size()
      requires Inside()
      ensures |Contents()| == length < TWO32 && (length > 0 ==> storage != null)
    {
    }

    // ----- Elements -----

    /** Sets every element to the same value. */
    method Fill(value: T)
      requires Inside()
      modifies if storage == null then {} else {storage.cells}
      ensures Contents() == seq(length, _ => value)
      ensures storage != null ==> storage.cells[..][..offs] == old(storage.cells[..])[..offs]
                                  && storage.cells[..][offs + length..] == old(storage.cells[..])[offs + length..]
    {
      if storage == null {
        return;
      }
      for k := 0 to length
        invariant forall i :: offs <= i < offs + k ==> storage.cells[i] == value
        invariant forall i :: 0 <= i < offs || offs + k <= i < storage.cells.Length ==> storage.cells[i] == old(storage.cells[i])
      {
        storage.cells[offs + k] := value;
      }
    }

    /** The other vector starts before this one in the same storage and reaches into it: the loop over
        the elements reads there what it has already written here. */
    ghost predicate FedBack(other: SliceVector<T>)
      reads this, other
    {
      && storage != null && other.storage != null && storage.cells == other.storage.cells
      && other.offs < offs < other.offs + length
    }

    /** The element-wise loop of sum, sub and mul: combines each element with the one of the other vector. */
    method Combine(other: SliceVector<T>, op: (T, T) -> T) returns (ok: bool)
      requires Inside() && other.Inside()
      modifies if storage == null then {} else {storage.cells}
      ensures ok == (length == other.length)
      ensures !ok ==> Contents() == old(Contents())
      ensures ok && !FedBack(other) ==> Contents() == Pointwise(op, old(Contents()), old(other.Contents()))
      ensures ok && !(storage != null && other.storage != null && storage.cells == other.storage.cells
                      && other.offs < offs < other.offs + length) ==>
                |Contents()| == length
                && forall k :: 0 <= k < length ==> Contents()[k] == op(old(Contents())[k], old(other.Contents())[k])
      ensures ok && FedBack(other) ==> Accumulated(op, old(Contents()), old(other.Contents()), offs - other.offs, Contents())
      ensures ok && FedBack(other) ==>
                (Contents() == Pointwise(op, old(Contents()), old(other.Contents()))
                 <==> Unaffected(op, old(Contents()), old(other.Contents()), offs - other.offs))
      ensures storage != null ==> storage.cells[..][..offs] == old(storage.cells[..])[..offs]
                                  && storage.cells[..][offs + length..] == old(storage.cells[..])[offs + length..]
    {
      hide *;
      Size();
      other.Size();
      FedBackCells(other);
      if length != other.length {
        return false;
      }
      ok := true;
      if length == 0 {
        return;
      }
      Window();
      other.Window();
      ghost var a, b := Contents(), other.Contents();
      CombineCells(storage.cells, offs, other.storage.cells, other.offs, length, op);
      Window();
      if !FedBack(other) {
        PointwiseAt(op, a, b);
      }
      if FedBack(other) {
        FedBackIsPointwise(op, a, b, offs - other.offs, Contents());
      }
    }

    lemma FedBackCells(other: SliceVector<T>)
      ensures FedBack(other) <==> storage != null && other.storage != null && storage.cells == other.storage.cells
                                  && other.offs < offs < other.offs + length
    {
    }
  }

  /** Putting b and then c after a start a gives all three joined. */
  lemma JoinParts<V>(c0: seq<V>, c1: seq<V>, c2: seq<V>, a: seq<V>, b: seq<V>, c: seq<V>)
    requires a <= c0 && |c0| == |a| + |b| + |c|
    requires c1 == c0[..|a|] + b + c0[|a| + |b|..]
    requires c2 == c1[..|a| + |b|] + c + c1[|a| + |b| + |c|..]
    ensures c2 == a + b + c
  {
  }

  /** Overwriting cells inside a window of n cells at w, seen from the window. */
  lemma Splice<V>(was: seq<V>, now: seq<V>, w: nat, window: seq<V>, p: nat, part: seq<V>)
    requires w + |window| <= |was| && window == was[w..w + |window|] && p + |part| <= |window|
    requires now == was[..w + p] + part + was[w + p + |part|..]
    ensures now[w..w + |window|] == window[..p] + part + window[p + |part|..]
  {
    var here, there := now[w..w + |window|], window[..p] + part + window[p + |part|..];
    assert |here| == |there|;
    forall k | 0 <= k < |here|
      ensures here[k] == there[k]
    {
      assert here[k] == now[w + k] && window[k] == was[w + k];
    }
  }

  lemma SliceOfCells<V>(cells: seq<V>, d: nat, n: nat, o: nat, m: nat)
    requires d + n <= |cells| && o + m <= n
    ensures cells[d + o..d + o + m] == cells[d..d + n][o..o + m]
  {
    var here, there := cells[d + o..d + o + m], cells[d..d + n][o..o + m];
    forall k | 0 <= k < m
      ensures here[k] == there[k]
    {
      assert there[k] == cells[d..d + n][o + k];
    }
    assert here == there;
  }

  function Pointwise<V>(op: (V, V) -> V, a: seq<V>, b: seq<V>): (c: seq<V>)
    requires |a| == |b|
    ensures |c| == |a|
  {
    seq(|a|, k requires 0 <= k < |a| => op(a[k], b[k]))
  }

  lemma PointwiseAt<V>(op: (V, V) -> V, a: seq<V>, b: seq<V>)
    requires |a| == |b|
    ensures |Pointwise(op, a, b)| == |a| && forall k :: 0 <= k < |a| ==> Pointwise(op, a, b)[k] == op(a[k], b[k])
  {
  }

  /** What position k is combined with: an element of b, or from d on the result d positions back. */
  function Source<V>(b: seq<V>, c: seq<V>, d: nat, k: nat): V
    requires k < |b| == |c|
  {
    if k >= d then c[k - d] else b[k]
  }

  ghost predicate AccumulatedTo<V>(op: (V, V) -> V, a: seq<V>, b: seq<V>, d: nat, c: seq<V>, n: nat)
    requires n <= |a| == |b| == |c|
  {
    forall k :: 0 <= k < n ==> c[k] == op(a[k], Source(b, c, d, k))
  }

  /** c combines a with b, except that from position d on it reads its own results. */
  ghost predicate Accumulated<V>(op: (V, V) -> V, a: seq<V>, b: seq<V>, d: nat, c: seq<V>)
    requires |a| == |b|
  {
    |c| == |a| && AccumulatedTo(op, a, b, d, c, |a|)
  }

  lemma AccumulateNext<V>(op: (V, V) -> V, a: seq<V>, b: seq<V>, d: nat, c: seq<V>, n: nat, x: V)
    requires n < |a| == |b| == |c| && AccumulatedTo(op, a, b, d, c, n) && d > 0
    requires x == op(a[n], Source(b, c, d, n))
    ensures AccumulatedTo(op, a, b, d, c[n := x], n + 1)
  {
  }

  lemma AccumulatedFar<V>(op: (V, V) -> V, a: seq<V>, b: seq<V>, d: nat, c: seq<V>)
    requires |a| == |b| == |c| <= d && AccumulatedTo(op, a, b, d, c, |a|)
    ensures c == Pointwise(op, a, b)
  {
    assert forall k :: 0 <= k < |c| ==> Source(b, c, d, k) == b[k];
  }

  /** The loop itself: n cells from p on are combined with the cells from q on of the same or another array. */
  method CombineCells<V>(d: array<V>, p: nat, od: array<V>, q: nat, n: nat, op: (V, V) -> V)
    requires p + n <= d.Length && q + n <= od.Length
    modifies d
    ensures !(d == od && q < p < q + n) ==> d[..][p..p + n] == Pointwise(op, old(d[..])[p..p + n], old(od[..])[q..q + n])
    ensures d == od && q < p < q + n ==> Accumulated(op, old(d[..])[p..p + n], old(od[..])[q..q + n], p - q, d[..][p..p + n])
    ensures d[..][..p] == old(d[..])[..p] && d[..][p + n..] == old(d[..])[p + n..]
  {
    hide Pointwise, AccumulatedTo;
    ghost var was, owas := d[..], od[..];
    ghost var a, b := d[..][p..p + n], od[..][q..q + n];
    ghost var back := if d == od && q < p < q + n then p - q else n + 1;
    StartAccumulated(op, a, b, back);
    for k := 0 to n
      invariant AccumulatedTo(op, a, b, back, d[..][p..p + n], k)
      invariant forall i :: 0 <= i < p || p + k <= i < d.Length ==> d[i] == was[i]
      invariant d != od ==> od[..] == owas
    {
      ghost var c := d[..][p..p + n];
      assert od[q + k] == Source(b, c, back, k);
      d[p + k] := op(d[p + k], od[q + k]);
      AccumulateNext(op, a, b, back, c, k, d[p + k]);
      assert d[..][p..p + n] == c[k := d[p + k]];
    }
    SameEnds(d[..], was, p, n);
    if back > n {
      AccumulatedFar(op, a, b, back, d[..][p..p + n]);
    }
  }

  lemma SameEnds<V>(now: seq<V>, was: seq<V>, p: nat, n: nat)
    requires |now| == |was| && p + n <= |now|
    requires forall i :: 0 <= i < p || p + n <= i < |now| ==> now[i] == was[i]
    ensures now[..p] == was[..p] && now[p + n..] == was[p + n..]
  {
  }

  lemma StartAccumulated<V>(op: (V, V) -> V, a: seq<V>, b: seq<V>, d: nat)
    requires |a| == |b|
    ensures AccumulatedTo(op, a, b, d, a, 0)
  {
  }

  /** Combining with the result d positions back gives what combining with b gives. */
  ghost predicate Unaffected<V>(op: (V, V) -> V, a: seq<V>, b: seq<V>, d: nat)
    requires |a| == |b|
  {
    forall k :: d <= k < |a| ==> op(a[k], op(a[k - d], b[k - d])) == op(a[k], b[k])
  }

  /** Feeding back gives the pointwise result exactly when no element notices it, whatever op is. */
  lemma FedBackIsPointwise<V>(op: (V, V) -> V, a: seq<V>, b: seq<V>, d: nat, c: seq<V>)
    requires |a| == |b| && 0 < d && Accumulated(op, a, b, d, c)
    ensures c == Pointwise(op, a, b) <==> Unaffected(op, a, b, d)
  {
    if c == Pointwise(op, a, b) {
      forall k | d <= k < |a|
        ensures op(a[k], op(a[k - d], b[k - d])) == op(a[k], b[k])
      {
        assert c[k] == op(a[k], Source(b, c, d, k));
        assert c[k - d] == op(a[k - d], b[k - d]);
      }
    }
    if Unaffected(op, a, b, d) {
      UnaffectedTo(op, a, b, d, c, |a|);
      assert c == Pointwise(op, a, b);
    }
  }

  lemma {:induction false} UnaffectedTo<V>(op: (V, V) -> V, a: seq<V>, b: seq<V>, d: nat, c: seq<V>, n: nat)
    requires |a| == |b| && 0 < d && Accumulated(op, a, b, d, c) && Unaffected(op, a, b, d) && n <= |a|
    ensures forall k :: 0 <= k < n ==> c[k] == op(a[k], b[k])
  {
    if n > 0 {
      UnaffectedTo(op, a, b, d, c, n - 1);
      var k := n - 1;
      assert c[k] == op(a[k], Source(b, c, d, k));
      if k >= d {
        assert c[k - d] == op(a[k - d], b[k - d]);
      }
    }
  }

  /** Cells hold the given data, if any, and zero after it. */
  ghost predicate Initial<V>(cells: seq<V>, data: Option<seq<V>>, zero: V) {
    var d := if data.Some? then data.value else [];
    d <= cells && forall k :: |d| <= k < |cells| ==> cells[k] == zero
  }

  method NewStorage<T>(m: nat, data: Option<seq<T>>, zero: T) returns (s: Storage<T>)
    requires data.Some? ==> |data.value| <= m
    ensures fresh(s) && fresh(s.cells) && s.refs == 1 && s.cells.Length == m
    ensures Initial(s.cells[..], data, zero)
  {
    var cells := new T[m](_ => zero);
    if data.Some? {
      CopyIn(cells, 0, data.value);
    }
    s := new Storage(cells);
  }

  /** Copies data into cells from position p on. */
  method CopyIn<T>(cells: array<T>, p: nat, data: seq<T>)
    requires p + |data| <= cells.Length
    modifies cells
    ensures cells[..] == old(cells[..])[..p] + data + old(cells[..])[p + |data|..]
  {
    for k := 0 to |data|
      invariant forall i :: 0 <= i < k ==> cells[p + i] == data[i]
      invariant forall i :: 0 <= i < p || p + k <= i < cells.Length ==> cells[i] == old(cells[i])
    {
      cells[p + k] := data[k];
    }
  }

  /** Which storage each vector of U points at. */
  ghost function Pointing<T>(U: set<SliceVector<T>>): map<SliceVector<T>, Storage?<T>>
    reads U
  {
    map v <- U :: v.storage
  }

  ghost function Owners<V, W>(at: map<V, W>, s: W): set<V> {
    set v <- at.Keys | at[v] == s
  }

  /** Pointing v at x moves v from the owners of what it pointed at before to the owners of x. */
  lemma Repoint<V, W>(at: map<V, W>, v: V, x: W)
    requires v in at
    ensures forall s :: |Owners(at[v := x], s)| == |Owners(at, s)| + (if s == x then 1 else 0) - (if s == at[v] then 1 else 0)
  {
    forall s: W
      ensures |Owners(at[v := x], s)| == |Owners(at, s)| + (if s == x then 1 else 0) - (if s == at[v] then 1 else 0)
    {
      RepointOne(at, v, x, s);
    }
  }

  lemma RepointOne<V, W>(at: map<V, W>, v: V, x: W, s: W)
    requires v in at
    ensures |Owners(at[v := x], s)| == |Owners(at, s)| + (if s == x then 1 else 0) - (if s == at[v] then 1 else 0)
  {
    assert v in Owners(at, s) <==> at[v] == s;
    if s == x {
      assert Owners(at[v := x], s) == Owners(at, s) + {v};
    } else {
      assert Owners(at[v := x], s) == Owners(at, s) - {v};
    }
  }

  /** A new vector without storage changes no count. */
  lemma AddEmpty<T>(U: set<SliceVector<T>>, S: set<Storage<T>>, v: SliceVector<T>)
    requires Counted(U, S) && v !in U && v.storage == null
    ensures Counted(U + {v}, S)
  {
    forall s <- S
      ensures Owners(Pointing(U + {v}), s) == Owners(Pointing(U), s)
    {
    }
  }

  lemma NoOwners<V, W>(at: map<V, W>, s: W)
    requires forall v <- at.Keys :: at[v] != s
    ensures |Owners(at, s)| == 0
  {
    assert Owners(at, s) == {};
  }

  lemma OwnerCounts<V, W>(at: map<V, W>, v: V)
    requires v in at
    ensures |Owners(at, at[v])| > 0
  {
    assert v in Owners(at, at[v]);
  }

  /** Every counter is the number of vectors of U that point at the storage, and every storage pointed at
      is one of S. */
  ghost predicate Counted<T>(U: set<SliceVector<T>>, S: set<Storage<T>>)
    reads U, S
  {
    && (forall v <- U :: v.storage != null ==> v.storage in S)
    && (forall s <- S :: s.refs == |Owners(Pointing(U), s)|)
  }

  lemma LinkedInside<T>(U: set<SliceVector<T>>, S: set<Storage<T>>)
    requires Linked(U, S)
    ensures forall v <- U :: v.Inside()
  {
  }

  /** Counters are right and every window lies inside its storage. */
  ghost predicate Linked<T>(U: set<SliceVector<T>>, S: set<Storage<T>>)
    reads U, S
  {
    Counted(U, S) && forall v <- U :: v.Inside()
  }
}
