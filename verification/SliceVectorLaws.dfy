/** Slices of slices, head and tail, and what every sequence of vector operations keeps. */
module SliceVectorLaws {
  import opened Options
  import opened SliceVectors

  method Empty<T>(ghost U: set<SliceVector<T>>, ghost S: set<Storage<T>>)
    returns (v: SliceVector<T>, ghost U': set<SliceVector<T>>)
    requires Linked(U, S)
    ensures fresh(v) && U' == U + {v} && Linked(U', S) && v.storage == null && v.length == 0 && v.Contents() == []
  {
    hide Counted;
    v := new SliceVector();
    U' := U + {v};
    AddEmpty(U, S, v);
  }

  /** A new vector holding a slice of src; it stays empty if the slice is refused. */
  method Slice<T>(src: SliceVector<T>, o: nat, n: nat, ghost U: set<SliceVector<T>>, ghost S: set<Storage<T>>)
    returns (v: SliceVector<T>, ghost U': set<SliceVector<T>>)
    requires Linked(U, S) && src in U && o + (if n == 0 then src.length else n) < TWO32
    modifies src.storage
    ensures fresh(v) && U' == U + {v} && Linked(U', S) && src.Contents() == old(src.Contents())
    ensures var m := if n == 0 then src.length else n;
            if m > 0 && o + m <= src.length
            then v.storage == src.storage && v.offs == src.offs + o && v.length == v.maxLen == m
                 && v.Contents() == src.Contents()[o..o + m]
            else v.storage == null && v.length == 0
  {
    hide Counted, SliceVector.Contents, SliceVector.Inside;
    v, U' := Empty(U, S);
    src.Size();
    var ok := v.InitSlice(false, src, o, n, U', S);
    if v.storage != null {
      Windowed(v, src, o);
    }
  }

  /** A window inside that of another vector holds a slice of its elements. */
  lemma Windowed<T>(v: SliceVector<T>, src: SliceVector<T>, o: nat)
    requires v.Inside() && src.Inside() && v.storage == src.storage != null
    requires v.offs == src.offs + o && o + v.length <= src.length == |src.Contents()|
    ensures v.Contents() == src.Contents()[o..o + v.length]
  {
    var all, part := src.Contents(), v.Contents();
    forall k | 0 <= k < v.length
      ensures part[k] == all[o + k]
    {
      assert part[k] == src.storage.cells[src.offs + o + k];
    }
  }

  method Head<T>(src: SliceVector<T>, n: nat, ghost U: set<SliceVector<T>>, ghost S: set<Storage<T>>)
    returns (v: SliceVector<T>, ghost U': set<SliceVector<T>>)
    requires Linked(U, S) && src in U && n < TWO32
    modifies src.storage
    ensures fresh(v) && U' == U + {v} && Linked(U', S) && src.Contents() == old(src.Contents())
    ensures n == 0 ==> v.Contents() == src.Contents()
    ensures n > 0 ==> v.Contents() == if n <= src.length then src.Contents()[..n] else []
  {
    src.Size();
    v, U' := Slice(src, 0, n, U, S);
  }

  /** The last n elements. Unlike the head, all of the elements cannot be asked for. */
  method Tail<T>(src: SliceVector<T>, n: nat, ghost U: set<SliceVector<T>>, ghost S: set<Storage<T>>)
    returns (v: SliceVector<T>, ghost U': set<SliceVector<T>>)
    requires Linked(U, S) && src in U && (n == 0 ==> 2 * src.length < TWO32)
    modifies src.storage
    ensures fresh(v) && U' == U + {v} && Linked(U', S) && src.Contents() == old(src.Contents())
    ensures v.Contents() == if n < src.length then src.Contents()[src.length - n..] else []
  {
    hide Counted, SliceVector.Contents, SliceVector.Inside;
    src.Size();
    if n < src.length {
      v, U' := Slice(src, src.length - n, n, U, S);
      v.Size();
      assert src.Contents()[src.length - n..src.length] == src.Contents()[src.length - n..];
    } else {
      v, U' := Empty(U, S);
    }
  }

  /** A slice of a slice is the slice at the summed offset: the same window of the same storage. */
  method SliceOfSlice<T>(src: SliceVector<T>, o1: nat, n1: nat, o2: nat, n2: nat,
                         ghost U: set<SliceVector<T>>, ghost S: set<Storage<T>>)
    returns (a: SliceVector<T>, b: SliceVector<T>, ghost U': set<SliceVector<T>>)
    requires Linked(U, S) && src in U && 0 < n2 && o2 + n2 <= n1 && o1 + n1 <= src.length
    modifies src.storage
    ensures Linked(U', S) && fresh(a) && fresh(b) && a != b
    ensures a.storage == b.storage == src.storage && a.offs == b.offs
    ensures a.length == b.length && a.maxLen == b.maxLen
  {
    hide Counted, SliceVector.Contents, SliceVector.Inside;
    src.Size();
    var once;
    once, U' := Slice(src, o1, n1, U, S);
    a, U' := Slice(once, o2, n2, U', S);
    b, U' := Slice(src, o1 + o2, n2, U', S);
  }

  /** Head and tail joined give the elements back, in storage of their own. */
  method JoinHeadTail<T>(src: SliceVector<T>, k: nat, zero: T, ghost U: set<SliceVector<T>>, ghost S: set<Storage<T>>)
    returns (v: SliceVector<T>, ghost U': set<SliceVector<T>>, ghost S': set<Storage<T>>)
    requires Linked(U, S) && src in U && 0 < k < src.length
    modifies src.storage
    ensures Linked(U', S') && v in U' && fresh(v) && v.storage != null && fresh(v.storage) && fresh(v.storage.cells)
    ensures v.Contents() == src.Contents()
  {
    hide Counted, SliceVector.Contents, SliceVector.Inside;
    src.Size();
    ghost var all := src.Contents();
    var h, t;
    h, U' := Head(src, k, U, S);
    assert h.Contents() == all[..k];
    t, U' := Tail(src, src.length - k, U', S);
    assert t.Contents() == all[k..];
    h.Size();
    t.Size();
    v, U' := Empty(U', S);
    S' := v.Concat2(h, t, zero, U', S);
    assert all == all[..k] + all[k..];
  }

  // ----- Runs -----

  datatype Op =
    | New
    | Alloc(i: nat, len: nat, maximum: nat)
    | Assign(i: nat, j: nat, o: nat, n: nat, del: bool)
    | Shrink(i: nat, len: nat)
    | Reset(i: nat)            // also the end of a vector's life
    | StealFrom(i: nat, j: nat)

  /** The operations on vectors the class is meant for: storage is built, and stolen, by empty vectors only, and
      no offset wraps around in 32 bits. */
  predicate Allowed<T>(vs: seq<SliceVector<T>>, op: Op)
    reads vs
  {
    match op
    case New => true
    case Alloc(i, len, maximum) => i < |vs| && vs[i].storage == null && len < TWO32 && maximum < TWO32
    case Assign(i, j, o, n, _) => i < |vs| && j < |vs| && n < TWO32 && o + (if n == 0 then vs[j].length else n) < TWO32
    case Shrink(i, _) => i < |vs|
    case Reset(i) => i < |vs|
    case StealFrom(i, j) => i < |vs| && j < |vs| && vs[i].storage == null
  }

  method Step<T>(vs: seq<SliceVector<T>>, op: Op, zero: T, ghost U: set<SliceVector<T>>, ghost S: set<Storage<T>>)
    returns (vs': seq<SliceVector<T>>, ghost U': set<SliceVector<T>>, ghost S': set<Storage<T>>)
    requires Linked(U, S) && (forall v <- vs :: v in U) && Allowed(vs, op)
    modifies U, S
    ensures Linked(U', S') && U <= U' && S <= S' && forall v <- vs' :: v in U'
    ensures fresh(U' - U) && fresh(S' - S)
    ensures if op.New? then |vs'| == |vs| + 1 && vs'[|vs|].storage == null else vs' == vs
    ensures op.Alloc? && (op.len > 0 || op.maximum > 0) ==>
              vs[op.i].storage != null && fresh(vs[op.i].storage) && vs[op.i].length == op.len
    ensures op.Assign? ==>
              var m := if op.n == 0 then old(vs[op.j].length) else op.n;
              if 0 < m && op.o + m <= old(vs[op.j].length)
              then vs[op.i].storage == old(vs[op.j].storage) && vs[op.i].offs == old(vs[op.j].offs) + op.o
                   && vs[op.i].length == m
              else op.del ==> vs[op.i].storage == null
    ensures op.Shrink? && op.len <= old(vs[op.i].maxLen) ==> vs[op.i].length == op.len
    ensures op.Reset? ==> vs[op.i].storage == null
    ensures op.StealFrom? && vs[op.i] != vs[op.j] ==>
              vs[op.i].storage == old(vs[op.j].storage) && vs[op.i].length == old(vs[op.j].length) && vs[op.j].storage == null
  {
    hide Counted, SliceVector.Inside, Initial;
    vs', U', S' := vs, U, S;
    InUse(U, S);
    match op {
      case New =>
        var v;
        v, U' := Empty(U, S);
        vs' := vs + [v];
      case Alloc(i, len, maximum) =>
        var ok;
        ok, S' := vs[i].InitStorage(len, None, maximum, zero, U, S);
      case Assign(i, j, o, n, del) =>
        Assigned(vs[i], vs[j], o, n, del, U, S);
      case Shrink(i, len) =>
        var _ := vs[i].Resize(len, U, S);
      case Reset(i) =>
        vs[i].Clear(U, S);
      case StealFrom(i, j) =>
        vs[i].Steal(vs[j], U, S);
    }
  }

  method Assigned<T>(v: SliceVector<T>, w: SliceVector<T>, o: nat, n: nat, del: bool,
                     ghost U: set<SliceVector<T>>, ghost S: set<Storage<T>>)
    requires Linked(U, S) && v in U && w in U && n < TWO32 && o + (if n == 0 then w.length else n) < TWO32
    modifies v, v.storage, w.storage
    ensures Linked(U, S)
    ensures var m := if n == 0 then old(w.length) else n;
            if 0 < m && o + m <= old(w.length)
            then v.storage == old(w.storage) && v.offs == old(w.offs) + o && v.length == m
            else del ==> v.storage == null
  {
    hide Counted, SliceVector.Inside;
    var _ := v.InitSlice(del, w, o, n, U, S);
  }

  lemma InUse<T>(U: set<SliceVector<T>>, S: set<Storage<T>>)
    requires Counted(U, S)
    ensures forall v <- U :: v.storage != null ==> v.storage in S
  {
  }

  /** Whatever the sequence of operations: every counter is the number of vectors pointing at the storage, so
      the storage is released exactly when the last one has left, and every window lies inside its storage. */
  method Run<T>(ops: seq<Op>, zero: T)
    returns (vs: seq<SliceVector<T>>, ghost U: set<SliceVector<T>>, ghost S: set<Storage<T>>)
    ensures Linked(U, S) && forall v <- vs :: v in U
    ensures forall v <- vs :: v.Inside() && (v.storage != null ==> v.storage.refs > 0)
    ensures forall s <- S :: s.refs == 0 <==> forall v <- U :: v.storage != s
  {
    vs, U, S := [], {}, {};
    for k := 0 to |ops|
      invariant Linked(U, S) && fresh(U) && fresh(S) && forall v <- vs :: v in U
    {
      if Allowed(vs, ops[k]) {
        vs, U, S := Step(vs, ops[k], zero, U, S);
      }
    }
    Released(U, S);
    InUse(U, S);
  }

  lemma Released<T>(U: set<SliceVector<T>>, S: set<Storage<T>>)
    requires Counted(U, S)
    ensures forall s <- S :: s.refs == 0 <==> forall v <- U :: v.storage != s
  {
    forall s <- S
      ensures s.refs == 0 <==> forall v <- U :: v.storage != s
    {
      var at := Pointing(U);
      if forall v <- U :: v.storage != s {
        NoOwners(at, s);
      } else {
        var v :| v in U && v.storage == s;
        OwnerCounts(at, v);
      }
    }
  }
}
