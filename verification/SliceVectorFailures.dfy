/** Concrete inputs on which vector operations do not do what their callers might expect. */
module SliceVectorFailures {
  import opened Options
  import opened SliceVectors
  import opened SliceVectorLaws

  /** A vector on storage of its own. */
  method Filled<T>(data: seq<T>, zero: T, ghost U: set<SliceVector<T>>, ghost S: set<Storage<T>>)
    returns (v: SliceVector<T>, ghost U': set<SliceVector<T>>, ghost S': set<Storage<T>>)
    requires Linked(U, S) && 0 < |data| < TWO32
    ensures fresh(v) && U' == U + {v} && v.storage != null && fresh(v.storage) && fresh(v.storage.cells)
    ensures S' == S + {v.storage} && Linked(U', S') && v.Contents() == data
  {
    hide Counted;
    v, U' := Empty(U, S);
    var ok;
    ok, S' := v.InitStorage(|data|, Some(data), 0, zero, U', S);
    assert v.storage.cells[..][0..|data|] == data;
  }

  lemma NoneLinked<T>()
    ensures Linked<T>({}, {})
  {
  }

  function Plus(x: int, y: int): int { x + y }
  function Times(x: int, y: int): int { x * y }

  lemma SumOfOnes(c: seq<int>)
    requires Accumulated(Plus, [1, 1], [1, 1], 1, c)
    ensures c == [2, 3] != Pointwise(Plus, [1, 1], [1, 1]) == [2, 2]
  {
    assert c[0] == Plus(1, Source([1, 1], c, 1, 0)) && c[1] == Plus(1, Source([1, 1], c, 1, 1));
  }

  /** Adding the first two of three ones to the last two gives 2 and 3 instead of 2 and 2. */
  method SumFedBack() returns (v: SliceVector<int>)
    ensures v.Inside() && v.Contents() == [2, 3]
  {
    hide Counted, Accumulated, SliceVector.Contents, SliceVector.Inside, Linked;
    ghost var U, S;
    var all, w;
    NoneLinked<int>();
    all, U, S := Filled([1, 1, 1], 0, {}, {});
    LinkedInside(U, S);
    all.Size();
    v, U := Slice(all, 1, 2, U, S);
    LinkedInside(U, S);
    assert v.Contents() == [1, 1, 1][1..3] == [1, 1];
    w, U := Slice(all, 0, 2, U, S);
    LinkedInside(U, S);
    assert w.Contents() == [1, 1, 1][0..2] == [1, 1];
    var _ := v.Combine(w, Plus);
    SumOfOnes(v.Contents());
  }

  /** Multiplying 2 and 0 in the same way is pointwise all the same: the zero hides what is fed back. */
  lemma ProductOfZero(c: seq<int>)
    requires Accumulated(Times, [2, 0], [3, 2], 1, c)
    ensures c == [6, 0] == Pointwise(Times, [2, 0], [3, 2])
  {
    assert c[0] == Times(2, Source([3, 2], c, 1, 0)) == Times(2, 3) == 6;
    assert c[1] == Times(0, Source([3, 2], c, 1, 1)) == Times(0, 6) == 0;
    assert Pointwise(Times, [2, 0], [3, 2]) == [Times(2, 3), Times(0, 2)];
  }

  /** A slice of one element before the start of any vector with elements is granted: 2^32 - 1 plus one is zero. */
  method WrappingSlice<T>(src: SliceVector<T>, ghost U: set<SliceVector<T>>, ghost S: set<Storage<T>>)
    returns (v: SliceVector<T>, ok: bool)
    requires Linked(U, S) && src in U && src.length > 0
    modifies src.storage
    ensures ok && v.length == 1 && v.storage == src.storage && !v.Inside()
  {
    hide Counted;
    ghost var U';
    v, U' := Empty(U, S);
    ok := v.InitSlice(false, src, TWO32 - 1, 1, U', S);
  }

  /** Stealing over storage of one's own leaves that storage with a reference and no owner: it is never released. */
  method StealOver<T>(x: T) returns (v: SliceVector<T>, w: SliceVector<T>, lost: Storage<T>, ghost U: set<SliceVector<T>>)
    ensures lost.refs == 1 && U == {v, w} && v.storage != lost && w.storage != lost
  {
    hide Counted;
    ghost var S;
    NoneLinked<T>();
    v, U, S := Filled([x], x, {}, {});
    w, U, S := Filled([x], x, U, S);
    lost := v.storage;
    Single(U, S, v);
    v.Steal(w, U, S);
  }

  /** With two vectors on two storages, each counter is one. */
  lemma Single<T>(U: set<SliceVector<T>>, S: set<Storage<T>>, v: SliceVector<T>)
    requires Counted(U, S) && v in U && v.storage != null && forall w <- U :: w.storage == v.storage ==> w == v
    ensures v.storage.refs == 1
  {
    assert Owners(Pointing(U), v.storage) == {v};
  }
}
