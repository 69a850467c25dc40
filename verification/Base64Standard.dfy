/** The encoding in the terms of RFC 4648 section 4: the characters of Table 1, group by group, and what a decoder
    skips, written out. */
module Base64Standard {
  import opened Base64Tables
  import opened Chunks
  import opened Base64Text
  import opened Base64Laws

  /** Table 1 in rows of eight. */
  function Row(r: nat): (s: string)
    requires r < 8
    ensures |s| == 8
  {
    match r
    case 0 => "ABCDEFGH"
    case 1 => "IJKLMNOP"
    case 2 => "QRSTUVWX"
    case 3 => "YZabcdef"
    case 4 => "ghijklmn"
    case 5 => "opqrstuv"
    case 6 => "wxyz0123"
    case _ => "456789+/"
  }

  /** The character of Table 1 for a value below 64. */
  function Table1(v: byte): char
    requires v < 64
  {
    Row(v as int / 8)[v as int % 8]
  }

  predicate Is(c: byte, t: char) {
    c as int == t as int
  }

  function Code(k: nat): nat {
    if k < 26 then k + 65 else if k < 52 then k + 71 else if k < 62 then k - 4 else if k == 62 then 43 else 47
  }

  lemma RowCodes(r: nat, k: nat)
    requires r < 8 && k < 8
    ensures Row(r)[k] as int == Code(8 * r + k)
  {
    match k {
      case 0 =>
      case 1 =>
      case 2 =>
      case 3 =>
      case 4 =>
      case 5 =>
      case 6 =>
      case _ =>
    }
  }

  lemma AlphabetCodes(v: byte)
    requires v < 64
    ensures Alphabet(v) as int == Code(v as int)
  {
  }

  /** The encoder's alphabet is Table 1. */
  lemma AlphabetIsTable1(v: byte)
    requires v < 64
    ensures Is(Alphabet(v), Table1(v))
  {
    AlphabetCodes(v);
    RowCodes(v as int / 8, v as int % 8);
    hide *;
  }

  // ----- Groups -----

  /** The four characters of group g: bits 2 to 7 of the first byte, its bits 0 and 1 and bits 4 to 7 of the second, and
      so on; pads stand for the characters that hold no bits of the data. */
  predicate IsGroup(b: seq<byte>, t: seq<byte>, g: nat) {
    var x, y, z := At(b, 3 * g), At(b, 3 * g + 1), At(b, 3 * g + 2);
    && 4 * g + 4 <= |t|
    && Is(t[4 * g], Table1(x >> 2))
    && Is(t[4 * g + 1], Table1(((x & 0x03) << 4) | (y >> 4)))
    && Is(t[4 * g + 2], if 3 * g + 1 < |b| then Table1(((y & 0x0f) << 2) | (z >> 6)) else '=')
    && Is(t[4 * g + 3], if 3 * g + 2 < |b| then Table1(z & 0x3f) else '=')
  }

  lemma SameBits(x: byte, y: byte)
    ensures Low6(First(x)) == x >> 2 && Low6(x) == x & 0x3f
    ensures Low6(Second(x, y)) == ((x & 0x03) << 4) | (y >> 4)
    ensures Low6(Third(x, y)) == ((x & 0x0f) << 2) | (y >> 6)
  {
  }

  /** Where the sextets of group g are. */
  lemma SextetsAt(b: seq<byte>, g: nat)
    requires 3 * g < |b|
    ensures var e := if 3 * g + 3 <= |b| then 3 * g + 3 else |b|;
            var q := Pack(b[3 * g..e]);
            4 * g + |q| <= |Sextets(b)| && Sextets(b)[4 * g..4 * g + |q|] == q
            && (|q| < 4 ==> |Sextets(b)| == 4 * g + |q|)
  {
    var h, r := b[..3 * g], b[3 * g..];
    assert b == h + r;
    ChunkAppend(Pack, 3, h, r);
    SextetsShape(h);
    if |r| > 3 {
      assert r[..3] == b[3 * g..3 * g + 3];
      hide Pack;
      Middle(Sextets(h), Pack(r[..3]), Sextets(r[3..]));
      assert Sextets(h) + (Pack(r[..3]) + Sextets(r[3..])) == Sextets(h) + Pack(r[..3]) + Sextets(r[3..]);
    } else {
      hide Pack;
      Middle(Sextets(h), Pack(r), []);
      assert Sextets(h) + Pack(r) + [] == Sextets(h) + Pack(r);
    }
  }

  lemma Middle(a: seq<byte>, b: seq<byte>, c: seq<byte>)
    ensures (a + b + c)[|a|..|a| + |b|] == b
  {
  }

  function Chunk(b: seq<byte>, g: nat): (c: seq<byte>)
    requires 3 * g < |b|
    ensures 0 < |c| <= 3 && |c| == if 3 * g + 3 <= |b| then 3 else |b| - 3 * g
  {
    b[3 * g..if 3 * g + 3 <= |b| then 3 * g + 3 else |b|]
  }

  /** The characters of group g, one by one. */
  lemma GroupChars(b: seq<byte>, g: nat)
    requires 3 * g < |b|
    ensures 4 * g + 4 <= |Unbroken(b)|
    ensures forall k :: 0 <= k < 4 ==>
              Unbroken(b)[4 * g + k] == if k < |Pack(Chunk(b, g))| then Alphabet(Pack(Chunk(b, g))[k]) else PAD
  {
    hide Alphabet, Pack;
    var q, all := Pack(Chunk(b, g)), Sextets(b);
    SextetsAt(b, g);
    SextetsShape(b);
    hide Sextets;
    assert forall k :: 0 <= k < |q| ==> q[k] == all[4 * g..4 * g + |q|][k] == all[4 * g + k];
    assert forall k :: 0 <= k < |q| ==> Chars(all)[4 * g + k] == Alphabet(q[k]);
  }

  /** Every group of the unbroken encoding is the one the standard gives, for all data. */
  lemma GroupsOfTable1(b: seq<byte>, g: nat)
    requires 3 * g < |b|
    ensures IsGroup(b, Unbroken(b), g)
  {
    var x, y, z := At(b, 3 * g), At(b, 3 * g + 1), At(b, 3 * g + 2);
    GroupOfAlphabet(b, g);
    Characters(x, y, z);
    hide Alphabet, Table1, Is, Unbroken, At;
  }

  lemma Characters(x: byte, y: byte, z: byte)
    ensures Is(Alphabet(x >> 2), Table1(x >> 2)) && Is(Alphabet(z & 0x3f), Table1(z & 0x3f)) && Is(PAD, '=')
    ensures var v := ((x & 0x03) << 4) | (y >> 4); v < 64 && Is(Alphabet(v), Table1(v))
    ensures var w := ((y & 0x0f) << 2) | (z >> 6); w < 64 && Is(Alphabet(w), Table1(w))
  {
    AlphabetIsTable1(x >> 2);
    AlphabetIsTable1(((x & 0x03) << 4) | (y >> 4));
    AlphabetIsTable1(((y & 0x0f) << 2) | (z >> 6));
    AlphabetIsTable1(z & 0x3f);
    PadIs();
    hide Alphabet, Table1, Is;
  }

  lemma GroupOfAlphabet(b: seq<byte>, g: nat)
    requires 3 * g < |b|
    ensures 4 * g + 4 <= |Unbroken(b)|
    ensures var u, x, y, z := Unbroken(b), At(b, 3 * g), At(b, 3 * g + 1), At(b, 3 * g + 2);
            var v, w := ((x & 0x03) << 4) | (y >> 4), ((y & 0x0f) << 2) | (z >> 6);
            && v < 64 && w < 64
            && u[4 * g] == Alphabet(x >> 2) && u[4 * g + 1] == Alphabet(v)
            && u[4 * g + 2] == (if 3 * g + 1 < |b| then Alphabet(w) else PAD)
            && u[4 * g + 3] == (if 3 * g + 2 < |b| then Alphabet(z & 0x3f) else PAD)
  {
    var x, y, z := At(b, 3 * g), At(b, 3 * g + 1), At(b, 3 * g + 2);
    var c, u := Chunk(b, g), Unbroken(b);
    GroupChars(b, g);
    ChunkAt(b, g);
    PackOf(c);
    SameBits(x, y);
    SameBits(y, z);
    hide *;
    assert At(c, 0) == x && At(c, 1) == y && At(c, 2) == z;
    assert u[4 * g + 0] == Alphabet(Pack(c)[0]) && u[4 * g + 1] == Alphabet(Pack(c)[1]);
    assert u[4 * g + 2] == if |c| > 1 then Alphabet(Pack(c)[2]) else PAD;
    assert u[4 * g + 3] == if |c| > 2 then Alphabet(Pack(c)[3]) else PAD;
  }

  lemma ChunkAt(b: seq<byte>, g: nat)
    requires 3 * g < |b|
    ensures forall k :: 0 <= k < 3 ==> At(Chunk(b, g), k) == At(b, 3 * g + k)
  {
  }

  lemma PackOf(c: seq<byte>)
    requires 0 < |c| <= 3
    ensures var q, x, y, z := Pack(c), At(c, 0), At(c, 1), At(c, 2);
            && q[0] == Low6(First(x)) && q[1] == Low6(Second(x, y))
            && (|c| > 1 ==> q[2] == Low6(Third(y, z))) && (|c| > 2 ==> q[3] == Low6(z))
  {
    hide Low6, First, Second, Third;
  }

  lemma PadIs()
    ensures Is(PAD, '=')
  {
  }

  /** A final line end is CR LF. */
  lemma FinalLineEnd(b: seq<byte>, L: nat)
    requires b != []
    ensures EncodedText(b, L, true) == EncodedText(b, L, false) + [13, 10]
  {
  }

  // ----- What a decoder skips -----

  /** A pad, CR, LF, tab or space anywhere in a text changes neither whether the liberal decoder accepts it nor the
      bytes it finds. */
  lemma SkippedAnywhere(s: seq<byte>, x: byte, t: seq<byte>)
    requires x == 61 || x == 13 || x == 10 || x == 9 || x == 32
    ensures LiberalAccepts(s + [x] + t) <==> LiberalAccepts(s + t)
    ensures Carried(s + [x] + t) == Carried(s + t)
  {
    AlphabetPartOfIgnored([x]);
    hide AlphabetPart, LiberalText, Ignored;
    AlphabetPartAppend(s + [x], t);
    AlphabetPartAppend(s, [x]);
    AlphabetPartAppend(s, t);
    LiberalJoin(s + [x], t);
    LiberalJoin(s, [x]);
    LiberalJoin(s, t);
    assert AlphabetPart(s) + [] == AlphabetPart(s);
  }

  /** Any other character outside Table 1 makes it refuse the text. */
  lemma RefusedAnywhere(s: seq<byte>, x: byte, t: seq<byte>)
    requires x != 61 && x != 13 && x != 10 && x != 9 && x != 32
    requires forall v: byte :: v < 64 ==> !Is(x, Table1(v))
    ensures !LiberalAccepts(s + [x] + t)
  {
    if Valid(x) {
      TablesInverse(0, x);
      AlphabetIsTable1(Ato64(x));
    }
    assert (s + [x] + t)[|s|] == x;
  }
}
