/**
 What a Base64 text is, independently of how the encoder and the decoder walk over it:
 sextets, padding, line breaking (RFC 4648 sections 3.1, 3.5 and 4), and the laws that tie them.
 */
module Base64Text {
  import opened Base64Tables
  import opened Chunks

  // ----- Bytes and sextets -----

  // The characters of a group before their two high bits are cleared.
  function First(a: byte): byte { a >> 2 }
  function Second(a: byte, b: byte): byte { (a << 4) | (b >> 4) }
  function Third(b: byte, c: byte): byte { (b << 2) | (c >> 6) }

  function Low6(ch: byte): (v: byte)
    ensures v < 64
  {
    ch & 0x3f
  }

  predicate AllSextets(q: seq<byte>) {
    forall k :: 0 <= k < |q| ==> q[k] < 64
  }

  /** Sextets of one group of at most three bytes. */
  function Pack(c: seq<byte>): (q: seq<byte>)
    ensures |q| == if |c| == 0 then 0 else if |c| < 3 then |c| + 1 else 4
    ensures AllSextets(q)
  {
    hide First, Second, Third, Low6;
    if |c| == 0 then []
    else if |c| == 1 then [Low6(First(c[0])), Low6(Second(c[0], 0))]
    else if |c| == 2 then [Low6(First(c[0])), Low6(Second(c[0], c[1])), Low6(Third(c[1], 0))]
    else [Low6(First(c[0])), Low6(Second(c[0], c[1])), Low6(Third(c[1], c[2])), Low6(c[2])]
  }

  /** Bytes of one group of at most four sextets; a lone sextet holds no byte. */
  function Unpack(q: seq<byte>): (c: seq<byte>)
    ensures |c| == if |q| == 0 then 0 else if |q| < 4 then |q| - 1 else 3
  {
    if |q| < 2 then []
    else if |q| == 2 then [(q[0] << 2) | (q[1] >> 4)]
    else if |q| == 3 then [(q[0] << 2) | (q[1] >> 4), (q[1] << 4) | (q[2] >> 2)]
    else [(q[0] << 2) | (q[1] >> 4), (q[1] << 4) | (q[2] >> 2), (q[2] << 6) | q[3]]
  }

  function Sextets(b: seq<byte>): seq<byte> {
    ChunkMap(Pack, 3, b)
  }

  function Bytes(q: seq<byte>): seq<byte> {
    ChunkMap(Unpack, 4, q)
  }

  lemma {:induction false} SextetsShape(b: seq<byte>)
    ensures |Sextets(b)| == |b| / 3 * 4 + (if |b| % 3 == 0 then 0 else |b| % 3 + 1)
    ensures AllSextets(Sextets(b))
    decreases |b|
  {
    if |b| > 3 {
      SextetsShape(b[3..]);
    }
  }

  lemma {:induction false} BytesShape(q: seq<byte>)
    ensures |Bytes(q)| == |q| / 4 * 3 + (if |q| % 4 == 0 then 0 else |q| % 4 - 1)
    decreases |q|
  {
    if |q| > 4 {
      BytesShape(q[4..]);
    }
  }

  /** The bits of the last sextet that do not reach a byte are zero. */
  predicate LeftoverZero(q: seq<byte>) {
    match |q| % 4
    case 2 => q[|q| - 1] & 0x0f == 0
    case 3 => q[|q| - 1] & 0x03 == 0
    case _ => true
  }

  /** The 24-bit input group of RFC 4648 section 4: three octets side by side. */
  function Octets24(a: byte, b: byte, c: byte): bv24 {
    (a as bv24 << 16) | (b as bv24 << 8) | c as bv24
  }

  /** The same 24 bits read as four 6-bit groups. */
  function Sextets24(x: byte, y: byte, z: byte, w: byte): bv24 {
    (x as bv24 << 18) | (y as bv24 << 12) | (z as bv24 << 6) | w as bv24
  }

  /** Element k of c, reading missing ones as zero bits. */
  function At(c: seq<byte>, k: nat): byte {
    if k < |c| then c[k] else 0
  }

  lemma Pack24(a: byte, b: byte, c: byte)
    ensures Sextets24(Low6(First(a)), Low6(Second(a, b)), Low6(Third(b, c)), Low6(c)) == Octets24(a, b, c)
  {
  }

  /** Packing regroups the bits of an input group without changing them. */
  lemma PackKeepsBits(c: seq<byte>)
    requires |c| <= 3
    ensures var q := Pack(c);
            Sextets24(At(q, 0), At(q, 1), At(q, 2), At(q, 3)) == Octets24(At(c, 0), At(c, 1), At(c, 2))
  {
    var x, y, z := At(c, 0), At(c, 1), At(c, 2);
    var q := Pack(c);
    Pack24(x, y, z);
    assert At(q, 0) == Low6(First(x));
    assert At(q, 1) == Low6(Second(x, y));
    assert At(q, 2) == Low6(Third(y, z));
    assert At(q, 3) == Low6(z);
  }

  lemma PackUnpack(c: seq<byte>)
    requires |c| <= 3
    ensures Unpack(Pack(c)) == c
    ensures |c| % 3 != 0 ==> LeftoverZero(Pack(c))
  {
  }

  lemma UnpackPack(q: seq<byte>)
    requires |q| <= 4 && |q| != 1 && AllSextets(q) && LeftoverZero(q)
    ensures Pack(Unpack(q)) == q
  {
  }

  lemma {:induction false} BytesInvert(b: seq<byte>)
    ensures Inverts(Pack, 3, Unpack, 4, b)
    decreases |b|
  {
    if |b| <= 3 {
      PackUnpack(b);
    } else {
      PackUnpack(b[..3]);
      BytesInvert(b[3..]);
    }
  }

  lemma LeftoverOfTail(h: seq<byte>, r: seq<byte>)
    requires |h| == 4 && |r| > 0
    ensures LeftoverZero(h + r) <==> LeftoverZero(r)
  {
    assert |h + r| % 4 == |r| % 4 && (h + r)[|h + r| - 1] == r[|r| - 1];
  }

  lemma {:induction false} SextetsLeftover(b: seq<byte>)
    ensures LeftoverZero(Sextets(b)) && |Sextets(b)| % 4 != 1
    decreases |b|
  {
    SextetsShape(b);
    if |b| <= 3 {
      PackUnpack(b);
    } else {
      SextetsLeftover(b[3..]);
      SextetsShape(b[3..]);
      LeftoverOfTail(Pack(b[..3]), Sextets(b[3..]));
    }
  }

  lemma {:induction false} SextetsInvert(q: seq<byte>)
    requires AllSextets(q) && |q| % 4 != 1 && LeftoverZero(q)
    ensures Inverts(Unpack, 4, Pack, 3, q)
    decreases |q|
  {
    if |q| <= 4 {
      UnpackPack(q);
    } else {
      UnpackPack(q[..4]);
      SextetsInvert(q[4..]);
    }
  }

  /** Decoding the sextets of b gives b back, with no stray bits. */
  lemma BytesOfSextets(b: seq<byte>)
    ensures Bytes(Sextets(b)) == b
    ensures LeftoverZero(Sextets(b)) && |Sextets(b)| % 4 != 1
  {
    SextetsLeftover(b);
    BytesInvert(b);
    ChunkInverse(Pack, 3, Unpack, 4, b);
  }

  /** Sextets with a decodable count and no stray bits are exactly the sextets of their bytes. */
  lemma SextetsOfBytes(q: seq<byte>)
    requires AllSextets(q) && |q| % 4 != 1 && LeftoverZero(q)
    ensures Sextets(Bytes(q)) == q
  {
    SextetsInvert(q);
    ChunkInverse(Unpack, 4, Pack, 3, q);
  }

  // ----- The unbroken text -----

  function Chars(q: seq<byte>): (t: seq<byte>)
    requires AllSextets(q)
    ensures |t| == |q|
  {
    seq(|q|, i requires 0 <= i < |q| => Alphabet(q[i]))
  }

  function Values(t: seq<byte>): (q: seq<byte>)
    ensures |q| == |t|
  {
    seq(|t|, i requires 0 <= i < |t| => Ato64(t[i]))
  }

  function Pads(n: nat): (t: seq<byte>)
    ensures |t| == n
  {
    seq(n, _ => PAD)
  }

  /** Number of padding characters for n bytes of data. */
  function PadCount(n: nat): nat {
    if n % 3 == 0 then 0 else 3 - n % 3
  }

  /** Encoding of b on a single line: alphabet characters, then canonical padding to a multiple of four. */
  function Unbroken(b: seq<byte>): (t: seq<byte>)
    ensures |t| == (|b| + 2) / 3 * 4
  {
    SextetsShape(b);
    Chars(Sextets(b)) + Pads(PadCount(|b|))
  }

  predicate AllValid(t: seq<byte>) {
    forall k :: 0 <= k < |t| ==> Valid(t[k])
  }

  lemma CharsValues(q: seq<byte>)
    requires AllSextets(q)
    ensures AllValid(Chars(q)) && Values(Chars(q)) == q
  {
    forall k | 0 <= k < |q|
      ensures Valid(Chars(q)[k]) && Values(Chars(q))[k] == q[k]
    {
      TablesInverse(q[k], 0);
    }
  }

  lemma ValuesChars(t: seq<byte>)
    requires AllValid(t)
    ensures AllSextets(Values(t)) && Chars(Values(t)) == t
  {
    forall k | 0 <= k < |t|
      ensures Ato64(t[k]) < 64 && Alphabet(Ato64(t[k])) == t[k]
    {
      TablesInverse(0, t[k]);
    }
    assert AllSextets(Values(t));
  }

  // ----- Line breaking -----

  /** Text t cut into lines of L characters joined by CR LF; L = 0 means a single line. */
  function Break(t: seq<byte>, L: nat): seq<byte> {
    if L == 0 || |t| <= L then t else t[..L] + EOLN + Break(t[L..], L)
  }

  /** A line break is due between the two padding characters of data that leaves one byte over. */
  predicate PadBroken(b: seq<byte>, L: nat) {
    L > 0 && |b| % 3 == 1 && (|Unbroken(b)| - 1) % L == 0
  }

  /** What the encoder writes before the optional final line end: when the break falls between
      the two pads, the break is lost and its two positions hold padding characters. */
  function EncodedBody(b: seq<byte>, L: nat): seq<byte> {
    var u := Unbroken(b);
    if PadBroken(b, L) then Break(u[..|u| - 1], L) + Pads(3) else Break(u, L)
  }

  function EncodedText(b: seq<byte>, L: nat, lineAtEnd: bool): seq<byte> {
    if |b| == 0 then [] else EncodedBody(b, L) + (if lineAtEnd then EOLN else [])
  }

  /** A line end follows the first j characters of a text of n characters. */
  predicate BreakAfter(j: nat, L: nat, n: nat) {
    L > 0 && 0 < j < n && j % L == 0
  }

  /** Broken form of a prefix t of a text of n characters, with the line end that is due after it. */
  function Wrapped(t: seq<byte>, L: nat, n: nat): seq<byte> {
    Break(t, L) + (if BreakAfter(|t|, L, n) then EOLN else [])
  }

  lemma {:induction false} BreakSnoc(t: seq<byte>, c: byte, L: nat)
    ensures Break(t + [c], L) == Wrapped(t, L, |t| + 1) + [c]
    decreases |t|
  {
    if L == 0 || |t| < L {
      if |t| > 0 && L > 0 {
        ModSmall(|t|, L);
      }
    } else if |t| == L {
      assert (t + [c])[..L] == t && (t + [c])[L..] == [c];
      ModSelf(L);
    } else {
      assert (t + [c])[..L] == t[..L] && (t + [c])[L..] == t[L..] + [c];
      BreakSnoc(t[L..], c, L);
      ModStep(|t|, L);
    }
  }
}
