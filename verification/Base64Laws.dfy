/** Laws of the Base64 text format: line structure, round trips, and what each decoder accepts. */
module Base64Laws {
  import opened Base64Tables
  import opened Chunks
  import opened Base64Text

  // ----- What the decoders accept -----

  /** The alphabet characters of t, in order. */
  function AlphabetPart(t: seq<byte>): (r: seq<byte>)
    ensures AllValid(r)
  {
    if |t| == 0 then []
    else AlphabetPart(t[..|t| - 1]) + (if Valid(t[|t| - 1]) then [t[|t| - 1]] else [])
  }

  /** t without its trailing padding characters. */
  function StripPads(t: seq<byte>): (r: seq<byte>)
    ensures r <= t && (r != [] ==> r[|r| - 1] != PAD)
    ensures forall k :: |r| <= k < |t| ==> t[k] == PAD
  {
    if |t| > 0 && t[|t| - 1] == PAD then StripPads(t[..|t| - 1]) else t
  }

  predicate LiberalText(t: seq<byte>) {
    forall k :: 0 <= k < |t| ==> ValidLiberal(t[k]) != Reject
  }

  predicate Decodable(q: seq<byte>) {
    |q| > 0 && |q| % 4 != 1 && LeftoverZero(q)
  }

  predicate LiberalAccepts(t: seq<byte>) {
    LiberalText(t) && Decodable(Values(AlphabetPart(t)))
  }

  predicate StrictAccepts(t: seq<byte>) {
    AllValid(StripPads(t)) && Decodable(Values(StripPads(t)))
  }

  /** Bytes carried by the alphabet characters of t. */
  function Carried(t: seq<byte>): seq<byte> {
    Bytes(Values(AlphabetPart(t)))
  }

  lemma {:induction false} AlphabetPartAppend(s: seq<byte>, t: seq<byte>)
    ensures AlphabetPart(s + t) == AlphabetPart(s) + AlphabetPart(t)
  {
    if |t| == 0 {
      assert s + t == s;
    } else {
      assert (s + t)[..|s + t| - 1] == s + t[..|t| - 1];
      AlphabetPartAppend(s, t[..|t| - 1]);
    }
  }

  lemma {:induction false} AlphabetPartOfValid(t: seq<byte>)
    requires AllValid(t)
    ensures AlphabetPart(t) == t
  {
    if |t| > 0 {
      AlphabetPartOfValid(t[..|t| - 1]);
    }
  }

  lemma {:induction false} AlphabetPartOfIgnored(t: seq<byte>)
    requires forall k :: 0 <= k < |t| ==> Ignored(t[k])
    ensures AlphabetPart(t) == [] && LiberalText(t)
  {
    if |t| > 0 {
      AlphabetPartOfIgnored(t[..|t| - 1]);
    }
  }

  lemma StrippedText(t: seq<byte>)
    requires AllValid(StripPads(t))
    ensures LiberalText(t) && AlphabetPart(t) == StripPads(t)
  {
    var p := StripPads(t);
    var rest := t[|p|..];
    assert t == p + rest;
    AlphabetPartAppend(p, rest);
    AlphabetPartOfValid(p);
    AlphabetPartOfIgnored(rest);
    forall k | 0 <= k < |t|
      ensures ValidLiberal(t[k]) != Reject
    {
      assert t[k] == if k < |p| then p[k] else PAD;
    }
  }

  /** Everything the strict decoder accepts, the liberal one accepts with the same bytes. */
  lemma StrictImpliesLiberal(t: seq<byte>)
    requires StrictAccepts(t)
    ensures LiberalAccepts(t) && Carried(t) == Bytes(Values(StripPads(t)))
  {
    StrippedText(t);
  }

  /** RFC 4648 section 3.5: what the liberal decoder accepts is canonical. Its alphabet characters are
      those of the encoding of the decoded bytes, so the text carries no other bits. */
  lemma AcceptedIsCanonical(t: seq<byte>)
    requires LiberalAccepts(t)
    ensures Carried(t) != []
    ensures Unbroken(Carried(t)) == AlphabetPart(t) + Pads(PadCount(|Carried(t)|))
  {
    var a := AlphabetPart(t);
    ValuesChars(a);
    SextetsOfBytes(Values(a));
    BytesShape(Values(a));
    SextetsShape(Carried(t));
  }

  /** A text is accepted exactly when it spells some non-empty byte string, with ignorable characters anywhere. */
  lemma AcceptedIffSpelled(t: seq<byte>)
    ensures LiberalAccepts(t) <==>
            LiberalText(t) && exists b :: b != [] && AlphabetPart(t) == CharsOf(b)
  {
    if LiberalAccepts(t) {
      AcceptedIsCanonical(t);
      var b := Carried(t);
      ValuesChars(AlphabetPart(t));
      SextetsOfBytes(Values(AlphabetPart(t)));
      assert AlphabetPart(t) == CharsOf(b);
    } else if LiberalText(t) {
      forall b | b != [] && AlphabetPart(t) == CharsOf(b)
        ensures false
      {
        Spelled(t, b);
      }
    }
  }

  lemma Spelled(t: seq<byte>, b: seq<byte>)
    requires LiberalText(t) && b != [] && AlphabetPart(t) == CharsOf(b)
    ensures LiberalAccepts(t) && Carried(t) == b
  {
    SextetsShape(b);
    CharsValues(Sextets(b));
    BytesOfSextets(b);
  }

  // ----- Encoded texts -----

  /** Alphabet characters of the encoding of b, without padding. */
  function CharsOf(b: seq<byte>): (t: seq<byte>)
    ensures Unbroken(b) == t + Pads(PadCount(|b|))
    ensures AllValid(t)
  {
    SextetsShape(b);
    CharsValues(Sextets(b));
    Chars(Sextets(b))
  }

  /** No line end or other ignorable character than padding inside t. */
  predicate OneLine(t: seq<byte>) {
    forall k :: 0 <= k < |t| ==> Valid(t[k]) || t[k] == PAD
  }

  lemma UnbrokenOneLine(b: seq<byte>)
    ensures OneLine(Unbroken(b))
    ensures AlphabetPart(Unbroken(b)) == CharsOf(b)
  {
    var c := CharsOf(b);
    AlphabetPartAppend(c, Pads(PadCount(|b|)));
    AlphabetPartOfValid(c);
    AlphabetPartOfIgnored(Pads(PadCount(|b|)));
  }

  lemma {:induction false} BreakCarries(t: seq<byte>, L: nat)
    requires LiberalText(t)
    ensures AlphabetPart(Break(t, L)) == AlphabetPart(t)
    ensures LiberalText(Break(t, L))
    decreases |t|
  {
    if L > 0 && |t| > L {
      var h, r, rest := t[..L], t[L..], Break(t[L..], L);
      assert t == h + r && Break(t, L) == h + EOLN + rest;
      LiberalJoin(h, r);
      BreakCarries(r, L);
      hide *;
      EolnCarries(h, r, rest);
    }
  }

  lemma EolnCarries(h: seq<byte>, r: seq<byte>, rest: seq<byte>)
    requires LiberalText(h) && LiberalText(rest) && AlphabetPart(rest) == AlphabetPart(r)
    ensures LiberalText(h + EOLN + rest) && AlphabetPart(h + EOLN + rest) == AlphabetPart(h + r)
  {
    AlphabetPartOfIgnored(EOLN);
    hide *;
    LiberalJoin(h, EOLN);
    LiberalJoin(h + EOLN, rest);
    AlphabetPartAppend(h + EOLN, rest);
    AlphabetPartAppend(h, EOLN);
    AlphabetPartAppend(h, r);
    assert AlphabetPart(h) + [] == AlphabetPart(h);
  }

  lemma LiberalJoin(s: seq<byte>, t: seq<byte>)
    ensures LiberalText(s + t) <==> LiberalText(s) && LiberalText(t)
  {
    if LiberalText(s + t) {
      assert forall k :: 0 <= k < |s| ==> s[k] == (s + t)[k];
      assert forall k :: 0 <= k < |t| ==> t[k] == (s + t)[|s| + k];
    }
  }

  lemma BodyCarries(b: seq<byte>, L: nat)
    ensures LiberalText(EncodedBody(b, L)) && AlphabetPart(EncodedBody(b, L)) == CharsOf(b)
  {
    var u := Unbroken(b);
    UnbrokenOneLine(b);
    if PadBroken(b, L) {
      var p := u[..|u| - 1];
      BreakCarries(p, L);
      AlphabetPartOfIgnored(Pads(3));
      AlphabetPartAppend(Break(p, L), Pads(3));
      AlphabetPartOfIgnored([u[|u| - 1]]);
      AlphabetPartAppend(p, [u[|u| - 1]]);
      assert u == p + [u[|u| - 1]];
    } else {
      BreakCarries(u, L);
    }
  }

  /** Liberal decoding gives back every non-empty byte string, whatever the line length, also when
      a line end was due inside the padding. */
  lemma RoundTrip(b: seq<byte>, L: nat, lineAtEnd: bool)
    requires b != []
    ensures LiberalAccepts(EncodedText(b, L, lineAtEnd))
    ensures Carried(EncodedText(b, L, lineAtEnd)) == b
  {
    var e := if lineAtEnd then EOLN else [];
    BodyCarries(b, L);
    AlphabetPartOfIgnored(e);
    AlphabetPartAppend(EncodedBody(b, L), e);
    Spelled(EncodedText(b, L, lineAtEnd), b);
  }

  // ----- Lines -----

  /** Pieces of t between CR LF pairs. */
  function SplitLines(t: seq<byte>): (r: seq<seq<byte>>)
    ensures |r| > 0
  {
    if |t| == 0 then [[]]
    else if t[0] == 13 && |t| > 1 && t[1] == 10 then [[]] + SplitLines(t[2..])
    else var r := SplitLines(t[1..]); [[t[0]] + r[0]] + r[1..]
  }

  function Flatten(ls: seq<seq<byte>>): seq<byte> {
    if |ls| == 0 then [] else ls[0] + Flatten(ls[1..])
  }

  lemma {:induction false} SplitOneLine(t: seq<byte>)
    requires OneLine(t)
    ensures SplitLines(t) == [t]
  {
    if |t| > 0 {
      SplitOneLine(t[1..]);
      assert [t[0]] + t[1..] == t;
    }
  }

  lemma {:induction false} SplitFirst(p: seq<byte>, r: seq<byte>)
    requires OneLine(p)
    ensures SplitLines(p + EOLN + r) == [p] + SplitLines(r)
  {
    var t := p + EOLN + r;
    if |p| == 0 {
      assert t[2..] == r;
    } else {
      assert t[1..] == p[1..] + EOLN + r;
      SplitFirst(p[1..], r);
      assert [p[0]] + p[1..] == p;
      assert ([p[1..]] + SplitLines(r))[1..] == SplitLines(r);
    }
  }

  /** ls cuts t into lines of exactly L characters, the last one shorter or equal but not empty. */
  predicate LinesOf(ls: seq<seq<byte>>, t: seq<byte>, L: nat)
    requires L > 0
  {
    && |ls| > 0
    && Flatten(ls) == t
    && (forall i :: 0 <= i < |ls| - 1 ==> |ls[i]| == L)
    && 1 <= |ls[|ls| - 1]| <= L
    && |ls| == (|t| - 1) / L + 1
  }

  lemma LinesCons(h: seq<byte>, ls: seq<seq<byte>>, t: seq<byte>, L: nat)
    requires |h| == L > 0 && |t| > 0 && LinesOf(ls, t, L)
    ensures LinesOf([h] + ls, h + t, L)
  {
    var all := [h] + ls;
    assert all[1..] == ls;
    ModStep(|h + t| - 1, L);
  }

  /** Broken at L > 0, the lines of a text have exactly L characters and spell the text. */
  lemma {:induction false} BreakLines(t: seq<byte>, L: nat)
    requires OneLine(t) && t != [] && L > 0
    ensures LinesOf(SplitLines(Break(t, L)), t, L)
    decreases |t|
  {
    if |t| <= L {
      SplitOneLine(t);
      assert Flatten([t]) == t + Flatten([]);
      DivModUnique(|t| - 1, L, 0, |t| - 1);
    } else {
      var h, r := t[..L], t[L..];
      assert t == h + r && Break(t, L) == h + EOLN + Break(r, L) && OneLine(h);
      BreakLines(r, L);
      hide *;
      SplitFirst(h, Break(r, L));
      LinesCons(h, SplitLines(Break(r, L)), r, L);
    }
  }

  lemma {:induction false} BreakLength(t: seq<byte>, L: nat)
    requires t != [] && L > 0
    ensures |Break(t, L)| == |t| + 2 * ((|t| - 1) / L)
    decreases |t|
  {
    if |t| <= L {
      DivModUnique(|t| - 1, L, 0, |t| - 1);
    } else {
      BreakLength(t[L..], L);
      ModStep(|t| - 1, L);
    }
  }

  lemma {:induction false} BreakLast(t: seq<byte>, L: nat)
    requires t != []
    ensures |Break(t, L)| > 0 && Break(t, L)[|Break(t, L)| - 1] == t[|t| - 1]
    decreases |t|
  {
    if L > 0 && |t| > L {
      BreakLast(t[L..], L);
    }
  }

  /** The encoded text breaks into lines of exactly L characters, the last one shorter or equal, that spell
      the unbroken encoding, if no line end is due between two pads. */
  lemma EncodedLines(b: seq<byte>, L: nat)
    requires b != [] && L > 0 && !PadBroken(b, L)
    ensures LinesOf(SplitLines(EncodedBody(b, L)), Unbroken(b), L)
  {
    UnbrokenOneLine(b);
    BreakLines(Unbroken(b), L);
  }

  /** Otherwise the lines of the encoded text spell two pads too many, in place of the lost line end. */
  lemma LostLineEnd(b: seq<byte>, L: nat)
    requires PadBroken(b, L)
    ensures Flatten(SplitLines(EncodedBody(b, L))) == Unbroken(b) + Pads(2)
  {
    var u := Unbroken(b);
    var p := u[..|u| - 1];
    UnbrokenOneLine(b);
    BreakLines(p, L);
    BreakLast(p, L);
    SplitAppend(Break(p, L), Pads(3));
    assert u[|u| - 1] == PAD;
    assert p + Pads(3) == u + Pads(2);
  }

  /** Which happens for one byte and lines of three characters: two characters and four pads, on a single line. */
  lemma LostForOneByte(x: byte)
    ensures PadBroken([x], 3)
    ensures EncodedText([x], 3, false) == CharsOf([x]) + Pads(4) && |CharsOf([x])| == 2
  {
    var u := Unbroken([x]);
    SextetsShape([x]);
    assert u == CharsOf([x]) + Pads(2);
    assert u[..3] == CharsOf([x]) + Pads(1) && Break(u[..3], 3) == u[..3];
    assert Pads(1) + Pads(3) == Pads(4);
  }

  /** Pads written after a text lengthen its last line. */
  lemma {:induction false} SplitAppend(t: seq<byte>, p: seq<byte>)
    requires OneLine(p) && (t != [] ==> t[|t| - 1] != CR)
    ensures Flatten(SplitLines(t + p)) == Flatten(SplitLines(t)) + p
  {
    if |t| == 0 {
      assert t + p == p;
      SpelledBack(t);
      SpelledBack(p);
    } else if t[0] == CR && |t| > 1 && t[1] == LF {
      assert t == EOLN + t[2..];
      SplitAppend(t[2..], p);
      hide *;
      AppendAfterEoln(t[2..], p);
    } else {
      assert t == [t[0]] + t[1..];
      SplitAppend(t[1..], p);
      hide *;
      AppendAfterChar(t[0], t[1..], p);
    }
  }

  lemma AppendAfterEoln(r: seq<byte>, p: seq<byte>)
    requires Flatten(SplitLines(r + p)) == Flatten(SplitLines(r)) + p
    ensures Flatten(SplitLines(EOLN + r + p)) == Flatten(SplitLines(EOLN + r)) + p
  {
    hide *;
    SplitEoln(r);
    SplitEoln(r + p);
    assert EOLN + r + p == EOLN + (r + p);
  }

  lemma AppendAfterChar(c: byte, r: seq<byte>, p: seq<byte>)
    requires Flatten(SplitLines(r + p)) == Flatten(SplitLines(r)) + p && (c == CR ==> r != [] && r[0] != LF)
    ensures Flatten(SplitLines([c] + r + p)) == Flatten(SplitLines([c] + r)) + p
  {
    hide *;
    SplitChar(c, r);
    SplitChar(c, r + p);
    assert [c] + r + p == [c] + (r + p);
    assert [c] + (Flatten(SplitLines(r)) + p) == [c] + Flatten(SplitLines(r)) + p;
  }

  lemma SpelledBack(p: seq<byte>)
    requires OneLine(p)
    ensures Flatten(SplitLines(p)) == p
  {
    SplitOneLine(p);
    assert Flatten([p]) == p + Flatten([]);
  }

  lemma SplitEoln(r: seq<byte>)
    ensures Flatten(SplitLines(EOLN + r)) == Flatten(SplitLines(r))
  {
    assert (EOLN + r)[2..] == r;
    assert ([[]] + SplitLines(r))[1..] == SplitLines(r);
  }

  lemma SplitChar(c: byte, r: seq<byte>)
    requires c == CR && r != [] ==> r[0] != LF
    ensures Flatten(SplitLines([c] + r)) == [c] + Flatten(SplitLines(r))
  {
    assert ([c] + r)[1..] == r;
    FlattenCons(c, SplitLines(r));
  }

  lemma FlattenCons(c: byte, r: seq<seq<byte>>)
    requires |r| > 0
    ensures Flatten([[c] + r[0]] + r[1..]) == [c] + Flatten(r)
  {
    assert ([[c] + r[0]] + r[1..])[1..] == r[1..];
  }

  /** Even line lengths, such as the 76 of RFC 2045 section 6.8, never put a line end inside the padding. */
  lemma EvenNeverPadBroken(b: seq<byte>, L: nat)
    requires L > 0 && L % 2 == 0
    ensures !PadBroken(b, L)
  {
    MultipleOfEven(|Unbroken(b)| - 1, L);
  }

  lemma MultipleOfEven(x: int, L: nat)
    requires L > 0 && L % 2 == 0
    ensures x % L == 0 ==> x % 2 == 0
  {
    var q := x / L;
    assert x == q * L + x % L;
    assert q * L == 2 * (q * (L / 2)) by {
      assert L == 2 * (L / 2);
    }
  }

  /** The body is the unbroken text plus two characters for each line but the last. */
  lemma EncodedLength(b: seq<byte>, L: nat)
    requires b != []
    ensures |EncodedBody(b, L)| == |Unbroken(b)| + (if L == 0 then 0 else 2 * ((|Unbroken(b)| - 1) / L))
  {
    var n := |Unbroken(b)|;
    if PadBroken(b, L) {
      BreakLength(Unbroken(b)[..n - 1], L);
      BeforeMultiple(n - 1, L);
    } else if L > 0 {
      BreakLength(Unbroken(b), L);
    }
  }

  lemma BeforeMultiple(x: nat, L: nat)
    requires 0 < L && 0 < x && x % L == 0
    ensures (x - 1) / L == x / L - 1
  {
    var q := x / L;
    assert x == q * L;
    assert (q - 1) * L == x - L;
    DivModUnique(x - 1, L, q - 1, L - 1);
  }

  // ----- Strict decoding of encoded texts -----

  lemma StrictHasNoCR(t: seq<byte>)
    requires StrictAccepts(t)
    ensures CR !in t
  {
    var p := StripPads(t);
    forall k | 0 <= k < |t|
      ensures t[k] != CR
    {
      assert t[k] == if k < |p| then p[k] else PAD;
    }
  }

  /** No line end is written: none is asked for, and the text fits on a line, or would but for its second pad. */
  predicate SingleLine(length: nat, L: nat, lineAtEnd: bool) {
    var n := (length + 2) / 3 * 4;
    !lineAtEnd && (L == 0 || n <= L || (length % 3 == 1 && n - 1 == L))
  }

  /** The strict decoder gives the data back exactly when the encoder writes no line end, which the length of the
      data and the line length decide. */
  lemma StrictRoundTrip(b: seq<byte>, L: nat, lineAtEnd: bool)
    requires b != []
    ensures StrictAccepts(EncodedText(b, L, lineAtEnd)) <==> SingleLine(|b|, L, lineAtEnd)
    ensures StrictAccepts(EncodedText(b, L, lineAtEnd)) ==> Bytes(Values(StripPads(EncodedText(b, L, lineAtEnd)))) == b
  {
    hide StrictAccepts, EncodedBody, Carried;
    var t := EncodedText(b, L, lineAtEnd);
    if lineAtEnd {
      assert t[|t| - 2] == CR;
    } else {
      assert t == EncodedBody(b, L);
      BodyOnOneLine(b, L);
    }
    if StrictAccepts(t) {
      StrictHasNoCR(t);
      StrictImpliesLiberal(t);
      RoundTrip(b, L, lineAtEnd);
    } else if !lineAtEnd && CR !in t {
      BodyWithoutEnds(b, L);
    }
  }

  lemma BodyOnOneLine(b: seq<byte>, L: nat)
    requires b != []
    ensures CR !in EncodedBody(b, L) <==> SingleLine(|b|, L, false)
  {
    var u := Unbroken(b);
    var p := u[..|u| - 1];
    UnbrokenOneLine(b);
    assert OneLine(p);
    hide *;
    BreakHasCR(u, L);
    BreakHasCR(p, L);
    BodyHasCR(b, L);
    if L > 0 {
      NoBreakDue(|u|, L, |b| % 3 == 1);
    }
    OnOneLine(b, L);
  }

  lemma BodyHasCR(b: seq<byte>, L: nat)
    requires b != []
    ensures var u := Unbroken(b);
            CR in EncodedBody(b, L) <==>
            CR in if L > 0 && |b| % 3 == 1 && (|u| - 1) % L == 0 then Break(u[..|u| - 1], L) else Break(u, L)
  {
    hide Unbroken, Break;
  }

  lemma OnOneLine(b: seq<byte>, L: nat)
    ensures var n := |Unbroken(b)|; SingleLine(|b|, L, false) <==> L == 0 || n <= L || (|b| % 3 == 1 && n - 1 == L)
  {
  }

  lemma NoBreakDue(n: nat, L: nat, twoPads: bool)
    requires L > 0 && n > 1
    ensures (if twoPads && (n - 1) % L == 0 then n - 1 <= L else n <= L) <==> n <= L || (twoPads && n - 1 == L)
  {
    ModSelf(L);
    if n - 1 < L {
      ModSmall(n - 1, L);
    }
  }

  lemma BodyWithoutEnds(b: seq<byte>, L: nat)
    requires b != [] && CR !in EncodedBody(b, L)
    ensures StrictAccepts(EncodedBody(b, L))
  {
    var u, t, c := Unbroken(b), EncodedBody(b, L), CharsOf(b);
    UnbrokenOneLine(b);
    if PadBroken(b, L) {
      BreakHasCR(u[..|u| - 1], L);
      assert Break(u[..|u| - 1], L) == u[..|u| - 1];
    } else {
      BreakHasCR(u, L);
      assert t == u;
    }
    SextetsShape(b);
    assert t == c + Pads(|t| - |c|);
    StrictSpelled(b, |t| - |c|);
  }

  /** Characters of the encoding of any data followed by any number of pads are accepted, and carry the data. */
  lemma StrictSpelled(b: seq<byte>, n: nat)
    requires b != []
    ensures StrictAccepts(CharsOf(b) + Pads(n)) && StripPads(CharsOf(b) + Pads(n)) == CharsOf(b)
    ensures Bytes(Values(CharsOf(b))) == b
  {
    SextetsShape(b);
    StripToChars(CharsOf(b) + Pads(n), CharsOf(b));
    CharsValues(Sextets(b));
    BytesOfSextets(b);
  }

  lemma SamePrefix(p: seq<byte>, q: seq<byte>, r: seq<byte>)
    requires p + r == q + r
    ensures p == q
  {
    assert p == (p + r)[..|p|] && q == (q + r)[..|q|] && |p| == |q|;
  }

  /** The strict decoder accepts exactly the characters of the encoding of some non-empty byte string and any number
      of pads after them. */
  lemma StrictIffSpelled(t: seq<byte>)
    ensures StrictAccepts(t) <==> exists b, n: nat :: b != [] && t == CharsOf(b) + Pads(n)
  {
    if StrictAccepts(t) {
      var p := StripPads(t);
      var n := |t| - |p|;
      StrippedText(t);
      StrictImpliesLiberal(t);
      AcceptedIsCanonical(t);
      assert t == p + Pads(n);
      SamePrefix(p, CharsOf(Carried(t)), Pads(PadCount(|Carried(t)|)));
    }
    forall b, n: nat | b != [] && t == CharsOf(b) + Pads(n)
      ensures StrictAccepts(t)
    {
      StrictSpelled(b, n);
    }
  }

  lemma BreakHasCR(t: seq<byte>, L: nat)
    requires OneLine(t)
    ensures CR in Break(t, L) <==> L > 0 && |t| > L
    ensures CR !in Break(t, L) ==> Break(t, L) == t
  {
    if L > 0 && |t| > L {
      assert Break(t, L)[L] == CR;
    }
  }

  lemma {:induction false} StripToChars(t: seq<byte>, c: seq<byte>)
    requires c <= t && AllValid(c) && forall k :: |c| <= k < |t| ==> t[k] == PAD
    ensures StripPads(t) == c
  {
    if |t| > |c| {
      StripToChars(t[..|t| - 1], c);
    }
  }
}
