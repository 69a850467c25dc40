/** The strict and the liberal decoder, as loops over a preallocated buffer. */
module Base64Decode {
  import opened Base64Tables
  import opened Chunks
  import opened Base64Text
  import opened Base64Laws

  /** Bytes that n alphabet characters decode to. */
  function DecodedLength(n: nat): nat {
    n / 4 * 3 + (if n % 4 == 0 then 0 else n % 4 - 1)
  }

  function Zeros(n: nat): (z: seq<byte>)
    ensures |z| == n
  {
    seq(n, _ => 0)
  }

  /** Characters of a before the first group of four that is incomplete or holds an invalid one. */
  function ValidQuads(a: seq<byte>): (n: nat)
    ensures n <= |a| && n % 4 == 0
  {
    if |a| < 4 || !AllValid(a[..4]) then 0 else 4 + ValidQuads(a[4..])
  }

  /** The group of m characters at i is the first one to hold an invalid character. */
  lemma {:induction false} StopsAt(a: seq<byte>, i: nat, m: nat)
    requires i % 4 == 0 && i + m <= |a| && AllValid(a[..i]) && !AllValid(a[i..i + m])
    requires m == 4 || (m < 4 && i + m == |a|)
    ensures ValidQuads(a) == i && !AllValid(a)
    decreases i
  {
    hide AllValid;
    if i == 0 {
      assert a[0..m] == a[..m] && (m == |a| ==> a[..m] == a);
      InvalidHead(a, m);
    } else {
      ValidParts(a, i);
      assert a[4..][i - 4..i - 4 + m] == a[i..i + m];
      StopsAt(a[4..], i - 4, m);
      InvalidTail(a, 4);
    }
  }

  lemma ValidParts(a: seq<byte>, i: nat)
    requires 4 <= i <= |a| && AllValid(a[..i])
    ensures AllValid(a[..4]) && AllValid(a[4..][..i - 4])
  {
    assert a[..i][..4] == a[..4] && a[4..][..i - 4] == a[..i][4..];
  }

  lemma InvalidHead(a: seq<byte>, m: nat)
    requires m <= |a| && !AllValid(a[..m])
    ensures !AllValid(a)
  {
    var k :| 0 <= k < m && !Valid(a[..m][k]);
    assert a[..m][k] == a[k];
  }

  lemma InvalidTail(a: seq<byte>, i: nat)
    requires i <= |a| && !AllValid(a[i..])
    ensures !AllValid(a)
  {
    var k :| 0 <= k < |a| - i && !Valid(a[i..][k]);
    assert a[i..][k] == a[i + k];
  }

  /** Bytes of whole groups followed by those of one more group, possibly short. */
  lemma BytesSnoc(w: seq<byte>, g: seq<byte>)
    requires |w| % 4 == 0 && |g| <= 4
    ensures Bytes(w + g) == Bytes(w) + Unpack(g)
    ensures |Bytes(w)| == |w| / 4 * 3
  {
    ChunkAppend(Unpack, 4, w, g);
    BytesShape(w);
  }

  /** Stores the bytes of the `len` sextets in dec at idx if there is room for them.
      The result tells whether len is decodable and the bits that reach no byte are zero. */
  method AddDec(dest: array<byte>, idx: nat, dec: array<byte>, len: nat) returns (ok: bool, idx': nat)
    requires dec.Length == 4 && dec != dest && idx <= dest.Length
    modifies dest
    ensures ok <==> len == 0 || (2 <= len <= 4 && idx + len - 1 <= dest.Length && LeftoverZero(dec[..len]))
    ensures if 2 <= len <= 4 && idx + len - 1 <= dest.Length
            then idx' == idx + len - 1 && dest[idx..idx'] == Unpack(dec[..len])
            else idx' == idx
    ensures forall k :: 0 <= k < idx || idx' <= k < dest.Length ==> dest[k] == old(dest[k])
  {
    idx' := idx;
    if len == 0 {
      return true, idx';
    }
    if len == 1 || len > 4 || idx + (len - 1) > dest.Length {
      return false, idx';
    }
    idx' := idx + (len - 1);
    if len == 4 {
      dest[idx] := (dec[0] << 2) | (dec[1] >> 4);
      dest[idx + 1] := (dec[1] << 4) | (dec[2] >> 2);
      dest[idx + 2] := (dec[2] << 6) | dec[3];
      ok := true;
    } else if len == 3 {
      dest[idx] := (dec[0] << 2) | (dec[1] >> 4);
      dest[idx + 1] := (dec[1] << 4) | (dec[2] >> 2);
      ok := dec[2] & 0x03 == 0;
    } else {
      dest[idx] := (dec[0] << 2) | (dec[1] >> 4);
      ok := dec[1] & 0x0f == 0;
    }
  }

  /** Translates the characters of a group into dec; stops at the first invalid one. */
  method GetGroup(g: seq<byte>, dec: array<byte>) returns (ok: bool)
    requires |g| <= dec.Length
    modifies dec
    ensures ok == AllValid(g)
    ensures ok ==> dec[..|g|] == Values(g)
  {
    for a := 0 to |g|
      invariant forall k :: 0 <= k < a ==> Valid(g[k]) && dec[k] == Ato64(g[k])
    {
      if !Valid(g[a]) {
        return false;
      }
      dec[a] := Ato64(g[a]);
    }
    ok := true;
  }

  /** dest holds the bytes of the whole groups w from its start and zero bytes after them. */
  ghost predicate Filled(dest: seq<byte>, w: seq<byte>) {
    && |w| % 4 == 0
    && |w| / 4 * 3 <= |dest|
    && dest == Bytes(w) + Zeros(|dest| - |w| / 4 * 3)
  }

  /** Stores one group of four; there is always room for it. */
  method AddQuad(dest: array<byte>, idx: nat, dec: array<byte>, ghost w: seq<byte>, ghost n: nat) returns (idx': nat)
    requires dec.Length == 4 && dec != dest && Filled(dest[..], w) && 4 * idx == 3 * |w|
    requires |w| + 4 <= n && dest.Length == DecodedLength(n)
    modifies dest
    ensures Filled(dest[..], w + dec[..]) && idx' == idx + 3
  {
    hide Bytes, LeftoverZero, Unpack;
    BytesSnoc(w, dec[..]);
    assert dec[..] == dec[..4];
    ghost var before := dest[..];
    var ok;
    ok, idx' := AddDec(dest, idx, dec, 4);
    assert dest[..] == dest[..idx] + dest[idx..idx'] + dest[idx'..];
    assert dest[..idx] == before[..idx] == Bytes(w);
    assert dest[idx'..] == before[idx'..] == Zeros(dest.Length - idx');
  }

  /** Stores the last, short group; after it the buffer is full. */
  method AddLast(dest: array<byte>, idx: nat, dec: array<byte>, len: nat, ghost w: seq<byte>) returns (ok: bool)
    requires dec.Length == 4 && dec != dest && Filled(dest[..], w) && 4 * idx == 3 * |w|
    requires len < 4 && len != 1 && dest.Length == DecodedLength(|w| + len)
    modifies dest
    ensures dest[..] == Bytes(w + dec[..len])
    ensures ok == LeftoverZero(w + dec[..len])
  {
    BytesSnoc(w, dec[..len]);
    ghost var before := dest[..];
    var idx';
    ok, idx' := AddDec(dest, idx, dec, len);
    assert dest[..] == dest[..idx] + dest[idx..idx'];
    assert dest[..idx] == before[..idx] == Bytes(w);
  }

  /** Number of alphabet characters, or failure on a character the liberal decoder does not know. */
  method CountLiberal(src: seq<byte>) returns (ok: bool, full: nat)
    ensures ok == LiberalText(src)
    ensures ok ==> full == |AlphabetPart(src)|
  {
    full := 0;
    for i := 0 to |src|
      invariant LiberalText(src[..i]) && full == |AlphabetPart(src[..i])|
    {
      assert src[..i + 1][..i] == src[..i];
      match ValidLiberal(src[i])
      case Reject => return false, full;
      case Accept => full := full + 1;
      case Ignore =>
    }
    assert src[..|src|] == src;
    ok := true;
  }

  /** Number of characters before the trailing padding. */
  method CountStrict(src: seq<byte>) returns (full: nat)
    ensures full <= |src| && src[..full] == StripPads(src)
  {
    full := |src|;
    assert src[..full] == src;
    while full > 0
      invariant full <= |src| && StripPads(src[..full]) == StripPads(src)
    {
      if src[full - 1] != PAD {
        break;
      }
      assert src[..full][..full - 1] == src[..full - 1];
      full := full - 1;
    }
  }

  /** Decodes the characters a into dest, four at a time.
      bad tells that a character outside the alphabet was met. */
  method StrictFill(a: seq<byte>, dest: array<byte>) returns (bad: bool, ok: bool)
    requires |a| % 4 != 1 && dest.Length == DecodedLength(|a|) && dest[..] == Zeros(dest.Length)
    modifies dest
    ensures bad == !AllValid(a)
    ensures bad ==> Filled(dest[..], Values(a[..ValidQuads(a)]))
    ensures !bad ==> dest[..] == Bytes(Values(a)) && ok == LeftoverZero(Values(a))
  {
    hide *;
    var rest := |a| % 4;
    var full := |a| - rest;
    var dec := new byte[4];
    var i: nat, iDest: nat := 0, 0;
    StartFilled(a, dest[..]);
    while i < full
      invariant i % 4 == 0 && i <= full && AllValid(a[..i])
      invariant Filled(dest[..], Values(a[..i])) && 4 * iDest == 3 * i
    {
      var good := GetGroup(a[i..i + 4], dec);
      if !good {
        StopsAt(a, i, 4);
        return true, false;
      }
      ExtendValid(a, i, 4);
      assert dec[..4] == dec[..];
      iDest := AddQuad(dest, iDest, dec, Values(a[..i]), |a|);
      i := i + 4;
    }
    assert a[i..i + rest] == a[i..];
    var good := GetGroup(a[i..], dec);
    if !good {
      StopsAt(a, i, rest);
      return true, false;
    }
    ExtendValid(a, i, rest);
    ok := AddLast(dest, iDest, dec, rest, Values(a[..i]));
    bad := false;
  }

  lemma StartFilled(a: seq<byte>, dest: seq<byte>)
    requires dest == Zeros(|dest|)
    ensures AllValid(a[..0]) && Filled(dest, Values(a[..0]))
  {
    assert Values(a[..0]) == [];
  }

  lemma ExtendValid(a: seq<byte>, i: nat, m: nat)
    requires i + m <= |a| && AllValid(a[..i]) && AllValid(a[i..i + m])
    ensures AllValid(a[..i + m])
    ensures Values(a[..i + m]) == Values(a[..i]) + Values(a[i..i + m])
    ensures i + m == |a| ==> a[..i + m] == a && a[i..] == a[i..i + m]
  {
    assert a[..i + m] == a[..i] + a[i..i + m];
  }

  /** Adds a value to the group in dec, and stores the group once it is complete. */
  method AddValue(dest: array<byte>, iDest: nat, dec: array<byte>, iDec: nat, v: byte, ghost w: seq<byte>, ghost n: nat)
    returns (iDest': nat, iDec': nat, ghost w': seq<byte>)
    requires dec.Length == 4 && dec != dest && Filled(dest[..], w) && 4 * iDest == 3 * |w| && |w| % 4 == 0
    requires iDec < 4 && |w| + iDec < n && dest.Length == DecodedLength(n)
    modifies dest, dec
    ensures Filled(dest[..], w') && 4 * iDest' == 3 * |w'| && |w'| % 4 == 0 && iDec' < 4
    ensures w' + dec[..iDec'] == w + old(dec[..iDec]) + [v]
  {
    hide *;
    ghost var before := dec[..iDec];
    dec[iDec] := v;
    iDest', iDec', w' := iDest, iDec + 1, w;
    assert dec[..iDec'] == before + [v];
    if iDec' == 4 {
      assert dec[..4] == dec[..];
      iDest' := AddQuad(dest, iDest, dec, w, n);
      w' := w + dec[..];
      iDec' := 0;
    }
  }

  /** Decodes the alphabet characters of src into dest, skipping the others. */
  method LiberalFill(src: seq<byte>, rest: nat, dest: array<byte>) returns (ok: bool)
    requires LiberalText(src) && rest == |AlphabetPart(src)| % 4 && rest != 1
    requires dest.Length == DecodedLength(|AlphabetPart(src)|) && dest[..] == Zeros(dest.Length)
    modifies dest
    ensures dest[..] == Carried(src) && ok == LeftoverZero(Values(AlphabetPart(src)))
  {
    hide *;
    var dec := new byte[4];
    var iDec: nat, iDest: nat := 0, 0;
    ghost var n, w := |AlphabetPart(src)|, [];
    StartLiberal(src, dest[..]);
    for i := 0 to |src|
      invariant iDec < 4 && 4 * iDest == 3 * |w| && |w| % 4 == 0 && Filled(dest[..], w)
      invariant Values(AlphabetPart(src[..i])) == w + dec[..iDec]
    {
      AlphabetStep(src, i);
      match ValidLiberal(src[i])
      case Reject => assert false;
      case Ignore =>
      case Accept =>
        iDest, iDec, w := AddValue(dest, iDest, dec, iDec, Ato64(src[i]), w, n);
    }
    assert src[..|src|] == src;
    ok := AddLast(dest, iDest, dec, rest, w);
    CarriedIs(src);
  }

  lemma CarriedIs(src: seq<byte>)
    ensures Carried(src) == Bytes(Values(AlphabetPart(src)))
  {
  }

  lemma StartLiberal(src: seq<byte>, dest: seq<byte>)
    requires dest == Zeros(|dest|)
    ensures Filled(dest, []) && Values(AlphabetPart(src[..0])) == []
  {
  }

  /** What the next character adds to the values collected so far, of which there never are more than in all of src. */
  lemma AlphabetStep(src: seq<byte>, i: nat)
    requires i < |src| && LiberalText(src)
    ensures ValidLiberal(src[i]) != Reject
    ensures |AlphabetPart(src[..i + 1])| <= |AlphabetPart(src)|
    ensures Values(AlphabetPart(src[..i + 1])) ==
            Values(AlphabetPart(src[..i])) + (if ValidLiberal(src[i]) == Accept then [Ato64(src[i])] else [])
  {
    assert src[..i + 1][..i] == src[..i];
    assert src == src[..i + 1] + src[i + 1..];
    AlphabetPartAppend(src[..i + 1], src[i + 1..]);
  }

  /** On failure dest is empty when the text has a character the decoder rejects outright or an impossible
      number of alphabet characters; the strict decoder leaves the groups before the first invalid one. */
  method Decode(src: seq<byte>, liberal: bool) returns (ok: bool, dest: seq<byte>)
    ensures ok == if liberal then LiberalAccepts(src) else StrictAccepts(src)
    ensures ok ==> dest == Bytes(Values(if liberal then AlphabetPart(src) else StripPads(src)))
    ensures !ok ==>
              var a := if liberal then AlphabetPart(src) else StripPads(src);
              if (liberal && !LiberalText(src)) || |a| == 0 || |a| % 4 == 1 then dest == []
              else if AllValid(a) then dest == Bytes(Values(a))
              else |dest| == DecodedLength(|a|) && Filled(dest, Values(a[..ValidQuads(a)]))
  {
    hide AlphabetPart, StripPads, LeftoverZero, Bytes, ValidQuads, Filled, AllValid, LiberalText, DecodedLength;
    dest := [];
    var full: nat;
    if liberal {
      ok, full := CountLiberal(src);
      if !ok {
        return;
      }
    } else {
      full := CountStrict(src);
    }
    if full == 0 || full % 4 == 1 {
      return false, dest;
    }
    var buf := new byte[DecodedLength(full)](_ => 0);
    assert buf[..] == Zeros(buf.Length);
    if liberal {
      ok := LiberalFill(src, full % 4, buf);
    } else {
      var bad;
      bad, ok := StrictFill(src[..full], buf);
      if bad {
        return false, buf[..];
      }
    }
    dest := buf[..];
  }
}
