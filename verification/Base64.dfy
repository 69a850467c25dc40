/** The encoder, as a loop over a preallocated buffer. */
module Base64 {
  import opened Base64Tables
  import opened Chunks
  import opened Base64Text
  import opened Base64Laws
  import opened Base64Standard

  // ----- Encoding -----

  /** State of the encoder's counters after j of n characters: `lines` of the `total` line ends are
      still due, crtLine characters were written since the last one, idx is the buffer position. */
  ghost predicate Counters(j: nat, n: nat, L: nat, total: nat, lines: nat, crtLine: nat, idx: nat) {
    && lines <= total
    && j <= n
    && idx == j + 2 * (total - lines)
    && (if L == 0 then total == 0 else total * L < n <= (total + 1) * L)
    && (if lines > 0 then crtLine < L && j == (total - lines) * L + crtLine else total * L <= j)
  }

  lemma CounterStep(j: nat, n: nat, L: nat, total: nat, lines: nat, crtLine: nat, idx: nat)
    requires Counters(j, n, L, total, lines, crtLine, idx) && j < n
    ensures BreakAfter(j + 1, L, n) <==> lines > 0 && crtLine + 1 == L
    ensures var hit := lines > 0 && crtLine + 1 == L;
            Counters(j + 1, n, L, total, if hit then lines - 1 else lines, if hit then 0 else crtLine + 1,
                     idx + (if hit then 3 else 1))
  {
    if lines == 0 {
      NoBreakLeft(j, n, L, total);
    } else {
      BreakDue(j, n, L, total, total - lines, crtLine);
    }
  }

  lemma NoBreakLeft(j: nat, n: nat, L: nat, total: nat)
    requires j < n && total * L <= j && (L > 0 ==> n <= (total + 1) * L)
    ensures !BreakAfter(j + 1, L, n)
  {
    if L > 0 && (j + 1) % L == 0 {
      var q := (j + 1) / L;
      assert j + 1 == q * L;
      Between(total, q, L, j + 1);
    }
  }

  lemma BreakDue(j: nat, n: nat, L: nat, total: nat, done: nat, crtLine: nat)
    requires done < total && total * L < n && crtLine < L && j == done * L + crtLine
    ensures BreakAfter(j + 1, L, n) <==> crtLine + 1 == L
    ensures crtLine + 1 == L ==> j + 1 == (done + 1) * L && (done + 1 == total ==> total * L <= j + 1)
  {
    assert (done + 1) * L == done * L + L;
    MulMono(done + 1, total, L);
    if crtLine + 1 == L {
      DivModUnique(j + 1, L, done + 1, 0);
    } else {
      DivModUnique(j + 1, L, done, crtLine + 1);
    }
  }

  lemma MulMono(a: nat, b: nat, L: nat)
    requires a <= b
    ensures a * L <= b * L
  {
  }

  /** A multiple of L above total * L is at least (total + 1) * L. */
  lemma Between(total: nat, q: nat, L: nat, x: nat)
    requires x == q * L && x > total * L
    ensures x >= (total + 1) * L
  {
    if q <= total {
      MulMono(q, total, L);
    }
    MulMono(total + 1, q, L);
  }

  method AddEoln(buf: array<byte>, idx: nat, lines: nat, crtLine: nat, lineLen: nat)
    returns (idx': nat, lines': nat, crtLine': nat)
    requires lines > 0 && crtLine == lineLen ==> idx + 2 <= buf.Length
    requires idx <= buf.Length
    modifies buf
    ensures idx <= idx' <= buf.Length
    ensures if lines > 0 && crtLine == lineLen
            then idx' == idx + 2 && lines' == lines - 1 && crtLine' == 0 && buf[idx..idx'] == EOLN
            else idx' == idx && lines' == lines && crtLine' == crtLine
    ensures forall k :: 0 <= k < idx || idx' <= k < buf.Length ==> buf[k] == old(buf[k])
  {
    idx', lines', crtLine' := idx, lines, crtLine;
    if !(lines > 0 && crtLine == lineLen) {
      return;
    }
    buf[idx'] := EOLN[0];
    idx' := idx' + 1;
    buf[idx'] := EOLN[1];
    idx' := idx' + 1;
    crtLine' := 0;
    lines' := lines - 1;
  }

  /** The buffer holds the broken form of the characters of sextets q, the first ones of a text of
      n characters, and padding after it. */
  ghost predicate Written(buf: seq<byte>, q: seq<byte>, n: nat, L: nat, total: nat, lines: nat, crtLine: nat, idx: nat) {
    && AllSextets(q)
    && |buf| == n + 2 * total
    && Counters(|q|, n, L, total, lines, crtLine, idx)
    && idx <= |buf|
    && buf[..idx] == Wrapped(Chars(q), L, n)
    && forall k :: idx <= k < |buf| ==> buf[k] == PAD
  }

  lemma CharsSnoc(q: seq<byte>, v: byte)
    requires AllSextets(q) && v < 64
    ensures AllSextets(q + [v]) && Chars(q + [v]) == Chars(q) + [Alphabet(v)]
  {
  }

  /** Writes the next character of a text of n characters. */
  method AddEnc(buf: array<byte>, idx: nat, ch: byte, lines: nat, crtLine: nat, lineLen: nat,
                ghost q: seq<byte>, ghost n: nat, ghost total: nat)
    returns (idx': nat, lines': nat, crtLine': nat)
    requires Written(buf[..], q, n, lineLen, total, lines, crtLine, idx) && |q| < n
    modifies buf
    ensures Written(buf[..], q + [Low6(ch)], n, lineLen, total, lines', crtLine', idx')
  {
    hide Alphabet, Low6, Break;
    CounterStep(|q|, n, lineLen, total, lines, crtLine, idx);
    CharsSnoc(q, Low6(ch));
    BreakSnoc(Chars(q), Alphabet(Low6(ch)), lineLen);
    assert buf[..idx] == buf[..][..idx];
    buf[idx] := Alphabet(Low6(ch));
    ghost var before := buf[..idx + 1];
    assert before == Break(Chars(q + [Low6(ch)]), lineLen);
    idx', lines', crtLine' := AddEoln(buf, idx + 1, lines, crtLine + 1, lineLen);
    assert buf[..idx + 1] == before;
    assert buf[..][..idx'] == buf[..idx + 1] + buf[idx + 1..idx'];
  }

  lemma LastShifts(a: byte)
    ensures Second(a, 0) == a << 4 && Third(a, 0) == a << 2
  {
  }

  /** Sextets of the first i + 3 bytes, or of all bytes when fewer than three are left. */
  lemma NextGroup(s: seq<byte>, i: nat)
    requires i % 3 == 0 && i < |s|
    ensures |Sextets(s[..i])| + 4 <= |Unbroken(s)|
    ensures if i + 3 <= |s| then Sextets(s[..i + 3]) == Sextets(s[..i]) + Pack(s[i..i + 3])
            else Sextets(s) == Sextets(s[..i]) + Pack(s[i..])
  {
    var e := if i + 3 <= |s| then i + 3 else |s|;
    SextetsShape(s[..i]);
    ChunkAppend(Pack, 3, s[..i], s[i..e]);
    assert s[..i] + s[i..e] == s[..e];
    if e == |s| {
      assert s[..e] == s;
    }
  }

  /** Once all alphabet characters are written, the prefilled rest of the buffer completes the encoded body. */
  lemma RestIsPadding(buf: seq<byte>, b: seq<byte>, L: nat, total: nat, lines: nat, crtLine: nat, idx: nat)
    requires b != []
    requires Written(buf, Sextets(b), |Unbroken(b)|, L, total, lines, crtLine, idx)
    ensures buf == EncodedBody(b, L)
  {
    var t, n := CharsOf(b), |Unbroken(b)|;
    DueInsidePads(|t|, n, L, total, lines, crtLine, idx);
    assert buf == Wrapped(t, L, n) + Pads(|buf| - idx);
    PaddedBody(b, L);
  }

  /** The encoded body in terms of its alphabet characters. */
  lemma PaddedBody(b: seq<byte>, L: nat)
    requires b != []
    ensures EncodedBody(b, L) == Wrapped(CharsOf(b), L, |Unbroken(b)|) +
                                 Pads(PadCount(|b|) + (if PadBroken(b, L) then 2 else 0))
  {
    var t, u := CharsOf(b), Unbroken(b);
    hide CharsOf, Unbroken, Break;
    if PadCount(|b|) == 0 {
      assert u == t;
    } else {
      BreakSnoc(t, PAD, L);
      if PadCount(|b|) == 1 {
        assert u == t + [PAD];
      } else {
        BreakSnoc(t + [PAD], PAD, L);
        assert u == t + [PAD] + [PAD];
        assert u[..|t| + 1] == t + [PAD];
      }
    }
  }

  /** A line end can be due after the last alphabet character only between two pads. */
  lemma DueInsidePads(j: nat, n: nat, L: nat, total: nat, lines: nat, crtLine: nat, idx: nat)
    requires Counters(j, n, L, total, lines, crtLine, idx) && n <= j + 2
    ensures lines == if L > 0 && j + 2 == n && (n - 1) % L == 0 then 1 else 0
  {
    if lines > 0 {
      var done := total - lines;
      assert (done + 1) * L == done * L + L;
      MulMono(done + 1, total, L);
      assert (done + 1) * L == n - 1;
      assert (done + 2) * L == (done + 1) * L + L;
      if lines > 1 {
        MulMono(done + 2, total, L);
      }
      DivModUnique(n - 1, L, done + 1, 0);
    } else if L > 0 && j + 2 == n && (n - 1) % L == 0 {
      var q := (n - 1) / L;
      assert n - 1 == q * L;
      Between(total, q, L, n - 1);
    }
  }

  /** Number of line ends inside a text of n characters: one before each line but the first. */
  function LineCount(n: nat, L: nat): nat {
    if L == 0 || n == 0 then 0 else (n - 1) / L
  }

  lemma Start(buf: seq<byte>, n: nat, L: nat)
    requires n > 0 && |buf| == n + 2 * LineCount(n, L) && forall k :: 0 <= k < |buf| ==> buf[k] == PAD
    ensures Written(buf, [], n, L, LineCount(n, L), LineCount(n, L), 0, 0)
  {
    if L > 0 {
      var q, r := (n - 1) / L, (n - 1) % L;
      assert n - 1 == q * L + r;
      assert (q + 1) * L == q * L + L;
    }
  }

  /** Writes the characters of the three bytes at i. */
  method EncodeFull(buf: array<byte>, iDest: nat, s: seq<byte>, i: nat, lines: nat, crtLine: nat, lineLen: nat,
                    ghost q: seq<byte>, ghost n: nat, ghost total: nat)
    returns (iDest': nat, lines': nat, crtLine': nat)
    requires i + 3 <= |s| && |q| + 4 <= n
    requires Written(buf[..], q, n, lineLen, total, lines, crtLine, iDest)
    modifies buf
    ensures Written(buf[..], q + Pack(s[i..i + 3]), n, lineLen, total, lines', crtLine', iDest')
  {
    ghost var g := Pack(s[i..i + 3]);
    hide Written, First, Second, Third, Low6;
    iDest', lines', crtLine' := AddEnc(buf, iDest, First(s[i]), lines, crtLine, lineLen, q, n, total);
    iDest', lines', crtLine' := AddEnc(buf, iDest', Second(s[i], s[i + 1]), lines', crtLine', lineLen, q + [g[0]], n, total);
    iDest', lines', crtLine' := AddEnc(buf, iDest', Third(s[i + 1], s[i + 2]), lines', crtLine', lineLen,
                                       q + [g[0]] + [g[1]], n, total);
    iDest', lines', crtLine' := AddEnc(buf, iDest', s[i + 2], lines', crtLine', lineLen,
                                       q + [g[0]] + [g[1]] + [g[2]], n, total);
    assert q + [g[0]] + [g[1]] + [g[2]] + [g[3]] == q + g;
  }

  /** Writes the characters of the last one or two bytes, those from i on. The final padding is not
      written: the buffer was filled with it. */
  method EncodeRest(buf: array<byte>, iDest: nat, s: seq<byte>, i: nat, lines: nat, crtLine: nat, lineLen: nat,
                    ghost q: seq<byte>, ghost n: nat, ghost total: nat)
    returns (iDest': nat, lines': nat, crtLine': nat)
    requires i < |s| < i + 3 && |q| + 4 <= n
    requires Written(buf[..], q, n, lineLen, total, lines, crtLine, iDest)
    modifies buf
    ensures Written(buf[..], q + Pack(s[i..]), n, lineLen, total, lines', crtLine', iDest')
  {
    ghost var g := Pack(s[i..]);
    LastShifts(s[i]);
    hide Written, First, Low6;
    iDest', lines', crtLine' := AddEnc(buf, iDest, First(s[i]), lines, crtLine, lineLen, q, n, total);
    if |s| - i == 1 {
      iDest', lines', crtLine' := AddEnc(buf, iDest', s[i] << 4, lines', crtLine', lineLen, q + [g[0]], n, total);
      assert q + [g[0]] + [g[1]] == q + g;
    } else {
      LastShifts(s[i + 1]);
      iDest', lines', crtLine' := AddEnc(buf, iDest', Second(s[i], s[i + 1]), lines', crtLine', lineLen, q + [g[0]], n, total);
      iDest', lines', crtLine' := AddEnc(buf, iDest', s[i + 1] << 2, lines', crtLine', lineLen, q + [g[0]] + [g[1]], n, total);
      assert q + [g[0]] + [g[1]] + [g[2]] == q + g;
    }
  }

  /** Encodes s into a buffer filled with padding that has room for `total` line ends. */
  method EncodeInto(buf: array<byte>, s: seq<byte>, lineLen: nat, total: nat)
    requires s != []
    requires Written(buf[..], [], |Unbroken(s)|, lineLen, total, total, 0, 0)
    modifies buf
    ensures buf[..] == EncodedBody(s, lineLen)
  {
    hide *;
    ghost var n := |Unbroken(s)|;
    var rest := |s| % 3;
    var full := |s| - rest;
    var i: nat, lines: nat, crtLine: nat, iDest: nat := 0, total, 0, 0;
    ghost var q := [];
    NoGroups(s);
    while i < full
      invariant i % 3 == 0 && i <= full && q == Sextets(s[..i])
      invariant Written(buf[..], q, n, lineLen, total, lines, crtLine, iDest)
    {
      NextGroup(s, i);
      iDest, lines, crtLine := EncodeFull(buf, iDest, s, i, lines, crtLine, lineLen, q, n, total);
      q := q + Pack(s[i..i + 3]);
      i := i + 3;
    }
    if rest != 0 {
      NextGroup(s, i);
      iDest, lines, crtLine := EncodeRest(buf, iDest, s, i, lines, crtLine, lineLen, q, n, total);
    } else {
      assert s[..i] == s;
    }
    RestIsPadding(buf[..], s, lineLen, total, lines, crtLine, iDest);
  }

  lemma NoGroups(s: seq<byte>)
    ensures Sextets(s[..0]) == []
  {
    assert s[..0] == [];
  }

  /** How many lines are needed, except for the last one. */
  method CountLines(len: nat, lineLen: nat) returns (lines: nat)
    ensures lineLen == 0 || len == 0 ==> lines == 0
    ensures lineLen > 0 && len > 0 ==> lines == (len - 1) / lineLen
  {
    lines := 0;
    if lineLen != 0 {
      lines := len / lineLen;
      QuotientBefore(len, lineLen);
      if len % lineLen == 0 && lines != 0 {
        lines := lines - 1;
      }
    }
  }

  lemma QuotientBefore(n: nat, L: nat)
    requires L > 0
    ensures n == 0 ==> n / L == 0
    ensures n > 0 ==> (n - 1) / L == if n % L == 0 then n / L - 1 else n / L
  {
    if n > 0 {
      var q, r := n / L, n % L;
      assert n == q * L + r && (q - 1) * L == q * L - L;
      if r == 0 {
        DivModUnique(n - 1, L, q - 1, L - 1);
      } else {
        DivModUnique(n - 1, L, q, r - 1);
      }
    } else {
      DivModUnique(0, L, 0, 0);
    }
  }

  lemma OnOneLineIsTable1(s: seq<byte>)
    requires s != []
    ensures |EncodedText(s, 0, false)| == (|s| + 2) / 3 * 4
    ensures forall g :: 0 <= g < (|s| + 2) / 3 ==> IsGroup(s, EncodedText(s, 0, false), g)
  {
    forall g | 0 <= g < (|s| + 2) / 3
      ensures IsGroup(s, Unbroken(s), g)
    {
      GroupsOfTable1(s, g);
    }
    assert EncodedText(s, 0, false) == Unbroken(s);
  }

  method Encode(s: seq<byte>, lineLen: nat, lineAtEnd: bool) returns (dest: seq<byte>)
    ensures dest == EncodedText(s, lineLen, lineAtEnd) && (s == [] ==> dest == [])
    ensures lineLen == 0 && !lineAtEnd ==>
              |dest| == (|s| + 2) / 3 * 4 && forall g :: 0 <= g < (|s| + 2) / 3 ==> IsGroup(s, dest, g)
  {
    dest := [];
    if |s| == 0 {
      return;
    }
    OnOneLineIsTable1(s);
    hide Written, Unbroken, EncodedBody, IsGroup;
    var rest := |s| % 3;
    var full := |s| - rest;
    var len := full / 3 * 4 + (if rest != 0 then 4 else 0);
    assert len == |Unbroken(s)|;
    var lines := CountLines(len, lineLen);
    var buf := new byte[len + lines * 2](_ => PAD);
    Start(buf[..], len, lineLen);
    EncodeInto(buf, s, lineLen, lines);
    dest := buf[..];
    if lineAtEnd {
      dest := dest + EOLN;
    }
  }
}
