/** Processing a byte sequence in chunks of n bytes, the last one possibly shorter. */
module Chunks {
  import opened Base64Tables

  function ChunkMap(f: seq<byte> -> seq<byte>, n: nat, s: seq<byte>): seq<byte>
    requires n > 0
    decreases |s|
  {
    if |s| <= n then f(s) else f(s[..n]) + ChunkMap(f, n, s[n..])
  }

  lemma {:induction false} ChunkAppend(f: seq<byte> -> seq<byte>, n: nat, s: seq<byte>, t: seq<byte>)
    requires n > 0 && |s| % n == 0 && f([]) == []
    ensures ChunkMap(f, n, s + t) == ChunkMap(f, n, s) + ChunkMap(f, n, t)
    decreases |s|
  {
    if |s| == 0 {
      assert s + t == t;
    } else if |t| == 0 {
      assert s + t == s;
    } else {
      if |s| < n {
        ModSmall(|s|, n);
      }
      ModStep(|s|, n);
      assert (s + t)[..n] == s[..n] && (s + t)[n..] == s[n..] + t;
      ChunkAppend(f, n, s[n..], t);
      if |s| == n {
        assert s[..n] == s && s[n..] + t == t;
      }
    }
  }

  /** g takes back what f made of every chunk of s; full chunks of n become full chunks of m. */
  ghost predicate Inverts(f: seq<byte> -> seq<byte>, n: nat, g: seq<byte> -> seq<byte>, m: nat, s: seq<byte>)
    requires n > 0
    decreases |s|
  {
    if |s| <= n then
      |f(s)| <= m && g(f(s)) == s
    else
      |f(s[..n])| == m && g(f(s[..n])) == s[..n] && Inverts(f, n, g, m, s[n..])
  }

  lemma {:induction false} ChunkInverse(f: seq<byte> -> seq<byte>, n: nat, g: seq<byte> -> seq<byte>, m: nat, s: seq<byte>)
    requires n > 0 && m > 0 && g([]) == [] && Inverts(f, n, g, m, s)
    ensures ChunkMap(g, m, ChunkMap(f, n, s)) == s
    decreases |s|
  {
    if |s| > n {
      var h, r := f(s[..n]), ChunkMap(f, n, s[n..]);
      ChunkInverse(f, n, g, m, s[n..]);
      assert s == s[..n] + s[n..];
      if r != [] {
        assert (h + r)[..m] == h && (h + r)[m..] == r;
      }
    }
  }

  lemma ModSmall(x: nat, d: nat)
    requires x < d
    ensures x % d == x
  {
  }

  lemma ModSelf(d: nat)
    requires d > 0
    ensures d % d == 0
  {
  }

  lemma ModStep(x: nat, d: nat)
    requires 0 < d <= x
    ensures (x - d) % d == x % d
    ensures (x - d) / d == x / d - 1
  {
    var q, r := x / d, x % d;
    assert x - d == (q - 1) * d + r;
    DivModUnique(x - d, d, q - 1, r);
  }

  lemma DivModUnique(x: nat, d: nat, q: int, r: nat)
    requires r < d && x == q * d + r
    ensures x / d == q && x % d == r
  {
    var q', r' := x / d, x % d;
    var k := q' - q;
    assert k * d == r - r' by {
      assert x == q' * d + r';
    }
    if k != 0 {
      MulAtLeast(k, d);
    }
  }

  lemma MulAtLeast(k: int, d: nat)
    requires k != 0
    ensures k >= 1 ==> k * d >= d
    ensures k <= -1 ==> k * d + d <= 0
  {
    if k >= 1 {
      assert (k - 1) * d >= 0;
    } else {
      assert (-k - 1) * d >= 0;
    }
  }
}
