/** The Base64 alphabet of RFC 4648, Table 1, and the byte-to-sextet table used for decoding. */
module Base64Tables {

  type byte = bv8

  const PAD: byte := 61
  const CR: byte := 13
  const LF: byte := 10
  const EOLN: seq<byte> := [CR, LF]

  /** Value of the translation table for a byte that is not in the alphabet. */
  const IC: byte := 255

  /** Entry of the 64-character alphabet for a value whose two high bits were cleared. */
  function Alphabet(v: byte): byte
    requires v < 64
  {
    if v < 26 then v + 65           // 'A'..'Z'
    else if v < 52 then v + 71      // 'a'..'z'
    else if v < 62 then v - 4       // '0'..'9'
    else if v == 62 then 43         // '+'
    else 47                         // '/'
  }

  /** Entry of the 256-byte translation table. */
  function Ato64(c: byte): byte {
    if c == 43 then 62
    else if c == 47 then 63
    else if 48 <= c <= 57 then c + 4
    else if 65 <= c <= 90 then c - 65
    else if 97 <= c <= 122 then c - 71
    else IC
  }

  predicate Valid(c: byte) {
    Ato64(c) < 64
  }

  /** '=', CR, LF, TAB and space are skipped by the liberal decoder. */
  predicate Ignored(c: byte) {
    c == PAD || c == CR || c == LF || c == 9 || c == 32
  }

  datatype Verdict = Ignore | Accept | Reject

  function ValidLiberal(c: byte): (r: Verdict)
    ensures r == Ignore <==> c == 61 || c == 13 || c == 10 || c == 9 || c == 32
    ensures r == Accept <==> Valid(c)
    ensures r == Reject <==> !Valid(c) && !Ignored(c)
  {
    if Ignored(c) then Ignore else if Valid(c) then Accept else Reject
  }

  /** The two tables are inverse to each other, and nothing outside the alphabet is valid. */
  lemma TablesInverse(v: byte, c: byte)
    ensures v < 64 ==> Valid(Alphabet(v)) && Ato64(Alphabet(v)) == v
    ensures Valid(c) ==> Alphabet(Ato64(c)) == c
    ensures Valid(c) ==> !Ignored(c)
  {
  }
}
