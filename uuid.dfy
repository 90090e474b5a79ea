/** The part of `github.com/google/uuid` the core relies on: a UUID is 16
    bytes, `String()` is the lower-case 8-4-4-4-12 hex form, `Parse` accepts
    that form (either case), the same wrapped in braces or prefixed by
    "urn:uuid:", and 32 bare hex digits. One character stands for one byte. */
module Uuid {
  import opened Wrappers

  type Byte = b: int | 0 <= b < 256

  type Uuid = s: seq<Byte> | |s| == 16
    witness [0, 0, 0, 0, 0, 0, 0, 0, 0, 0, 0, 0, 0, 0, 0, 0]

  /** `uuid.Nil`, the all-zero UUID. */
  const Nil: Uuid := [0, 0, 0, 0, 0, 0, 0, 0, 0, 0, 0, 0, 0, 0, 0, 0]

  function HexDigit(d: int): (c: char)
    requires 0 <= d < 16
  {
    if d < 10 then ('0' as int + d) as char else ('a' as int + d - 10) as char
  }

  /** The value of a hex digit of either case, None for any other character. */
  function HexValue(c: char): (r: Option<int>)
    ensures r.Some? ==> 0 <= r.value < 16
  {
    if '0' <= c <= '9' then Some(c as int - '0' as int)
    else if 'a' <= c <= 'f' then Some(c as int - 'a' as int + 10)
    else if 'A' <= c <= 'F' then Some(c as int - 'A' as int + 10)
    else None
  }

  lemma HexValueOfDigit(d: int)
    requires 0 <= d < 16
    ensures HexValue(HexDigit(d)) == Some(d)
  {
  }

  /** Two lower-case hex digits per byte, high nibble first. */
  function Hex(bs: seq<Byte>): (s: string)
    ensures |s| == 2 * |bs|
  {
    if bs == [] then [] else [HexDigit(bs[0] / 16), HexDigit(bs[0] % 16)] + Hex(bs[1..])
  }

  /** Reads pairs of hex digits as bytes; None on an odd length or a non-hex character. */
  function ParseHex(s: string): (r: Option<seq<Byte>>)
    ensures r.Some? ==> 2 * |r.value| == |s|
  {
    if s == [] then Some([])
    else if |s| == 1 then None
    else
      match (HexValue(s[0]), HexValue(s[1]), ParseHex(s[2..]))
      case (Some(hi), Some(lo), Some(rest)) => Some([16 * hi + lo] + rest)
      case _ => None
  }

  /** `UUID.String()`. */
  function Format(u: Uuid): (s: string)
    ensures |s| == 36
    ensures s[8] == '-' && s[13] == '-' && s[18] == '-' && s[23] == '-'
  {
    Hex(u[..4]) + "-" + Hex(u[4..6]) + "-" + Hex(u[6..8]) + "-" + Hex(u[8..10]) + "-" + Hex(u[10..])
  }

  /** The 8-4-4-4-12 form at the start of `s`: dashes at 8, 13, 18 and 23 and
      hex digits elsewhere. */
  function ParseCanonical(s: string): (r: Option<Uuid>)
    requires |s| >= 36
  {
    if s[8] != '-' || s[13] != '-' || s[18] != '-' || s[23] != '-' then None
    else
      match ParseHex(s[..8] + s[9..13] + s[14..18] + s[19..23] + s[24..36])
      case None => None
      case Some(bs) => Some(bs)
  }

  function ToLower(c: char): char {
    if 'A' <= c <= 'Z' then (c as int - 'A' as int + 'a' as int) as char else c
  }

  /** `strings.EqualFold` against the all-lower-case ASCII "urn:uuid:". */
  predicate IsUrnPrefix(p: string) {
    |p| == 9 && forall i :: 0 <= i < 9 ==> ToLower(p[i]) == "urn:uuid:"[i]
  }

  /** `uuid.Parse`. The braced form is accepted by its length alone: its first
      and last characters are not looked at. */
  function Parse(s: string): (r: Option<Uuid>)
    ensures |s| !in {32, 36, 38, 45} ==> r == None
  {
    if |s| == 36 then ParseCanonical(s)
    else if |s| == 45 then (if IsUrnPrefix(s[..9]) then ParseCanonical(s[9..]) else None)
    else if |s| == 38 then ParseCanonical(s[1..])
    else if |s| == 32 then
      match ParseHex(s)
      case None => None
      case Some(bs) => Some(bs)
    else None
  }

  lemma {:induction false} ParseHexOfHex(bs: seq<Byte>)
    ensures ParseHex(Hex(bs)) == Some(bs)
  {
    if bs != [] {
      var b := bs[0];
      var s := Hex(bs);
      HexValueOfDigit(b / 16);
      HexValueOfDigit(b % 16);
      ParseHexOfHex(bs[1..]);
      assert s[2..] == Hex(bs[1..]);
      assert [b] + bs[1..] == bs;
    }
  }

  lemma {:induction false} HexAppend(a: seq<Byte>, b: seq<Byte>)
    ensures Hex(a + b) == Hex(a) + Hex(b)
  {
    if a == [] {
      assert a + b == b;
    } else {
      assert (a + b)[0] == a[0];
      assert (a + b)[1..] == a[1..] + b;
      HexAppend(a[1..], b);
    }
  }

  /** The formatted UUID, with its dashes removed, is the hex of its 16 bytes. */
  lemma FormatDigits(u: Uuid)
    ensures var s := Format(u);
      s[..8] + s[9..13] + s[14..18] + s[19..23] + s[24..36] == Hex(u)
  {
    FormatGroups(u);
    HexGroups(u);
  }

  /** The five digit groups of the formatted UUID. */
  lemma FormatGroups(u: Uuid)
    ensures var s := Format(u);
      s[..8] == Hex(u[..4]) && s[9..13] == Hex(u[4..6]) && s[14..18] == Hex(u[6..8])
      && s[19..23] == Hex(u[8..10]) && s[24..36] == Hex(u[10..])
  {
    var s := Format(u);
    var h0, h1, h2, h3, h4 := Hex(u[..4]), Hex(u[4..6]), Hex(u[6..8]), Hex(u[8..10]), Hex(u[10..]);
    assert s == h0 + "-" + h1 + "-" + h2 + "-" + h3 + "-" + h4;
    assert s[..8] == h0;
    assert s[9..13] == h1;
    assert s[14..18] == h2;
    assert s[19..23] == h3;
    assert s[24..36] == h4;
  }

  /** The hex of the UUID is the hex of its five groups, in order. */
  lemma HexGroups(u: Uuid)
    ensures Hex(u) == Hex(u[..4]) + Hex(u[4..6]) + Hex(u[6..8]) + Hex(u[8..10]) + Hex(u[10..])
  {
    HexAppend(u[..4], u[4..6]);
    HexAppend(u[..4] + u[4..6], u[6..8]);
    HexAppend(u[..4] + u[4..6] + u[6..8], u[8..10]);
    HexAppend(u[..4] + u[4..6] + u[6..8] + u[8..10], u[10..]);
    assert u[..4] + u[4..6] + u[6..8] + u[8..10] + u[10..] == u;
  }

  /** Parsing a formatted UUID gives it back. */
  lemma ParseFormat(u: Uuid)
    ensures Parse(Format(u)) == Some(u)
  {
    FormatDigits(u);
    ParseHexOfHex(u);
  }

  /** The bare 32-digit hex form parses too. */
  lemma ParseRawHex(u: Uuid)
    ensures Parse(Hex(u)) == Some(u)
  {
    ParseHexOfHex(u);
  }

  /** `String()` is injective: distinct UUIDs have distinct text. */
  lemma FormatInjective(u: Uuid, v: Uuid)
    requires Format(u) == Format(v)
    ensures u == v
  {
    ParseFormat(u);
    ParseFormat(v);
  }
}
