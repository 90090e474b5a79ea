/** The part of `golang.org/x/crypto/bcrypt` the services use. A digest is
    modelled by the password it was computed from, and a comparison by the
    key bcrypt actually consumes. Its Blowfish key schedule reads 72 bytes,
    cycling through the password's UTF-8 bytes followed by a NUL, so two
    passwords match the same digest exactly when those 72 bytes agree.
    Below 72 bytes, a password without NUL matches only itself. */
module Bcrypt {
  import opened Wrappers

  newtype Byte = x: int | 0 <= x < 0x100

  datatype PasswordHash = Digest(of: string)

  /** `bcrypt.ErrPasswordTooLong` */
  datatype HashError = PasswordTooLong

  /** `GenerateFromPassword` refuses passwords longer than this. It is also
      the number of key bytes the Blowfish key schedule reads. */
  const MaxPasswordBytes: nat := 72

  /** The UTF-8 encoding of one character. */
  function EncodeChar(c: char): (b: seq<Byte>)
    ensures 1 <= |b| <= 4
  {
    var n := c as int;
    if n < 0x80 then [n as Byte]
    else if n < 0x800 then [(0xC0 + n / 64) as Byte, (0x80 + n % 64) as Byte]
    else if n < 0x1_0000 then [(0xE0 + n / 4096) as Byte, (0x80 + (n / 64) % 64) as Byte, (0x80 + n % 64) as Byte]
    else [(0xF0 + n / 262144) as Byte, (0x80 + (n / 4096) % 64) as Byte, (0x80 + (n / 64) % 64) as Byte, (0x80 + n % 64) as Byte]
  }

  /** `[]byte(password)`: the UTF-8 bytes of `s`. */
  function Utf8(s: string): (b: seq<Byte>)
    ensures |s| <= |b| <= 4 * |s|
  {
    if s == [] then [] else EncodeChar(s[0]) + Utf8(s[1..])
  }

  /** The length of `s` in UTF-8, the bytes of `[]byte(password)`. */
  function Utf8Length(s: string): (n: nat)
    ensures |s| <= n <= 4 * |s|
  {
    |Utf8(s)|
  }

  /** The 72 key bytes the Blowfish key schedule consumes: the password's
      bytes and a terminating NUL, repeated as often as needed. */
  function EffectiveKey(password: string): (k: seq<Byte>)
    ensures |k| == MaxPasswordBytes
  {
    var key := Utf8(password) + [0];
    seq(MaxPasswordBytes, i requires 0 <= i < MaxPasswordBytes => key[i % |key|])
  }

  /** `CompareHashAndPassword(hash, password) == nil`. It has no length
      check, and only the effective key is compared. */
  predicate Matches(hash: PasswordHash, password: string) {
    EffectiveKey(hash.of) == EffectiveKey(password)
  }

  /** `GenerateFromPassword`: refuses passwords over 72 bytes; the digest
      accepts the password and exactly those that share its effective key. */
  function GenerateFromPassword(password: string): (r: Result<PasswordHash, HashError>)
    ensures r.Ok? <==> Utf8Length(password) <= MaxPasswordBytes
    ensures r.Ok? ==> Matches(r.value, password)
    ensures r.Ok? ==> forall other :: Matches(r.value, other) <==> EffectiveKey(other) == EffectiveKey(password)
  {
    if Utf8Length(password) > MaxPasswordBytes then Err(PasswordTooLong) else Ok(Digest(password))
  }

  predicate NoNul(s: string) {
    forall i :: 0 <= i < |s| ==> s[i] != 0 as char
  }

  // ---------------------------------------------------------------------
  // Properties of the comparison.

  /** A password of fewer than 72 bytes and without NUL matches only its own
      digest: the NUL that ends its key tells its length. */
  lemma ShortPasswordsExact(p: string, q: string)
    requires Utf8Length(p) < MaxPasswordBytes && Utf8Length(q) < MaxPasswordBytes
    requires NoNul(p) && NoNul(q)
    ensures Matches(Digest(p), q) <==> p == q
  {
    if EffectiveKey(p) == EffectiveKey(q) {
      var lp, lq := |Utf8(p)|, |Utf8(q)|;
      FirstNul(p);
      FirstNul(q);
      assert lp == lq;
      assert Utf8(p) == EffectiveKey(p)[..lp] == EffectiveKey(q)[..lq] == Utf8(q);
      Utf8Injective(p, q);
    }
  }

  /** Only the first 72 bytes count: whatever follows a password that long
      is ignored, so a digest of it accepts any extension. */
  lemma LongPasswordTruncated(p: string, s: string)
    requires Utf8Length(p) >= MaxPasswordBytes
    ensures Matches(Digest(p), p + s)
  {
    Utf8Append(p, s);
    forall i | 0 <= i < MaxPasswordBytes
      ensures EffectiveKey(p)[i] == EffectiveKey(p + s)[i]
    {
      KeyAt(p, i);
      KeyAt(p + s, i);
      assert (Utf8(p + s) + [0])[i] == (Utf8(p) + Utf8(s))[i] == Utf8(p)[i];
    }
  }

  /** The NUL that ends the key repeats with it: "a" and "a" NUL "a" give
      the same 72 key bytes, so each is accepted by the other's digest. */
  lemma NulPaddingMatches()
    ensures var a := ['a'];
      var b := ['a', 0 as char, 'a'];
      a != b && Matches(Digest(a), b)
  {
    var a := ['a'];
    var b := ['a', 0 as char, 'a'];
    assert Utf8(a) + [0] == [97, 0];
    assert Utf8(b) + [0] == [97, 0, 97, 0];
    forall i | 0 <= i < MaxPasswordBytes
      ensures EffectiveKey(a)[i] == EffectiveKey(b)[i]
    {
      assert (i % 4) % 2 == i % 2;
    }
  }

  // Helpers on the encoding.

  /** Within the key's own length, the effective key is the key. */
  lemma KeyAt(p: string, i: nat)
    requires i < MaxPasswordBytes && i <= |Utf8(p)|
    ensures EffectiveKey(p)[i] == (Utf8(p) + [0])[i]
  {
    var key := Utf8(p) + [0];
    ModSmall(i, |key|);
  }

  lemma ModSmall(i: nat, m: nat)
    requires i < m
    ensures i % m == i
  {
  }

  /** Below 72 bytes, the effective key starts with the password's bytes,
      and its first NUL is the one that ends them. */
  lemma FirstNul(p: string)
    requires Utf8Length(p) < MaxPasswordBytes && NoNul(p)
    ensures EffectiveKey(p)[..|Utf8(p)|] == Utf8(p)
    ensures EffectiveKey(p)[|Utf8(p)|] == 0
    ensures forall i :: 0 <= i < |Utf8(p)| ==> EffectiveKey(p)[i] != 0
  {
    var u := Utf8(p);
    NoNulBytes(p);
    forall i | 0 <= i <= |u|
      ensures EffectiveKey(p)[i] == (u + [0])[i]
    {
      KeyAt(p, i);
    }
    assert EffectiveKey(p)[..|u|] == u;
  }

  lemma {:induction false} NoNulBytes(s: string)
    requires NoNul(s)
    ensures forall i :: 0 <= i < |Utf8(s)| ==> Utf8(s)[i] != 0
  {
    if s != [] {
      NoNulBytes(s[1..]);
      var e := EncodeChar(s[0]);
      assert s[0] != 0 as char;
      assert forall i :: 0 <= i < |e| ==> e[i] != 0;
    }
  }

  lemma {:induction false} Utf8Append(p: string, s: string)
    ensures Utf8(p + s) == Utf8(p) + Utf8(s)
  {
    if p != [] {
      assert (p + s)[1..] == p[1..] + s;
      Utf8Append(p[1..], s);
    } else {
      assert p + s == s;
    }
  }

  /** The number of bytes of a character's encoding, read off its first byte. */
  function LengthFromLead(b: Byte): nat {
    if b < 0x80 then 1 else if b < 0xE0 then 2 else if b < 0xF0 then 3 else 4
  }

  lemma LeadGivesLength(c: char)
    ensures |EncodeChar(c)| == LengthFromLead(EncodeChar(c)[0])
  {
  }

  /** The code point a well-formed encoding stands for. */
  function DecodeChar(e: seq<Byte>): int
    requires 1 <= |e| <= 4
  {
    if |e| == 1 then e[0] as int
    else if |e| == 2 then (e[0] as int - 0xC0) * 64 + (e[1] as int - 0x80)
    else if |e| == 3 then (e[0] as int - 0xE0) * 4096 + (e[1] as int - 0x80) * 64 + (e[2] as int - 0x80)
    else (e[0] as int - 0xF0) * 262144 + (e[1] as int - 0x80) * 4096 + (e[2] as int - 0x80) * 64 + (e[3] as int - 0x80)
  }

  lemma DecodeEncode(c: char)
    ensures DecodeChar(EncodeChar(c)) == c as int
  {
    var n := c as int;
    var q := n / 64;
    assert n == q * 64 + n % 64;
    if n >= 0x800 {
      assert q == (q / 64) * 64 + q % 64;
      assert n / 4096 == q / 64;
      if n >= 0x1_0000 {
        var r := q / 64;
        assert r == (r / 64) * 64 + r % 64;
        assert n / 262144 == r / 64;
        assert (n / 4096) % 64 == r % 64;
      }
    }
  }

  lemma EncodeCharInjective(c: char, d: char)
    requires EncodeChar(c) == EncodeChar(d)
    ensures c == d
  {
    DecodeEncode(c);
    DecodeEncode(d);
  }

  /** UTF-8 is a prefix code, so distinct strings have distinct bytes. */
  lemma {:induction false} Utf8Injective(p: string, q: string)
    requires Utf8(p) == Utf8(q)
    ensures p == q
  {
    if p != [] && q != [] {
      var ep, eq := EncodeChar(p[0]), EncodeChar(q[0]);
      LeadGivesLength(p[0]);
      LeadGivesLength(q[0]);
      assert ep[0] == Utf8(p)[0] && eq[0] == Utf8(q)[0];
      assert |ep| == |eq|;
      assert ep == Utf8(p)[..|ep|] == Utf8(q)[..|eq|] == eq;
      EncodeCharInjective(p[0], q[0]);
      assert Utf8(p[1..]) == Utf8(p)[|ep|..] == Utf8(q)[|eq|..] == Utf8(q[1..]);
      Utf8Injective(p[1..], q[1..]);
    }
  }
}
