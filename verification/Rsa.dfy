/** RSA keys in a JWK Set: section 6.3.1 of RFC 7518, with base64url of section 5 of RFC 4648
    (jwks.go). */
module Rsa {
  import opened Text
  import opened Bits

  type Byte = b: int | 0 <= b < 256

  type Sextet = v: int | 0 <= v < 64

  // ---- unpadded base64url, as RawURLEncoding decodes it ----

  function SextetChar(v: Sextet): char {
    if v < 26 then ('A' as int + v) as char
    else if v < 52 then ('a' as int + (v - 26)) as char
    else if v < 62 then ('0' as int + (v - 52)) as char
    else if v == 62 then '-' else '_'
  }

  function SextetValue(c: char): Option<Sextet> {
    if 'A' <= c <= 'Z' then Some(c as int - 'A' as int)
    else if 'a' <= c <= 'z' then Some(c as int - 'a' as int + 26)
    else if '0' <= c <= '9' then Some(c as int - '0' as int + 52)
    else if c == '-' then Some(62)
    else if c == '_' then Some(63)
    else None
  }

  /** Table 2 of RFC 4648: capitals, small letters and digits in three runs, then "-" and "_". */
  lemma AlphabetMeaning(v: Sextet, c: char)
    ensures SextetChar(0) == 'A' && SextetChar(25) == 'Z' && SextetChar(26) == 'a' && SextetChar(51) == 'z'
    ensures SextetChar(52) == '0' && SextetChar(61) == '9' && SextetChar(62) == '-' && SextetChar(63) == '_'
    ensures v !in {25, 51, 61, 62, 63} ==> SextetChar(v + 1) as int == SextetChar(v) as int + 1
    ensures SextetValue(c) == Some(v) <==> c == SextetChar(v)
  {
  }

  /** The sextets of a text; line breaks are skipped, any other foreign character is an error. */
  function Sextets(s: string): Option<seq<Sextet>> {
    if s == "" then Some([])
    else if s[0] == '\r' || s[0] == '\n' then Sextets(s[1..])
    else
      match (SextetValue(s[0]), Sextets(s[1..]))
      case (Some(v), Some(rest)) => Some([v] + rest)
      case _ => None
  }

  /** Four sextets make three bytes. */
  function ThreeBytes(a: Sextet, b: Sextet, c: Sextet, d: Sextet): seq<Byte> {
    [a * 4 + b / 16, b % 16 * 16 + c / 4, c % 4 * 64 + d]
  }

  /** Two or three sextets left over give one or two bytes, one is an error. */
  function Regroup(q: seq<Sextet>): Option<seq<Byte>> {
    if |q| == 0 then Some([])
    else if |q| == 1 then None
    else if |q| == 2 then Some(ThreeBytes(q[0], q[1], 0, 0)[..1])
    else if |q| == 3 then Some(ThreeBytes(q[0], q[1], q[2], 0)[..2])
    else
      match Regroup(q[4..])
      case None => None
      case Some(rest) => Some(ThreeBytes(q[0], q[1], q[2], q[3]) + rest)
  }

  function Decode(s: string): Option<seq<Byte>> {
    match Sextets(s)
    case None => None
    case Some(q) => Regroup(q)
  }

  function FourSextets(a: Byte, b: Byte, c: Byte): seq<Sextet> {
    [a / 4, a % 4 * 16 + b / 16, b % 16 * 4 + c / 64, c % 64]
  }

  function Split(bytes: seq<Byte>): seq<Sextet> {
    if |bytes| == 0 then []
    else if |bytes| == 1 then FourSextets(bytes[0], 0, 0)[..2]
    else if |bytes| == 2 then FourSextets(bytes[0], bytes[1], 0)[..3]
    else FourSextets(bytes[0], bytes[1], bytes[2]) + Split(bytes[3..])
  }

  function Letters(q: seq<Sextet>): string {
    if q == [] then "" else [SextetChar(q[0])] + Letters(q[1..])
  }

  function Encode(bytes: seq<Byte>): string {
    Letters(Split(bytes))
  }

  lemma LetterBack(v: Sextet)
    ensures SextetValue(SextetChar(v)) == Some(v)
    ensures SextetChar(v) != '\r' && SextetChar(v) != '\n'
  {
  }

  lemma {:induction false} SextetsOfLetters(q: seq<Sextet>)
    ensures Sextets(Letters(q)) == Some(q)
  {
    if q != [] {
      LetterBack(q[0]);
      SextetsOfLetters(q[1..]);
      assert Letters(q)[1..] == Letters(q[1..]);
      assert q == [q[0]] + q[1..];
    }
  }

  lemma {:induction false} RegroupSplit(bytes: seq<Byte>)
    ensures Regroup(Split(bytes)) == Some(bytes)
  {
    if |bytes| == 0 {
    } else if |bytes| == 1 {
      OneByteBack(bytes[0]);
      assert bytes == [bytes[0]];
    } else if |bytes| == 2 {
      TwoBytesBack(bytes[0], bytes[1]);
      assert bytes == [bytes[0], bytes[1]];
    } else {
      RegroupSplit(bytes[3..]);
      ThreeBytesBack(bytes[0], bytes[1], bytes[2], bytes[3..]);
      assert bytes == [bytes[0], bytes[1], bytes[2]] + bytes[3..];
    }
  }

  lemma OneByteBack(a: Byte)
    ensures Regroup(FourSextets(a, 0, 0)[..2]) == Some([a])
  {
    ThreeOfFour(a, 0, 0);
    var s := FourSextets(a, 0, 0);
    assert s[2] == 0 && s[3] == 0;
    assert ThreeBytes(s[0], s[1], 0, 0)[..1] == [a];
  }

  lemma TwoBytesBack(a: Byte, b: Byte)
    ensures Regroup(FourSextets(a, b, 0)[..3]) == Some([a, b])
  {
    ThreeOfFour(a, b, 0);
    var s := FourSextets(a, b, 0);
    assert s[3] == 0;
    assert ThreeBytes(s[0], s[1], s[2], 0)[..2] == [a, b];
  }

  lemma ThreeBytesBack(a: Byte, b: Byte, c: Byte, rest: seq<Byte>)
    requires Regroup(Split(rest)) == Some(rest)
    ensures Regroup(FourSextets(a, b, c) + Split(rest)) == Some([a, b, c] + rest)
  {
    ThreeOfFour(a, b, c);
    assert (FourSextets(a, b, c) + Split(rest))[4..] == Split(rest);
  }

  lemma ThreeOfFour(a: Byte, b: Byte, c: Byte)
    ensures var s := FourSextets(a, b, c); ThreeBytes(s[0], s[1], s[2], s[3]) == [a, b, c]
  {
  }

  /** Four sextets and three bytes are one 24-bit group, most significant first. */
  lemma GroupMeaning(a: Sextet, b: Sextet, c: Sextet, d: Sextet)
    ensures var x := ThreeBytes(a, b, c, d);
            |x| == 3
            && x[0] as int * 65536 + x[1] as int * 256 + x[2] as int
               == a as int * 262144 + b as int * 4096 + c as int * 64 + d as int
  {
  }

  /** Line breaks inside a text do not count. */
  lemma {:induction false} LineBreaksVanish(s: string, t: string)
    ensures Sextets(s + "\n" + t) == Sextets(s + t) && Sextets(s + "\r" + t) == Sextets(s + t)
  {
    if s == "" {
      assert s + "\n" + t == "\n" + t && s + "\r" + t == "\r" + t && s + t == t;
    } else {
      LineBreaksVanish(s[1..], t);
      assert (s + "\n" + t)[1..] == s[1..] + "\n" + t && (s + "\r" + t)[1..] == s[1..] + "\r" + t;
      assert (s + t)[1..] == s[1..] + t;
    }
  }

  lemma DecodeEncode(bytes: seq<Byte>)
    ensures Decode(Encode(bytes)) == Some(bytes)
  {
    SextetsOfLetters(Split(bytes));
    RegroupSplit(bytes);
  }

  // ---- big-endian integers ----

  function BigEndian(bytes: seq<Byte>): nat {
    if bytes == [] then 0 else BigEndian(bytes[..|bytes| - 1]) * 256 + bytes[|bytes| - 1]
  }

  /** The shortest big-endian form. */
  function ToBytes(n: nat): seq<Byte> {
    if n == 0 then [] else ToBytes(n / 256) + [n % 256]
  }

  lemma {:induction false} BigEndianToBytes(n: nat)
    ensures BigEndian(ToBytes(n)) == n
  {
    if n > 0 {
      BigEndianToBytes(n / 256);
      assert ToBytes(n)[..|ToBytes(n)| - 1] == ToBytes(n / 256);
    }
  }

  /** The first byte weighs most. */
  lemma {:induction false} BigEndianMeaning(first: Byte, rest: seq<Byte>)
    ensures BigEndian([first] + rest) == first * Weight(|rest|) + BigEndian(rest)
  {
    if rest == [] {
      assert [first] + rest == [first] && [first][..0] == [];
    } else {
      var n := |rest| - 1;
      assert ([first] + rest)[..n + 1] == [first] + rest[..n];
      BigEndianMeaning(first, rest[..n]);
      assert first * Weight(n) * 256 == first * Weight(n + 1);
    }
  }

  function Weight(n: nat): nat {
    if n == 0 then 1 else Weight(n - 1) * 256
  }

  /** The exponent of the example in section 3 of RFC 7517. */
  lemma UsualExponent()
    ensures Decode("AQAB") == Some([1, 0, 1]) && BigEndian([1, 0, 1]) == 65537
  {
    var s := "AQAB";
    assert s[1..] == "QAB" && s[2..] == "AB" && s[3..] == "B" && s[1..][1..] == s[2..] && s[2..][1..] == s[3..];
    assert s[3..][1..] == "";
    assert [1] + [] == [1];
    assert SextetValue('B') == Some(1);
    assert Sextets("") == Some([]);
    assert Sextets("B") == Some([1]);
    assert Sextets("AB") == Some([0] + [1]);
    assert Sextets("QAB") == Some([16] + ([0] + [1]));
    assert Sextets(s) == Some([0] + ([16] + ([0] + [1])));
    assert [0] + ([16] + ([0] + [1])) == [0, 16, 0, 1];
    assert [0, 16, 0, 1][4..] == [];
    assert ThreeBytes(0, 16, 0, 1) + [] == [1, 0, 1];
    assert [1, 0, 1][..2] == [1, 0] && [1, 0][..1] == [1] && [1][..0] == [];
  }

  lemma ToBytesLength(n: nat)
    requires 0 < n < 0x1_0000_0000
    ensures 1 <= |ToBytes(n)| <= 4
  {
    assert n / 256 / 256 / 256 / 256 == 0;
    assert |ToBytes(n / 256 / 256 / 256)| <= 1;
    assert |ToBytes(n / 256 / 256)| <= 2;
    assert |ToBytes(n / 256)| <= 3;
  }

  lemma FourBytesBound(bytes: seq<Byte>)
    requires |bytes| <= 4
    ensures BigEndian(bytes) < 0x1_0000_0000
  {
    if |bytes| > 0 { assert BigEndian(bytes[..|bytes| - 1]) < 0x100_0000 by { ThreeBytesBound(bytes[..|bytes| - 1]); } }
  }

  lemma ThreeBytesBound(bytes: seq<Byte>)
    requires |bytes| <= 3
    ensures BigEndian(bytes) < 0x100_0000
  {
    if |bytes| > 0 {
      var b := bytes[..|bytes| - 1];
      if |b| > 0 {
        var c := b[..|b| - 1];
        assert |c| > 0 ==> BigEndian(c[..|c| - 1]) == 0;
      }
    }
  }

  // ---- parseRSAJWK ----

  datatype Jwk = Jwk(kid: string, kty: string, alg: string, use: string, n: string, e: string)

  datatype PublicKey = PublicKey(n: nat, e: nat)

  const MIN_MODULUS_BITS: nat := 1024

  function KeyOf(k: Jwk): Option<PublicKey> {
    if k.n == "" || k.e == "" then None
    else
      match (Decode(k.n), Decode(k.e))
      case (Some(nb), Some(eb)) =>
        if |eb| == 0 || |eb| > 4 then None
        else if BigEndian(eb) < 3 || BigEndian(eb) % 2 == 0 then None
        else if BitLen(BigEndian(nb)) < MIN_MODULUS_BITS then None
        else Some(PublicKey(BigEndian(nb), BigEndian(eb)))
      case _ => None
  }

  method ParseRSAJWK(k: Jwk) returns (pub: Option<PublicKey>)
    ensures pub == KeyOf(k)
  {
    if k.n == "" || k.e == "" {
      return None;
    }
    var nb := Decode(k.n);
    if nb.None? {
      return None;
    }
    var eb := Decode(k.e);
    if eb.None? {
      return None;
    }
    if |eb.value| == 0 || |eb.value| > 4 {
      return None;
    }
    var e: nat := 0;
    for i := 0 to |eb.value|
      invariant e == BigEndian(eb.value[..i])
    {
      assert eb.value[..i + 1][..i] == eb.value[..i];
      e := e * 256 + eb.value[i];  // e<<8 | b: the low byte of the shifted value is clear
    }
    assert eb.value[..|eb.value|] == eb.value;
    if e < 3 || e % 2 == 0 {
      return None;
    }
    var n := BigEndian(nb.value);
    if n == 0 || BitLen(n) < MIN_MODULUS_BITS {
      return None;
    }
    pub := Some(PublicKey(n, e));
  }

  /** Every key with a modulus of at least 1024 bits and an odd exponent in [3, 2^32) survives its
      encoding. */
  lemma KeyRoundTrip(k: Jwk, n: nat, e: nat)
    requires n >= Pow2(MIN_MODULUS_BITS - 1)
    requires 3 <= e < 0x1_0000_0000 && e % 2 == 1
    requires k.n == Encode(ToBytes(n)) && k.e == Encode(ToBytes(e))
    ensures KeyOf(k) == Some(PublicKey(n, e))
  {
    BitLenMeaning(n, MIN_MODULUS_BITS - 1);
    BigEndianToBytes(n);
    BigEndianToBytes(e);
    ToBytesLength(e);
    DecodeEncode(ToBytes(n));
    DecodeEncode(ToBytes(e));
  }

  /** What is accepted, exactly: both texts decode, the exponent has one to four bytes, and the
      numbers they denote are in bounds; then those numbers are the key. */
  lemma AcceptedKey(k: Jwk, pub: PublicKey)
    ensures KeyOf(k) == Some(pub) <==>
            && k.n != "" && k.e != ""
            && Decode(k.n).Some? && Decode(k.e).Some?
            && 1 <= |Decode(k.e).value| <= 4
            && pub.n == BigEndian(Decode(k.n).value) && pub.e == BigEndian(Decode(k.e).value)
            && pub.n >= Pow2(MIN_MODULUS_BITS - 1)
            && 3 <= pub.e < 0x1_0000_0000 && pub.e % 2 == 1
    ensures MIN_MODULUS_BITS == 1024
  {
    BitLenMeaning(pub.n, MIN_MODULUS_BITS - 1);
    if Decode(k.e).Some? && |Decode(k.e).value| <= 4 {
      FourBytesBound(Decode(k.e).value);
    }
  }
}
