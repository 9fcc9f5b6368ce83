/** The value stamped into X-User-Id: a positive int64 in decimal (jwt.go). */
module UserId {
  import opened Text
  import opened Decimal
  import opened Bits

  const TWO63 := 0x8000_0000_0000_0000
  const TWO64 := 0x1_0000_0000_0000_0000

  // FNV-1a 64 parameters, and the inverse of the prime modulo 2^64.
  const OFFSET64 := 14695981039346656037
  const PRIME64 := 1099511628211
  const INVERSE64 := 14886173955864302971

  /** One FNV-1a step in uint64 arithmetic. */
  function Absorb(h: nat, c: char): nat {
    Xor(h, c as int) * PRIME64 % TWO64
  }

  function Fnv(h: nat, sub: string): nat {
    if sub == "" then h else Absorb(Fnv(h, sub[..|sub| - 1]), sub[|sub| - 1])
  }

  /** The subject's hash with the top bit cleared. */
  function MaskedHash(sub: string): nat {
    Fnv(OFFSET64, sub) % TWO63
  }

  function DerivedId(sub: string): nat {
    if MaskedHash(sub) == 0 then 1 else MaskedHash(sub)
  }

  method DeriveUserID(sub: string) returns (h: nat)
    ensures h == DerivedId(sub)
  {
    h := OFFSET64;
    for i := 0 to |sub|
      invariant h == Fnv(OFFSET64, sub[..i])
    {
      assert sub[..i + 1][..i] == sub[..i];
      h := Xor(h, sub[i] as int);
      h := h * PRIME64 % TWO64;
    }
    assert sub[..|sub|] == sub;
    h := h % TWO63;
    if h == 0 {
      h := 1;
    }
  }

  predicate IsPositiveInt(s: string) {
    && s != ""
    && |s| <= 19
    && AllDigits(s)
    && Parse(s).Some?
    && Parse(s).value > 0
  }

  function NumericUserID(claim: string, sub: string): string {
    if IsPositiveInt(claim) then claim else Print(DerivedId(sub))
  }

  // ---- X-User-Id is always a positive int64 ----

  /** A number of at most 19 digits prints in at most 19 characters. */
  lemma {:induction false} PrintLength(n: nat, k: nat)
    requires k >= 1 && n < Pow10(k)
    ensures |PrintNat(n)| <= k
  {
    if n >= 10 {
      PrintLength(n / 10, k - 1);
    }
  }

  lemma Pow10Of19()
    ensures Pow10(19) == 10_000_000_000_000_000_000
  {
    assert Pow10(6) == 1_000_000;
    assert Pow10(12) == 1_000_000_000_000;
    assert Pow10(18) == 1_000_000_000_000_000_000;
  }

  /** isPositiveInt accepts exactly the printed forms of [1, 2^63-1], leading zeros allowed. */
  lemma PositiveIntMeaning(s: string)
    ensures IsPositiveInt(s) <==>
            s != "" && |s| <= 19 && AllDigits(s) && 1 <= ValueOf(s) < TWO63
  {
    if s != "" && AllDigits(s) {
      assert IsDigit(s[0]);
    }
  }

  lemma PrintedIsPositiveInt(n: nat)
    requires 1 <= n < TWO63
    ensures IsPositiveInt(Print(n)) && ValueOf(PrintNat(n)) == n
  {
    Pow10Of19();
    PrintLength(n, 19);
    PrintNatValue(n);
    PositiveIntMeaning(PrintNat(n));
  }

  /** Whatever the claim and subject, the stamped id is digits with a value in [1, 2^63-1], so
      the id check accepts its own output and deriving twice changes nothing. */
  lemma NumericUserIDIsPositive(claim: string, sub: string, otherSub: string)
    ensures var id := NumericUserID(claim, sub);
            && IsPositiveInt(id) && AllDigits(id) && 1 <= ValueOf(id) < TWO63
            && NumericUserID(id, otherSub) == id
  {
    if !IsPositiveInt(claim) {
      PrintedIsPositiveInt(DerivedId(sub));
    }
    PositiveIntMeaning(NumericUserID(claim, sub));
  }

  // ---- one changed byte changes the id ----

  lemma Pow2Of63()
    ensures Pow2(63) == TWO63
  {
    assert Pow2(8) == 0x100;
    assert Pow2(16) == 0x1_0000;
    assert Pow2(24) == 0x100_0000;
    assert Pow2(32) == 0x1_0000_0000;
    assert Pow2(40) == 0x100_0000_0000;
    assert Pow2(48) == 0x1_0000_0000_0000;
    assert Pow2(56) == 0x100_0000_0000_0000;
  }

  /** The same step on 63 bits. */
  function Absorb63(h: nat, c: char): nat {
    Xor(h, c as int) * PRIME64 % TWO63
  }

  /** Clearing the top bit commutes with a step. */
  lemma MaskCommutes(h: nat, c: char)
    ensures Absorb(h, c) % TWO63 == Absorb63(h % TWO63, c)
  {
    var low, top := h % TWO63, h / TWO63;
    Pow2Of63();
    XorHighBits(63, low, top, c as int);
    var x := Xor(low, c as int);
    assert h == low + top * TWO63;
    assert Xor(h, c as int) == x + top * TWO63;
    HighPartVanishes(x * PRIME64, top * PRIME64);
  }

  lemma HighPartVanishes(y: nat, m: nat)
    ensures (y + m * TWO63) % TWO64 % TWO63 == y % TWO63
  {
    var z := y + m * TWO63;
    var k := z / TWO64;
    assert z % TWO64 == y + (m - 2 * k) * TWO63;
    assert y == (y / TWO63) * TWO63 + y % TWO63;
  }

  /** Multiplication by the FNV prime is a bijection modulo 2^63. */
  lemma PrimeIsInvertible(x: nat, y: nat)
    requires x < TWO63 && y < TWO63
    requires x * PRIME64 % TWO63 == y * PRIME64 % TWO63
    ensures x == y
  {
    var d: int := x - y;
    var q: int := x * PRIME64 / TWO63 - y * PRIME64 / TWO63;
    assert d * PRIME64 == q * TWO63;
    var k := (PRIME64 * INVERSE64 - 1) / TWO63;
    assert PRIME64 * INVERSE64 == 1 + k * TWO63;
    assert d * PRIME64 * INVERSE64 == q * TWO63 * INVERSE64;
    assert d == TWO63 * (q * INVERSE64 - d * k);
  }

  /** A 63-bit step is injective in the state for one byte, and in the byte for one state. */
  lemma Absorb63Injective(g: nat, h: nat, c: char, d: char)
    requires g < TWO63 && h < TWO63
    requires Absorb63(g, c) == Absorb63(h, d)
    ensures c == d ==> g == h
    ensures g == h ==> c == d
  {
    Pow2Of63();
    XorHighBits(63, g, 0, c as int);
    XorHighBits(63, h, 0, d as int);
    PrimeIsInvertible(Xor(g, c as int), Xor(h, d as int));
    XorInvolution(g, c as int);
    XorInvolution(h, d as int);
    XorCommutes(g, c as int);
    XorCommutes(h, d as int);
    XorInvolution(c as int, g);
    XorInvolution(d as int, h);
  }

  /** Subjects of one length that differ in exactly one place hash differently in 63 bits. */
  lemma {:induction false} OneByteChangesHash(h: nat, s: string, t: string, i: nat)
    requires |s| == |t| && i < |s| && s[i] != t[i]
    requires forall j :: 0 <= j < |s| && j != i ==> s[j] == t[j]
    ensures Fnv(h, s) % TWO63 != Fnv(h, t) % TWO63
  {
    var n := |s| - 1;
    var g1, g2 := Fnv(h, s[..n]), Fnv(h, t[..n]);
    MaskCommutes(g1, s[n]);
    MaskCommutes(g2, t[n]);
    if i < n {
      OneByteChangesHash(h, s[..n], t[..n], i);
    } else {
      assert s[..n] == t[..n];
    }
    if Absorb63(g1 % TWO63, s[n]) == Absorb63(g2 % TWO63, t[n]) {
      Absorb63Injective(g1 % TWO63, g2 % TWO63, s[n], t[n]);
    }
  }

  /** Such subjects share a user id only through the fold of 0 to 1. */
  lemma OneByteChangesUserId(s: string, t: string, i: nat)
    requires |s| == |t| && i < |s| && s[i] != t[i]
    requires forall j :: 0 <= j < |s| && j != i ==> s[j] == t[j]
    ensures DerivedId(s) == DerivedId(t) <==> {MaskedHash(s), MaskedHash(t)} == {0, 1}
  {
    OneByteChangesHash(OFFSET64, s, t, i);
    var a, b := MaskedHash(s), MaskedHash(t);
    assert a in {a, b} && b in {a, b};
    if {a, b} == {0, 1} {
      assert a in {0, 1} && b in {0, 1};
    }
  }
}
