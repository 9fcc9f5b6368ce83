/** The test vector that the repository and its website share, computed step by step (jwt.go): it
    pins the hash down to its constants. */
module UserIdVector {
  import opened Decimal
  import opened Bits
  import opened UserId

  /** What flipping bit `k` of a number adds, where `half` is the number divided by 2^k and `bit` is
      2^k. */
  function Flip(half: nat, bit: int): int {
    if half % 2 == 0 then bit else -bit
  }

  /** What the higher bits add is doubled, and a set lowest bit of `c` flips that of `a`. */
  lemma XorLift(a: nat, c: nat, added: int)
    requires Xor(a / 2, c / 2) == a / 2 + added
    ensures Xor(a, c) == a + 2 * added + (if c % 2 == 1 then Flip(a, 1) else 0)
  {
    XorBits(a, c);
  }

  lemma FlipScales(half: nat)
    ensures Flip(half, 4) == 4 * Flip(half, 1) && Flip(half, 8) == 8 * Flip(half, 1)
    ensures Flip(half, 16) == 16 * Flip(half, 1) && Flip(half, 32) == 32 * Flip(half, 1)
  {
  }

  lemma Halves(b: nat)
    ensures b / 2 / 2 == b / 4 && b / 4 / 2 == b / 8 && b / 8 / 2 == b / 16
    ensures b / 16 / 2 == b / 32 && b / 32 / 2 == b / 64
  {
  }

  /** Exclusive or with '0' flips bits 4 and 5. */
  lemma XorZeroChar(b: nat)
    ensures Xor(b, 48) == b + Flip(b / 16, 16) + Flip(b / 32, 32)
  {
    hide Xor;
    hide Flip;
    Halves(b);
    FlipScales(b / 4);
    FlipScales(b / 8);
    FlipScales(b / 16);
    FlipScales(b / 32);
    XorZero(b / 64);
    XorLift(b / 32, 1, 0);
    var f5 := Flip(b / 32, 1);
    XorLift(b / 16, 3, f5);
    var f4 := 2 * f5 + Flip(b / 16, 1);
    XorLift(b / 8, 6, f4);
    XorLift(b / 4, 12, 2 * f4);
    XorLift(b / 2, 24, 4 * f4);
    XorLift(b, 48, 8 * f4);
  }

  /** Exclusive or with '-' flips bits 0, 2, 3 and 5. */
  lemma XorDashChar(b: nat)
    ensures Xor(b, 45) == b + Flip(b, 1) + Flip(b / 4, 4) + Flip(b / 8, 8) + Flip(b / 32, 32)
  {
    hide Xor;
    hide Flip;
    Halves(b);
    FlipScales(b / 4);
    FlipScales(b / 8);
    FlipScales(b / 16);
    FlipScales(b / 32);
    XorZero(b / 64);
    XorLift(b / 32, 1, 0);
    var f5 := Flip(b / 32, 1);
    XorLift(b / 16, 2, f5);
    XorLift(b / 8, 5, 2 * f5);
    var f3 := 4 * f5 + Flip(b / 8, 1);
    XorLift(b / 4, 11, f3);
    var f2 := 2 * f3 + Flip(b / 4, 1);
    XorLift(b / 2, 22, f2);
    XorLift(b, 45, 2 * f2);
  }

  lemma ModBack(y: nat, q: nat, next: nat)
    requires y == q * TWO64 + next && next < TWO64
    ensures y % TWO64 == next
  {
  }

  /** A step changes the lowest byte and multiplies. */
  lemma Step(h: nat, b: nat, c: char, x: nat, q: nat, next: nat)
    requires b == h % 256 && c as int < 256 && x == Xor(b, c as int)
    requires (h - b + x) * PRIME64 == q * TWO64 + next && next < TWO64
    ensures Absorb(h, c) == next
  {
    hide Xor;
    assert Pow2(8) == 256;
    XorHighBits(8, b, h / 256, c as int);
    assert h == b + h / 256 * 256;
    ModBack((h - b + x) * PRIME64, q, next);
  }

  lemma FnvGrows(s: string, c: char)
    ensures Fnv(OFFSET64, s + [c]) == Absorb(Fnv(OFFSET64, s), c)
  {
    assert (s + [c])[..|s|] == s;
  }

  lemma Zero(s: string, h: nat, b: nat, x: nat, q: nat, next: nat) returns (t: string)
    requires Fnv(OFFSET64, s) == h && b == h % 256 && x == b + Flip(b / 16, 16) + Flip(b / 32, 32)
    requires (h - b + x) * PRIME64 == q * TWO64 + next && next < TWO64
    ensures t == s + "0" && Fnv(OFFSET64, t) == next
  {
    hide Xor;
    hide Fnv;
    hide Absorb;
    XorZeroChar(b);
    Step(h, b, '0', x, q, next);
    FnvGrows(s, '0');
    t := s + ['0'];
  }

  lemma Dash(s: string, h: nat, b: nat, x: nat, q: nat, next: nat) returns (t: string)
    requires Fnv(OFFSET64, s) == h && b == h % 256
    requires x == b + Flip(b, 1) + Flip(b / 4, 4) + Flip(b / 8, 8) + Flip(b / 32, 32)
    requires (h - b + x) * PRIME64 == q * TWO64 + next && next < TWO64
    ensures t == s + "-" && Fnv(OFFSET64, t) == next
  {
    hide Xor;
    hide Fnv;
    hide Absorb;
    XorDashChar(b);
    Step(h, b, '-', x, q, next);
    FnvGrows(s, '-');
    t := s + ['-'];
  }

  lemma Group1(s: string) returns (t: string)
    requires Fnv(OFFSET64, s) == 14695981039346656037
    ensures t == s + "00000000" && Fnv(OFFSET64, t) == 6624164155082563909
  {
    hide Fnv;
    t := s;
    t := Zero(t, 14695981039346656037, 37, 21, 875948729822, 12638135523509116079);
    t := Zero(t, 12638135523509116079, 175, 159, 753291578800, 575361273772712493);
    t := Zero(t, 575361273772712493, 45, 29, 34294204354, 5656224367409952583);
    t := Zero(t, 5656224367409952583, 71, 119, 337137244322, 14027822208731348789);
    t := Zero(t, 14027822208731348789, 53, 5, 836123360054, 10389413651309385087);
    t := Zero(t, 10389413651309385087, 127, 79, 619257310355, 16359755138809951549);
    t := Zero(t, 16359755138809951549, 61, 13, 975117394046, 17051979661405316375);
    t := Zero(t, 17051979661405316375, 23, 39, 1016377190837, 6624164155082563909);
  }

  lemma Group2(s: string) returns (t: string)
    requires Fnv(OFFSET64, s) == 6624164155082563909
    ensures t == s + "-0000" && Fnv(OFFSET64, t) == 6521065322603793976
  {
    hide Fnv;
    t := s;
    t := Dash(t, 6624164155082563909, 69, 104, 394830951553, 14367158113712964536);
    t := Zero(t, 14367158113712964536, 184, 136, 856349356138, 9779331318224551960);
    t := Zero(t, 9779331318224551960, 24, 40, 582893569594, 4376530224326231032);
    t := Zero(t, 4376530224326231032, 248, 200, 260861529472, 17161770409627462872);
    t := Zero(t, 17161770409627462872, 216, 232, 1022921229387, 6521065322603793976);
  }

  lemma Group3(s: string) returns (t: string)
    requires Fnv(OFFSET64, s) == 6521065322603793976
    ensures t == s + "-0000" && Fnv(OFFSET64, t) == 17346018619830302335
  {
    hide Fnv;
    t := s;
    t := Dash(t, 6521065322603793976, 56, 21, 388685782264, 12784311921201130927);
    t := Zero(t, 12784311921201130927, 175, 159, 762004371062, 8430330356065994029);
    t := Zero(t, 8430330356065994029, 45, 29, 502486846411, 5624531909139050567);
    t := Zero(t, 5624531909139050567, 71, 119, 335248226604, 13228013861388507701);
    t := Zero(t, 13228013861388507701, 53, 5, 788451067603, 17346018619830302335);
  }

  lemma Group4(s: string) returns (t: string)
    requires Fnv(OFFSET64, s) == 17346018619830302335
    ensures t == s + "-0000" && Fnv(OFFSET64, t) == 4034808606297871030
  {
    hide Fnv;
    t := s;
    t := Dash(t, 17346018619830302335, 127, 82, 1033903278511, 6273426036043779414);
    t := Zero(t, 6273426036043779414, 86, 102, 373925330551, 231097178653279314);
    t := Zero(t, 231097178653279314, 82, 98, 13774465247, 12420083256346489478);
    t := Zero(t, 12420083256346489478, 134, 182, 740294650868, 3547026702772415298);
    t := Zero(t, 3547026702772415298, 66, 114, 211419266711, 4034808606297871030);
  }

  lemma Group5(s: string) returns (t: string)
    requires Fnv(OFFSET64, s) == 4034808606297871030
    ensures t == s + "-000000" && Fnv(OFFSET64, t) == 17127524237453351545
  {
    hide Fnv;
    t := s;
    t := Dash(t, 4034808606297871030, 182, 155, 240493333810, 4057373599260728673);
    t := Zero(t, 4057373599260728673, 97, 81, 241838312200, 12218835736114827427);
    t := Zero(t, 12218835736114827427, 163, 147, 728299363908, 2031514051170216393);
    t := Zero(t, 2031514051170216393, 201, 249, 121087673424, 2239878645512163867);
    t := Zero(t, 2239878645512163867, 27, 43, 133507171058, 10239730797405773585);
    t := Zero(t, 10239730797405773585, 17, 33, 610335517016, 8590308318652359955);
    t := Zero(t, 8590308318652359955, 19, 35, 512022276046, 17127524237453351545);
  }

  lemma Group6(s: string) returns (t: string)
    requires Fnv(OFFSET64, s) == 17127524237453351545
    ensures t == s + "000000" && Fnv(OFFSET64, t) == 8950988243607919089
  {
    hide Fnv;
    t := s;
    t := Zero(t, 17127524237453351545, 121, 73, 1020879998459, 3526256469703322123);
    t := Zero(t, 3526256469703322123, 11, 59, 210181264346, 13716375324477882945);
    t := Zero(t, 13716375324477882945, 65, 113, 817559679144, 16396068066709218819);
    t := Zero(t, 16396068066709218819, 3, 51, 977281813215, 17909986590017251497);
    t := Zero(t, 17909986590017251497, 169, 153, 1067518389052, 6095407595797822459);
    t := Zero(t, 6095407595797822459, 251, 203, 363314604652, 8950988243607919089);
  }

  /** The vector that the website's derivation shares: the nil UUID. */
  lemma SharedVector(sub: string, claim: string)
    requires sub == "00000000-0000-0000-0000-000000000000" && !IsPositiveInt(claim)
    ensures DerivedId(sub) == 8950988243607919089 && NumericUserID(claim, sub) == Print(8950988243607919089)
  {
    hide Fnv;
    FnvOfNothing();
    var s := Group1("");
    s := Group2(s);
    s := Group3(s);
    s := Group4(s);
    s := Group5(s);
    s := Group6(s);
    assert s == sub;
  }

  lemma FnvOfNothing()
    ensures Fnv(OFFSET64, "") == 14695981039346656037
  {
  }
}
