/** The worker's `fnv1aHash`: 32-bit FNV-1a run over UTF-16 code units.

    The specification side works on unsigned 32-bit values: one round XORs a
    code unit into the accumulator and multiplies by the FNV prime modulo 2^32.
    The method `HashCodeUnits` follows the source's loop on JavaScript numbers:
    `^` and `<<` convert their operands with ToInt32 and give a signed 32-bit
    result, `+` is exact on these magnitudes, and `>>> 0` applies ToUint32. */
module Fnv {
  import opened JsStrings

  const Modulus: int := 0x1_0000_0000

  type Uint32 = n: int | 0 <= n < 0x1_0000_0000

  /** `hash.BASE`, the FNV-1a offset basis. */
  const Base: Uint32 := 0x811c9dc5

  /** The 32-bit FNV prime, 16777619 = 2^24 + 2^8 + 2^7 + 2^4 + 2^1 + 2^0. */
  const Prime: int := 0x0100_0193

  /** Bitwise XOR of naturals, lowest bit first. */
  function BitXor(a: nat, b: nat): nat
    decreases a + b
  {
    if a == 0 then b
    else if b == 0 then a
    else 2 * BitXor(a / 2, b / 2) + (if a % 2 == b % 2 then 0 else 1)
  }

  /** XOR of two k-bit values is a k-bit value. */
  lemma {:induction false} BitXorBelow(a: nat, b: nat, k: nat)
    requires a < Pow2(k) && b < Pow2(k)
    ensures BitXor(a, b) < Pow2(k)
    decreases a + b
  {
    if a != 0 && b != 0 {
      BitXorBelow(a / 2, b / 2, k - 1);
    }
  }

  lemma Pow2Is32()
    ensures Pow2(16) == 0x1_0000 && Pow2(32) == Modulus
  {
    assert Pow2(4) == 16 && Pow2(8) == 256 && Pow2(12) == 0x1000;
    assert Pow2(16) == 0x1_0000 && Pow2(20) == 0x10_0000 && Pow2(24) == 0x100_0000;
    assert Pow2(28) == 0x1000_0000;
  }

  /** `h ^ c` on a 32-bit value and a code unit. */
  function Xor(h: Uint32, c: CodeUnit): Uint32 {
    Pow2Is32();
    BitXorBelow(h, c, 32);
    BitXor(h, c)
  }

  /** One FNV-1a round: XOR the code unit in, then multiply by the prime modulo 2^32. */
  function Step(h: Uint32, c: CodeUnit): Uint32 {
    Xor(h, c) * Prime % Modulus
  }

  /** The hash of `s`: one round per code unit, the last code unit's round last. */
  function Hash(s: JsString): Uint32 {
    if s == [] then Base else Step(Hash(s[..|s| - 1]), s[|s| - 1])
  }

  /** Left fold of `Step` over `s`, starting from accumulator `h`. */
  function Fold(h: Uint32, s: JsString): Uint32
    decreases |s|
  {
    if s == [] then h else Fold(Step(h, s[0]), s[1..])
  }

  /** The hash of the empty string is the offset basis. */
  lemma HashEmpty()
    ensures Hash([]) == 0x811c9dc5
  {
  }

  /** Appending one code unit performs exactly one more FNV-1a round. */
  lemma HashSnoc(s: JsString, c: CodeUnit)
    ensures Hash(s + [c]) == Xor(Hash(s), c) * 16777619 % 0x1_0000_0000
  {
    assert (s + [c])[..|s|] == s;
  }

  lemma {:induction false} FoldSnoc(h: Uint32, s: JsString, c: CodeUnit)
    ensures Fold(h, s + [c]) == Step(Fold(h, s), c)
    decreases |s|
  {
    if s == [] {
      assert [] + [c] == [c];
    } else {
      assert (s + [c])[1..] == s[1..] + [c];
      FoldSnoc(Step(h, s[0]), s[1..], c);
    }
  }

  /** The hash is the left fold of the FNV-1a round over the code units,
      starting from the offset basis. */
  lemma {:induction false} HashIsLeftFold(s: JsString)
    ensures Hash(s) == Fold(Base, s)
    decreases |s|
  {
    if s != [] {
      var init, last := s[..|s| - 1], s[|s| - 1];
      HashIsLeftFold(init);
      FoldSnoc(Base, init, last);
      assert init + [last] == s;
    }
  }

  /** Hashing a concatenation continues from the state the first part left. */
  lemma {:induction false} FoldAppend(h: Uint32, s: JsString, t: JsString)
    ensures Fold(h, s + t) == Fold(Fold(h, s), t)
    decreases |s|
  {
    if s == [] {
      assert [] + t == t;
    } else {
      assert (s + t)[1..] == s[1..] + t;
      FoldAppend(Step(h, s[0]), s[1..], t);
    }
  }

  // JavaScript number conversions used by the bitwise operators.

  /** ToInt32: the signed 32-bit value congruent to `n` modulo 2^32. */
  function ToInt32(n: int): (r: int)
    ensures -0x8000_0000 <= r < 0x8000_0000
  {
    var m := n % Modulus;
    if m >= 0x8000_0000 then m - Modulus else m
  }

  /** ToUint32, which `>>> 0` applies. */
  function ToUint32(n: int): Uint32 {
    n % Modulus
  }

  /** `x << k` for an int32 `x` and a shift count below 32. */
  function ShiftLeft(x: int, k: nat): int
    requires k < 32
  {
    ToInt32(x * Pow2(k))
  }

  function Pow2(k: nat): nat {
    if k == 0 then 1 else 2 * Pow2(k - 1)
  }

  /** ToInt32 changes its argument by a multiple of 2^32. */
  lemma ToInt32Offset(n: int) returns (q: int)
    ensures ToInt32(n) == n + Modulus * q
  {
    if n % Modulus >= 0x8000_0000 {
      q := -(n / Modulus) - 1;
    } else {
      q := -(n / Modulus);
    }
  }

  lemma ModOffset(a: int, q: int)
    ensures (a + Modulus * q) % Modulus == a % Modulus
  {
  }

  /** The source's mixing line: for the int32 `x` that `h ^= c` leaves, the new
      `h` is congruent to `x * Prime` modulo 2^32, so one loop pass is one `Step`. */
  lemma ShiftSumIsStep(h: Uint32, c: CodeUnit)
    ensures var x := ToInt32(Xor(h, c));
      ToUint32(x + (ShiftLeft(x, 1) + ShiftLeft(x, 4) + ShiftLeft(x, 7) + ShiftLeft(x, 8) + ShiftLeft(x, 24)))
      == Step(h, c)
  {
    var u := Xor(h, c);
    var x := ToInt32(u);
    assert Pow2(1) == 2 && Pow2(4) == 16 && Pow2(7) == 128 && Pow2(8) == 256;
    assert Pow2(12) == 0x1000 && Pow2(16) == 0x1_0000 && Pow2(20) == 0x10_0000;
    assert Pow2(24) == 0x100_0000;
    var q0 := ToInt32Offset(u);
    var q1 := ToInt32Offset(x * 2);
    var q4 := ToInt32Offset(x * 16);
    var q7 := ToInt32Offset(x * 128);
    var q8 := ToInt32Offset(x * 256);
    var q24 := ToInt32Offset(x * 0x100_0000);
    var sum := x + (ShiftLeft(x, 1) + ShiftLeft(x, 4) + ShiftLeft(x, 7) + ShiftLeft(x, 8) + ShiftLeft(x, 24));
    assert sum == x * Prime + Modulus * (q1 + q4 + q7 + q8 + q24);
    assert x * Prime == u * Prime + Modulus * (q0 * Prime);
    ModOffset(u * Prime, q0 * Prime + q1 + q4 + q7 + q8 + q24);
  }

  /** `fnv1aHash(s)`: the loop of the source on JavaScript numbers, returning `h >>> 0`. */
  method HashCodeUnits(s: JsString) returns (n: Uint32)
    ensures n == Hash(s)
  {
    var h: int := Base;
    var i := 0;
    while i < |s|
      invariant 0 <= i <= |s|
      invariant ToUint32(h) == Hash(s[..i])
    {
      ShiftSumIsStep(ToUint32(h), s[i]);
      h := ToInt32(Xor(ToUint32(h), s[i]));
      h := h + (ShiftLeft(h, 1) + ShiftLeft(h, 4) + ShiftLeft(h, 7) + ShiftLeft(h, 8) + ShiftLeft(h, 24));
      HashSnoc(s[..i], s[i]);
      assert s[..i + 1] == s[..i] + [s[i]];
      i := i + 1;
    }
    assert s[..i] == s;
    n := ToUint32(h);
  }
}
