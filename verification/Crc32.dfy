/**
 * The little-endian CRC of lib/crc32.c: the bitwise form, the multiplication of
 * polynomials, the shift that appends zero bytes in logarithmic time, and the
 * table-driven form under the hypothesis that its tables are right.
 *
 * A u32 is its 32 bits, least significant first.  As in the source, bit i stands
 * for the power x^(31-i).
 */
module Crc32 {

  type Word = s: seq<bool> | |s| == 32 witness Zeros(32)

  function Zeros(n: nat): (r: seq<bool>)
    ensures |r| == n && forall i :: 0 <= i < n ==> !r[i]
  {
    if n == 0 then [] else Zeros(n - 1) + [false]
  }

  const ZERO: Word := Zeros(32)

  /** The polynomial 1. */
  const ONE: Word := Zeros(31) + [true]

  function XorBits(a: seq<bool>, b: seq<bool>): (r: seq<bool>)
    requires |a| == |b|
    ensures |r| == |a| && forall i :: 0 <= i < |a| ==> r[i] == (a[i] != b[i])
  {
    if a == [] then [] else [a[0] != b[0]] + XorBits(a[1..], b[1..])
  }

  function Xor(a: Word, b: Word): (r: Word)
    ensures forall i :: 0 <= i < 32 ==> r[i] == (a[i] != b[i])
  {
    XorBits(a, b)
  }

  /** c >> 1 */
  function Shr(c: Word): (r: Word)
    ensures forall i :: 0 <= i < 32 ==> r[i] == (i < 31 && c[i + 1])
  {
    c[1..] + [false]
  }

  /** c ? y : 0 */
  function If(c: bool, y: Word): Word
  {
    if c then y else ZERO
  }

  /** One bit of CRC: multiplication by x modulo the polynomial p. */
  function Step(c: Word, p: Word): Word
  {
    Xor(Shr(c), If(c[0], p))
  }

  function Steps(c: Word, p: Word, n: nat): Word
  {
    if n == 0 then c else Step(Steps(c, p, n - 1), p)
  }

  lemma Same(a: Word, b: Word)
    requires forall i :: 0 <= i < 32 ==> a[i] == b[i]
    ensures a == b
  {
  }

  lemma StepXor(a: Word, b: Word, p: Word)
    ensures Step(Xor(a, b), p) == Xor(Step(a, p), Step(b, p))
  {
    Same(Step(Xor(a, b), p), Xor(Step(a, p), Step(b, p)));
  }

  lemma {:induction false} StepsXor(a: Word, b: Word, p: Word, n: nat)
    ensures Steps(Xor(a, b), p, n) == Xor(Steps(a, p, n), Steps(b, p, n))
  {
    hide Step, Xor;
    if n > 0 {
      StepsXor(a, b, p, n - 1);
      StepXor(Steps(a, p, n - 1), Steps(b, p, n - 1), p);
    }
  }

  lemma {:induction false} StepsAdd(c: Word, p: Word, m: nat, n: nat)
    ensures Steps(Steps(c, p, m), p, n) == Steps(c, p, m + n)
  {
    hide Step;
    if n > 0 {
      StepsAdd(c, p, m, n - 1);
    }
  }

  // ----- multiplication -----

  /** The product after k turns of the loop of gf2_multiply. */
  ghost function Mul(x: Word, y: Word, p: Word, k: nat): Word
    requires k < 32
    decreases k
  {
    if k == 0 then If(x[0], y) else Xor(Step(Mul(x, y, p, k - 1), p), If(x[k], y))
  }

  lemma StepIf(c: bool, y: Word, p: Word)
    ensures If(c, Step(y, p)) == Step(If(c, y), p)
  {
    if !c {
      Same(ZERO, Step(ZERO, p));
    }
  }

  lemma {:induction false} MulStep(x: Word, y: Word, p: Word, k: nat)
    requires k < 32
    ensures Mul(x, Step(y, p), p, k) == Step(Mul(x, y, p, k), p)
    decreases k
  {
    StepIf(x[k], y, p);
    if k > 0 {
      MulStep(x, y, p, k - 1);
      StepXor(Step(Mul(x, y, p, k - 1), p), If(x[k], y), p);
    }
  }

  /** m holds the lowest k + 1 bits of x at its top. */
  ghost predicate Top(m: Word, x: Word, k: nat)
    requires k < 32
  {
    forall i :: 0 <= i < 32 ==> m[i] == (i + k >= 31 && x[i + k - 31])
  }

  lemma TopStep(m: Word, x: Word, p: Word, k: nat)
    requires 0 < k < 32 && Top(m, x, k - 1)
    ensures Top(Xor(Step(m, p), If(x[k], ONE)), x, k)
  {
    assert !m[0];
    var s := Step(m, p);
    assert forall i :: 0 <= i < 32 ==> s[i] == (i < 31 && m[i + 1]);
    var r := Xor(s, If(x[k], ONE));
    hide Step, Xor;
    assert forall i :: 0 <= i < 31 ==> r[i] == m[i + 1];
    assert r[31] == x[k];
  }

  /** Multiplying by 1 moves the bits of x in from the top. */
  lemma {:induction false} MulOne(x: Word, p: Word, k: nat)
    requires k < 32
    ensures Top(Mul(x, ONE, p, k), x, k)
    decreases k
  {
    if k > 0 {
      hide Step, Xor, Top;
      MulOne(x, p, k - 1);
      TopStep(Mul(x, ONE, p, k - 1), x, p, k);
    }
  }

  /** Multiplying by x^n is n steps. */
  lemma {:induction false} MulPower(x: Word, p: Word, n: nat)
    ensures Mul(x, Steps(ONE, p, n), p, 31) == Steps(x, p, n)
  {
    hide Step, Mul;
    if n == 0 {
      MulUnit(x, p);
    } else {
      MulPower(x, p, n - 1);
      MulStep(x, Steps(ONE, p, n - 1), p, 31);
    }
  }

  // The laws that make Mul the product of polynomials modulo p: it distributes over Xor, commutes,
  // associates, has ONE for its unit, and (MulPower) a factor x is one step.

  lemma XorSwap(a: Word, b: Word, c: Word, d: Word)
    ensures Xor(Xor(a, b), Xor(c, d)) == Xor(Xor(a, c), Xor(b, d))
  {
    Same(Xor(Xor(a, b), Xor(c, d)), Xor(Xor(a, c), Xor(b, d)));
  }

  lemma IfXor(c: bool, y: Word, z: Word)
    ensures If(c, Xor(y, z)) == Xor(If(c, y), If(c, z))
  {
    if !c {
      Same(ZERO, Xor(ZERO, ZERO));
    }
  }

  lemma {:induction false} MulXor(x: Word, y: Word, z: Word, p: Word, k: nat)
    requires k < 32
    ensures Mul(x, Xor(y, z), p, k) == Xor(Mul(x, y, p, k), Mul(x, z, p, k))
    decreases k
  {
    hide Step, Xor, If;
    IfXor(x[k], y, z);
    if k > 0 {
      MulXor(x, y, z, p, k - 1);
      var a, b := Mul(x, y, p, k - 1), Mul(x, z, p, k - 1);
      StepXor(a, b, p);
      XorSwap(Step(a, p), Step(b, p), If(x[k], y), If(x[k], z));
    }
  }

  lemma {:induction false} MulZero(x: Word, p: Word, k: nat)
    requires k < 32
    ensures Mul(x, ZERO, p, k) == ZERO
    decreases k
  {
    if k > 0 {
      MulZero(x, p, k - 1);
      Same(Xor(Step(ZERO, p), If(x[k], ZERO)), ZERO);
    }
  }

  /** ONE is the unit. */
  lemma MulUnit(x: Word, p: Word)
    ensures Mul(x, ONE, p, 31) == x
  {
    MulOne(x, p, 31);
    Same(Mul(x, ONE, p, 31), x);
  }

  lemma MulIf(c: bool, x: Word, y: Word, p: Word)
    ensures Mul(x, If(c, y), p, 31) == If(c, Mul(x, y, p, 31))
  {
    hide Mul, Xor, Step, Zeros;
    MulZero(x, p, 31);
  }

  /** After k turns the loop has multiplied y by the bits of x it has seen. */
  lemma {:induction false} MulSeen(x: Word, y: Word, p: Word, k: nat)
    requires k < 32
    ensures Mul(y, Mul(x, ONE, p, k), p, 31) == Mul(x, y, p, k)
    decreases k
  {
    hide Step, Xor, If, Mul;
    MulTurn(x, ONE, p, k);
    MulTurn(x, y, p, k);
    MulUnit(y, p);
    MulIf(x[k], y, ONE, p);
    if k > 0 {
      var seen := Mul(x, ONE, p, k - 1);
      MulSeen(x, y, p, k - 1);
      MulStep(y, seen, p, 31);
      MulXor(y, Step(seen, p), If(x[k], ONE), p, 31);
    }
  }

  lemma MulCommutes(x: Word, y: Word, p: Word)
    ensures Mul(x, y, p, 31) == Mul(y, x, p, 31)
  {
    hide Mul;
    MulSeen(x, y, p, 31);
    MulUnit(x, p);
  }

  lemma MulDistributes(x: Word, y: Word, z: Word, p: Word)
    ensures Mul(x, Xor(y, z), p, 31) == Xor(Mul(x, y, p, 31), Mul(x, z, p, 31))
    ensures Mul(Xor(y, z), x, p, 31) == Xor(Mul(y, x, p, 31), Mul(z, x, p, 31))
  {
    hide Mul, Xor;
    MulXor(x, y, z, p, 31);
    MulCommutes(x, Xor(y, z), p);
    MulCommutes(x, y, p);
    MulCommutes(x, z, p);
  }

  /** The definition of Mul, to be used where it is hidden. */
  lemma MulTurn(x: Word, y: Word, p: Word, k: nat)
    requires k < 32
    ensures k == 0 ==> Mul(x, y, p, k) == If(x[k], y)
    ensures k > 0 ==> Mul(x, y, p, k) == Xor(Step(Mul(x, y, p, k - 1), p), If(x[k], y))
  {
  }

  lemma {:induction false} MulPart(x: Word, y: Word, z: Word, p: Word, k: nat)
    requires k < 32
    ensures Mul(Mul(x, y, p, k), z, p, 31) == Mul(x, Mul(y, z, p, 31), p, k)
    decreases k
  {
    hide Step, Xor, If, Mul;
    var w := If(x[k], y);
    MulTurn(x, y, p, k);
    MulTurn(x, Mul(y, z, p, 31), p, k);
    MulCommutes(w, z, p);
    MulIf(x[k], z, y, p);
    MulCommutes(z, y, p);
    if k > 0 {
      var a := Mul(x, y, p, k - 1);
      MulPart(x, y, z, p, k - 1);
      MulCommutes(Step(a, p), z, p);
      MulStep(z, a, p, 31);
      MulCommutes(z, a, p);
      MulDistributes(z, Step(a, p), w, p);
    }
  }

  lemma MulAssociates(x: Word, y: Word, z: Word, p: Word)
    ensures Mul(Mul(x, y, p, 31), z, p, 31) == Mul(x, Mul(y, z, p, 31), p, 31)
  {
    MulPart(x, y, z, p, 31);
  }

  /** The polynomial itself is x^32. */
  lemma PolynomialIsPower(p: Word)
    ensures Steps(ONE, p, 32) == p
  {
    TopBitDown(p, 31);
    var c := Steps(ONE, p, 31);
    Same(Step(c, p), p);
  }

  lemma {:induction false} TopBitDown(p: Word, n: nat)
    requires n < 32
    ensures forall i :: 0 <= i < 32 ==> Steps(ONE, p, n)[i] == (i == 31 - n)
    decreases n
  {
    if n > 0 {
      TopBitDown(p, n - 1);
      var c := Steps(ONE, p, n - 1);
      forall i | 0 <= i < 32
        ensures Step(c, p)[i] == (i == 31 - n)
      {
        assert !c[0];
      }
    }
  }

  /** gf2_multiply */
  method Multiply(x: Word, y: Word, modulus: Word) returns (product: Word)
    ensures product == Mul(x, y, modulus, 31)
  {
    product := If(x[0], y);
    var rest := x;
    MulTurn(x, y, modulus, 0);
    hide Mul, Step, Xor, If, Shr, XorBits;
    for i := 0 to 31
      invariant product == Mul(x, y, modulus, i)
      invariant forall j :: 0 <= j < 32 ==> rest[j] == (j + i < 32 && x[j + i])
    {
      MulTurn(x, y, modulus, i + 1);
      product := Step(product, modulus);
      rest := Shr(rest);
      product := Xor(product, If(rest[0], y));
    }
  }

  /** The linear loop of crc32_generic_shift */
  method ShiftBits(crc: Word, n: nat, polynomial: Word) returns (r: Word)
    ensures r == Steps(crc, polynomial, n)
  {
    r := crc;
    for i := 0 to n
      invariant r == Steps(crc, polynomial, i)
    {
      r := Step(r, polynomial);
    }
  }

  /** The loop of crc32_generic_shift over the bits of len, with power running through x^32, x^64, ... */
  method ShiftWords(crc: Word, len: nat, polynomial: Word) returns (r: Word)
    requires len > 0
    ensures r == Steps(crc, polynomial, 32 * len)
  {
    StartPower(len, polynomial);
    hide Steps, Mul, Times, Step, Xor, Shr, If;
    var rest: nat, power := len, polynomial;
    r := crc;
    ghost var n: nat, e: nat := 0, 32;
    assert r == Steps(crc, polynomial, n) by {
      StepsZero(crc, polynomial);
    }
    while rest > 0
      invariant r == Steps(crc, polynomial, n) && (rest > 0 ==> power == Steps(ONE, polynomial, e))
      invariant n + Times(e, rest) == 32 * len
      decreases rest
    {
      Halve(e, rest);
      if rest % 2 == 1 {
        r := Advance(crc, r, power, polynomial, n, e);
        n := n + e;
      }
      rest := rest / 2;
      if rest > 0 {
        power := Advance(ONE, power, power, polynomial, e, e);
      }
      e := 2 * e;
    }
    TimesZero(e);
  }

  lemma StepsZero(c: Word, p: Word)
    ensures Steps(c, p, 0) == c
  {
  }

  lemma TimesZero(e: nat)
    ensures Times(e, 0) == 0
  {
  }

  lemma StartPower(len: nat, p: Word)
    ensures Steps(ONE, p, 32) == p && Times(32, len) == 32 * len
  {
    PolynomialIsPower(p);
  }

  /** crc32_generic_shift */
  method Shift(crc: Word, len: nat, polynomial: Word) returns (r: Word)
    ensures r == Steps(crc, polynomial, 8 * len)
  {
    hide Step, Steps;
    r := ShiftBits(crc, 8 * (len % 4), polynomial);
    var rest := len / 4;
    if rest == 0 {
      return;
    }
    StepsAdd(crc, polynomial, 8 * (len % 4), 32 * rest);
    r := ShiftWords(r, rest, polynomial);
  }

  /** c, which is c0 after n steps, times x^e */
  method Advance(ghost c0: Word, c: Word, power: Word, polynomial: Word, ghost n: nat, ghost e: nat) returns (r: Word)
    requires c == Steps(c0, polynomial, n) && power == Steps(ONE, polynomial, e)
    ensures r == Steps(c0, polynomial, n + e)
  {
    hide Step, Steps, Mul;
    MulPower(c, polynomial, e);
    StepsAdd(c0, polynomial, n, e);
    r := Multiply(c, power, polynomial);
  }

  ghost function Times(e: nat, n: nat): nat
  {
    e * n
  }

  lemma Halve(e: nat, n: nat)
    ensures Times(e, n) == (if n % 2 == 1 then e else 0) + Times(2 * e, n / 2)
    ensures n / 2 == 0 ==> Times(2 * e, n / 2) == 0
  {
    assert n == n % 2 + 2 * (n / 2);
  }

  // ----- the CRC of a buffer -----

  type Byte = s: seq<bool> | |s| == 8 witness Zeros(8)

  /** The byte as a u32. */
  function Widen(b: Byte): Word
  {
    b + Zeros(24)
  }

  function Crc(c: Word, buf: seq<Byte>, p: Word): Word
    decreases |buf|
  {
    if buf == [] then c else Crc(Steps(Xor(c, Widen(buf[0])), p, 8), buf[1..], p)
  }

  /** crc32_le_generic with CRC_LE_BITS == 1 */
  method Bitwise(crc: Word, buf: seq<Byte>, polynomial: Word) returns (r: Word)
    ensures r == Crc(crc, buf, polynomial)
  {
    r := crc;
    for i := 0 to |buf|
      invariant Crc(r, buf[i..], polynomial) == Crc(crc, buf, polynomial)
    {
      hide Step, Xor;
      assert buf[i..][1..] == buf[i + 1..];
      r := ShiftBits(Xor(r, Widen(buf[i])), 8, polynomial);
    }
  }

  lemma XorLaws(a: Word, b: Word, c: Word)
    ensures Xor(Xor(a, b), c) == Xor(a, Xor(b, c)) && Xor(a, ZERO) == a && Xor(a, b) == Xor(b, a)
  {
    Same(Xor(Xor(a, b), c), Xor(a, Xor(b, c)));
    Same(Xor(a, ZERO), a);
    Same(Xor(a, b), Xor(b, a));
  }

  /** The CRC is linear: what the seed contributes is the seed shifted by the length. */
  lemma {:induction false} CrcXor(a: Word, b: Word, buf: seq<Byte>, p: Word)
    ensures Crc(Xor(a, b), buf, p) == Xor(Steps(a, p, 8 * |buf|), Crc(b, buf, p))
    decreases |buf|
  {
    hide Step, Xor;
    if buf != [] {
      var x, rest := Widen(buf[0]), buf[1..];
      hide Widen;
      XorLaws(a, b, x);
      StepsXor(a, Xor(b, x), p, 8);
      CrcXor(Steps(a, p, 8), Steps(Xor(b, x), p, 8), rest, p);
      StepsAdd(a, p, 8, 8 * |rest|);
      hide Steps;
    }
  }

  lemma {:induction false} CrcConcat(c: Word, a: seq<Byte>, b: seq<Byte>, p: Word)
    ensures Crc(c, a + b, p) == Crc(Crc(c, a, p), b, p)
    decreases |a|
  {
    hide Steps, Step, Xor, Widen;
    if a == [] {
      assert a + b == b;
    } else {
      CrcConcat(Steps(Xor(c, Widen(a[0])), p, 8), a[1..], b, p);
      assert (a + b)[1..] == a[1..] + b;
    }
  }

  /** The CRC of A followed by B is the CRC of A, shifted by the length of B, plus the CRC of B from zero. */
  lemma Combine(c: Word, a: seq<Byte>, b: seq<Byte>, p: Word)
    ensures Crc(c, a + b, p) == Xor(Steps(Crc(c, a, p), p, 8 * |b|), Crc(ZERO, b, p))
  {
    hide Steps, Xor, Crc;
    CrcConcat(c, a, b, p);
    XorLaws(Crc(c, a, p), ZERO, ZERO);
    CrcXor(Crc(c, a, p), ZERO, b, p);
  }

  /** The same with the code's own shift. */
  method CombineByShift(crcA: Word, crcB: Word, lenB: nat, p: Word, ghost seed: Word, ghost a: seq<Byte>,
                        ghost b: seq<Byte>)
    returns (r: Word)
    requires crcA == Crc(seed, a, p) && crcB == Crc(ZERO, b, p) && lenB == |b|
    ensures r == Crc(seed, a + b, p)
  {
    hide Steps, Xor, Crc;
    Combine(seed, a, b, p);
    var shifted := Shift(crcA, lenB, p);
    r := Xor(shifted, crcB);
  }

  // ----- the table-driven form -----

  /** Byte i of a word. */
  function ByteAt(c: Word, i: nat): Byte
    requires i < 4
  {
    c[8 * i..8 * i + 8]
  }

  /** The byte b at bits 8 * i and up, all other bits zero. */
  function Place(b: Byte, i: nat): Word
    requires i < 4
  {
    Zeros(8 * i) + b + Zeros(24 - 8 * i)
  }

  /** c >> n */
  function ShrBy(c: Word, n: nat): (r: Word)
    requires n <= 32
    ensures forall i :: 0 <= i < 32 ==> r[i] == (i + n < 32 && c[i + n])
  {
    c[n..] + Zeros(n)
  }

  /** Steps that never see a set low bit only shift. */
  lemma {:induction false} StepsShift(c: Word, p: Word, n: nat)
    requires n <= 32 && forall i :: 0 <= i < n ==> !c[i]
    ensures Steps(c, p, n) == ShrBy(c, n)
    decreases n
  {
    if n == 0 {
      Same(c, ShrBy(c, 0));
    } else {
      StepsShift(c, p, n - 1);
      var d := ShrBy(c, n - 1);
      assert !d[0] && Step(d, p) == Xor(Shr(d), ZERO);
      Same(Step(d, p), ShrBy(c, n));
    }
  }

  lemma PlaceDown(b: Byte, p: Word, i: nat)
    requires i < 4
    ensures Steps(Place(b, i), p, 8 * i) == Widen(b)
  {
    StepsShift(Place(b, i), p, 8 * i);
    Same(ShrBy(Place(b, i), 8 * i), Widen(b));
  }

  /** The four bytes of a word make it up. */
  lemma Bytes(c: Word)
    ensures c == Xor(Xor(Place(ByteAt(c, 0), 0), Place(ByteAt(c, 1), 1)),
      Xor(Place(ByteAt(c, 2), 2), Place(ByteAt(c, 3), 3)))
  {
    var r := Xor(Xor(Place(ByteAt(c, 0), 0), Place(ByteAt(c, 1), 1)),
      Xor(Place(ByteAt(c, 2), 2), Place(ByteAt(c, 3), 3)));
    Same(c, r);
  }

  /** The table entry for byte b that stands 4 - k places from the end of a word. */
  type Tables = (nat, Byte) -> Word

  /** Row k of the tables takes a byte k + 1 bytes further. */
  ghost predicate Right(tab: Tables, p: Word)
  {
    forall k: nat, b: Byte :: k < 8 ==> tab(k, b) == Steps(Widen(b), p, 8 * k + 8)
  }

  /** DO_CRC4 with base 0, DO_CRC8 with base 4 */
  function Fold(tab: Tables, q: Word, base: nat): Word
  {
    Xor(Xor(tab(base + 3, ByteAt(q, 0)), tab(base + 2, ByteAt(q, 1))),
      Xor(tab(base + 1, ByteAt(q, 2)), tab(base, ByteAt(q, 3))))
  }

  lemma PlaceByTable(tab: Tables, b: Byte, p: Word, i: nat, base: nat)
    requires Right(tab, p) && i < 4 && base <= 4
    ensures tab(base + 3 - i, b) == Steps(Place(b, i), p, 8 * base + 32)
  {
    hide Steps, Place, Widen;
    PlaceDown(b, p, i);
    StepsAdd(Place(b, i), p, 8 * i, 8 * (base + 3 - i) + 8);
  }

  /** Four table lookups are 32 steps, or 64 with the rows four further. */
  lemma FoldIsSteps(tab: Tables, q: Word, p: Word, base: nat)
    requires Right(tab, p) && base <= 4
    ensures Fold(tab, q, base) == Steps(q, p, 8 * base + 32)
  {
    var n := 8 * base + 32;
    Bytes(q);
    hide Steps, Place, Xor, ByteAt;
    var a, b, c, d := Place(ByteAt(q, 0), 0), Place(ByteAt(q, 1), 1), Place(ByteAt(q, 2), 2), Place(ByteAt(q, 3), 3);
    StepsXor(Xor(a, b), Xor(c, d), p, n);
    StepsXor(a, b, p, n);
    StepsXor(c, d, p, n);
    PlaceByTable(tab, ByteAt(q, 0), p, 0, base);
    PlaceByTable(tab, ByteAt(q, 1), p, 1, base);
    PlaceByTable(tab, ByteAt(q, 2), p, 2, base);
    PlaceByTable(tab, ByteAt(q, 3), p, 3, base);
  }

  /** DO_CRC */
  function OneByte(tab: Tables, crc: Word, x: Byte): Word
  {
    Xor(tab(0, ByteAt(Xor(crc, Widen(x)), 0)), ShrBy(crc, 8))
  }

  lemma OneByteIsSteps(tab: Tables, crc: Word, x: Byte, p: Word)
    requires Right(tab, p)
    ensures OneByte(tab, crc, x) == Steps(Xor(crc, Widen(x)), p, 8)
  {
    var d := Xor(crc, Widen(x));
    var low, high: Word := Widen(ByteAt(d, 0)), Zeros(8) + d[8..];
    Same(d, Xor(low, high));
    StepsShift(high, p, 8);
    Same(ShrBy(high, 8), ShrBy(crc, 8));
    StepsXor(low, high, p, 8);
  }

  /** Up to four bytes as a word. */
  function Packed(bs: seq<Byte>): (r: Word)
    requires |bs| <= 4
    ensures forall i :: 8 * |bs| <= i < 32 ==> !r[i]
  {
    if bs == [] then ZERO else Xor(Widen(bs[0]), Up(Packed(bs[1..])))
  }

  /** c << 8 */
  function Up(c: Word): (r: Word)
    ensures forall i :: 0 <= i < 32 ==> r[i] == (8 <= i && c[i - 8])
  {
    Zeros(8) + c[..24]
  }

  lemma UpDown(c: Word, p: Word)
    requires forall i :: 24 <= i < 32 ==> !c[i]
    ensures Steps(Up(c), p, 8) == c
  {
    StepsShift(Up(c), p, 8);
    Same(ShrBy(Up(c), 8), c);
  }

  /** Reading bytes one by one is reading them as a word. */
  lemma {:induction false} PackedCrc(c: Word, bs: seq<Byte>, p: Word)
    requires |bs| <= 4
    ensures Crc(c, bs, p) == Steps(Xor(c, Packed(bs)), p, 8 * |bs|)
    decreases |bs|
  {
    hide Step, Xor, Widen, Up;
    if bs == [] {
      XorLaws(c, ZERO, ZERO);
    } else {
      var x, rest := Widen(bs[0]), Packed(bs[1..]);
      UpDown(rest, p);
      XorLaws(c, x, Up(rest));
      StepsXor(Xor(c, x), Up(rest), p, 8);
      PackedCrc(Steps(Xor(c, x), p, 8), bs[1..], p);
      StepsAdd(Xor(Xor(c, x), Up(rest)), p, 8, 8 * |bs[1..]|);
      hide Steps;
    }
  }

  lemma FourBytes(tab: Tables, c: Word, bs: seq<Byte>, p: Word)
    requires Right(tab, p) && |bs| == 4
    ensures Crc(c, bs, p) == Fold(tab, Xor(c, Packed(bs)), 0)
  {
    hide Steps, Xor, Packed, Fold, Crc, Right;
    PackedCrc(c, bs, p);
    FoldIsSteps(tab, Xor(c, Packed(bs)), p, 0);
  }

  lemma EightBytes(tab: Tables, c: Word, a: seq<Byte>, b: seq<Byte>, p: Word)
    requires Right(tab, p) && |a| == |b| == 4
    ensures Crc(c, a + b, p) == Xor(Fold(tab, Xor(c, Packed(a)), 4), Fold(tab, Packed(b), 0))
  {
    hide Steps, Xor, Packed, Fold, Crc, Right;
    var q := Xor(c, Packed(a));
    CrcConcat(c, a, b, p);
    PackedCrc(c, a, p);
    PackedCrc(Crc(c, a, p), b, p);
    StepsXor(Steps(q, p, 32), Packed(b), p, 32);
    StepsAdd(q, p, 32, 32);
    FoldIsSteps(tab, q, p, 4);
    FoldIsSteps(tab, Packed(b), p, 0);
  }

  /** What is left to read after i bytes leads to the CRC of the whole. */
  ghost predicate Halfway(crc: Word, buf: seq<Byte>, p: Word, r: Word, i: nat)
  {
    i <= |buf| && Crc(r, buf[i..], p) == Crc(crc, buf, p)
  }

  lemma ReadOn(crc: Word, buf: seq<Byte>, p: Word, r: Word, i: nat, n: nat, r': Word)
    requires Halfway(crc, buf, p, r, i) && i + n <= |buf| && r' == Crc(r, buf[i..i + n], p)
    ensures Halfway(crc, buf, p, r', i + n)
  {
    hide Crc;
    CrcConcat(r, buf[i..i + n], buf[i + n..], p);
    assert buf[i..] == buf[i..i + n] + buf[i + n..];
  }

  lemma OneByteCrc(c: Word, b: Byte, p: Word)
    ensures Crc(c, [b], p) == Steps(Xor(c, Widen(b)), p, 8)
  {
    hide Steps, Xor, Widen;
    assert [b][1..] == [];
  }

  /** DO_CRC on byte i */
  method ReadByte(tab: Tables, ghost crc: Word, buf: seq<Byte>, ghost p: Word, r: Word, i: nat) returns (r': Word)
    requires Right(tab, p) && Halfway(crc, buf, p, r, i) && i < |buf|
    ensures Halfway(crc, buf, p, r', i + 1)
  {
    hide Steps, Step, Xor, Crc, Widen, OneByte, Right, Halfway;
    OneByteCrc(r, buf[i], p);
    assert buf[i..i + 1] == [buf[i]];
    OneByteIsSteps(tab, r, buf[i], p);
    r' := OneByte(tab, r, buf[i]);
    ReadOn(crc, buf, p, r, i, 1, r');
  }

  /** One turn of the word loop of crc32_body */
  method ReadWords(tab: Tables, ghost crc: Word, buf: seq<Byte>, ghost p: Word, r: Word, i: nat, wide: bool)
    returns (r': Word)
    requires Right(tab, p) && Halfway(crc, buf, p, r, i) && i + (if wide then 8 else 4) <= |buf|
    ensures Halfway(crc, buf, p, r', i + if wide then 8 else 4)
  {
    hide Steps, Xor, Crc, Packed, Fold, Halfway, Right;
    var q := Xor(r, Packed(buf[i..i + 4]));
    if !wide {
      FourBytes(tab, r, buf[i..i + 4], p);
      r' := Fold(tab, q, 0);
      ReadOn(crc, buf, p, r, i, 4, r');
    } else {
      EightBytes(tab, r, buf[i..i + 4], buf[i + 4..i + 8], p);
      assert buf[i..i + 8] == buf[i..i + 4] + buf[i + 4..i + 8];
      r' := Fold(tab, q, 4);
      q := Packed(buf[i + 4..i + 8]);
      r' := Xor(r', Fold(tab, q, 0));
      ReadOn(crc, buf, p, r, i, 8, r');
    }
  }

  /**
   * crc32_body on a little-endian machine: bytes up to an aligned address, then four or
   * eight bytes a turn, then the last few.  With the right tables it is the bitwise CRC.
   */
  method Body(crc: Word, buf: seq<Byte>, address: nat, wide: bool, tab: Tables, ghost p: Word) returns (r: Word)
    requires Right(tab, p)
    ensures r == Crc(crc, buf, p)
  {
    hide Crc, Steps, Right, Halfway;
    Beginning(crc, buf, p);
    r := crc;
    var i: nat := 0;
    while i < |buf| && (address + i) % 4 != 0
      invariant i <= |buf| && Halfway(crc, buf, p, r, i)
    {
      r := ReadByte(tab, crc, buf, p, r, i);
      i := i + 1;
    }
    var turn := if wide then 8 else 4;
    while i + turn <= |buf|
      invariant i <= |buf| && Halfway(crc, buf, p, r, i)
    {
      r := ReadWords(tab, crc, buf, p, r, i, wide);
      i := i + turn;
    }
    while i < |buf|
      invariant i <= |buf| && Halfway(crc, buf, p, r, i)
    {
      r := ReadByte(tab, crc, buf, p, r, i);
      i := i + 1;
    }
    Finished(crc, buf, p, r);
  }

  lemma Beginning(crc: Word, buf: seq<Byte>, p: Word)
    ensures Halfway(crc, buf, p, crc, 0)
  {
    assert buf[0..] == buf;
  }

  lemma Finished(crc: Word, buf: seq<Byte>, p: Word, r: Word)
    requires Halfway(crc, buf, p, r, |buf|)
    ensures r == Crc(crc, buf, p)
  {
    assert buf[|buf|..] == [];
  }
}
