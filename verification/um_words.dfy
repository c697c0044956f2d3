/** Machine words of the Universal Machine.

    A word is an unsigned 32-bit value, represented as an integer in
    [0, 2^32). A right shift by k bits is division by 2^k and masking the k
    low bits is the remainder modulo 2^k; both are exact on non-negative
    integers, so every shift-and-mask of the Rust source is written with
    `/` and `%` here. Wrapping 32-bit arithmetic is written out with `% WORD`.
 */
module Words {

  const WORD: int := 0x1_0000_0000

  /** Rust `u32`. */
  type u32 = x: int | 0 <= x < WORD

  /** Rust `u8`. */
  type u8 = x: int | 0 <= x < 256

  /** A register number, the value of a 3-bit operand field. */
  type RegIndex = x: int | 0 <= x < 8

  function Pow2(k: nat): (p: nat)
    ensures p >= 1
  {
    if k == 0 then 1 else 2 * Pow2(k - 1)
  }

  /** Bit k of x (bit 0 is the least significant). */
  function Bit(x: nat, k: nat): (b: nat)
    ensures b < 2
  {
    if k == 0 then x % 2 else Bit(x / 2, k - 1)
  }

  /** `u32` wrapping addition (release-mode `+`). */
  function AddWrap(x: u32, y: u32): u32 {
    (x + y) % WORD
  }

  /** `u32` wrapping multiplication (release-mode `*`). */
  function MulWrap(x: u32, y: u32): u32 {
    (x * y) % WORD
  }

  /** The bitwise operators the two machines use. */
  datatype Gate = NandGate | XorGate | AndGate

  /** A gate applied to two bits. */
  function GateBit(g: Gate, a: nat, b: nat): (r: nat)
    requires a < 2 && b < 2
    ensures r < 2
  {
    match g
    case NandGate => if a == 1 && b == 1 then 0 else 1
    case XorGate => if a != b then 1 else 0
    case AndGate => if a == 1 && b == 1 then 1 else 0
  }

  /** The n low bits of a bitwise operator, computed one bit at a time. */
  function Bitwise(g: Gate, x: nat, y: nat, n: nat): (r: nat)
    ensures r < Pow2(n)
    decreases n
  {
    if n == 0 then 0
    else 2 * Bitwise(g, x / 2, y / 2, n - 1) + GateBit(g, x % 2, y % 2)
  }

  lemma Pow2Of32()
    ensures Pow2(32) == WORD
  {
    assert Pow2(8) == 256;
    assert Pow2(16) == 0x1_0000;
    assert Pow2(24) == 0x100_0000;
  }

  /** `!(x & y)` on `u32`. */
  function Nand(x: u32, y: u32): (r: u32)
  {
    Pow2Of32();
    Bitwise(NandGate, x, y, 32)
  }

  /** Bit k of a bitwise result is the gate applied to bit k of the operands. */
  lemma {:induction false} BitwiseMeaning(g: Gate, x: nat, y: nat, n: nat, k: nat)
    requires k < n
    ensures Bit(Bitwise(g, x, y, n), k) == GateBit(g, Bit(x, k), Bit(y, k))
    decreases n
  {
    assert Bitwise(g, x, y, n) == 2 * Bitwise(g, x / 2, y / 2, n - 1) + GateBit(g, x % 2, y % 2);
    if k > 0 {
      BitwiseMeaning(g, x / 2, y / 2, n - 1, k - 1);
    }
  }

  /** NAND of two words: bit k of the result is clear iff bit k is set in both operands. */
  lemma NandMeaning(x: u32, y: u32, k: nat)
    requires k < 32
    ensures Bit(Nand(x, y), k) == (if Bit(x, k) == 1 && Bit(y, k) == 1 then 0 else 1)
  {
    BitwiseMeaning(NandGate, x, y, 32, k);
  }

  /** Wrapping addition is the sum when it fits in a word and the sum less
      2^32 otherwise; it wrapped exactly when the result is below an
      operand. */
  lemma AddWrapCarry(x: u32, y: u32)
    ensures x + y < WORD ==> AddWrap(x, y) == x + y
    ensures x + y >= WORD ==> AddWrap(x, y) == x + y - WORD
    ensures AddWrap(x, y) < x <==> x + y >= WORD
  {
  }

  /** Wrapping multiplication is the product when it fits in a word. */
  lemma MulWrapExact(x: u32, y: u32)
    ensures x * y < WORD ==> MulWrap(x, y) == x * y
  {
    var p := x * y;
    MulNonneg(x, y, p);
    if p < WORD {
      ModSmall(p);
    }
    assert MulWrap(x, y) == p % WORD;
  }

  lemma MulNonneg(x: nat, y: nat, p: int)
    requires p == x * y
    ensures 0 <= p
  {
  }

  lemma ModSmall(p: nat)
    requires p < WORD
    ensures p % WORD == p
  {
  }

  lemma MulBound(k: int, base: nat)
    requires base > 0
    ensures k >= 1 ==> k * base >= base
    ensures k <= -1 ==> k * base + base <= 0
  {
    if k >= 1 {
      assert (k - 1) * base >= 0;
    } else if k <= -1 {
      assert (-k - 1) * base >= 0;
    }
  }

  /** A multiple of the base strictly between -base and base is zero. */
  lemma MulSmall(k: int, base: nat)
    requires base > 0 && k * base < base && k * base + base > 0
    ensures k == 0
  {
    MulBound(k, base);
  }

  /** Division with remainder is unique: a quotient and a remainder
      below the divisor that rebuild x are `x / d` and `x % d`. */
  lemma DivModUnique(x: int, d: nat, q: int, r: int)
    requires d > 0 && 0 <= r < d && x == q * d + r
    ensures x / d == q && x % d == r
  {
    var q', r' := x / d, x % d;
    assert (q' - q) * d == r - r';
    MulSmall(q' - q, d);
  }
}
