/** Address decoding of the cache simulator: an address is split into a block
    offset (the low b bits, ignored), a set index (the next s bits) and a tag
    (the remaining high bits). Shifts of unsigned values are divisions by
    powers of two, and masking with 2^s - 1 is a remainder modulo 2^s. */
module Decoder {

  /** Width of an `unsigned long` address. */
  const AddressBits: nat := 64

  function Pow2(n: nat): (r: nat)
    ensures r >= 1
  {
    if n == 0 then 1 else 2 * Pow2(n - 1)
  }

  /** 2^64, the number of distinct addresses. */
  const AddressLimit: nat := 0x1_0000_0000_0000_0000

  /** A 64-bit unsigned address. */
  type Address = a: nat | a < AddressLimit

  /** The shifts are defined: `1 << s` fits in a positive `int`, and a
      shift by s + b stays below the address width. */
  predicate ValidGeometry(s: nat, b: nat)
  {
    s <= 30 && s + b < AddressBits
  }

  datatype Decoded = Decoded(setIndex: nat, tag: nat)

  /** x >> k on unsigned values. */
  function ShiftRight(x: nat, k: nat): (r: nat)
    ensures r * Pow2(k) + LowBits(x, k) == x
  {
    DivNonneg(x, Pow2(k));
    x / Pow2(k)
  }

  /** x & ((1 << k) - 1) on unsigned values. */
  function LowBits(x: nat, k: nat): (r: nat)
    ensures r < Pow2(k)
  {
    x % Pow2(k)
  }

  /** set_index = (address >> b) & ((1 << s) - 1); tag = address >> (s + b). */
  function Decode(address: Address, s: nat, b: nat): (d: Decoded)
    requires ValidGeometry(s, b)
    ensures d.setIndex < Pow2(s)
    ensures d.tag < Pow2(AddressBits - s - b)
  {
    var tag := ShiftRight(address, s + b);
    TagBound(address, s + b);
    Decoded(LowBits(ShiftRight(address, b), s), tag)
  }

  // ---------------------------------------------------------------------
  // Arithmetic facts about powers of two and division. They are stated
  // over int, with the signs they need, so that no proof has to show that
  // a quotient by a symbolic divisor is a nat.

  lemma {:induction false} Pow2Add(m: nat, n: nat)
    ensures Pow2(m + n) == Pow2(m) * Pow2(n)
  {
    if m > 0 {
      Pow2Add(m - 1, n);
      assert Pow2(m + n) == 2 * Pow2(m - 1 + n);
    }
  }

  lemma MulMono(d: int, x: int, y: int)
    requires d >= 0 && x <= y
    ensures d * x <= d * y
  {
    assert d * y == d * x + d * (y - x);
  }

  lemma DivNonneg(x: int, p: int)
    requires x >= 0 && p > 0
    ensures x / p >= 0
  {
    if x / p < 0 {
      MulMono(p, x / p, -1);
    }
  }

  lemma DivUnique(a: int, d: int, q: int, r: int)
    requires d > 0 && 0 <= r < d && a == d * q + r
    ensures a / d == q && a % d == r
  {
    var q', r' := a / d, a % d;
    assert a == d * q' + r';
    if q' > q {
      MulMono(d, q + 1, q');
    } else if q' < q {
      MulMono(d, q' + 1, q);
    }
  }

  /** Division-free core of DivDiv: nesting two divisions with remainders. */
  lemma NestedDivision(a: int, x: int, y: int, q: int, r: int, q2: int, r2: int)
    requires x > 0 && 0 <= r < x && 0 <= r2 < y
    requires a == x * q + r && q == y * q2 + r2
    ensures a == (x * y) * q2 + (x * r2 + r) && 0 <= x * r2 + r < x * y
  {
    MulMono(x, r2, y - 1);
    MulMono(x, 0, r2);
    assert x * (y - 1) == x * y - x;
    assert x * q == x * (y * q2) + x * r2;
    assert x * (y * q2) == (x * y) * q2;
  }

  lemma DivDiv(a: int, x: int, y: int)
    requires a >= 0 && x > 0 && y > 0
    ensures a / (x * y) == (a / x) / y
  {
    var q, r := a / x, a % x;
    var q2, r2 := q / y, q % y;
    NestedDivision(a, x, y, q, r, q2, r2);
    MulMono(x, 1, y);
    DivUnique(a, x * y, q2, x * r2 + r);
  }

  lemma DivBelow(a: int, d: int, e: int)
    requires a >= 0 && d > 0 && a < d * e
    ensures a / d < e
  {
    if a / d >= e {
      MulMono(d, e, a / d);
    }
  }

  /** The tag of a 64-bit address has at most 64 - (s + b) bits. */
  lemma TagBound(address: Address, k: nat)
    requires k <= AddressBits
    ensures address / Pow2(k) < Pow2(AddressBits - k)
  {
    Pow2AddressBits();
    Pow2Add(k, AddressBits - k);
    DivBelow(address, Pow2(k), Pow2(AddressBits - k));
  }

  lemma Pow2AddressBits()
    ensures Pow2(AddressBits) == AddressLimit
  {
    assert Pow2(8) == 0x100;
    Pow2Add(8, 8);
    assert Pow2(16) == 0x1_0000;
    Pow2Add(16, 16);
    assert Pow2(32) == 0x1_0000_0000;
    Pow2Add(32, 32);
  }

  // ---------------------------------------------------------------------
  // Properties of Decode.

  /** Splitting a number into a high part, a middle residue modulo p and a
      low residue modulo q. */
  lemma SplitDigits(a: nat, p: nat, q: nat)
    requires p > 0 && q > 0
    ensures a / (q * p) == (a / q) / p
    ensures a == ((a / (q * p)) * p + (a / q) % p) * q + a % q
  {
    var block := a / q;
    DivDiv(a, q, p);
    Recombine(a, block, a % q, p, q, block / p, block % p);
  }

  lemma Recombine(a: nat, block: nat, offset: nat, p: nat, q: nat, tag: nat, index: nat)
    requires a == q * block + offset && block == p * tag + index
    ensures a == (tag * p + index) * q + offset
  {
  }

  /** The tag is the block number (the address without its offset) shifted
      right by another s bits. */
  lemma TagOfBlock(address: Address, s: nat, b: nat)
    ensures address / Pow2(s + b) == (address / Pow2(b)) / Pow2(s)
    ensures address == ((address / Pow2(s + b)) * Pow2(s) + (address / Pow2(b)) % Pow2(s)) * Pow2(b)
                       + address % Pow2(b)
  {
    Pow2Add(b, s);
    SplitDigits(address, Pow2(s), Pow2(b));
  }

  /** The address is recovered from its tag, set index and block offset. */
  lemma DecodeRecompose(address: Address, s: nat, b: nat)
    requires ValidGeometry(s, b)
    ensures var d := Decode(address, s, b);
      address == (d.tag * Pow2(s) + d.setIndex) * Pow2(b) + address % Pow2(b)
  {
    var d := Decode(address, s, b);
    TagOfBlock(address, s, b);
    assert d.tag == address / Pow2(s + b);
    assert d.setIndex == (address / Pow2(b)) % Pow2(s);
  }

  /** Two addresses decode to the same (set index, tag) exactly when they
      lie in the same block. */
  lemma DecodeSameBlock(a1: Address, a2: Address, s: nat, b: nat)
    requires ValidGeometry(s, b)
    ensures Decode(a1, s, b) == Decode(a2, s, b) <==> a1 / Pow2(b) == a2 / Pow2(b)
  {
    Pow2Add(b, s);
    SameBlockDigits(a1, a2, Pow2(s), Pow2(b));
  }

  /** Numbers agree on their middle residue modulo p and their high part
      exactly when they agree after dropping the low residue modulo q. */
  lemma SameBlockDigits(a1: nat, a2: nat, p: nat, q: nat)
    requires p > 0 && q > 0
    ensures ((a1 / q) % p == (a2 / q) % p && a1 / (q * p) == a2 / (q * p)) <==> a1 / q == a2 / q
  {
    DivDiv(a1, q, p);
    DivDiv(a2, q, p);
    DigitsDetermine(a1 / q, a2 / q, p);
  }

  /** A number is determined by its quotient and remainder. */
  lemma DigitsDetermine(k1: nat, k2: nat, p: nat)
    requires p > 0
    ensures (k1 / p == k2 / p && k1 % p == k2 % p) <==> k1 == k2
  {
    assert k1 == (k1 / p) * p + k1 % p;
    assert k2 == (k2 / p) * p + k2 % p;
  }
}
