/** Machine integers and C-level helpers shared by every component. */
module Bytes {
  type byte = b: int | 0 <= b < 0x100
  type word = w: int | 0 <= w < 0x1_0000

  datatype Option<+T> = None | Some(value: T)

  function Min(a: int, b: int): int {
    if a < b then a else b
  }

  function Max(a: int, b: int): int {
    if a < b then b else a
  }

  /** A 16-bit register in network byte order. */
  function Word(high: byte, low: byte): word {
    high * 0x100 + low
  }

  function High(w: word): byte {
    w / 0x100
  }

  function Low(w: word): byte {
    w % 0x100
  }

  /** Assignment of an unbounded value to a uint16_t. */
  function Wrap(n: int): word {
    n % 0x1_0000
  }

  function AndBits(a: nat, b: nat, bits: nat): (r: nat)
    ensures r <= a
  {
    if bits == 0 then 0 else 2 * AndBits(a / 2, b / 2, bits - 1) + a % 2 * (b % 2)
  }

  function Pow2(k: nat): nat {
    if k == 0 then 1 else 2 * Pow2(k - 1)
  }

  /** Masking with k ones is the remainder modulo 2 to the k. */
  lemma {:induction false} MaskIsRemainder(a: nat, k: nat, bits: nat)
    requires k <= bits
    ensures Pow2(k) > 0 && AndBits(a, Pow2(k) - 1, bits) == a % Pow2(k)
    decreases bits
  {
    if k == 0 {
      NothingMasked(a, bits);
    } else {
      MaskIsRemainder(a / 2, k - 1, bits - 1);
      AndOnes(a, Pow2(k - 1), bits);
      Doubled(a, Pow2(k - 1));
    }
  }

  lemma AndOnes(a: nat, p: nat, bits: nat)
    requires p > 0 && bits > 0
    ensures AndBits(a, 2 * p - 1, bits) == 2 * AndBits(a / 2, p - 1, bits - 1) + a % 2
  {
    assert (2 * p - 1) / 2 == p - 1 && (2 * p - 1) % 2 == 1;
  }

  lemma Doubled(a: nat, p: nat)
    requires p > 0
    ensures a % (2 * p) == 2 * (a / 2 % p) + a % 2
  {
    var q, r := a / 2 / p, a / 2 % p;
    assert a / 2 == q * p + r;
    assert 2 * (q * p) == q * (2 * p);
    ModUnique(a, 2 * p, q, 2 * r + a % 2);
  }

  lemma {:induction false} NothingMasked(a: nat, bits: nat)
    ensures AndBits(a, 0, bits) == 0
    decreases bits
  {
    if bits > 0 {
      NothingMasked(a / 2, bits - 1);
    }
  }

  lemma MulBounds(d: int, size: int)
    requires size > 0
    ensures d >= 1 ==> d * size >= size
    ensures d <= -1 ==> d * size <= -size
  {
    if d >= 1 {
      assert (d - 1) * size >= 0;
    } else if d <= -1 {
      assert (-d - 1) * size >= 0;
    }
  }

  lemma ModUnique(a: int, size: int, q: int, r: int)
    requires 0 <= r < size && a == q * size + r
    ensures a % size == r
  {
    assert a == (a / size) * size + a % size;
    assert (a / size - q) * size == r - a % size;
    MulBounds(a / size - q, size);
  }

  /** Bitwise and, not and or of bytes. */
  function And(a: byte, b: byte): byte {
    AndBits(a, b, 8)
  }

  function Not(a: byte): byte {
    0xFF - a
  }

  function Or(a: byte, b: byte): byte {
    Not(And(Not(a), Not(b)))
  }
}
