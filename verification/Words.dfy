/** Unsigned machine words as bit sequences, least significant bit first, with the
    operations flr/internal/bitweave uses: AND, OR, NOT, a one-bit mask, subtraction of
    one, and trailing zeros.  Attribute values stay numbers; `BitOf` reads their bits. */
module Words {

  type Word = w: seq<bool> | |w| == 64 witness seq(64, _ => false)

  function Zero(): (r: Word)
    ensures forall i :: 0 <= i < 64 ==> !r[i]
  {
    seq(64, _ => false)
  }

  function Ones(): (r: Word)
    ensures forall i :: 0 <= i < 64 ==> r[i]
  {
    seq(64, _ => true)
  }

  function OneBit(b: nat): (r: Word)
    requires b < 64
    ensures forall i :: 0 <= i < 64 ==> (r[i] <==> i == b)
  {
    seq(64, i => i == b)
  }

  function And(x: Word, y: Word): (r: Word)
    ensures forall i :: 0 <= i < 64 ==> (r[i] <==> x[i] && y[i])
  {
    seq(64, i requires 0 <= i < 64 => x[i] && y[i])
  }

  function Or(x: Word, y: Word): (r: Word)
    ensures forall i :: 0 <= i < 64 ==> (r[i] <==> x[i] || y[i])
  {
    seq(64, i requires 0 <= i < 64 => x[i] || y[i])
  }

  function Not(x: Word): (r: Word)
    ensures forall i :: 0 <= i < 64 ==> (r[i] <==> !x[i])
  {
    seq(64, i requires 0 <= i < 64 => !x[i])
  }

  // ---- numeric meaning ----

  function Pow2(n: nat): (r: nat)
    ensures r >= 1
  {
    if n == 0 then 1 else 2 * Pow2(n - 1)
  }

  predicate PowerOfTwo(n: nat) {
    n == 1 || (n != 0 && n % 2 == 0 && PowerOfTwo(n / 2))
  }

  lemma {:induction false} Pow2Splits(a: nat, b: nat)
    ensures Pow2(a + b) == Pow2(a) * Pow2(b)
  {
    if a > 0 {
      Pow2Splits(a - 1, b);
      assert 2 * (Pow2(a - 1) * Pow2(b)) == 2 * Pow2(a - 1) * Pow2(b);
    }
  }

  function Value(bits: seq<bool>): nat {
    if bits == [] then 0 else (if bits[0] then 1 else 0) + 2 * Value(bits[1..])
  }

  /** Subtraction of one as a ripple of borrows: zeros up to the lowest one bit flip. */
  function Borrow(bits: seq<bool>): (r: seq<bool>)
    ensures |r| == |bits|
  {
    if bits == [] then []
    else if bits[0] then [false] + bits[1..]
    else [true] + Borrow(bits[1..])
  }

  /** The ripple is the numeric predecessor of every nonzero word. */
  lemma {:induction false} BorrowIsMinusOne(bits: seq<bool>)
    requires true in bits
    ensures Value(Borrow(bits)) == Value(bits) - 1
  {
    if bits[0] {
      assert Borrow(bits)[1..] == bits[1..];
    } else {
      assert bits == [bits[0]] + bits[1..];
      BorrowIsMinusOne(bits[1..]);
      assert Borrow(bits)[1..] == Borrow(bits[1..]);
    }
  }

  function MinusOne(x: Word): Word {
    Borrow(x)
  }

  /** Index of the lowest one bit. */
  function TrailingZeros(bits: seq<bool>): (t: nat)
    requires true in bits
    ensures t < |bits| && bits[t]
    ensures forall i :: 0 <= i < t ==> !bits[i]
  {
    if bits[0] then 0
    else
      assert bits == [bits[0]] + bits[1..];
      1 + TrailingZeros(bits[1..])
  }

  lemma {:induction false} BorrowBits(bits: seq<bool>, i: nat)
    requires true in bits && i < |bits|
    ensures Borrow(bits)[i] == (if i < TrailingZeros(bits) then true
                                else if i == TrailingZeros(bits) then false else bits[i])
  {
    if !bits[0] && i > 0 {
      assert bits == [bits[0]] + bits[1..];
      BorrowBits(bits[1..], i - 1);
    }
  }

  /** `b & (b - 1)` clears the lowest one bit and nothing else. */
  lemma ClearLowest(b: Word)
    requires true in b
    ensures And(b, MinusOne(b)) == b[TrailingZeros(b) := false]
  {
    var t := TrailingZeros(b);
    forall i | 0 <= i < 64 ensures And(b, MinusOne(b))[i] == b[t := false][i] {
      BorrowBits(b, i);
    }
  }

  // ---- attribute bits ----

  /** Bit `p` of an unsigned value: `(v >> p) & 1 == 1`. */
  predicate BitOf(v: nat, p: nat) {
    v / Pow2(p) % 2 == 1
  }

  function Bits(v: nat, width: nat): (r: seq<bool>)
    ensures |r| == width
  {
    seq(width, p requires 0 <= p => BitOf(v, p))
  }

  lemma {:induction false} HalfBits(v: nat, p: nat)
    ensures BitOf(v, p + 1) == BitOf(v / 2, p)
  {
    var m := Pow2(p);
    var q, r := v / 2 / m, v / 2 % m;
    assert v == 2 * (m * q + r) + v % 2;
    assert v == 2 * m * q + (2 * r + v % 2);
    QuotientUnique(v, 2 * m, q, 2 * r + v % 2);
  }

  lemma QuotientUnique(v: int, d: int, q: int, r: int)
    requires d > 0 && v == d * q + r && 0 <= r < d
    ensures v / d == q && v % d == r
  {
    var k := v / d - q;
    assert d * k == r - v % d;
    assert k >= 1 ==> d * k >= d;
    assert k <= -1 ==> d * k <= -d;
  }

  /** A value of the given width is recovered from its bits. */
  lemma {:induction false} ValueOfBits(v: nat, width: nat)
    requires v < Pow2(width)
    ensures Value(Bits(v, width)) == v
  {
    if width > 0 {
      forall p | 0 <= p < width - 1 ensures Bits(v, width)[1..][p] == Bits(v / 2, width - 1)[p] {
        HalfBits(v, p);
      }
      assert Bits(v, width)[1..] == Bits(v / 2, width - 1);
      ValueOfBits(v / 2, width - 1);
      assert BitOf(v, 0) == (v % 2 == 1);
    }
  }

  /** Two values of one width are equal exactly when all their bits are. */
  lemma BitsAreFaithful(v: nat, w: nat, width: nat)
    requires v < Pow2(width) && w < Pow2(width)
    ensures Bits(v, width) == Bits(w, width) <==> v == w
  {
    ValueOfBits(v, width);
    ValueOfBits(w, width);
  }
}
