/** The Poly1305 authenticator of the pure-Python cipher, against section 2.5 of RFC 8439. */
module Poly1305 {
  import opened Text
  import opened Bits

  const P: nat := 0x3_FFFF_FFFF_FFFF_FFFF_FFFF_FFFF_FFFF_FFFB
  const CLAMP: nat := 0x0FFF_FFFC_0FFF_FFFC_0FFF_FFFC_0FFF_FFFF
  const TWO_128: nat := 0x1_0000_0000_0000_0000_0000_0000_0000_0000

  function Pow(r: nat, n: nat): nat {
    if n == 0 then 1 else r * Pow(r, n - 1)
  }

  /** The number of 16-byte blocks of a message, the last one possibly short. */
  function BlockCount(message: seq<byte>): nat { (|message| + 15) / 16 }

  /** Block i as a number, with a one bit beyond its last byte. */
  function BlockValue(message: seq<byte>, i: nat): nat
    requires i < BlockCount(message)
  {
    var end := if 16 * i + 16 <= |message| then 16 * i + 16 else |message|;
    FromLE(message[16 * i..end] + [1])
  }

  /** c_1 r^n + c_2 r^(n-1) + ... + c_n r^1 over the first n blocks. */
  function Polynomial(message: seq<byte>, r: nat, n: nat, degree: nat): nat
    requires n <= BlockCount(message) && n <= degree
  {
    if n == 0 then 0
    else Polynomial(message, r, n - 1, degree) + BlockValue(message, n - 1) * Pow(r, degree - (n - 1))
  }

  /** Section 2.5: the top four bits of bytes 3, 7, 11 and 15 and the bottom two bits of bytes 4, 8
      and 12 are cleared. */
  function Clamped(r: seq<byte>): seq<byte>
    requires |r| == 16
  {
    seq(16, i requires 0 <= i < 16 =>
      if i % 4 == 3 then r[i] % 16
      else if i % 4 == 0 && i > 0 then r[i] - r[i] % 4
      else r[i])
  }

  /** Section 2.5: the polynomial at clamped r modulo 2^130 - 5, plus s modulo 2^128. */
  function Tag(key: seq<byte>, message: seq<byte>): (tag: seq<byte>)
    requires |key| == 32
    ensures |tag| == 16
  {
    var r, s, n := FromLE(Clamped(key[..16])), FromLE(key[16..]), BlockCount(message);
    ToLE((Polynomial(message, r, n, n) % P + s) % TWO_128, 16)
  }

  // ---- The loop's accumulator --------------------------------------------------------

  function Absorb(accumulator: nat, value: nat, r: nat): nat { ((accumulator + value) * r) % P }

  /** The accumulator after n more blocks, reduced at every step. */
  function Accumulate(start: nat, message: seq<byte>, r: nat, n: nat): nat
    requires n <= BlockCount(message)
  {
    if n == 0 then start
    else Absorb(Accumulate(start, message, r, n - 1), BlockValue(message, n - 1), r)
  }

  lemma AddMultiple(x: nat, k: nat)
    ensures (P * k + x) % P == x % P
  {
    RemainderIs(P * k + x, P, k + x / P, x % P);
  }

  /** Reducing an operand first does not change a product modulo P. */
  lemma ReduceFirst(x: nat, v: nat, r: nat)
    ensures ((x % P + v) * r) % P == ((x + v) * r) % P
  {
    var k := x / P;
    assert x == P * k + x % P;
    TimesSum(P, k, x % P + v, r);
    AddMultiple((x % P + v) * r, k * r);
  }

  lemma TimesSum(p: nat, k: nat, y: nat, r: nat)
    ensures (p * k + y) * r == p * (k * r) + y * r
  {
    assert (p * k + y) * r == (p * k) * r + y * r;
    assert (p * k) * r == p * (k * r);
  }

  /** Raising the degree by one multiplies the polynomial by r. */
  lemma {:induction false} RaiseDegree(message: seq<byte>, r: nat, n: nat, degree: nat)
    requires n <= BlockCount(message) && n <= degree
    ensures Polynomial(message, r, n, degree + 1) == Polynomial(message, r, n, degree) * r
  {
    if n > 0 {
      hide BlockValue;
      RaiseDegree(message, r, n - 1, degree);
      var v, q := BlockValue(message, n - 1), Pow(r, degree - (n - 1));
      assert Pow(r, degree + 1 - (n - 1)) == r * q;
      Regroup(Polynomial(message, r, n - 1, degree), v, q, r);
    }
  }

  lemma Regroup(p: nat, v: nat, q: nat, r: nat)
    ensures p * r + v * (r * q) == (p + v * q) * r
  {
    assert (p + v * q) * r == p * r + (v * q) * r;
    assert (v * q) * r == v * (r * q);
  }

  /** Horner's rule with reduction at every step computes the polynomial modulo P. */
  lemma {:induction false} HornerIsPolynomial(message: seq<byte>, r: nat, n: nat)
    requires n <= BlockCount(message)
    ensures Accumulate(0, message, r, n) == Polynomial(message, r, n, n) % P
  {
    hide BlockValue;
    if n > 0 {
      HornerIsPolynomial(message, r, n - 1);
      var x, v := Polynomial(message, r, n - 1, n - 1), BlockValue(message, n - 1);
      ReduceFirst(x, v, r);
      RaiseDegree(message, r, n - 1, n - 1);
      assert Pow(r, 1) == r;
      Regroup(x, v, 1, r);
    }
  }

  /** A message may be fed in pieces of whole blocks: the second piece continues from the
      accumulator of the first. */
  lemma {:induction false} AccumulateContinues(start: nat, a: seq<byte>, b: seq<byte>, r: nat, n: nat)
    requires |a| % 16 == 0 && n <= BlockCount(b)
    ensures BlockCount(a + b) == BlockCount(a) + BlockCount(b)
    ensures Accumulate(start, a + b, r, BlockCount(a) + n)
         == Accumulate(Accumulate(start, a, r, BlockCount(a)), b, r, n)
  {
    hide BlockValue, Absorb;
    if n > 0 {
      AccumulateContinues(start, a, b, r, n - 1);
      BlockBehind(a, b, n - 1);
    } else {
      SameBlocks(start, a, b, r, BlockCount(a));
    }
  }

  lemma BlockBehind(a: seq<byte>, b: seq<byte>, i: nat)
    requires |a| % 16 == 0 && i < BlockCount(b)
    ensures BlockCount(a) + i < BlockCount(a + b)
    ensures BlockValue(a + b, BlockCount(a) + i) == BlockValue(b, i)
  {
    hide FromLE;
    var end := if 16 * i + 16 <= |b| then 16 * i + 16 else |b|;
    assert 16 * BlockCount(a) == |a|;
    assert (a + b)[|a| + 16 * i..|a| + end] == b[16 * i..end];
  }

  lemma BlockSame(a: seq<byte>, b: seq<byte>, i: nat)
    requires |a| % 16 == 0 && i < BlockCount(a)
    ensures i < BlockCount(a + b) && BlockValue(a + b, i) == BlockValue(a, i)
  {
    hide FromLE;
    assert (a + b)[16 * i..16 * i + 16] == a[16 * i..16 * i + 16];
  }

  lemma {:induction false} SameBlocks(start: nat, a: seq<byte>, b: seq<byte>, r: nat, n: nat)
    requires |a| % 16 == 0 && n <= BlockCount(a)
    ensures Accumulate(start, a + b, r, n) == Accumulate(start, a, r, n)
  {
    hide BlockValue, Absorb;
    if n > 0 {
      SameBlocks(start, a, b, r, n - 1);
      BlockSame(a, b, n - 1);
    }
  }

  // ---- Clamping -----------------------------------------------------------------------

  function ClampBytes(): seq<byte> {
    [255, 255, 255, 15, 252, 255, 255, 15, 252, 255, 255, 15, 252, 255, 255, 15]
  }

  lemma ClampIsBytes()
    ensures FromLE(ClampBytes()) == CLAMP
  {
    hide FromLE;
    var low: seq<byte> := [255, 255, 255, 15];
    var w: seq<byte> := [252, 255, 255, 15];
    WordValue(w);
    WordValue(low);
    assert ClampBytes() == low + (w + (w + w));
    FromLEAppend(low, w + (w + w));
    FromLEAppend(w, w + w);
    FromLEAppend(w, w);
    assert Pow256(4) == 256 * Pow256(3) && Pow256(3) == 256 * Pow256(2) && Pow256(2) == 256 * Pow256(1);
  }

  lemma WordValue(w: seq<byte>)
    requires |w| == 4
    ensures FromLE(w) == w[0] as int + 256 * w[1] as int + 0x1_0000 * w[2] as int + 0x100_0000 * w[3] as int
  {
    var w1, w2, w3 := w[1..], w[2..], w[3..];
    assert w1[1..] == w2 && w2[1..] == w3 && w3[1..] == [];
    assert FromLE(w3) == w3[0] as int && FromLE(w2) == w2[0] as int + 256 * FromLE(w3);
    assert FromLE(w1) == w1[0] as int + 256 * FromLE(w2);
  }

  lemma MaskedLow(x: nat)
    requires x < 256
    ensures BitAnd(x, 255) == x && BitAnd(x, 15) == x % 16
  {
    hide BitAnd;
    AndMask(x, 8);
    AndMask(x, 4);
    assert Pow2(4) == 2 * Pow2(3) && Pow2(3) == 2 * Pow2(2) && Pow2(2) == 2 * Pow2(1);
    Pow2Of8();
  }

  lemma MaskedHigh(x: nat)
    requires x < 256
    ensures BitAnd(x, 252) == x - x % 4
  {
    hide BitAnd;
    AndDigit(x / 2, 126, x % 2, 0);
    AndDigit(x / 4, 63, x / 2 % 2, 0);
    AndMask(x / 4, 6);
    assert Pow2(6) == 2 * Pow2(5) && Pow2(5) == 2 * Pow2(4) && Pow2(4) == 2 * Pow2(3);
    assert Pow2(3) == 2 * Pow2(2) && Pow2(2) == 2 * Pow2(1);
    assert 2 * (x / 2) + x % 2 == x && 2 * (x / 4) + x / 2 % 2 == x / 2;
  }

  /** The source's integer mask clamps exactly the bits the standard names. */
  lemma ClampMask(r: seq<byte>)
    requires |r| == 16
    ensures BitAnd(FromLE(r), CLAMP) == FromLE(Clamped(r))
  {
    hide BitAnd, FromLE;
    ClampIsBytes();
    AndOfBytes(r, ClampBytes());
    forall i | 0 <= i < 16 ensures AndBytes(r, ClampBytes())[i] == Clamped(r)[i] {
      MaskedLow(r[i]);
      MaskedHigh(r[i]);
    }
    assert AndBytes(r, ClampBytes()) == Clamped(r);
  }

  lemma MaskIs128(x: nat)
    ensures BitAnd(x, TWO_128 - 1) == x % TWO_128
    ensures Pow256(16) == TWO_128
  {
    Pow256IsPow2(16);
    AndMask(x, 128);
    assert Pow256(4) == 256 * Pow256(3) && Pow256(3) == 256 * Pow256(2) && Pow256(2) == 256 * Pow256(1);
    assert Pow256(8) == 256 * Pow256(7) && Pow256(7) == 256 * Pow256(6) && Pow256(6) == 256 * Pow256(5);
    assert Pow256(5) == 256 * Pow256(4) && Pow256(9) == 256 * Pow256(8) && Pow256(10) == 256 * Pow256(9);
    assert Pow256(11) == 256 * Pow256(10) && Pow256(12) == 256 * Pow256(11) && Pow256(13) == 256 * Pow256(12);
    assert Pow256(14) == 256 * Pow256(13) && Pow256(15) == 256 * Pow256(14) && Pow256(16) == 256 * Pow256(15);
  }

  /** `_poly1305`. */
  method Poly1305Tag(key: seq<byte>, message: seq<byte>) returns (tag: seq<byte>)
    requires |key| == 32
    ensures tag == Tag(key, message)
  {
    hide FromLE, BitAnd, Polynomial, Clamped;
    var r := BitAnd(FromLE(key[..16]), CLAMP);
    ClampMask(key[..16]);
    var s := FromLE(key[16..]);
    var accumulator := 0;
    var offset := 0;
    while offset < |message|
      invariant offset == 16 * (offset / 16) && offset / 16 <= BlockCount(message)
      invariant accumulator == Accumulate(0, message, r, offset / 16)
    {
      var end := if offset + 16 <= |message| then offset + 16 else |message|;
      var block := message[offset..end] + [1];
      accumulator := ((accumulator + FromLE(block)) * r) % P;
      offset := offset + 16;
    }
    assert offset / 16 == BlockCount(message);
    HornerIsPolynomial(message, r, BlockCount(message));
    MaskIs128(accumulator + s);
    tag := ToLE(BitAnd(accumulator + s, TWO_128 - 1), 16);
  }
}
