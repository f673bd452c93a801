/** Python's bit operators on unbounded integers, and little-endian conversions. */
module Bits {
  import opened Text

  function Pow2(n: nat): (p: nat)
    ensures p > 0
  {
    if n == 0 then 1 else 2 * Pow2(n - 1)
  }

  function BitXor(a: nat, b: nat): nat {
    if a == 0 && b == 0 then 0 else 2 * BitXor(a / 2, b / 2) + (a % 2 + b % 2) % 2
  }

  function BitAnd(a: nat, b: nat): nat {
    if a == 0 || b == 0 then 0 else 2 * BitAnd(a / 2, b / 2) + (a % 2) * (b % 2)
  }

  function BitOr(a: nat, b: nat): nat {
    if a == 0 && b == 0 then 0 else 2 * BitOr(a / 2, b / 2) + (if a % 2 == 1 || b % 2 == 1 then 1 else 0)
  }

  /** One binary digit of an exclusive or, whatever the higher digits are. */
  lemma XorDigit(x: nat, y: nat, i: nat, j: nat)
    requires i < 2 && j < 2
    ensures BitXor(2 * x + i, 2 * y + j) == 2 * BitXor(x, y) + (i + j) % 2
  {
    assert (2 * x + i) / 2 == x && (2 * y + j) / 2 == y;
  }

  lemma XorInvertsStep(x: nat, y: nat, i: nat, j: nat)
    requires i < 2 && j < 2 && BitXor(BitXor(x, y), y) == x
    ensures BitXor(BitXor(2 * x + i, 2 * y + j), 2 * y + j) == 2 * x + i
  {
    hide BitXor;
    XorDigit(x, y, i, j);
    XorDigit(BitXor(x, y), y, (i + j) % 2, j);
  }

  lemma {:induction false} XorInverts(a: nat, b: nat)
    ensures BitXor(BitXor(a, b), b) == a
  {
    hide BitXor;
    if a == 0 && b == 0 {
      XorZero(0);
    } else {
      XorInverts(a / 2, b / 2);
      XorInvertsStep(a / 2, b / 2, a % 2, b % 2);
      assert a == 2 * (a / 2) + a % 2 && b == 2 * (b / 2) + b % 2;
    }
  }

  lemma {:induction false} XorBound(a: nat, b: nat, n: nat)
    requires a < Pow2(n) && b < Pow2(n)
    ensures BitXor(a, b) < Pow2(n)
  {
    if n > 0 && (a != 0 || b != 0) {
      XorBound(a / 2, b / 2, n - 1);
    }
  }

  lemma XorZero(b: nat)
    ensures BitXor(0, b) == b && BitXor(b, 0) == b && BitAnd(b, 0) == 0 && BitAnd(0, b) == 0
  {
  }

  lemma DoubleTimes(p: nat, y: nat)
    ensures (2 * p) * y == 2 * (p * y)
  {
  }

  lemma XorSplitStep(x: nat, u: nat, py: nat, pv: nat, pxor: nat)
    requires BitXor(x / 2 + py, u / 2 + pv) == BitXor(x / 2, u / 2) + pxor
    ensures BitXor(x + 2 * py, u + 2 * pv) == BitXor(x, u) + 2 * pxor
  {
    hide BitXor;
    XorDigit(x / 2 + py, u / 2 + pv, x % 2, u % 2);
    XorDigit(x / 2, u / 2, x % 2, u % 2);
    assert 2 * (x / 2 + py) + x % 2 == x + 2 * py;
    assert 2 * (u / 2 + pv) + u % 2 == u + 2 * pv;
    assert 2 * (x / 2) + x % 2 == x && 2 * (u / 2) + u % 2 == u;
  }

  /** Digits below position `n` and above it do not meet. */
  lemma {:induction false} XorSplit(n: nat, x: nat, y: nat, u: nat, v: nat)
    requires x < Pow2(n) && u < Pow2(n)
    ensures BitXor(x + Pow2(n) * y, u + Pow2(n) * v) == BitXor(x, u) + Pow2(n) * BitXor(y, v)
  {
    hide BitXor;
    if n > 0 {
      var p := Pow2(n - 1);
      XorSplit(n - 1, x / 2, y, u / 2, v);
      DoubleTimes(p, y);
      DoubleTimes(p, v);
      DoubleTimes(p, BitXor(y, v));
      XorSplitStep(x, u, p * y, p * v, p * BitXor(y, v));
    } else {
      XorZero(0);
    }
  }

  lemma AndDigit(x: nat, y: nat, i: nat, j: nat)
    requires i < 2 && j < 2
    ensures BitAnd(2 * x + i, 2 * y + j) == 2 * BitAnd(x, y) + i * j
  {
    assert (2 * x + i) / 2 == x && (2 * y + j) / 2 == y;
  }

  lemma AndSplitStep(x: nat, u: nat, py: nat, pv: nat, pand: nat)
    requires BitAnd(x / 2 + py, u / 2 + pv) == BitAnd(x / 2, u / 2) + pand
    ensures BitAnd(x + 2 * py, u + 2 * pv) == BitAnd(x, u) + 2 * pand
  {
    hide BitAnd;
    AndDigit(x / 2 + py, u / 2 + pv, x % 2, u % 2);
    AndDigit(x / 2, u / 2, x % 2, u % 2);
    assert 2 * (x / 2 + py) + x % 2 == x + 2 * py;
    assert 2 * (u / 2 + pv) + u % 2 == u + 2 * pv;
    assert 2 * (x / 2) + x % 2 == x && 2 * (u / 2) + u % 2 == u;
  }

  lemma {:induction false} AndSplit(n: nat, x: nat, y: nat, u: nat, v: nat)
    requires x < Pow2(n) && u < Pow2(n)
    ensures BitAnd(x + Pow2(n) * y, u + Pow2(n) * v) == BitAnd(x, u) + Pow2(n) * BitAnd(y, v)
  {
    hide BitAnd;
    if n > 0 {
      var p := Pow2(n - 1);
      AndSplit(n - 1, x / 2, y, u / 2, v);
      DoubleTimes(p, y);
      DoubleTimes(p, v);
      DoubleTimes(p, BitAnd(y, v));
      AndSplitStep(x, u, p * y, p * v, p * BitAnd(y, v));
    } else {
      XorZero(0);
    }
  }

  lemma DivModDouble(x: nat, p: nat)
    requires p > 0
    ensures x % (2 * p) == 2 * (x / 2 % p) + x % 2
  {
    var h := x / 2;
    var q := h / p;
    DoubleTimes(p, q);
    assert p * q + h % p == h;
    var r := 2 * (h % p) + x % 2;
    assert x == (2 * p) * q + r && 0 <= r < 2 * p;
    RemainderIs(x, 2 * p, q, r);
  }

  lemma {:induction false} MultipleIsLarge(d: nat, k: nat)
    requires k > 0
    ensures d * k >= d
  {
    if k > 1 {
      MultipleIsLarge(d, k - 1);
      assert d * k == d * (k - 1) + d;
    }
  }

  lemma MultipleIsFar(d: int, k: int)
    requires d > 0 && k != 0
    ensures d * k >= d || d * k <= -d
  {
    if k > 0 {
      MultipleIsLarge(d, k);
    } else {
      MultipleIsLarge(d, -k);
      assert d * k == -(d * -k);
    }
  }

  lemma RemainderIs(x: int, d: int, q: int, r: int)
    requires d > 0 && x == d * q + r && 0 <= r < d
    ensures x % d == r && x / d == q
  {
    var k := q - x / d;
    assert d * k == d * q - d * (x / d) == x % d - r;
    if k != 0 { MultipleIsFar(d, k); }
  }

  /** Masking with n ones keeps the n low digits. */
  lemma {:induction false} AndMask(x: nat, n: nat)
    ensures BitAnd(x, Pow2(n) - 1) == x % Pow2(n)
  {
    hide BitAnd;
    if n == 0 {
      XorZero(x);
    } else {
      var p := Pow2(n - 1);
      AndMask(x / 2, n - 1);
      AndDigit(x / 2, p - 1, x % 2, 1);
      assert 2 * (x / 2) + x % 2 == x && 2 * (p - 1) + 1 == Pow2(n) - 1;
      DivModDouble(x, p);
    }
  }

  lemma OrDigit(x: nat, y: nat, i: nat, j: nat)
    requires i < 2 && j < 2
    ensures BitOr(2 * x + i, 2 * y + j) == 2 * BitOr(x, y) + (if i == 1 || j == 1 then 1 else 0)
  {
    assert (2 * x + i) / 2 == x && (2 * y + j) / 2 == y;
  }

  lemma {:induction false} OrZero(x: nat)
    ensures BitOr(x, 0) == x
  {
    if x > 0 { OrZero(x / 2); }
  }

  /** Digits above position `n` and digits below it are joined by addition. */
  lemma {:induction false} OrJoins(high: nat, low: nat, n: nat)
    requires low < Pow2(n)
    ensures BitOr(Pow2(n) * high, low) == Pow2(n) * high + low
  {
    hide BitOr;
    if n == 0 {
      OrZero(high);
    } else {
      var p := Pow2(n - 1);
      OrJoins(high, low / 2, n - 1);
      DoubleTimes(p, high);
      OrDigit(p * high, low / 2, 0, low % 2);
    }
  }

  // ---- Bytes ---------------------------------------------------------------------

  /** `int.from_bytes(s, "little")`. */
  function FromLE(s: seq<byte>): nat {
    if s == [] then 0 else s[0] + 256 * FromLE(s[1..])
  }

  /** `x.to_bytes(n, "little")` of a number that fits. */
  function ToLE(x: nat, n: nat): (s: seq<byte>)
    ensures |s| == n
  {
    if n == 0 then [] else [x % 256] + ToLE(x / 256, n - 1)
  }

  function Pow256(n: nat): (p: nat)
    ensures p > 0
  {
    if n == 0 then 1 else 256 * Pow256(n - 1)
  }

  lemma {:induction false} FromLEBound(s: seq<byte>)
    ensures FromLE(s) < Pow256(|s|)
  {
    if s != [] { FromLEBound(s[1..]); }
  }

  lemma {:induction false} FromToLE(x: nat, n: nat)
    requires x < Pow256(n)
    ensures FromLE(ToLE(x, n)) == x
  {
    if n > 0 {
      FromToLE(x / 256, n - 1);
      assert ToLE(x, n)[1..] == ToLE(x / 256, n - 1);
    }
  }

  lemma {:induction false} ToFromLE(s: seq<byte>)
    ensures ToLE(FromLE(s), |s|) == s
  {
    if s != [] {
      ToFromLE(s[1..]);
      assert FromLE(s) % 256 == s[0] && FromLE(s) / 256 == FromLE(s[1..]);
    }
  }

  lemma {:induction false} FromLEAppend(a: seq<byte>, b: seq<byte>)
    ensures FromLE(a + b) == FromLE(a) + Pow256(|a|) * FromLE(b)
  {
    if a == [] {
      assert a + b == b;
    } else {
      assert (a + b)[1..] == a[1..] + b;
      FromLEAppend(a[1..], b);
      Times256(Pow256(|a| - 1), FromLE(b));
    }
  }

  lemma Times256(p: nat, y: nat)
    ensures (256 * p) * y == 256 * (p * y)
  {
  }

  lemma {:induction false} Pow256IsPow2(n: nat)
    ensures Pow256(n) == Pow2(8 * n)
  {
    if n > 0 {
      Pow256IsPow2(n - 1);
      var k := 8 * (n - 1);
      assert Pow2(k + 8) == 2 * Pow2(k + 7) && Pow2(k + 7) == 2 * Pow2(k + 6) && Pow2(k + 6) == 2 * Pow2(k + 5);
      assert Pow2(k + 5) == 2 * Pow2(k + 4) && Pow2(k + 4) == 2 * Pow2(k + 3) && Pow2(k + 3) == 2 * Pow2(k + 2);
      assert Pow2(k + 2) == 2 * Pow2(k + 1) && Pow2(k + 1) == 2 * Pow2(k);
    }
  }

  lemma Pow2Of8()
    ensures Pow2(8) == 256
  {
    Pow256IsPow2(1);
  }

  function XorByte(a: byte, b: byte): byte {
    Pow2Of8();
    XorBound(a, b, 8);
    BitXor(a, b)
  }

  function XorBytes(a: seq<byte>, b: seq<byte>): seq<byte>
    requires |a| == |b|
  {
    seq(|a|, i requires 0 <= i < |a| => XorByte(a[i], b[i]))
  }

  /** The exclusive or of two little-endian numbers is the one of their bytes. */
  lemma {:induction false} XorOfBytes(a: seq<byte>, b: seq<byte>)
    requires |a| == |b|
    ensures BitXor(FromLE(a), FromLE(b)) == FromLE(XorBytes(a, b))
  {
    hide BitXor;
    if a == [] {
      XorZero(0);
    } else {
      XorOfBytes(a[1..], b[1..]);
      Pow2Of8();
      XorSplit(8, a[0], FromLE(a[1..]), b[0], FromLE(b[1..]));
      assert XorBytes(a, b)[1..] == XorBytes(a[1..], b[1..]);
    }
  }

  function AndByte(a: byte, b: byte): byte {
    AndBound(a, b);
    BitAnd(a, b)
  }

  lemma {:induction false} AndBound(a: nat, b: nat)
    ensures BitAnd(a, b) <= a
  {
    if a != 0 && b != 0 { AndBound(a / 2, b / 2); }
  }

  function AndBytes(a: seq<byte>, b: seq<byte>): seq<byte>
    requires |a| == |b|
  {
    seq(|a|, i requires 0 <= i < |a| => AndByte(a[i], b[i]))
  }

  lemma {:induction false} AndOfBytes(a: seq<byte>, b: seq<byte>)
    requires |a| == |b|
    ensures BitAnd(FromLE(a), FromLE(b)) == FromLE(AndBytes(a, b))
  {
    hide BitAnd;
    if a == [] {
      XorZero(0);
    } else {
      AndOfBytes(a[1..], b[1..]);
      Pow2Of8();
      AndSplit(8, a[0], FromLE(a[1..]), b[0], FromLE(b[1..]));
      assert AndBytes(a, b)[1..] == AndBytes(a[1..], b[1..]);
    }
  }
}
