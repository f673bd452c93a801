/** The ChaCha20 keystream of the pure-Python cipher, against RFC 8439. */
module ChaCha20 {
  import opened Text
  import opened Bits

  type Word = w: int | 0 <= w < 0x1_0000_0000

  const M: Word := 0xFFFF_FFFF

  /** The sixteen words of a block's state. */
  datatype State = State(
    x0: Word, x1: Word, x2: Word, x3: Word, x4: Word, x5: Word, x6: Word, x7: Word,
    x8: Word, x9: Word, x10: Word, x11: Word, x12: Word, x13: Word, x14: Word, x15: Word)

  // ---- Sections 2.1 to 2.4 of RFC 8439 -------------------------------------------

  function Plus(a: Word, b: Word): Word { (a + b) % 0x1_0000_0000 }

  function Xor(a: Word, b: Word): Word {
    Pow2Of32();
    XorBound(a, b, 32);
    BitXor(a, b)
  }

  /** The n high bits of a word come back in at the bottom. */
  function Rotl(w: Word, n: nat): Word
    requires 0 < n < 32
  {
    RotlFits(w, n);
    Pow2(n) * (w % Pow2(32 - n)) + w / Pow2(32 - n)
  }

  /** Section 2.1: the quarter round on four words. */
  function Quarter(a: Word, b: Word, c: Word, d: Word): (Word, Word, Word, Word) {
    var a1 := Plus(a, b); var d1 := Rotl(Xor(d, a1), 16);
    var c1 := Plus(c, d1); var b1 := Rotl(Xor(b, c1), 12);
    var a2 := Plus(a1, b1); var d2 := Rotl(Xor(d1, a2), 8);
    var c2 := Plus(c1, d2); var b2 := Rotl(Xor(b1, c2), 7);
    (a2, b2, c2, d2)
  }

  /** Sections 2.2 and 2.3: quarter rounds on the columns, then on the diagonals. */
  function DoubleRound(s: State): State {
    var (a0, a4, a8, a12) := Quarter(s.x0, s.x4, s.x8, s.x12);
    var (a1, a5, a9, a13) := Quarter(s.x1, s.x5, s.x9, s.x13);
    var (a2, a6, a10, a14) := Quarter(s.x2, s.x6, s.x10, s.x14);
    var (a3, a7, a11, a15) := Quarter(s.x3, s.x7, s.x11, s.x15);
    var (b0, b5, b10, b15) := Quarter(a0, a5, a10, a15);
    var (b1, b6, b11, b12) := Quarter(a1, a6, a11, a12);
    var (b2, b7, b8, b13) := Quarter(a2, a7, a8, a13);
    var (b3, b4, b9, b14) := Quarter(a3, a4, a9, a14);
    State(b0, b1, b2, b3, b4, b5, b6, b7, b8, b9, b10, b11, b12, b13, b14, b15)
  }

  function DoubleRounds(s: State, n: nat): State {
    if n == 0 then s else DoubleRound(DoubleRounds(s, n - 1))
  }

  /** Little-endian words of a byte string. */
  function WordsOf(s: seq<byte>, n: nat): (words: seq<Word>)
    requires |s| == 4 * n
    ensures |words| == n
  {
    if n == 0 then [] else
      WordBound(s[..4]);
      [FromLE(s[..4])] + WordsOf(s[4..], n - 1)
  }

  function BytesOf(words: seq<Word>): (s: seq<byte>)
    ensures |s| == 4 * |words|
  {
    if words == [] then [] else ToLE(words[0], 4) + BytesOf(words[1..])
  }

  /** Section 2.3: constants, key, counter, nonce. */
  function InitialState(key: seq<byte>, counter: nat, nonce: seq<byte>): State
    requires |key| == 32 && |nonce| == 12
  {
    var k, n := WordsOf(key, 8), WordsOf(nonce, 3);
    State(0x61707865, 0x3320646E, 0x79622D32, 0x6B206574, k[0], k[1], k[2], k[3],
          k[4], k[5], k[6], k[7], counter % 0x1_0000_0000, n[0], n[1], n[2])
  }

  /** Section 2.3: the words of two states added, in order. */
  function Sum(a: State, b: State): (words: seq<Word>)
    ensures |words| == 16
  {
    [Plus(a.x0, b.x0), Plus(a.x1, b.x1), Plus(a.x2, b.x2), Plus(a.x3, b.x3),
     Plus(a.x4, b.x4), Plus(a.x5, b.x5), Plus(a.x6, b.x6), Plus(a.x7, b.x7),
     Plus(a.x8, b.x8), Plus(a.x9, b.x9), Plus(a.x10, b.x10), Plus(a.x11, b.x11),
     Plus(a.x12, b.x12), Plus(a.x13, b.x13), Plus(a.x14, b.x14), Plus(a.x15, b.x15)]
  }

  /** Section 2.3: the block function. */
  function Block(key: seq<byte>, counter: nat, nonce: seq<byte>): (block: seq<byte>)
    requires |key| == 32 && |nonce| == 12
    ensures |block| == 64
  {
    var initial := InitialState(key, counter, nonce);
    BytesOf(Sum(DoubleRounds(initial, 10), initial))
  }

  /** Section 2.4: consecutive blocks, the counter running on. */
  function Blocks(key: seq<byte>, counter: nat, nonce: seq<byte>, n: nat): (s: seq<byte>)
    requires |key| == 32 && |nonce| == 12
    ensures |s| == 64 * n
  {
    if n == 0 then [] else Blocks(key, counter, nonce, n - 1) + Block(key, counter + n - 1, nonce)
  }

  function Keystream(key: seq<byte>, counter: nat, nonce: seq<byte>, length: nat): (s: seq<byte>)
    requires |key| == 32 && |nonce| == 12
    ensures |s| == length
  {
    Blocks(key, counter, nonce, (length + 63) / 64)[..length]
  }

  lemma {:induction false} BlocksAt(key: seq<byte>, counter: nat, nonce: seq<byte>, n: nat, i: nat)
    requires |key| == 32 && |nonce| == 12 && i < 64 * n
    ensures Blocks(key, counter, nonce, n)[i] == Block(key, counter + i / 64, nonce)[i % 64]
  {
    hide Block;
    if i < 64 * (n - 1) {
      BlocksAt(key, counter, nonce, n - 1, i);
    } else {
      RemainderIs(i, 64, n - 1, i - 64 * (n - 1));
    }
  }

  /** Byte i of the stream is byte i mod 64 of block i div 64, and the counter wraps at 32 bits. */
  lemma KeystreamAt(key: seq<byte>, counter: nat, nonce: seq<byte>, length: nat, i: nat)
    requires |key| == 32 && |nonce| == 12 && i < length
    ensures Keystream(key, counter, nonce, length)[i]
         == Block(key, (counter + i / 64) % 0x1_0000_0000, nonce)[i % 64]
  {
    hide Block;
    BlocksAt(key, counter, nonce, (length + 63) / 64, i);
    CounterWraps(key, counter + i / 64, nonce);
  }

  lemma CounterWraps(key: seq<byte>, counter: nat, nonce: seq<byte>)
    requires |key| == 32 && |nonce| == 12
    ensures Block(key, counter, nonce) == Block(key, counter % 0x1_0000_0000, nonce)
  {
    hide WordsOf, BytesOf, Sum, DoubleRounds;
    assert InitialState(key, counter, nonce) == InitialState(key, counter % 0x1_0000_0000, nonce);
  }

  /** A shorter stream is a prefix of a longer one. */
  lemma KeystreamPrefix(key: seq<byte>, counter: nat, nonce: seq<byte>, m: nat, n: nat)
    requires |key| == 32 && |nonce| == 12 && m <= n
    ensures Keystream(key, counter, nonce, m) == Keystream(key, counter, nonce, n)[..m]
  {
    hide Keystream, Block;
    forall i | 0 <= i < m
      ensures Keystream(key, counter, nonce, m)[i] == Keystream(key, counter, nonce, n)[i]
    {
      KeystreamAt(key, counter, nonce, m, i);
      KeystreamAt(key, counter, nonce, n, i);
    }
  }

  // ---- Words --------------------------------------------------------------------------

  lemma Pow2Of32()
    ensures Pow2(32) == 0x1_0000_0000
  {
    Pow256IsPow2(4);
    assert Pow256(4) == 256 * Pow256(3) && Pow256(3) == 256 * Pow256(2) && Pow256(2) == 256 * Pow256(1);
  }

  lemma WordBound(s: seq<byte>)
    requires |s| == 4
    ensures FromLE(s) < 0x1_0000_0000
  {
    FromLEBound(s);
    assert Pow256(4) == 256 * Pow256(3) && Pow256(3) == 256 * Pow256(2) && Pow256(2) == 256 * Pow256(1);
  }

  lemma {:induction false} Pow2Add(a: nat, b: nat)
    ensures Pow2(a) * Pow2(b) == Pow2(a + b)
  {
    if a > 0 {
      Pow2Add(a - 1, b);
      DoubleTimes(Pow2(a - 1), Pow2(b));
    }
  }

  lemma Product(a: nat, b: nat, c: nat)
    requires a < c
    ensures b * a + b <= b * c
  {
    var k := c - a - 1;
    assert b * c == b * a + b + b * k;
  }

  /** A word split n bits from the top, and its two parts. */
  lemma RotlFits(w: Word, n: nat)
    requires 0 < n < 32
    ensures w / Pow2(32 - n) < Pow2(n)
    ensures 0 <= Pow2(n) * (w % Pow2(32 - n)) + w / Pow2(32 - n) < 0x1_0000_0000
    ensures Pow2(n) * w == 0x1_0000_0000 * (w / Pow2(32 - n)) + Pow2(n) * (w % Pow2(32 - n))
    ensures Pow2(n) * (w % Pow2(32 - n)) < 0x1_0000_0000
  {
    hide Pow2;
    Pow2Of32();
    Pow2Add(n, 32 - n);
    SplitWord(w, Pow2(n), Pow2(32 - n), 0x1_0000_0000);
  }

  lemma SplitWord(w: nat, p: nat, q: nat, all: nat)
    requires p > 0 && q > 0 && p * q == all && w < all
    ensures w / q < p
    ensures p * (w % q) + w / q < all
    ensures p * w == all * (w / q) + p * (w % q)
    ensures p * (w % q) < all
  {
    var high, low := w / q, w % q;
    assert w == q * high + low;
    if high >= p { ProductMono(q, p, high); }
    Product(low, p, q);
    assert p * w == p * (q * high) + p * low;
    assert p * (q * high) == p * q * high;
  }

  lemma ProductMono(q: nat, a: nat, b: nat)
    requires a <= b
    ensures a * q <= q * b
  {
    assert q * b == a * q + q * (b - a);
  }

  /** The source's addition: an unbounded sum and a mask. */
  function AddMasked(a: Word, b: Word): (r: Word)
    ensures r == Plus(a, b)
  {
    Pow2Of32();
    AndMask(a + b, 32);
    BitAnd(a + b, M)
  }

  lemma ShiftedLeft(t: Word, n: nat)
    requires 0 < n < 32
    ensures BitAnd(Pow2(n) * t, M) == Pow2(n) * (t % Pow2(32 - n))
  {
    hide Pow2, BitAnd;
    Pow2Of32();
    RotlFits(t, n);
    AndMask(Pow2(n) * t, 32);
    RemainderIs(Pow2(n) * t, 0x1_0000_0000, t / Pow2(32 - n), Pow2(n) * (t % Pow2(32 - n)));
  }

  /** The source's rotation: a masked shift left and a shift right, joined by or. */
  function ShiftOr(t: Word, n: nat): (r: Word)
    requires 0 < n < 32
    ensures r == Rotl(t, n)
  {
    hide Pow2, BitAnd, BitOr;
    RotlFits(t, n);
    ShiftedLeft(t, n);
    OrJoins(t % Pow2(32 - n), t / Pow2(32 - n), n);
    BitOr(BitAnd(Pow2(n) * t, M), t / Pow2(32 - n))
  }

  // ---- The unrolled loop -------------------------------------------------------------

  /** The inner loop of `_chacha20_keystream`: ten double rounds on sixteen local variables. */
  method TwentyRounds(s: State) returns (r: State)
    ensures r == DoubleRounds(s, 10)
  {
    hide AddMasked, ShiftOr, Plus, Rotl, Xor;
    var x0, x1, x2, x3, x4, x5, x6, x7 := s.x0, s.x1, s.x2, s.x3, s.x4, s.x5, s.x6, s.x7;
    var x8, x9, x10, x11, x12, x13, x14, x15 := s.x8, s.x9, s.x10, s.x11, s.x12, s.x13, s.x14, s.x15;
    for n := 0 to 10
      invariant State(x0, x1, x2, x3, x4, x5, x6, x7, x8, x9, x10, x11, x12, x13, x14, x15) == DoubleRounds(s, n)
    {
      var t: Word;
      x0 := AddMasked(x0, x4); t := Xor(x12, x0); x12 := ShiftOr(t, 16);
      x8 := AddMasked(x8, x12); t := Xor(x4, x8); x4 := ShiftOr(t, 12);
      x0 := AddMasked(x0, x4); t := Xor(x12, x0); x12 := ShiftOr(t, 8);
      x8 := AddMasked(x8, x12); t := Xor(x4, x8); x4 := ShiftOr(t, 7);
      x1 := AddMasked(x1, x5); t := Xor(x13, x1); x13 := ShiftOr(t, 16);
      x9 := AddMasked(x9, x13); t := Xor(x5, x9); x5 := ShiftOr(t, 12);
      x1 := AddMasked(x1, x5); t := Xor(x13, x1); x13 := ShiftOr(t, 8);
      x9 := AddMasked(x9, x13); t := Xor(x5, x9); x5 := ShiftOr(t, 7);
      x2 := AddMasked(x2, x6); t := Xor(x14, x2); x14 := ShiftOr(t, 16);
      x10 := AddMasked(x10, x14); t := Xor(x6, x10); x6 := ShiftOr(t, 12);
      x2 := AddMasked(x2, x6); t := Xor(x14, x2); x14 := ShiftOr(t, 8);
      x10 := AddMasked(x10, x14); t := Xor(x6, x10); x6 := ShiftOr(t, 7);
      x3 := AddMasked(x3, x7); t := Xor(x15, x3); x15 := ShiftOr(t, 16);
      x11 := AddMasked(x11, x15); t := Xor(x7, x11); x7 := ShiftOr(t, 12);
      x3 := AddMasked(x3, x7); t := Xor(x15, x3); x15 := ShiftOr(t, 8);
      x11 := AddMasked(x11, x15); t := Xor(x7, x11); x7 := ShiftOr(t, 7);
      x0 := AddMasked(x0, x5); t := Xor(x15, x0); x15 := ShiftOr(t, 16);
      x10 := AddMasked(x10, x15); t := Xor(x5, x10); x5 := ShiftOr(t, 12);
      x0 := AddMasked(x0, x5); t := Xor(x15, x0); x15 := ShiftOr(t, 8);
      x10 := AddMasked(x10, x15); t := Xor(x5, x10); x5 := ShiftOr(t, 7);
      x1 := AddMasked(x1, x6); t := Xor(x12, x1); x12 := ShiftOr(t, 16);
      x11 := AddMasked(x11, x12); t := Xor(x6, x11); x6 := ShiftOr(t, 12);
      x1 := AddMasked(x1, x6); t := Xor(x12, x1); x12 := ShiftOr(t, 8);
      x11 := AddMasked(x11, x12); t := Xor(x6, x11); x6 := ShiftOr(t, 7);
      x2 := AddMasked(x2, x7); t := Xor(x13, x2); x13 := ShiftOr(t, 16);
      x8 := AddMasked(x8, x13); t := Xor(x7, x8); x7 := ShiftOr(t, 12);
      x2 := AddMasked(x2, x7); t := Xor(x13, x2); x13 := ShiftOr(t, 8);
      x8 := AddMasked(x8, x13); t := Xor(x7, x8); x7 := ShiftOr(t, 7);
      x3 := AddMasked(x3, x4); t := Xor(x14, x3); x14 := ShiftOr(t, 16);
      x9 := AddMasked(x9, x14); t := Xor(x4, x9); x4 := ShiftOr(t, 12);
      x3 := AddMasked(x3, x4); t := Xor(x14, x3); x14 := ShiftOr(t, 8);
      x9 := AddMasked(x9, x14); t := Xor(x4, x9); x4 := ShiftOr(t, 7);
    }
    r := State(x0, x1, x2, x3, x4, x5, x6, x7, x8, x9, x10, x11, x12, x13, x14, x15);
  }

  lemma MaskedCounter(counter: nat)
    ensures BitAnd(counter, M) == counter % 0x1_0000_0000
  {
    Pow2Of32();
    AndMask(counter, 32);
  }

  /** `_chacha20_keystream`. */
  method ChaCha20Keystream(key: seq<byte>, counter: nat, nonce: seq<byte>, length: nat)
    returns (stream: seq<byte>)
    requires |key| == 32 && |nonce| == 12
    ensures stream == Keystream(key, counter, nonce, length)
  {
    hide WordsOf, Plus, BytesOf, AddMasked, BitAnd, DoubleRounds;
    var k, n := WordsOf(key, 8), WordsOf(nonce, 3);
    var blocks: seq<byte> := [];
    for index := 0 to (length + 63) / 64
      invariant blocks == Blocks(key, counter, nonce, index)
    {
      MaskedCounter(counter + index);
      var c := BitAnd(counter + index, M);
      var s := State(0x61707865, 0x3320646E, 0x79622D32, 0x6B206574, k[0], k[1], k[2], k[3],
                     k[4], k[5], k[6], k[7], c, n[0], n[1], n[2]);
      var x := TwentyRounds(s);
      var words := [
        AddMasked(x.x0, 0x61707865), AddMasked(x.x1, 0x3320646E),
        AddMasked(x.x2, 0x79622D32), AddMasked(x.x3, 0x6B206574),
        AddMasked(x.x4, k[0]), AddMasked(x.x5, k[1]), AddMasked(x.x6, k[2]), AddMasked(x.x7, k[3]),
        AddMasked(x.x8, k[4]), AddMasked(x.x9, k[5]), AddMasked(x.x10, k[6]), AddMasked(x.x11, k[7]),
        AddMasked(x.x12, c), AddMasked(x.x13, n[0]), AddMasked(x.x14, n[1]), AddMasked(x.x15, n[2])];
      assert words == Sum(x, s);
      blocks := blocks + BytesOf(words);
    }
    stream := blocks[..length];
  }
}
