/** The framings and the authenticated cipher of the content seal (section 2.8 of RFC 8439). */
module Aead {
  import opened Prelude
  import opened Text
  import opened Bits
  import opened ChaCha20
  import opened Poly1305

  const TAG_LENGTH := 16
  const U64 := 0x1_0000_0000_0000_0000

  datatype SealError = Malformed | DoesNotOpen

  // ---- Unsigned 64-bit lengths -------------------------------------------------------

  function Reverse(s: seq<byte>): (r: seq<byte>)
    ensures |r| == |s|
  {
    seq(|s|, i requires 0 <= i < |s| => s[|s| - 1 - i])
  }

  /** `struct.pack("<Q", n)`. */
  function LittleLength(n: nat): (s: seq<byte>)
    requires n < U64
    ensures |s| == 8
  {
    ToLE(n, 8)
  }

  /** `struct.pack(">Q", n)`. */
  function BigLength(n: nat): (s: seq<byte>)
    requires n < U64
    ensures |s| == 8
  {
    Reverse(ToLE(n, 8))
  }

  lemma LengthsAreInjective(m: nat, n: nat)
    requires m < U64 && n < U64
    ensures LittleLength(m) == LittleLength(n) ==> m == n
    ensures BigLength(m) == BigLength(n) ==> m == n
  {
    assert Pow256(8) == U64 by {
      assert Pow256(4) == 256 * Pow256(3) && Pow256(3) == 256 * Pow256(2) && Pow256(2) == 256 * Pow256(1);
      assert Pow256(8) == 256 * Pow256(7) && Pow256(7) == 256 * Pow256(6) && Pow256(6) == 256 * Pow256(5);
      assert Pow256(5) == 256 * Pow256(4);
    }
    hide Pow256, FromLE, ToLE;
    FromToLE(m, 8);
    FromToLE(n, 8);
    var a, b := ToLE(m, 8), ToLE(n, 8);
    if Reverse(a) == Reverse(b) {
      forall i | 0 <= i < 8 ensures a[i] == b[i] {
        assert Reverse(a)[7 - i] == a[i] && Reverse(b)[7 - i] == b[i];
      }
      assert a == b;
    }
  }

  // ---- Length-prefixed parts ----------------------------------------------------------

  ghost predicate Sized(parts: seq<seq<byte>>) {
    forall i :: 0 <= i < |parts| ==> |parts[i]| < U64
  }

  /** `_length_prefixed`. */
  function LengthPrefixed(parts: seq<seq<byte>>): seq<byte>
    requires Sized(parts)
  {
    if parts == [] then []
    else BigLength(|parts[0]|) + parts[0] + LengthPrefixed(parts[1..])
  }

  /** The framing is uniquely decodable. */
  lemma {:induction false} LengthPrefixedInjective(a: seq<seq<byte>>, b: seq<seq<byte>>)
    requires Sized(a) && Sized(b)
    requires LengthPrefixed(a) == LengthPrefixed(b)
    ensures a == b
  {
    hide BigLength;
    if a != [] && b != [] {
      var fa, fb := LengthPrefixed(a), LengthPrefixed(b);
      assert fa[..8] == BigLength(|a[0]|) && fb[..8] == BigLength(|b[0]|);
      LengthsAreInjective(|a[0]|, |b[0]|);
      var n := |a[0]|;
      assert fa[8..8 + n] == a[0] && fb[8..8 + n] == b[0];
      assert fa[8 + n..] == LengthPrefixed(a[1..]) && fb[8 + n..] == LengthPrefixed(b[1..]);
      LengthPrefixedInjective(a[1..], b[1..]);
      assert a == [a[0]] + a[1..] && b == [b[0]] + b[1..];
    }
  }

  /** A labelled id, both UTF-8 encoded. */
  datatype Field = Field(name: seq<byte>, value: seq<byte>)

  /** Where a value lives: the store's registered name, a purpose and labelled ids. */
  datatype Place = Place(store: seq<byte>, purpose: seq<byte>, fields: seq<Field>)

  /** "ryu-content-seal-v1", "store", "purpose". */
  const AAD_LABEL: seq<byte> :=
    [114, 121, 117, 45, 99, 111, 110, 116, 101, 110, 116, 45, 115, 101, 97, 108, 45, 118, 49]
  const STORE_LABEL: seq<byte> := [115, 116, 111, 114, 101]
  const PURPOSE_LABEL: seq<byte> := [112, 117, 114, 112, 111, 115, 101]

  function FieldParts(fields: seq<Field>): (parts: seq<seq<byte>>)
    ensures |parts| == 2 * |fields|
  {
    if fields == [] then [] else [fields[0].name, fields[0].value] + FieldParts(fields[1..])
  }

  function Parts(place: Place): seq<seq<byte>> {
    [AAD_LABEL, STORE_LABEL, place.store, PURPOSE_LABEL, place.purpose] + FieldParts(place.fields)
  }

  /** `ContentContext.associated_data`. */
  function AssociatedData(place: Place): seq<byte>
    requires Sized(Parts(place))
  {
    LengthPrefixed(Parts(place))
  }

  lemma {:induction false} FieldPartsInjective(a: seq<Field>, b: seq<Field>)
    requires FieldParts(a) == FieldParts(b)
    ensures a == b
  {
    assert |a| == |b|;
    if a != [] {
      var pa, pb := FieldParts(a), FieldParts(b);
      assert pa[0] == pb[0] && pa[1] == pb[1];
      assert pa[2..] == FieldParts(a[1..]) && pb[2..] == FieldParts(b[1..]);
      FieldPartsInjective(a[1..], b[1..]);
      assert a == [a[0]] + a[1..] && b == [b[0]] + b[1..];
    }
  }

  /** Values in different places never share their associated data. */
  lemma PlacesAreSeparated(a: Place, b: Place)
    requires Sized(Parts(a)) && Sized(Parts(b))
    ensures AssociatedData(a) == AssociatedData(b) <==> a == b
  {
    if AssociatedData(a) == AssociatedData(b) {
      LengthPrefixedInjective(Parts(a), Parts(b));
      assert Parts(a)[2] == a.store && Parts(b)[2] == b.store;
      assert Parts(a)[4] == a.purpose && Parts(b)[4] == b.purpose;
      assert Parts(a)[5..] == FieldParts(a.fields) && Parts(b)[5..] == FieldParts(b.fields);
      FieldPartsInjective(a.fields, b.fields);
    }
  }

  // ---- The authenticated input ----------------------------------------------------------

  /** `_pad16`: zero bytes up to the next multiple of 16. */
  function Pad16(n: nat): (pad: seq<byte>)
    ensures (n + |pad|) % 16 == 0 && |pad| < 16
  {
    seq((16 - n % 16) % 16, _ => 0)
  }

  function MacInput(aad: seq<byte>, ciphertext: seq<byte>): (m: seq<byte>)
    requires |aad| < U64 && |ciphertext| < U64
    ensures |m| == |aad| + |Pad16(|aad|)| + |ciphertext| + |Pad16(|ciphertext|)| + 16
  {
    aad + Pad16(|aad|) + ciphertext + Pad16(|ciphertext|) + LittleLength(|aad|) + LittleLength(|ciphertext|)
  }

  /** What is authenticated determines the associated data and the ciphertext. */
  lemma MacInputInjective(a: seq<byte>, c: seq<byte>, a': seq<byte>, c': seq<byte>)
    requires |a| < U64 && |c| < U64 && |a'| < U64 && |c'| < U64
    ensures MacInput(a, c) == MacInput(a', c') <==> a == a' && c == c'
  {
    hide LittleLength;
    var m, m' := MacInput(a, c), MacInput(a', c');
    if m == m' {
      var n := |m|;
      assert m[n - 16..n - 8] == LittleLength(|a|) && m'[n - 16..n - 8] == LittleLength(|a'|);
      assert m[n - 8..] == LittleLength(|c|) && m'[n - 8..] == LittleLength(|c'|);
      LengthsAreInjective(|a|, |a'|);
      LengthsAreInjective(|c|, |c'|);
      assert m[..|a|] == a && m'[..|a|] == a';
      var k := |a| + |Pad16(|a|)|;
      assert m[k..k + |c|] == c && m'[k..k + |c|] == c';
    }
  }

  // ---- The cipher ---------------------------------------------------------------------

  /** `_chacha20_xor`: the data and the keystream as little-endian numbers. */
  function XorStream(key: seq<byte>, counter: nat, nonce: seq<byte>, data: seq<byte>): (r: seq<byte>)
    requires |key| == 32 && |nonce| == 12
    ensures |r| == |data|
  {
    if data == [] then []
    else ToLE(BitXor(FromLE(data), FromLE(Keystream(key, counter, nonce, |data|))), |data|)
  }

  /** Section 2.4: every byte of the data is combined with the byte of the keystream beside it. */
  lemma XorStreamIsBytewise(key: seq<byte>, counter: nat, nonce: seq<byte>, data: seq<byte>)
    requires |key| == 32 && |nonce| == 12
    ensures XorStream(key, counter, nonce, data) == XorBytes(data, Keystream(key, counter, nonce, |data|))
  {
    hide BitXor, Keystream, FromLE, ToLE;
    var stream := Keystream(key, counter, nonce, |data|);
    XorOfBytes(data, stream);
    ToFromLE(XorBytes(data, stream));
  }

  lemma XorStreamInverts(key: seq<byte>, counter: nat, nonce: seq<byte>, data: seq<byte>)
    requires |key| == 32 && |nonce| == 12
    ensures XorStream(key, counter, nonce, XorStream(key, counter, nonce, data)) == data
  {
    hide BitXor, Keystream, FromLE, ToLE, XorStream, XorByte;
    var stream := Keystream(key, counter, nonce, |data|);
    var mixed := XorStream(key, counter, nonce, data);
    XorStreamIsBytewise(key, counter, nonce, data);
    XorStreamIsBytewise(key, counter, nonce, mixed);
    forall i | 0 <= i < |data| ensures XorBytes(mixed, stream)[i] == data[i] {
      XorByteInverts(data[i], stream[i]);
    }
  }

  lemma XorByteInverts(a: byte, b: byte)
    ensures XorByte(XorByte(a, b), b) == a
  {
    XorInverts(a, b);
  }

  /** `_pure_tag`: the one-time key is the start of block zero. */
  function PureTag(key: seq<byte>, nonce: seq<byte>, aad: seq<byte>, ciphertext: seq<byte>): (tag: seq<byte>)
    requires |key| == 32 && |nonce| == 12 && |aad| < U64 && |ciphertext| < U64
    ensures |tag| == TAG_LENGTH
  {
    Tag(Keystream(key, 0, nonce, 64)[..32], MacInput(aad, ciphertext))
  }

  /** `aead_encrypt` without the `cryptography` package: ciphertext, then tag. */
  function AeadEncrypt(key: seq<byte>, nonce: seq<byte>, plaintext: seq<byte>, aad: seq<byte>): (sealed: seq<byte>)
    requires |key| == 32 && |nonce| == 12 && |aad| < U64 && |plaintext| < U64
    ensures |sealed| == |plaintext| + TAG_LENGTH
  {
    var ciphertext := XorStream(key, 1, nonce, plaintext);
    ciphertext + PureTag(key, nonce, aad, ciphertext)
  }

  /** `aead_decrypt` without the `cryptography` package. */
  function AeadDecrypt(key: seq<byte>, nonce: seq<byte>, sealed: seq<byte>, aad: seq<byte>): Result<seq<byte>, SealError>
    requires |key| == 32 && |nonce| == 12 && |aad| < U64 && |sealed| < U64
  {
    if |sealed| < TAG_LENGTH then Err(Malformed)
    else
      var ciphertext, tag := sealed[..|sealed| - TAG_LENGTH], sealed[|sealed| - TAG_LENGTH..];
      if PureTag(key, nonce, aad, ciphertext) != tag then Err(DoesNotOpen)
      else Ok(XorStream(key, 1, nonce, ciphertext))
  }

  /** Decryption is exactly the inverse of encryption: a value opens to a plaintext if and only if
      it is that plaintext sealed under the same key, nonce and associated data. */
  lemma OpensExactlyWhatWasSealed(
      key: seq<byte>, nonce: seq<byte>, sealed: seq<byte>, aad: seq<byte>, plaintext: seq<byte>)
    requires |key| == 32 && |nonce| == 12 && |aad| < U64 && |sealed| < U64 && |plaintext| < U64
    ensures AeadDecrypt(key, nonce, sealed, aad) == Ok(plaintext)
       <==> sealed == AeadEncrypt(key, nonce, plaintext, aad)
  {
    hide XorStream, PureTag;
    if |sealed| >= TAG_LENGTH {
      var ciphertext, tag := sealed[..|sealed| - TAG_LENGTH], sealed[|sealed| - TAG_LENGTH..];
      assert sealed == ciphertext + tag;
      XorStreamInverts(key, 1, nonce, ciphertext);
      XorStreamInverts(key, 1, nonce, plaintext);
      var again := XorStream(key, 1, nonce, plaintext);
      var full := AeadEncrypt(key, nonce, plaintext, aad);
      assert full[..|plaintext|] == again && full[|plaintext|..] == PureTag(key, nonce, aad, again);
    }
  }

  /** The seal in terms of one keystream that starts at block zero: its first 32 bytes key the tag, the rest
      of that block is thrown away, and the text is combined with what follows it, so that no byte of the
      stream is used twice. */
  lemma SealsWithOneStream(key: seq<byte>, nonce: seq<byte>, plaintext: seq<byte>, aad: seq<byte>)
    requires |key| == 32 && |nonce| == 12 && |aad| < U64 && |plaintext| < U64
    ensures var stream := Keystream(key, 0, nonce, 64 + |plaintext|);
      var ciphertext := XorBytes(plaintext, stream[64..]);
      AeadEncrypt(key, nonce, plaintext, aad) == ciphertext + Tag(stream[..32], MacInput(aad, ciphertext))
  {
    hide *;
    var n := |plaintext|;
    var stream := Keystream(key, 0, nonce, 64 + n);
    XorStreamIsBytewise(key, 1, nonce, plaintext);
    StreamTail(key, nonce, n);
    KeystreamPrefix(key, 0, nonce, 64, 64 + n);
    assert Keystream(key, 0, nonce, 64)[..32] == stream[..32];
    SealIs(key, nonce, plaintext, aad);
  }

  lemma SealIs(key: seq<byte>, nonce: seq<byte>, plaintext: seq<byte>, aad: seq<byte>)
    requires |key| == 32 && |nonce| == 12 && |aad| < U64 && |plaintext| < U64
    ensures var ciphertext := XorStream(key, 1, nonce, plaintext);
      AeadEncrypt(key, nonce, plaintext, aad)
      == ciphertext + Tag(Keystream(key, 0, nonce, 64)[..32], MacInput(aad, ciphertext))
  {
    hide XorStream, Keystream, Tag, MacInput;
  }

  /** Behind its first block the stream from block zero is the stream from block one. */
  lemma StreamTail(key: seq<byte>, nonce: seq<byte>, n: nat)
    requires |key| == 32 && |nonce| == 12
    ensures Keystream(key, 0, nonce, 64 + n)[64..] == Keystream(key, 1, nonce, n)
  {
    hide Keystream, Block;
    forall i | 0 <= i < n ensures Keystream(key, 0, nonce, 64 + n)[64 + i] == Keystream(key, 1, nonce, n)[i] {
      KeystreamAt(key, 0, nonce, 64 + n, 64 + i);
      KeystreamAt(key, 1, nonce, n, i);
      RemainderIs(64 + i, 64, 1 + i / 64, i % 64);
    }
  }

  // ---- The framings, byte by byte -------------------------------------------------------------------

  predicate Spells(bytes: seq<byte>, text: string) {
    |bytes| == |text| && forall i :: 0 <= i < |text| ==> bytes[i] == text[i] as int
  }

  /** The associated data of a value is framed from the format's label, the store and the purpose under their
      names, and then the name and the value of every id, in order. */
  lemma PlaceIsFramedAs(place: Place)
    ensures var parts := Parts(place);
      && |parts| == 5 + 2 * |place.fields|
      && Spells(parts[0], "ryu-content-seal-v1") && Spells(parts[1], "store") && parts[2] == place.store
      && Spells(parts[3], "purpose") && parts[4] == place.purpose
      && forall i :: 0 <= i < |place.fields| ==>
           parts[5 + 2 * i] == place.fields[i].name && parts[6 + 2 * i] == place.fields[i].value
  {
    FieldPartsAre(place.fields);
  }

  lemma {:induction false} FieldPartsAre(fields: seq<Field>)
    ensures forall i :: 0 <= i < |fields| ==>
      FieldParts(fields)[2 * i] == fields[i].name && FieldParts(fields)[2 * i + 1] == fields[i].value
  {
    if fields != [] {
      FieldPartsAre(fields[1..]);
      forall i | 0 < i < |fields|
        ensures FieldParts(fields)[2 * i] == fields[i].name && FieldParts(fields)[2 * i + 1] == fields[i].value
      {
        assert fields[i] == fields[1..][i - 1];
        assert FieldParts(fields)[2 * i] == FieldParts(fields[1..])[2 * (i - 1)];
        assert FieldParts(fields)[2 * i + 1] == FieldParts(fields[1..])[2 * (i - 1) + 1];
      }
    }
  }

  /** Lengths are eight bytes, from the lowest or from the highest on, and padding is zeros. */
  lemma LengthsAndPadding(n: nat)
    requires n < U64
    ensures FromLE(LittleLength(n)) == n && FromLE(Reverse(BigLength(n))) == n
    ensures forall i :: 0 <= i < |Pad16(n)| ==> Pad16(n)[i] == 0
  {
    assert Pow256(8) == U64 by {
      assert Pow256(4) == 256 * Pow256(3) && Pow256(3) == 256 * Pow256(2) && Pow256(2) == 256 * Pow256(1);
      assert Pow256(8) == 256 * Pow256(7) && Pow256(7) == 256 * Pow256(6) && Pow256(6) == 256 * Pow256(5);
      assert Pow256(5) == 256 * Pow256(4);
    }
    hide Pow256, FromLE, ToLE;
    FromToLE(n, 8);
    assert Reverse(BigLength(n)) == ToLE(n, 8);
  }
}
