/** Sealed values and key custody (`ryu_content_seal.py`), over an ideal cipher: a sealed value carries
    its key, its place and its text, and opens under that key at that place only. A key is identified
    with its check value. */
module Sealing {
  import opened Prelude

  type Key = nat

  /** What a cell holds; a missing row counts as a null cell. */
  datatype Stored = Null | Raw(text: string) | Envelope(key: Key, place: string, text: string)

  predicate IsDigit(c: char) { '0' <= c <= '9' }

  predicate DigitsThenColon(s: string, some: bool) {
    s != "" && if IsDigit(s[0]) then DigitsThenColon(s[1..], true) else s[0] == ':' && some
  }

  /** What a plaintext column scan takes for an envelope. */
  predicate LooksSealed(text: string) { "encb:v" <= text }

  /** A text that reads as an envelope of some version. */
  predicate Versioned(text: string) {
    LooksSealed(text) && DigitsThenColon(text[6..], false)
  }

  datatype Cipher = Cipher(current: Key, retired: seq<Key>)

  predicate Holds(c: Cipher, key: Key) { key == c.current || key in c.retired }

  datatype Opened = Opened(value: string, needsReseal: bool)

  /** `ContentCipher.open_text` on a value that is not null. */
  function OpenText(c: Cipher, place: string, stored: Stored): Option<Opened>
    requires !stored.Null?
  {
    match stored
    case Raw(text) => if Versioned(text) then None else Some(Opened(text, text != ""))
    case Envelope(key, at, text) =>
      if at == place && Holds(c, key) then Some(Opened(text, key != c.current)) else None
  }

  function Seal(c: Cipher, place: string, text: string): Stored { Envelope(c.current, place, text) }

  /** `StoreSeal.open_text`, with or without a cipher. */
  function Read(cipher: Option<Cipher>, place: string, stored: Stored): Option<string> {
    match stored
    case Null => Some("")
    case Raw(text) => if Versioned(text) then None else Some(text)
    case Envelope(_, _, _) =>
      if cipher.None? then None
      else match OpenText(cipher.value, place, stored)
           case None => None
           case Some(text) => Some(text.value)
  }

  /** A process's keys. */
  datatype KeyRing = KeyRing(root: Option<Key>, retired: seq<Key>)

  predicate RingHolds(ring: KeyRing, key: Key) { ring.root == Some(key) || key in ring.retired }

  datatype KeyState = Record | Current | Retired | Mismatch | Compat | NoKey

  /** `PluginKeys.store_key_state`. */
  function StoreKeyState(ring: KeyRing, recorded: Option<Key>, holdsSealed: bool): KeyState {
    match ring.root
    case None => if recorded.Some? || holdsSealed then NoKey else Compat
    case Some(root) =>
      if recorded.None? then Record
      else if recorded.value == root then Current
      else if recorded.value in ring.retired then Retired
      else Mismatch
  }

  predicate IsSealing(s: KeyState) { s.Record? || s.Current? || s.Retired? }

  function CipherOf(ring: KeyRing, s: KeyState): Option<Cipher> {
    if IsSealing(s) && ring.root.Some? then Some(Cipher(ring.root.value, ring.retired)) else None
  }

  datatype SealError = Unavailable | AlreadyEnvelope

  /** `StoreSeal.seal_text`: what a write stores. */
  function SealForWrite(cipher: Option<Cipher>, state: KeyState, place: string, value: string): Result<Stored, SealError> {
    if cipher.None? && !state.Compat? then Err(Unavailable)
    else if value == "" || cipher.None? then
      if state.Compat? && Versioned(value) then Err(AlreadyEnvelope) else Ok(Raw(value))
    else Ok(Seal(cipher.value, place, value))
  }

  /** Whatever a write stores, the same process reads back. */
  lemma WriteReadsBack(ring: KeyRing, recorded: Option<Key>, holdsSealed: bool, place: string, value: string)
    ensures var state := StoreKeyState(ring, recorded, holdsSealed);
      var cipher := CipherOf(ring, state);
      var stored := SealForWrite(cipher, state, place, value);
      stored.Ok? ==> Read(cipher, place, stored.value) == Some(value)
  {
    assert !Versioned("");
  }

  /** The state of a process's keys, from what it holds and what the store has recorded. */
  lemma KeyStateExactly(ring: KeyRing, recorded: Option<Key>, holdsSealed: bool)
    ensures var state := StoreKeyState(ring, recorded, holdsSealed);
      && (state == Compat <==> ring.root.None? && recorded.None? && !holdsSealed)
      && (state == NoKey <==> ring.root.None? && (recorded.Some? || holdsSealed))
      && (state == Record <==> ring.root.Some? && recorded.None?)
      && (state == Current <==> ring.root.Some? && recorded == ring.root)
      && (state == Retired
          <==> ring.root.Some? && recorded.Some? && recorded != ring.root && recorded.value in ring.retired)
      && (CipherOf(ring, state).Some? <==> ring.root.Some? && (recorded.Some? ==> RingHolds(ring, recorded.value)))
  {
  }

  // ---- What reads as an envelope ---------------------------------------------------------------------

  /** The next n characters are digits and a colon follows them. */
  ghost predicate Numbered(s: string, n: nat) {
    && n < |s| && s[n] == ':' && forall i :: 0 <= i < n ==> '0' <= s[i] <= '9'
  }

  lemma {:induction false} DigitsThenColonExactly(s: string, some: bool)
    ensures DigitsThenColon(s, some) <==> exists n: nat :: (some || n > 0) && Numbered(s, n)
  {
    if s != "" {
      if IsDigit(s[0]) {
        DigitsThenColonExactly(s[1..], true);
        if DigitsThenColon(s[1..], true) {
          var n: nat :| Numbered(s[1..], n);
          assert forall i :: 0 < i < n + 1 ==> s[i] == s[1..][i - 1];
          assert Numbered(s, n + 1);
        }
        if exists n: nat :: (some || n > 0) && Numbered(s, n) {
          var n: nat :| (some || n > 0) && Numbered(s, n);
          assert s[n] == s[1..][n - 1];
          assert Numbered(s[1..], n - 1);
        }
      } else {
        if s[0] == ':' && some { assert Numbered(s, 0); }
        if exists n: nat :: (some || n > 0) && Numbered(s, n) {
          var n: nat :| (some || n > 0) && Numbered(s, n);
          assert n == 0;
        }
      }
    }
  }

  /** A text reads as an envelope if and only if it is "encb:v", a number and a colon, and then anything. */
  lemma VersionedExactly(text: string)
    ensures Versioned(text)
      <==> |text| >= 6 && text[..6] == "encb:v" && exists n: nat :: n > 0 && Numbered(text[6..], n)
  {
    if |text| >= 6 { DigitsThenColonExactly(text[6..], false); }
    hide DigitsThenColon;
  }
}
