/** Character classes and trimming shared by the readers. */
module Text {
  type byte = b: int | 0 <= b < 256

  /** Unicode White_Space, as Rust's `trim` sees it. */
  predicate IsSpace(c: char) {
    || '\t' <= c <= '\r' || c == ' ' || c == '\U{0085}' || c == '\U{00A0}' || c == '\U{1680}'
    || '\U{2000}' <= c <= '\U{200A}' || c == '\U{2028}' || c == '\U{2029}' || c == '\U{202F}'
    || c == '\U{205F}' || c == '\U{3000}'
  }

  function TrimStart(s: string): string {
    if s != "" && IsSpace(s[0]) then TrimStart(s[1..]) else s
  }

  function TrimEnd(s: string): string {
    if s != "" && IsSpace(s[|s| - 1]) then TrimEnd(s[..|s| - 1]) else s
  }

  function Trim(s: string): string { TrimEnd(TrimStart(s)) }

  /** White space as Python's `str.strip` and `str.split` see it. */
  predicate IsPySpace(c: char) {
    IsSpace(c) || '\U{001C}' <= c <= '\U{001F}'
  }

  function LStrip(s: string): string {
    if s != "" && IsPySpace(s[0]) then LStrip(s[1..]) else s
  }

  function RStrip(s: string): string {
    if s != "" && IsPySpace(s[|s| - 1]) then RStrip(s[..|s| - 1]) else s
  }

  /** `str.strip`. */
  function Strip(s: string): string { RStrip(LStrip(s)) }

  /** The words of `word + s`, where `word` has no space in it yet. */
  function Words(word: string, s: string): seq<string>
    decreases s
  {
    if s == "" then (if word == "" then [] else [word])
    else if IsPySpace(s[0]) then (if word == "" then [] else [word]) + Words("", s[1..])
    else Words(word + [s[0]], s[1..])
  }

  function JoinWords(words: seq<string>): string {
    if words == [] then ""
    else if |words| == 1 then words[0]
    else words[0] + " " + JoinWords(words[1..])
  }

  /** `" ".join(s.split())`. */
  function Normalize(s: string): string { JoinWords(Words("", s)) }

  lemma {:induction false} RStripEnds(s: string)
    ensures RStrip(s) <= s
    ensures RStrip(s) != "" ==> !IsPySpace(RStrip(s)[|RStrip(s)| - 1])
  {
    if s != "" && IsPySpace(s[|s| - 1]) { RStripEnds(s[..|s| - 1]); }
  }

  lemma {:induction false} LStripStarts(s: string)
    ensures LStrip(s) != "" ==> !IsPySpace(LStrip(s)[0])
  {
    if s != "" && IsPySpace(s[0]) { LStripStarts(s[1..]); }
  }

  /** Stripping twice is stripping once. */
  lemma StripTwice(s: string)
    ensures Strip(Strip(s)) == Strip(s)
  {
    LStripStarts(s);
    RStripEnds(LStrip(s));
  }
}
