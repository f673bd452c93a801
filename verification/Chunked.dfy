/** The two chunked-body decoders: `dechunk` of the sidecar hand-off (Rust) and the request reader
    of the engine (Python), against the chunked coding of section 7.1 of RFC 9112. */
module Chunked {
  import opened Prelude
  import opened Text

  const CR: byte := 13
  const LF: byte := 10
  const SEMICOLON: byte := 59
  const CRLF: seq<byte> := [CR, LF]
  const LINE_LIMIT := 4096
  const MAX_REQUEST_BODY_BYTES := 2 * 1024 * 1024
  const USIZE_MAX := 0xFFFF_FFFF_FFFF_FFFF

  // ---- Bytes, characters and hexadecimal numbers --------------------------------

  predicate Ascii(s: seq<byte>) {
    forall b :: b in s ==> b < 128
  }

  function Chars(s: seq<byte>): string
    requires Ascii(s)
  {
    seq(|s|, i requires 0 <= i < |s| => s[i] as char)
  }

  /** What is used of UTF-8 decoding: an ASCII prefix stands for itself. */
  ghost predicate AsciiTransparent(utf8: seq<byte> -> Option<string>) {
    && utf8([]) == Some("")
    && forall a, b {:trigger utf8(a + b)} :: Ascii(a) ==>
      utf8(a + b) == match utf8(b)
                     case None => None
                     case Some(text) => Some(Chars(a) + text)
  }

  function HexDigit(b: int): Option<nat> {
    if 48 <= b <= 57 then Some(b - 48)
    else if 65 <= b <= 70 then Some(b - 55)
    else if 97 <= b <= 102 then Some(b - 87)
    else None
  }

  /** The sixteen digits in either case, and nothing else. */
  lemma HexDigitExactly(b: byte, value: nat)
    ensures HexDigit(b) == Some(value)
      <==> value < 16 && (b == "0123456789abcdef"[value] as int || b == "0123456789ABCDEF"[value] as int)
  {
    var lower, upper := "0123456789abcdef", "0123456789ABCDEF";
    forall i | 0 <= i < 10 ensures lower[i] as int == upper[i] as int == 48 + i {}
    forall i | 10 <= i < 16 ensures lower[i] as int == 87 + i && upper[i] as int == 55 + i {}
  }

  predicate AllHex(s: seq<byte>) {
    forall b :: b in s ==> HexDigit(b).Some?
  }

  /** The value of hexadecimal digits read from the left, starting from `value`. */
  function HexFrom(value: nat, s: seq<byte>): (r: nat)
    requires AllHex(s)
    ensures r >= value
    decreases s
  {
    if s == [] then value
    else
      assert HexDigit(s[0]).Some?;
      assert forall b :: b in s[1..] ==> b in s;
      HexFrom(16 * value + HexDigit(s[0]).value, s[1..])
  }

  function HexValue(s: seq<byte>): nat
    requires AllHex(s)
  {
    HexFrom(0, s)
  }

  // ---- The coding -----------------------------------------------------------------

  /** One chunk as a sender may write it: any hexadecimal spelling of its size, an optional
      extension, and its data. */
  datatype Chunk = Chunk(size: seq<byte>, extension: seq<byte>, data: seq<byte>)

  ghost predicate IsExtension(e: seq<byte>) {
    && (e == [] || e[0] == SEMICOLON)
    && Ascii(e) && CR !in e && LF !in e
  }

  ghost predicate IsChunk(c: Chunk) {
    && c.size != [] && AllHex(c.size) && IsExtension(c.extension)
    && HexValue(c.size) == |c.data|
    && |c.data| + 2 <= USIZE_MAX
  }

  ghost predicate IsCoding(chunks: seq<Chunk>, last: Chunk) {
    && (forall c :: c in chunks ==> IsChunk(c) && c.data != [])
    && IsChunk(last) && last.data == []
  }

  function SizeLine(c: Chunk): seq<byte> { c.size + c.extension + CRLF }

  function Encode(chunks: seq<Chunk>, last: Chunk): seq<byte> {
    if chunks == [] then SizeLine(last)
    else SizeLine(chunks[0]) + chunks[0].data + CRLF + Encode(chunks[1..], last)
  }

  function Body(chunks: seq<Chunk>): seq<byte> {
    if chunks == [] then [] else chunks[0].data + Body(chunks[1..])
  }

  /** Decoded data in front of what the rest of the input decodes to. */
  function Then<E>(data: seq<byte>, rest: Result<seq<byte>, E>): Result<seq<byte>, E> {
    match rest
    case Ok(more) => Ok(data + more)
    case Err(error) => Err(error)
  }

  lemma ThenNothing<E>(rest: Result<seq<byte>, E>)
    ensures Then([], rest) == rest
  {
    if rest.Ok? { assert [] + rest.value == rest.value; }
  }

  lemma ThenThen<E>(a: seq<byte>, b: seq<byte>, rest: Result<seq<byte>, E>)
    ensures Then(a, Then(b, rest)) == Then(a + b, rest)
  {
    if rest.Ok? { assert a + (b + rest.value) == (a + b) + rest.value; }
  }

  // ---- Rust: dechunk --------------------------------------------------------------

  datatype RustError = MalformedBody | NotUtf8 | MalformedSize | Truncated | Panic

  /** The first CRLF. */
  function FindCrlf(s: seq<byte>): (r: Option<nat>)
    ensures r.Some? ==> r.value + 2 <= |s|
  {
    if |s| < 2 then None
    else if s[0] == CR && s[1] == LF then Some(0)
    else
      match FindCrlf(s[1..])
      case None => None
      case Some(p) => Some(p + 1)
  }

  lemma {:induction false} FindCrlfIs(s: seq<byte>, p: nat)
    requires p + 2 <= |s| && s[p] == CR && s[p + 1] == LF
    requires forall i :: 0 <= i < p ==> !(s[i] == CR && s[i + 1] == LF)
    ensures FindCrlf(s) == Some(p)
  {
    if p > 0 {
      assert forall i :: 0 <= i < p - 1 ==> s[1..][i] == s[i + 1];
      FindCrlfIs(s[1..], p - 1);
    }
  }

  /** The text before the first semicolon. */
  function BeforeSemicolon(s: string): string {
    if s == "" || s[0] == ';' then "" else [s[0]] + BeforeSemicolon(s[1..])
  }

  function RustDigits(s: string, value: nat): Option<nat> {
    if s == "" then Some(value)
    else
      match HexDigit(s[0] as int)
      case None => None
      case Some(d) => if 16 * value + d > USIZE_MAX then None else RustDigits(s[1..], 16 * value + d)
  }

  /** `usize::from_str_radix(s, 16)`: one optional plus sign, then digits, no overflow. */
  function FromStrRadix16(s: string): Option<nat> {
    var digits := if s != "" && s[0] == '+' then s[1..] else s;
    if digits == "" then None else RustDigits(digits, 0)
  }

  function RustSize(utf8: seq<byte> -> Option<string>, line: seq<byte>): Result<nat, RustError> {
    match utf8(line)
    case None => Err(NotUtf8)
    case Some(text) =>
      match FromStrRadix16(Trim(BeforeSemicolon(text)))
      case None => Err(MalformedSize)
      case Some(size) => Ok(size)
  }

  /** One turn of the loop: a chunk, the two bytes behind it and what follows them, the end of the body, or
      an error. */
  datatype RustTurn = Piece(data: seq<byte>, ending: seq<byte>, after: seq<byte>) | End | Fault(error: RustError)

  function RustChunk(utf8: seq<byte> -> Option<string>, input: seq<byte>): (turn: RustTurn)
    ensures turn.Piece? ==> turn.data != [] && |turn.after| < |input|
  {
    match FindCrlf(input)
    case None => Fault(MalformedBody)
    case Some(end) =>
      match RustSize(utf8, input[..end])
      case Err(error) => Fault(error)
      case Ok(size) =>
        var rest := input[end + 2..];
        if size == 0 then End
        else if size + 2 > USIZE_MAX then Fault(Panic)
        else if |rest| < size + 2 then Fault(Truncated)
        else Piece(rest[..size], rest[size..size + 2], rest[size + 2..])
  }

  /** What `dechunk` makes of an input. */
  function RustDecode(utf8: seq<byte> -> Option<string>, input: seq<byte>): Result<seq<byte>, RustError>
    decreases |input|
  {
    match RustChunk(utf8, input)
    case Fault(error) => Err(error)
    case End => Ok([])
    case Piece(data, _, after) => Then(data, RustDecode(utf8, after))
  }

  /** `dechunk`. */
  method Dechunk(utf8: seq<byte> -> Option<string>, body: seq<byte>) returns (r: Result<seq<byte>, RustError>)
    ensures r == RustDecode(utf8, body)
  {
    hide FindCrlf, RustSize, AsciiTransparent;
    var input := body;
    var out: seq<byte> := [];
    ghost var wanted := RustDecode(utf8, body);
    ThenNothing(wanted);
    while true
      invariant wanted == Then(out, RustDecode(utf8, input))
      decreases |input|
    {
      var end := FindCrlf(input);
      if end.None? { return Err(MalformedBody); }
      var size := RustSize(utf8, input[..end.value]);
      if size.Err? { return Err(size.error); }
      var n := size.value;
      input := input[end.value + 2..];
      if n == 0 {
        assert out + [] == out;
        return Ok(out);
      }
      if n + 2 > USIZE_MAX { return Err(Panic); }
      if |input| < n + 2 { return Err(Truncated); }
      ThenThen(out, input[..n], RustDecode(utf8, input[n + 2..]));
      out := out + input[..n];
      input := input[n + 2..];
    }
  }

  lemma {:induction false} BeforeSemicolonIs(s: string, e: string)
    requires ';' !in s && (e == "" || e[0] == ';')
    ensures BeforeSemicolon(s + e) == s
  {
    if s == "" {
      assert s + e == e;
    } else {
      assert (s + e)[1..] == s[1..] + e;
      BeforeSemicolonIs(s[1..], e);
    }
  }

  lemma {:induction false} RustDigitsAreHex(s: seq<byte>, value: nat)
    requires Ascii(s) && AllHex(s) && HexFrom(value, s) <= USIZE_MAX
    ensures RustDigits(Chars(s), value) == Some(HexFrom(value, s))
  {
    if s != [] {
      assert forall b :: b in s[1..] ==> b in s;
      assert Chars(s)[1..] == Chars(s[1..]);
      RustDigitsAreHex(s[1..], 16 * value + HexDigit(s[0]).value);
    }
  }

  lemma NoSpaceNoTrim(s: string)
    requires forall c :: c in s ==> !IsSpace(c)
    ensures Trim(s) == s
  {
    if s != "" { assert s[0] in s && s[|s| - 1] in s; }
  }

  lemma {:induction false} HexChars(s: seq<byte>)
    requires Ascii(s) && AllHex(s)
    ensures forall c :: c in Chars(s) ==> HexDigit(c as int).Some? && !IsSpace(c) && c != ';' && c != '+'
  {
    forall c | c in Chars(s) ensures HexDigit(c as int).Some? {
      var i :| 0 <= i < |s| && Chars(s)[i] == c;
      assert s[i] in s;
    }
  }

  lemma RustSizeLine(utf8: seq<byte> -> Option<string>, c: Chunk)
    requires AsciiTransparent(utf8) && IsChunk(c)
    ensures RustSize(utf8, c.size + c.extension) == Ok(|c.data|)
  {
    var line := c.size + c.extension;
    assert forall b :: b in c.size ==> HexDigit(b).Some?;
    assert Ascii(line);
    assert utf8(line + []) == Some(Chars(line) + "");
    assert line + [] == line && Chars(line) + "" == Chars(line);
    assert Chars(line) == Chars(c.size) + Chars(c.extension);
    HexChars(c.size);
    BeforeSemicolonIs(Chars(c.size), Chars(c.extension));
    NoSpaceNoTrim(Chars(c.size));
    assert Chars(c.size)[0] in Chars(c.size);
    RustDigitsAreHex(c.size, 0);
  }

  lemma FindCrlfInSizeLine(c: Chunk, tail: seq<byte>)
    requires IsChunk(c)
    ensures var input := SizeLine(c) + tail;
            var end := |c.size| + |c.extension|;
            && FindCrlf(input) == Some(end)
            && input[..end] == c.size + c.extension && input[end + 2..] == tail
  {
    var input := SizeLine(c) + tail;
    var line := c.size + c.extension;
    assert input == line + CRLF + tail;
    forall i | 0 <= i < |line| ensures input[i] != CR {
      assert input[i] == line[i] && line[i] in line;
    }
    FindCrlfIs(input, |line|);
  }

  lemma CodedChunkDechunked(utf8: seq<byte> -> Option<string>, c: Chunk, tail: seq<byte>)
    requires AsciiTransparent(utf8) && IsChunk(c)
    ensures c.data == [] ==> RustDecode(utf8, SizeLine(c) + tail) == Ok([])
    ensures c.data != [] ==>
      RustDecode(utf8, SizeLine(c) + (c.data + CRLF + tail)) == Then(c.data, RustDecode(utf8, tail))
  {
    RustSizeLine(utf8, c);
    FindCrlfInSizeLine(c, tail);
    var rest := c.data + CRLF + tail;
    FindCrlfInSizeLine(c, rest);
    assert rest[..|c.data|] == c.data && rest[|c.data| + 2..] == tail;
  }

  /** `dechunk` inverts the coding, whatever the spelling of the sizes and the extensions, and
      whatever follows the last chunk. */
  lemma {:induction false} RustInvertsCoding(
      utf8: seq<byte> -> Option<string>, chunks: seq<Chunk>, last: Chunk, tail: seq<byte>)
    requires AsciiTransparent(utf8) && IsCoding(chunks, last)
    ensures RustDecode(utf8, Encode(chunks, last) + tail) == Ok(Body(chunks))
  {
    hide RustDecode, AsciiTransparent, SizeLine;
    if chunks == [] {
      CodedChunkDechunked(utf8, last, tail);
    } else {
      var c := chunks[0];
      assert c in chunks;
      var after := Encode(chunks[1..], last) + tail;
      assert Encode(chunks, last) + tail == SizeLine(c) + (c.data + CRLF + after);
      CodedChunkDechunked(utf8, c, after);
      RustInvertsCoding(utf8, chunks[1..], last, tail);
    }
  }

  // ---- Python: the chunked branch of _read_json --------------------------------------

  datatype PyError = Invalid | TooLarge

  /** `rfile.readline(limit)`: up to and including the first LF, never more than `limit` bytes. */
  function ReadLine(input: seq<byte>, limit: nat): (line: seq<byte>)
    ensures line <= input && |line| <= limit
    ensures input != [] && limit > 0 ==> line != []
  {
    if input == [] || limit == 0 then []
    else if input[0] == LF then [LF]
    else
      var more := ReadLine(input[1..], limit - 1);
      assert input == [input[0]] + input[1..];
      [input[0]] + more
  }

  predicate IsByteSpace(b: byte) { 9 <= b <= 13 || b == 32 }

  function StripStart(s: seq<byte>): seq<byte> {
    if s != [] && IsByteSpace(s[0]) then StripStart(s[1..]) else s
  }

  function StripEnd(s: seq<byte>): seq<byte> {
    if s != [] && IsByteSpace(s[|s| - 1]) then StripEnd(s[..|s| - 1]) else s
  }

  /** `bytes.strip()`. */
  function Strip(s: seq<byte>): seq<byte> { StripEnd(StripStart(s)) }

  /** `line.split(b";", 1)[0]`. */
  function FirstField(s: seq<byte>): seq<byte> {
    if s == [] || s[0] == SEMICOLON then [] else [s[0]] + FirstField(s[1..])
  }

  /** Digits with single underscores between them; `joint` says an underscore may come next. */
  function PyDigits(s: seq<byte>, value: nat, joint: bool): Option<nat> {
    if s == [] then (if joint then Some(value) else None)
    else if s[0] == 95 then (if joint then PyDigits(s[1..], value, false) else None)
    else
      match HexDigit(s[0])
      case None => None
      case Some(d) => PyDigits(s[1..], 16 * value + d, true)
  }

  /** `int(s, 16)` of stripped bytes: optional sign, optional `0x`, digits and underscores. */
  function PyInt16(s: seq<byte>): Option<int> {
    var negative := s != [] && s[0] == 45;
    var t := if s != [] && (s[0] == 43 || s[0] == 45) then s[1..] else s;
    var prefixed := |t| >= 2 && t[0] == 48 && (t[1] == 120 || t[1] == 88);
    match PyDigits(if prefixed then t[2..] else t, 0, prefixed)
    case None => None
    case Some(magnitude) =>
      var value: int := magnitude;
      if prefixed && |t| == 2 then None
      else Some(if negative then 0 - value else value)
  }

  /** A size line's chunk size, or `None` for what the reader rejects. */
  function PySize(line: seq<byte>): Option<nat> {
    if |line| < 2 || line[|line| - 2..] != CRLF then None
    else
      match PyInt16(Strip(FirstField(line[..|line| - 2])))
      case None => None
      case Some(size) => if size < 0 then None else Some(size)
  }

  /** What is left after the trailer lines and the blank line. */
  function SkipTrailers(input: seq<byte>): (rest: seq<byte>)
    ensures |rest| <= |input|
    decreases |input|
  {
    var line := ReadLine(input, LINE_LIMIT);
    if line == CRLF || line == [LF] || line == [] then input[|line|..]
    else SkipTrailers(input[|line|..])
  }

  /** One turn of the loop: a chunk and the bytes behind it, the end of the body, or an error. */
  datatype Turn = Data(data: seq<byte>, after: seq<byte>) | Last(after: seq<byte>) | Bad(error: PyError)

  function NextChunk(input: seq<byte>, used: nat): (turn: Turn)
    ensures turn.Data? ==> turn.data != [] && used + |turn.data| <= MAX_REQUEST_BODY_BYTES
    ensures turn.Data? ==> |turn.after| < |input|
  {
    var line := ReadLine(input, LINE_LIMIT);
    match PySize(line)
    case None => Bad(Invalid)
    case Some(size) =>
      var rest := input[|line|..];
      if size == 0 then Last(SkipTrailers(rest))
      else if size > MAX_REQUEST_BODY_BYTES - used then Bad(TooLarge)
      else if |rest| < size + 2 || rest[size..size + 2] != CRLF then Bad(Invalid)
      else Data(rest[..size], rest[size + 2..])
  }

  /** What the reader makes of its input after `used` bytes of body: the rest of the body and the
      bytes left for the next request. */
  function PyDecode(input: seq<byte>, used: nat): Result<(seq<byte>, seq<byte>), PyError>
    decreases |input|
  {
    match NextChunk(input, used)
    case Bad(error) => Err(error)
    case Last(after) => Ok(([], after))
    case Data(data, after) => Behind(data, PyDecode(after, used + |data|))
  }

  /** The request handler: its input stream and whether the connection is to be closed. */
  class RequestHandler {
    var rfile: seq<byte>
    var closeConnection: bool

    constructor (input: seq<byte>)
      ensures rfile == input && !closeConnection
    {
      rfile, closeConnection := input, false;
    }

    method TakeLine(limit: nat) returns (line: seq<byte>)
      modifies this`rfile
      ensures line == ReadLine(old(rfile), limit)
      ensures rfile == old(rfile)[|line|..]
    {
      line := ReadLine(rfile, limit);
      rfile := rfile[|line|..];
    }

    /** `rfile.read(n)`. */
    method Take(n: nat) returns (data: seq<byte>)
      modifies this`rfile
      ensures var k := if n <= |old(rfile)| then n else |old(rfile)|;
              data == old(rfile)[..k] && rfile == old(rfile)[k..]
    {
      var k := if n <= |rfile| then n else |rfile|;
      data := rfile[..k];
      rfile := rfile[k..];
    }

    /** One turn of the loop of `_read_json` with `used` bytes read so far. */
    method ReadChunk(used: nat) returns (r: Result<seq<byte>, PyError>)
      modifies this
      ensures match NextChunk(old(rfile), used)
              case Bad(error) => r == Err(error)
              case Last(after) => r == Ok([]) && rfile == after
              case Data(data, after) => r == Ok(data) && rfile == after
      ensures closeConnection == (old(closeConnection) || r == Err(TooLarge))
    {
      hide PySize, ReadLine, SkipTrailers;
      var line := TakeLine(LINE_LIMIT);
      ghost var rest := rfile;
      var size := PySize(line);
      if size.None? { return Err(Invalid); }
      if size.value == 0 {
        SkipTrailerLines();
        return Ok([]);
      }
      if size.value > MAX_REQUEST_BODY_BYTES - used {
        closeConnection := true;
        return Err(TooLarge);
      }
      var data := Take(size.value);
      if |data| != size.value { return Err(Invalid); }
      var end := Take(2);
      assert |rest| >= size.value + 2 ==> end == rest[size.value..size.value + 2];
      if end != CRLF { return Err(Invalid); }
      assert rfile == rest[size.value + 2..];
      return Ok(data);
    }

    /** The chunked branch of `_read_json`, up to the raw body. The body never outgrows the limit,
        and only an oversized body closes the connection. */
    method ReadChunkedBody() returns (r: Result<seq<byte>, PyError>)
      modifies this
      ensures match PyDecode(old(rfile), 0)
              case Err(error) => r == Err(error)
              case Ok((body, left)) => r == Ok(body) && rfile == left
      ensures r.Ok? ==> |r.value| <= MAX_REQUEST_BODY_BYTES
      ensures closeConnection == (old(closeConnection) || r == Err(TooLarge))
    {
      hide NextChunk;
      var raw: seq<byte> := [];
      ghost var wanted := PyDecode(rfile, 0);
      assert wanted.Ok? ==> [] + wanted.value.0 == wanted.value.0;
      while true
        invariant |raw| <= MAX_REQUEST_BODY_BYTES
        invariant closeConnection == old(closeConnection)
        invariant wanted == Behind(raw, PyDecode(rfile, |raw|))
        decreases |rfile|
      {
        ghost var turn := NextChunk(rfile, |raw|);
        var chunk := ReadChunk(|raw|);
        if chunk.Err? { return chunk; }
        if chunk.value == [] {
          assert raw + [] == raw;
          return Ok(raw);
        }
        BehindBehind(raw, chunk.value, PyDecode(rfile, |raw| + |chunk.value|));
        raw := raw + chunk.value;
      }
    }

    method SkipTrailerLines()
      modifies this`rfile
      ensures rfile == SkipTrailers(old(rfile))
    {
      while true
        invariant SkipTrailers(rfile) == SkipTrailers(old(rfile))
        decreases |rfile|
      {
        var trailer := TakeLine(LINE_LIMIT);
        if trailer == CRLF || trailer == [LF] || trailer == [] { return; }
      }
    }
  }

  function Behind(data: seq<byte>, rest: Result<(seq<byte>, seq<byte>), PyError>): Result<(seq<byte>, seq<byte>), PyError> {
    match rest
    case Err(error) => Err(error)
    case Ok((more, left)) => Ok((data + more, left))
  }

  lemma BehindBehind(a: seq<byte>, b: seq<byte>, rest: Result<(seq<byte>, seq<byte>), PyError>)
    ensures Behind(a, Behind(b, rest)) == Behind(a + b, rest)
  {
    if rest.Ok? { assert a + (b + rest.value.0) == (a + b) + rest.value.0; }
  }

  // ---- The Python reader inverts the coding ------------------------------------------

  /** A trailer line the reader skips: it ends at its only LF, is not blank and is not too long. */
  ghost predicate IsTrailer(line: seq<byte>) {
    && 0 < |line| <= LINE_LIMIT && line[|line| - 1] == LF && LF !in line[..|line| - 1]
    && line != CRLF && line != [LF]
  }

  function Trailers(lines: seq<seq<byte>>): seq<byte> {
    if lines == [] then CRLF else lines[0] + Trailers(lines[1..])
  }

  lemma {:induction false} ReadLineIs(line: seq<byte>, tail: seq<byte>, limit: nat)
    requires 0 < |line| <= limit && line[|line| - 1] == LF && LF !in line[..|line| - 1]
    ensures ReadLine(line + tail, limit) == line
  {
    if |line| == 1 {
      assert line == [LF];
    } else {
      assert line[0] == line[..|line| - 1][0];
      assert line[1..][..|line| - 2] == line[..|line| - 1][1..];
      assert (line + tail)[1..] == line[1..] + tail;
      ReadLineIs(line[1..], tail, limit - 1);
      assert line == [line[0]] + line[1..];
    }
  }

  lemma {:induction false} TrailersSkipped(lines: seq<seq<byte>>, next: seq<byte>)
    requires forall line :: line in lines ==> IsTrailer(line)
    ensures SkipTrailers(Trailers(lines) + next) == next
  {
    var input := Trailers(lines) + next;
    if lines == [] {
      ReadLineIs(CRLF, next, LINE_LIMIT);
      assert input[2..] == next;
    } else {
      var rest := Trailers(lines[1..]) + next;
      assert lines[0] in lines;
      assert input == lines[0] + rest;
      ReadLineIs(lines[0], rest, LINE_LIMIT);
      assert input[|lines[0]|..] == rest;
      TrailersSkipped(lines[1..], next);
    }
  }

  lemma {:induction false} FirstFieldIs(s: seq<byte>, e: seq<byte>)
    requires SEMICOLON !in s && (e == [] || e[0] == SEMICOLON)
    ensures FirstField(s + e) == s
  {
    if s == [] {
      assert s + e == e;
    } else {
      assert (s + e)[1..] == s[1..] + e;
      FirstFieldIs(s[1..], e);
    }
  }

  lemma {:induction false} PyDigitsAreHex(s: seq<byte>, value: nat, joint: bool)
    requires AllHex(s) && (s == [] ==> joint)
    ensures PyDigits(s, value, joint) == Some(HexFrom(value, s))
  {
    if s != [] {
      assert s[0] in s;
      assert forall b :: b in s[1..] ==> b in s;
      PyDigitsAreHex(s[1..], 16 * value + HexDigit(s[0]).value, true);
    }
  }

  lemma PyInt16OfHex(s: seq<byte>)
    requires s != [] && AllHex(s)
    ensures PyInt16(s) == Some(HexValue(s))
  {
    assert s[0] in s && (|s| > 1 ==> s[1] in s);
    PyDigitsAreHex(s, 0, false);
  }

  lemma PySizeLine(c: Chunk)
    requires IsChunk(c)
    ensures PySize(SizeLine(c)) == Some(|c.data|)
  {
    var line := SizeLine(c);
    assert line[|line| - 2..] == CRLF && line[..|line| - 2] == c.size + c.extension;
    assert forall b :: b in c.size ==> !IsByteSpace(b) && b != SEMICOLON;
    FirstFieldIs(c.size, c.extension);
    assert c.size[0] in c.size && c.size[|c.size| - 1] in c.size;
    assert Strip(c.size) == c.size;
    PyInt16OfHex(c.size);
  }

  lemma SizeLineRead(c: Chunk, tail: seq<byte>)
    requires IsChunk(c) && |SizeLine(c)| <= LINE_LIMIT
    ensures ReadLine(SizeLine(c) + tail, LINE_LIMIT) == SizeLine(c)
  {
    var line := SizeLine(c);
    forall i | 0 <= i < |line| - 1 ensures line[i] != LF {
      if i < |c.size| { assert line[i] in c.size; }
      else if i < |c.size| + |c.extension| { assert line[i] == c.extension[i - |c.size|]; }
    }
    ReadLineIs(line, tail, LINE_LIMIT);
  }

  lemma CodedChunkRead(c: Chunk, after: seq<byte>, used: nat)
    requires IsChunk(c) && |SizeLine(c)| <= LINE_LIMIT && c.data != []
    requires used + |c.data| <= MAX_REQUEST_BODY_BYTES
    ensures NextChunk(SizeLine(c) + (c.data + CRLF + after), used) == Data(c.data, after)
  {
    var rest := c.data + CRLF + after;
    SizeLineRead(c, rest);
    PySizeLine(c);
    assert (SizeLine(c) + rest)[|SizeLine(c)|..] == rest;
    assert rest[..|c.data|] == c.data && rest[|c.data|..|c.data| + 2] == CRLF;
    assert rest[|c.data| + 2..] == after;
  }

  lemma LastChunkRead(last: Chunk, trailers: seq<seq<byte>>, next: seq<byte>, used: nat)
    requires IsChunk(last) && |SizeLine(last)| <= LINE_LIMIT && last.data == []
    requires forall line :: line in trailers ==> IsTrailer(line)
    ensures NextChunk(SizeLine(last) + (Trailers(trailers) + next), used) == Last(next)
  {
    var tail := Trailers(trailers) + next;
    SizeLineRead(last, tail);
    PySizeLine(last);
    assert (SizeLine(last) + tail)[|SizeLine(last)|..] == tail;
    TrailersSkipped(trailers, next);
  }

  /** The reader inverts the coding of every body within its limit and leaves exactly the bytes of
      the next request unread. */
  lemma {:induction false} PythonInvertsCoding(
      chunks: seq<Chunk>, last: Chunk, trailers: seq<seq<byte>>, next: seq<byte>, used: nat)
    requires IsCoding(chunks, last) && |SizeLine(last)| <= 4096
    requires forall c :: c in chunks ==> |SizeLine(c)| <= 4096
    requires forall line :: line in trailers ==> IsTrailer(line)
    requires used + |Body(chunks)| <= 2_097_152
    ensures PyDecode(Encode(chunks, last) + (Trailers(trailers) + next), used) == Ok((Body(chunks), next))
  {
    hide NextChunk;
    var tail := Trailers(trailers) + next;
    if chunks == [] {
      LastChunkRead(last, trailers, next, used);
    } else {
      var c := chunks[0];
      assert c in chunks;
      var after := Encode(chunks[1..], last) + tail;
      assert Encode(chunks, last) + tail == SizeLine(c) + (c.data + CRLF + after);
      CodedChunkRead(c, after, used);
      PythonInvertsCoding(chunks[1..], last, trailers, next, used + |c.data|);
    }
  }

  // ---- What Python reads as a number ---------------------------------------------------

  /** Groups of digits with one underscore between them. */
  function Grouped(groups: seq<seq<byte>>): seq<byte>
    requires groups != []
  {
    if |groups| == 1 then groups[0] else groups[0] + ([95] + Grouped(groups[1..]))
  }

  function Digits(groups: seq<seq<byte>>): seq<byte> {
    if groups == [] then [] else groups[0] + Digits(groups[1..])
  }

  ghost predicate AreGroups(groups: seq<seq<byte>>) {
    groups != [] && forall g :: g in groups ==> g != [] && AllHex(g)
  }

  lemma {:induction false} DigitsAreHex(groups: seq<seq<byte>>)
    requires forall g :: g in groups ==> AllHex(g)
    ensures AllHex(Digits(groups))
  {
    if groups != [] {
      assert groups[0] in groups && forall g :: g in groups[1..] ==> g in groups;
      DigitsAreHex(groups[1..]);
    }
  }

  lemma {:induction false} PyDigitsThen(s: seq<byte>, rest: seq<byte>, value: nat, joint: bool)
    requires s != [] && AllHex(s)
    ensures PyDigits(s + rest, value, joint) == PyDigits(rest, HexFrom(value, s), true)
  {
    assert s[0] in s;
    assert (s + rest)[1..] == s[1..] + rest;
    if |s| > 1 {
      assert forall b :: b in s[1..] ==> b in s;
      PyDigitsThen(s[1..], rest, 16 * value + HexDigit(s[0]).value, true);
    } else {
      assert s[1..] == [] && [] + rest == rest;
    }
  }

  lemma {:induction false} HexFromJoin(a: seq<byte>, b: seq<byte>, value: nat)
    requires AllHex(a) && AllHex(b)
    ensures AllHex(a + b) && HexFrom(value, a + b) == HexFrom(HexFrom(value, a), b)
  {
    if a == [] {
      assert a + b == b;
    } else {
      assert a[0] in a && (forall x :: x in a[1..] ==> x in a) && (a + b)[1..] == a[1..] + b;
      HexFromJoin(a[1..], b, 16 * value + HexDigit(a[0]).value);
    }
  }

  lemma {:induction false} PyDigitsGrouped(groups: seq<seq<byte>>, value: nat, joint: bool)
    requires AreGroups(groups)
    ensures AllHex(Digits(groups))
    ensures PyDigits(Grouped(groups), value, joint) == Some(HexFrom(value, Digits(groups)))
  {
    DigitsAreHex(groups);
    var g := groups[0];
    assert g in groups;
    if |groups| == 1 {
      assert g + [] == g && Digits(groups) == g + [];
      PyDigitsThen(g, [], value, joint);
    } else {
      hide HexFrom;
      var rest := Grouped(groups[1..]);
      PyDigitsThen(g, [95] + rest, value, joint);
      assert ([95] + rest)[1..] == rest;
      PyDigitsGrouped(groups[1..], HexFrom(value, g), false);
      HexFromJoin(g, Digits(groups[1..]), value);
    }
  }

  lemma {:induction false} GroupedStarts(groups: seq<seq<byte>>)
    requires AreGroups(groups)
    ensures var t := Grouped(groups);
      t != [] && HexDigit(t[0]).Some? && (|t| > 1 ==> HexDigit(t[1]).Some? || t[1] == 95)
  {
    var g := groups[0];
    assert g in groups && g[0] in g && (|g| > 1 ==> g[1] in g);
  }

  /** A number may have a sign, then `0x` or `0X`, then groups of digits with one underscore between them; its
      value is that of the digits, negative after a minus. */
  lemma PyReads(sign: seq<byte>, prefix: seq<byte>, groups: seq<seq<byte>>)
    requires sign == [] || sign == [43] || sign == [45]
    requires prefix == [] || prefix == [48, 120] || prefix == [48, 88]
    requires AreGroups(groups)
    ensures AllHex(Digits(groups))
    ensures PyInt16(sign + (prefix + Grouped(groups)))
         == Some(if sign == [45] then 0 - HexValue(Digits(groups)) else HexValue(Digits(groups)))
  {
    PyDigitsGrouped(groups, 0, prefix != []);
    GroupedStarts(groups);
    hide Grouped, Digits, PyDigits, HexFrom, AllHex, AreGroups, HexDigit;
    PyInt16Is(sign, prefix, Grouped(groups), HexValue(Digits(groups)));
  }

  lemma PyInt16Is(sign: seq<byte>, prefix: seq<byte>, t: seq<byte>, value: nat)
    requires sign == [] || sign == [43] || sign == [45]
    requires prefix == [] || prefix == [48, 120] || prefix == [48, 88]
    requires t != [] && HexDigit(t[0]).Some? && (|t| > 1 ==> HexDigit(t[1]).Some? || t[1] == 95)
    requires PyDigits(t, 0, prefix != []) == Some(value)
    ensures PyInt16(sign + (prefix + t)) == Some(if sign == [45] then 0 - value else value)
  {
    hide PyDigits, HexDigit;
    var u := prefix + t;
    PrefixIs(prefix, t);
    SignIs(sign, u);
    var s := sign + u;
    assert (if s[0] == 43 || s[0] == 45 then s[1..] else s) == u;
  }

  lemma PrefixIs(prefix: seq<byte>, t: seq<byte>)
    requires prefix == [] || prefix == [48, 120] || prefix == [48, 88]
    requires t != [] && HexDigit(t[0]).Some? && (|t| > 1 ==> HexDigit(t[1]).Some? || t[1] == 95)
    ensures var u := prefix + t;
      && u != [] && u[0] != 43 && u[0] != 45
      && (prefix != [] <==> |u| >= 2 && u[0] == 48 && (u[1] == 120 || u[1] == 88))
      && (if prefix == [] then u == t else u[2..] == t && |u| > 2)
  {
    if prefix == [] { assert prefix + t == t; }
  }

  lemma SignIs(sign: seq<byte>, u: seq<byte>)
    requires sign == [] || sign == [43] || sign == [45]
    requires u != [] && u[0] != 43 && u[0] != 45
    ensures var s := sign + u;
      && s != [] && (s[0] == 45 <==> sign == [45])
      && (if s[0] == 43 || s[0] == 45 then s[1..] == u else s == u)
  {
    if sign == [] { assert sign + u == u; }
  }

  /** Nothing is read from no digits, or with an underscore at the end or beside another. */
  lemma PyRefuses(s: seq<byte>, rest: seq<byte>)
    ensures PyInt16([]).None? && PyInt16([43]).None? && PyInt16([45]).None?
    ensures PyInt16([48, 120]).None? && PyInt16([48, 88]).None?
    ensures PyDigits([95] + rest, 0, false).None?
    ensures PyDigits(s + [95], 0, false).None? && PyDigits(s + [95], 0, true).None?
    ensures PyDigits(s + ([95, 95] + rest), 0, false).None? && PyDigits(s + ([95, 95] + rest), 0, true).None?
  {
    EndsBadly(s, 0, false);
    EndsBadly(s, 0, true);
    Doubled(s, rest, 0, false);
    Doubled(s, rest, 0, true);
    assert [43][1..] == [] && [45][1..] == [];
    assert [48, 120][2..] == [] && [48, 88][2..] == [];
  }

  lemma {:induction false} EndsBadly(s: seq<byte>, value: nat, joint: bool)
    ensures PyDigits(s + [95], value, joint).None?
  {
    if s == [] {
      assert s + [95] == [95] && [95][1..] == [];
    } else {
      assert (s + [95])[1..] == s[1..] + [95];
      EndsBadly(s[1..], value, false);
      if HexDigit(s[0]).Some? { EndsBadly(s[1..], 16 * value + HexDigit(s[0]).value, true); }
    }
  }

  lemma {:induction false} Doubled(s: seq<byte>, rest: seq<byte>, value: nat, joint: bool)
    ensures PyDigits(s + ([95, 95] + rest), value, joint).None?
  {
    var tail := [95, 95] + rest;
    if s == [] {
      assert s + tail == tail && tail[1..] == [95] + rest && ([95] + rest)[0] == 95;
    } else {
      assert (s + tail)[1..] == s[1..] + tail;
      Doubled(s[1..], rest, value, false);
      if HexDigit(s[0]).Some? { Doubled(s[1..], rest, 16 * value + HexDigit(s[0]).value, true); }
    }
  }

  // ---- The two decoders agree ---------------------------------------------------------

  lemma {:induction false} LineEndsAtItsLf(input: seq<byte>, limit: nat, i: nat)
    requires i + 1 < |ReadLine(input, limit)|
    ensures ReadLine(input, limit)[i] != LF
  {
    if i > 0 {
      LineEndsAtItsLf(input[1..], limit - 1, i - 1);
    }
  }

  lemma {:induction false} PyDigitsAscii(s: seq<byte>, value: nat, joint: bool)
    requires PyDigits(s, value, joint).Some?
    ensures Ascii(s)
  {
    if s != [] {
      if s[0] == 95 {
        PyDigitsAscii(s[1..], value, false);
      } else {
        PyDigitsAscii(s[1..], 16 * value + HexDigit(s[0]).value, true);
      }
      assert s == [s[0]] + s[1..];
    }
  }

  lemma PyInt16Ascii(s: seq<byte>)
    requires PyInt16(s).Some?
    ensures Ascii(s)
  {
    var t := if s != [] && (s[0] == 43 || s[0] == 45) then s[1..] else s;
    var prefixed := |t| >= 2 && t[0] == 48 && (t[1] == 120 || t[1] == 88);
    PyDigitsAscii(if prefixed then t[2..] else t, 0, prefixed);
    if prefixed { assert t == [t[0], t[1]] + t[2..]; }
    if t != s { assert s == [s[0]] + t; }
  }

  lemma AsciiTake(s: seq<byte>, n: nat)
    requires Ascii(s) && n <= |s|
    ensures Ascii(s[..n])
  {
    assert forall i :: 0 <= i < n ==> s[i] in s;
  }

  lemma {:induction false} StripStartChars(s: seq<byte>)
    requires Ascii(s)
    ensures Ascii(StripStart(s)) && TrimStart(Chars(s)) == Chars(StripStart(s))
  {
    if s != [] { assert s[0] in s; }
    if s != [] && IsByteSpace(s[0]) {
      assert forall b :: b in s[1..] ==> b in s;
      assert Chars(s)[1..] == Chars(s[1..]);
      StripStartChars(s[1..]);
    }
  }

  lemma {:induction false} StripEndChars(s: seq<byte>)
    requires Ascii(s)
    ensures Ascii(StripEnd(s)) && TrimEnd(Chars(s)) == Chars(StripEnd(s))
  {
    if s != [] { assert s[|s| - 1] in s; }
    if s != [] && IsByteSpace(s[|s| - 1]) {
      AsciiTake(s, |s| - 1);
      assert Chars(s)[..|s| - 1] == Chars(s[..|s| - 1]);
      StripEndChars(s[..|s| - 1]);
    }
  }

  lemma {:induction false} StripStartAscii(s: seq<byte>)
    requires Ascii(StripStart(s))
    ensures Ascii(s)
  {
    if s != [] && IsByteSpace(s[0]) {
      StripStartAscii(s[1..]);
      assert s == [s[0]] + s[1..];
    }
  }

  lemma {:induction false} StripEndAscii(s: seq<byte>)
    requires Ascii(StripEnd(s))
    ensures Ascii(s)
  {
    if s != [] && IsByteSpace(s[|s| - 1]) {
      StripEndAscii(s[..|s| - 1]);
      assert s == s[..|s| - 1] + [s[|s| - 1]];
    }
  }

  lemma {:induction false} FirstFieldSplits(s: seq<byte>)
    ensures var f := FirstField(s);
            && f <= s && s == f + s[|f|..]
            && SEMICOLON !in f && (|f| == |s| || s[|f|] == SEMICOLON)
  {
    if s != [] && s[0] != SEMICOLON {
      FirstFieldSplits(s[1..]);
      var f, more := FirstField(s), FirstField(s[1..]);
      assert more == s[1..][..|more|];
      assert f == s[..|f|];
    }
  }

  lemma FieldDecodes(utf8: seq<byte> -> Option<string>, f: seq<byte>, r: seq<byte>)
    requires AsciiTransparent(utf8) && Ascii(f) && SEMICOLON !in f && (r == [] || r[0] == SEMICOLON)
    requires utf8(f + r).Some?
    ensures BeforeSemicolon(utf8(f + r).value) == Chars(f)
  {
    assert utf8(r).Some?;
    if r != [] {
      assert r == [SEMICOLON] + r[1..];
      assert Ascii([SEMICOLON]);
      assert utf8([SEMICOLON] + r[1..]).Some?;
    }
    assert ';' !in Chars(f);
    BeforeSemicolonIs(Chars(f), utf8(r).value);
  }

  lemma {:induction false} RustDigitsHex(s: seq<byte>, value: nat)
    requires Ascii(s) && RustDigits(Chars(s), value).Some?
    ensures AllHex(s) && RustDigits(Chars(s), value) == Some(HexFrom(value, s))
  {
    if s != [] {
      assert forall b :: b in s[1..] ==> b in s;
      assert Chars(s)[1..] == Chars(s[1..]);
      RustDigitsHex(s[1..], 16 * value + HexDigit(s[0]).value);
      assert s == [s[0]] + s[1..];
    }
  }

  lemma SameNumber(s: seq<byte>)
    requires Ascii(s) && PyInt16(s).Some? && FromStrRadix16(Chars(s)).Some?
    ensures PyInt16(s) == FromStrRadix16(Chars(s))
  {
    if s[0] == 43 {
      assert forall b :: b in s[1..] ==> b in s;
      assert Chars(s)[1..] == Chars(s[1..]);
      RustDigitsHex(s[1..], 0);
      assert |s| > 2 ==> s[2] in s[1..];
      PyDigitsAreHex(s[1..], 0, false);
    } else {
      RustDigitsHex(s, 0);
      PyInt16OfHex(s);
    }
  }

  /** The field that holds the size reads the same in both, if it is ASCII. */
  lemma FieldText(utf8: seq<byte> -> Option<string>, l: seq<byte>)
    requires AsciiTransparent(utf8) && utf8(l).Some? && Ascii(FirstField(l))
    ensures Ascii(Strip(FirstField(l)))
    ensures Trim(BeforeSemicolon(utf8(l).value)) == Chars(Strip(FirstField(l)))
  {
    var f := FirstField(l);
    FirstFieldSplits(l);
    FieldDecodes(utf8, f, l[|f|..]);
    StripStartChars(f);
    StripEndChars(StripStart(f));
  }

  lemma SizeFieldIsAscii(line: seq<byte>)
    requires PySize(line).Some?
    ensures Ascii(FirstField(line[..|line| - 2]))
  {
    var f := FirstField(line[..|line| - 2]);
    PyInt16Ascii(Strip(f));
    StripEndAscii(StripStart(f));
    StripStartAscii(f);
  }

  lemma SameSize(utf8: seq<byte> -> Option<string>, line: seq<byte>)
    requires AsciiTransparent(utf8)
    requires PySize(line).Some? && RustSize(utf8, line[..|line| - 2]).Ok?
    ensures PySize(line).value == RustSize(utf8, line[..|line| - 2]).value
  {
    var l := line[..|line| - 2];
    SizeFieldIsAscii(line);
    FieldText(utf8, l);
    SameNumber(Strip(FirstField(l)));
  }

  lemma SameLine(input: seq<byte>)
    requires PySize(ReadLine(input, LINE_LIMIT)).Some?
    ensures var line := ReadLine(input, LINE_LIMIT);
            && |line| >= 2 && FindCrlf(input) == Some(|line| - 2)
            && input[..|line| - 2] == line[..|line| - 2]
  {
    var line := ReadLine(input, LINE_LIMIT);
    assert line == input[..|line|] && line[|line| - 2..] == CRLF;
    assert line[|line| - 2] == CRLF[0] && line[|line| - 1] == CRLF[1];
    forall i | 0 <= i < |line| - 2 ensures !(input[i] == CR && input[i + 1] == LF) {
      LineEndsAtItsLf(input, LINE_LIMIT, i + 1);
      assert input[i + 1] == line[i + 1];
    }
    FindCrlfIs(input, |line| - 2);
  }

  /** Whenever both decoders accept an input, they read the same body from it. */
  lemma {:induction false} DecodersAgree(utf8: seq<byte> -> Option<string>, input: seq<byte>, used: nat)
    requires AsciiTransparent(utf8)
    requires RustDecode(utf8, input).Ok? && PyDecode(input, used).Ok?
    ensures RustDecode(utf8, input).value == PyDecode(input, used).value.0
    decreases |input|
  {
    hide NextChunk, RustChunk, AsciiTransparent, RustTakes;
    RustTurnIs(utf8, input, used);
    var turn := NextChunk(input, used);
    if turn.Data? { DecodersAgree(utf8, turn.after, used + |turn.data|); }
  }

  // ---- What only one of them accepts -----------------------------------------------------

  /** A size that both read: hexadecimal digits after an optional plus sign. Only Python takes a minus sign,
      a `0x` or underscores. */
  predicate PlainSize(s: seq<byte>) {
    var digits := if s != [] && s[0] == 43 then s[1..] else s;
    digits != [] && AllHex(digits)
  }

  predicate RustTakes(utf8: seq<byte> -> Option<string>, line: seq<byte>) {
    utf8(line).Some? && PlainSize(Strip(FirstField(line)))
  }

  /** Every size line that Python reads is one that Rust takes. */
  predicate RustTakesAll(utf8: seq<byte> -> Option<string>, input: seq<byte>, used: nat)
    decreases |input|
  {
    var line := ReadLine(input, LINE_LIMIT);
    && |line| >= 2 && RustTakes(utf8, line[..|line| - 2])
    && match NextChunk(input, used)
       case Data(data, after) => RustTakesAll(utf8, after, used + |data|)
       case _ => true
  }

  lemma PlainExactly(s: seq<byte>)
    requires Ascii(s) && PyInt16(s).Some? && PyInt16(s).value <= USIZE_MAX
    ensures FromStrRadix16(Chars(s)).Some? <==> PlainSize(s)
  {
    var signed := s != [] && s[0] == 43;
    var digits := if signed then s[1..] else s;
    assert Ascii(digits) by { assert forall b :: b in digits ==> b in s; }
    assert signed ==> Chars(s)[1..] == Chars(digits);
    if PlainSize(s) {
      PyInt16OfHex(digits);
      if signed { PlusIsIgnored(s); }
      RustDigitsAreHex(digits, 0);
    }
    if FromStrRadix16(Chars(s)).Some? { RustDigitsHex(digits, 0); }
  }

  lemma PlusIsIgnored(s: seq<byte>)
    requires s != [] && s[0] == 43 && s[1..] != [] && AllHex(s[1..])
    ensures PyInt16(s) == PyInt16(s[1..])
  {
    assert s[1] in s[1..] && (|s| > 2 ==> s[2] in s[1..]);
  }

  lemma RustTakesExactly(utf8: seq<byte> -> Option<string>, line: seq<byte>)
    requires AsciiTransparent(utf8) && PySize(line).Some? && PySize(line).value <= USIZE_MAX
    ensures RustSize(utf8, line[..|line| - 2]).Ok? <==> RustTakes(utf8, line[..|line| - 2])
  {
    var l := line[..|line| - 2];
    SizeFieldIsAscii(line);
    if utf8(l).Some? {
      FieldText(utf8, l);
      PlainExactly(Strip(FirstField(l)));
    }
  }

  /** When Python does not refuse a turn, Rust makes the same of it or refuses the size line. */
  lemma RustTurnIs(utf8: seq<byte> -> Option<string>, input: seq<byte>, used: nat)
    requires AsciiTransparent(utf8) && !NextChunk(input, used).Bad?
    ensures var line := ReadLine(input, LINE_LIMIT);
      && |line| >= 2
      && if !RustTakes(utf8, line[..|line| - 2]) then RustChunk(utf8, input).Fault?
         else match NextChunk(input, used)
              case Last(_) => RustChunk(utf8, input) == End
              case Data(data, after) => RustChunk(utf8, input) == Piece(data, CRLF, after)
  {
    var line := ReadLine(input, LINE_LIMIT);
    SameLine(input);
    RustTakesExactly(utf8, line);
    hide AsciiTransparent, ReadLine, FindCrlf, PySize, RustSize, RustTakes, SkipTrailers;
    if RustTakes(utf8, line[..|line| - 2]) { SameSize(utf8, line); }
  }

  /** Of the inputs that Python accepts, Rust accepts exactly those whose size lines it takes. */
  lemma {:induction false} RustAlsoTakesExactly(utf8: seq<byte> -> Option<string>, input: seq<byte>, used: nat)
    requires AsciiTransparent(utf8) && PyDecode(input, used).Ok?
    ensures RustDecode(utf8, input).Ok? <==> RustTakesAll(utf8, input, used)
    decreases |input|
  {
    hide NextChunk, RustChunk, AsciiTransparent, RustTakes, RustSize;
    RustTurnIs(utf8, input, used);
    match NextChunk(input, used)
    case Data(data, after) => RustAlsoTakesExactly(utf8, after, used + |data|);
    case _ =>
  }

  /** What Python asks beyond Rust: size lines of at most 4096 bytes without a bare line feed, nothing but
      ASCII beside the size, a line end after the data, and a body within the limit. */
  predicate PythonTakesAll(utf8: seq<byte> -> Option<string>, input: seq<byte>, used: nat)
    decreases |input|
  {
    && FindCrlf(input).Some? && PythonTakes(input[..FindCrlf(input).value])
    && match RustChunk(utf8, input)
       case Fault(_) => false
       case End => true
       case Piece(data, ending, after) =>
         ending == CRLF && used + |data| <= MAX_REQUEST_BODY_BYTES && PythonTakesAll(utf8, after, used + |data|)
  }

  predicate PythonTakes(line: seq<byte>) {
    LF !in line && |line| + 2 <= LINE_LIMIT && Ascii(FirstField(line))
  }

  lemma {:induction false} FirstCrlf(s: seq<byte>)
    ensures FindCrlf(s).Some? ==> s[FindCrlf(s).value] == CR && s[FindCrlf(s).value + 1] == LF
  {
    if |s| >= 2 && !(s[0] == CR && s[1] == LF) { FirstCrlf(s[1..]); }
  }

  lemma PlainReads(s: seq<byte>)
    requires Ascii(s) && FromStrRadix16(Chars(s)).Some?
    ensures PyInt16(s).Some? && PyInt16(s).value >= 0
  {
    var signed := s != [] && s[0] == 43;
    var digits := if signed then s[1..] else s;
    assert Ascii(digits) by { assert forall b :: b in digits ==> b in s; }
    assert signed ==> Chars(s)[1..] == Chars(digits);
    RustDigitsHex(digits, 0);
    PyInt16OfHex(digits);
    if signed { PlusIsIgnored(s); }
  }

  lemma PythonTakesIfRead(input: seq<byte>, end: nat)
    requires FindCrlf(input) == Some(end) && PySize(ReadLine(input, LINE_LIMIT)).Some?
    ensures PythonTakes(input[..end])
  {
    var line := ReadLine(input, LINE_LIMIT);
    SameLine(input);
    SizeFieldIsAscii(line);
    hide PySize, ReadLine, FindCrlf, FirstField;
    forall i | 0 <= i < end ensures input[i] != LF {
      LineEndsAtItsLf(input, LINE_LIMIT, i);
      assert input[i] == line[i];
    }
  }

  lemma ReadWhole(input: seq<byte>, end: nat)
    requires FindCrlf(input) == Some(end) && PythonTakes(input[..end])
    ensures ReadLine(input, LINE_LIMIT) == input[..end + 2]
    ensures input[..end + 2][..end] == input[..end] && input[..end + 2][end..] == CRLF
  {
    FirstCrlf(input);
    var taken := input[..end + 2];
    assert input == taken + input[end + 2..];
    assert taken[..end + 1] == input[..end] + [CR];
    ReadLineIs(taken, input[end + 2..], LINE_LIMIT);
  }

  lemma RustSizeIsPythons(utf8: seq<byte> -> Option<string>, line: seq<byte>)
    requires AsciiTransparent(utf8) && |line| >= 2 && line[|line| - 2..] == CRLF
    requires RustSize(utf8, line[..|line| - 2]).Ok? && Ascii(FirstField(line[..|line| - 2]))
    ensures PySize(line) == Some(RustSize(utf8, line[..|line| - 2]).value)
  {
    FieldText(utf8, line[..|line| - 2]);
    PlainReads(Strip(FirstField(line[..|line| - 2])));
    SameSize(utf8, line) by { hide RustSize, AsciiTransparent; }
  }

  /** A line that Rust reads a size from is one for Python if and only if Python takes it. */
  lemma PythonTakesExactly(utf8: seq<byte> -> Option<string>, input: seq<byte>, end: nat)
    requires AsciiTransparent(utf8) && FindCrlf(input) == Some(end) && RustSize(utf8, input[..end]).Ok?
    ensures PySize(ReadLine(input, LINE_LIMIT)).Some? <==> PythonTakes(input[..end])
    ensures PythonTakes(input[..end]) ==>
      ReadLine(input, LINE_LIMIT) == input[..end + 2]
      && PySize(input[..end + 2]) == Some(RustSize(utf8, input[..end]).value)
  {
    hide AsciiTransparent, ReadLine, FindCrlf, PySize, RustSize;
    if PySize(ReadLine(input, LINE_LIMIT)).Some? { PythonTakesIfRead(input, end); }
    if PythonTakes(input[..end]) {
      ReadWhole(input, end);
      RustSizeIsPythons(utf8, input[..end + 2]);
    }
  }

  /** One turn of each. */
  lemma PythonTurnIs(utf8: seq<byte> -> Option<string>, input: seq<byte>, used: nat)
    requires AsciiTransparent(utf8) && !RustChunk(utf8, input).Fault?
    ensures FindCrlf(input).Some?
    ensures var turn, next := RustChunk(utf8, input), NextChunk(input, used);
      if !PythonTakes(input[..FindCrlf(input).value]) then next.Bad?
      else if turn.End? then next.Last?
      else if turn.ending == CRLF && used + |turn.data| <= MAX_REQUEST_BODY_BYTES
      then next == Data(turn.data, turn.after)
      else next.Bad?
  {
    PythonTakesExactly(utf8, input, FindCrlf(input).value);
    hide AsciiTransparent, ReadLine, FindCrlf, PySize, RustSize, PythonTakes, SkipTrailers;
  }

  /** Of the inputs that Rust accepts, Python accepts exactly those that meet what it asks beyond Rust. */
  lemma {:induction false} PythonAlsoTakesExactly(utf8: seq<byte> -> Option<string>, input: seq<byte>, used: nat)
    requires AsciiTransparent(utf8) && RustDecode(utf8, input).Ok?
    ensures PyDecode(input, used).Ok? <==> PythonTakesAll(utf8, input, used)
    decreases |input|
  {
    hide NextChunk, RustChunk, AsciiTransparent, PythonTakes, FindCrlf;
    PythonTurnIs(utf8, input, used);
    var turn := NextChunk(input, used);
    if turn.Data? { PythonAlsoTakesExactly(utf8, turn.after, used + |turn.data|); }
  }
  /** Each accepts something that the other does not: `1`, a byte, two bytes that are no line end, `0`; and
      a chunk whose size is written `0x0`. */
  lemma EachAcceptsMore(utf8: seq<byte> -> Option<string>) returns (rusts: seq<byte>, pythons: seq<byte>)
    requires AsciiTransparent(utf8)
    ensures rusts == [49, 13, 10, 65, 65, 65, 48, 13, 10] && pythons == [48, 120, 48, 13, 10, 13, 10]
    ensures RustDecode(utf8, rusts) == Ok([65]) && PyDecode(rusts, 0).Err?
    ensures PyDecode(pythons, 0) == Ok(([], [])) && RustDecode(utf8, pythons).Err?
  {
    hide *;
    rusts, pythons := [49, 13, 10, 65, 65, 65, 48, 13, 10], [48, 120, 48, 13, 10, 13, 10];
    LastZero(utf8);
    assert rusts == [49, 13, 10] + [65, 65, 65] + [48, 13, 10] && pythons == [48, 120, 48] + [13, 10] + [13, 10];
    OneByte(utf8, rusts, [48, 13, 10]);
    OnePiece(utf8, rusts, [48, 13, 10]);
    PrefixedZero(utf8, pythons);
    FaultIsErr(utf8, pythons);
  }

  lemma FaultIsErr(utf8: seq<byte> -> Option<string>, input: seq<byte>)
    requires RustChunk(utf8, input).Fault?
    ensures RustDecode(utf8, input).Err?
  {
    hide RustChunk;
  }

  lemma LastZero(utf8: seq<byte> -> Option<string>)
    requires AsciiTransparent(utf8)
    ensures RustDecode(utf8, [48, 13, 10]) == Ok([])
  {
    var zero := Chunk([48], [], []);
    assert SizeLine(zero) + [] == [48, 13, 10];
    assert HexValue([48]) == 0;
    hide AsciiTransparent, RustDecode, SizeLine;
    CodedChunkDechunked(utf8, zero, []);
  }

  lemma OnePiece(utf8: seq<byte> -> Option<string>, input: seq<byte>, after: seq<byte>)
    requires RustChunk(utf8, input) == Piece([65], [65, 65], after) && RustDecode(utf8, after) == Ok([])
    ensures RustDecode(utf8, input) == Ok([65])
  {
    hide RustChunk;
    assert [65] + [] == [65];
  }

  lemma OneByte(utf8: seq<byte> -> Option<string>, input: seq<byte>, after: seq<byte>)
    requires AsciiTransparent(utf8) && input == [49, 13, 10] + [65, 65, 65] + after
    ensures RustChunk(utf8, input) == Piece([65], [65, 65], after) && PyDecode(input, 0).Err?
  {
    hide *;
    var c, rest := Chunk([49], [], [65]), [65, 65, 65] + after;
    OneIsChunk(c);
    assert SizeLine(c) + rest == input;
    OneByteForRust(utf8, c, rest, after);
    OneByteForPython(c, rest, after);
  }

  lemma OneByteForRust(utf8: seq<byte> -> Option<string>, c: Chunk, rest: seq<byte>, after: seq<byte>)
    requires AsciiTransparent(utf8) && c == Chunk([49], [], [65]) && rest == [65, 65, 65] + after
    requires IsChunk(c) && SizeLine(c) == [49, 13, 10]
    ensures RustChunk(utf8, SizeLine(c) + rest) == Piece([65], [65, 65], after)
  {
    hide SizeLine, HexValue, IsExtension, FindCrlf, RustSize, AsciiTransparent, IsChunk;
    FindCrlfInSizeLine(c, rest);
    RustSizeLine(utf8, c);
    assert c.size + c.extension == [49];
    assert rest[..1] == [65] && rest[1..3] == [65, 65] && rest[3..] == after;
  }

  lemma OneByteForPython(c: Chunk, rest: seq<byte>, after: seq<byte>)
    requires c == Chunk([49], [], [65]) && rest == [65, 65, 65] + after
    requires IsChunk(c) && SizeLine(c) == [49, 13, 10]
    ensures PyDecode(SizeLine(c) + rest, 0).Err?
  {
    hide SizeLine, HexValue, IsExtension, ReadLine, PySize, IsChunk, SkipTrailers;
    SizeLineRead(c, rest);
    PySizeLine(c);
    assert (SizeLine(c) + rest)[3..] == rest && rest[1..3] == [65, 65];
  }

  lemma OneIsChunk(c: Chunk)
    requires c == Chunk([49], [], [65])
    ensures IsChunk(c) && SizeLine(c) == [49, 13, 10]
  {
    assert HexValue([49]) == 1;
  }

  lemma PrefixedZero(utf8: seq<byte> -> Option<string>, input: seq<byte>)
    requires AsciiTransparent(utf8) && input == [48, 120, 48] + [13, 10] + [13, 10]
    ensures PyDecode(input, 0) == Ok(([], [])) && RustChunk(utf8, input).Fault?
  {
    var line := [48, 120, 48] + CRLF;
    ReadLineIs(line, CRLF, LINE_LIMIT);
    assert line + CRLF == input;
    ZeroLine(line);
    assert input[5..] == CRLF;
    ReadLineIs(CRLF, [], LINE_LIMIT);
    assert CRLF + [] == CRLF && CRLF[2..] == [];
    assert NextChunk(input, 0) == Last([]);
    RustTurnIs(utf8, input, 0);
  }

  lemma ZeroLine(line: seq<byte>)
    requires line == [48, 120, 48] + CRLF
    ensures PySize(line) == Some(0) && !PlainSize(Strip(FirstField(line[..3])))
  {
    var s := [48, 120, 48];
    assert line[..3] == s && line[3..] == CRLF;
    FirstFieldIs(s, []);
    assert s + [] == s && Strip(s) == s;
    assert s[2..] == [48] && [48][1..] == [];
    assert PyDigits([48], 0, true) == PyDigits([], 0, true);
    assert s[1] in s;
  }

  /** A coding of a larger body is refused as too large, whatever follows. */
  lemma {:induction false} OversizedIsRefused(chunks: seq<Chunk>, last: Chunk, next: seq<byte>, used: nat)
    requires IsCoding(chunks, last) && used <= 2_097_152 < used + |Body(chunks)|
    requires forall c :: c in chunks ==> |SizeLine(c)| <= 4096
    ensures PyDecode(Encode(chunks, last) + next, used) == Err(TooLarge)
  {
    hide NextChunk;
    var c := chunks[0];
    assert c in chunks;
    var after := Encode(chunks[1..], last) + next;
    assert Encode(chunks, last) + next == SizeLine(c) + (c.data + CRLF + after);
    if used + |c.data| > 2_097_152 {
      OversizedChunk(c, c.data + CRLF + after, used);
    } else {
      CodedChunkRead(c, after, used);
      OversizedIsRefused(chunks[1..], last, next, used + |c.data|);
    }
  }

  lemma OversizedChunk(c: Chunk, rest: seq<byte>, used: nat)
    requires IsChunk(c) && |SizeLine(c)| <= 4096 && used <= 2_097_152 < used + |c.data|
    ensures NextChunk(SizeLine(c) + rest, used) == Bad(TooLarge)
  {
    SizeLineRead(c, rest);
    PySizeLine(c);
    hide ReadLine, PySize, SkipTrailers;
  }

  /** A coding with a size line of more than 4096 bytes is refused, before any of its data is read. */
  lemma LongLineIsRefused(c: Chunk, rest: seq<byte>, used: nat)
    requires IsChunk(c) && |SizeLine(c)| > 4096
    ensures PyDecode(SizeLine(c) + rest, used) == Err(Invalid)
  {
    var input := SizeLine(c) + rest;
    var line := ReadLine(input, LINE_LIMIT);
    if PySize(line).Some? {
      SameLine(input);
      FindCrlfInSizeLine(c, rest);
    }
    hide ReadLine, PySize, SkipTrailers, FindCrlf;
  }
}
