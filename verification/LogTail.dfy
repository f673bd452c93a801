/** The bounded tail kept of an attempt's output. */
module LogTail {

  /** The last `n` characters, or everything when there are fewer. */
  function Tail(s: string, n: nat): (t: string)
    ensures |t| == if |s| < n then |s| else n
  {
    if |s| <= n then s else s[|s| - n..]
  }

  function Join(chunks: seq<string>): string {
    if chunks == [] then "" else chunks[0] + Join(chunks[1..])
  }

  lemma {:induction false} JoinAppend(chunks: seq<string>, text: string)
    ensures Join(chunks + [text]) == Join(chunks) + text
  {
    if chunks == [] {
      assert chunks + [text] == [text];
      assert [text][1..] == [];
    } else {
      assert (chunks + [text])[1..] == chunks[1..] + [text];
      JoinAppend(chunks[1..], text);
      assert (chunks[0] + Join(chunks[1..])) + text == chunks[0] + (Join(chunks[1..]) + text);
    }
  }

  /** The chunks hold exactly the last `length` characters of `full`. */
  ghost predicate Holds(chunks: seq<string>, length: nat, full: string) {
    length <= |full| && Join(chunks) == full[|full| - length..]
  }

  lemma DropFromHead(chunks: seq<string>, length: nat, k: nat, full: string)
    requires Holds(chunks, length, full) && chunks != [] && k <= |chunks[0]|
    ensures k <= length
    ensures Holds(chunks[0 := chunks[0][k..]], length - k, full)
    ensures k == |chunks[0]| ==> Holds(chunks[1..], length - k, full)
  {
    assert chunks[0 := chunks[0][k..]][1..] == chunks[1..];
    assert Join(chunks[0 := chunks[0][k..]]) == Join(chunks)[k..];
    assert full[|full| - length..][k..] == full[|full| - (length - k)..];
  }

  /** Cutting early never loses what the final tail still shows. */
  lemma TailOfTail(a: string, b: string, n: nat)
    ensures Tail(Tail(a, n) + b, n) == Tail(a + b, n)
  {
    if |a| > n {
      var cut := a[|a| - n..];
      if |b| <= n {
        assert (cut + b)[|b|..] == (a + b)[|a| + |b| - n..];
      } else {
        assert (cut + b)[n + |b| - n..] == (a + b)[|a| + |b| - n..];
      }
    }
  }

  lemma HoldsTail(chunks: seq<string>, length: nat, full: string, n: nat)
    requires Holds(chunks, length, full) && length <= n && (length == n || length == |full|)
    ensures length == |Join(chunks)| && Join(chunks) == Tail(full, n)
  {
  }

  lemma HoldsAppend(chunks: seq<string>, text: string)
    ensures Holds(chunks + [text], |Join(chunks)| + |text|, Join(chunks) + text)
  {
    JoinAppend(chunks, text);
  }

  lemma TailOfLongText(a: string, text: string, n: nat)
    requires |text| >= n
    ensures Tail(a + text, n) == text[|text| - n..] == Join([text[|text| - n..]])
  {
    var tail := text[|text| - n..];
    assert (a + text)[|a| + |text| - n..] == tail;
    assert [tail][1..] == [] && tail + "" == tail;
  }

  /** `_BoundedTextBuffer`: `written` is everything ever appended. */
  class BoundedTextBuffer {
    const maxChars: nat
    var chunks: seq<string>
    var length: nat
    ghost var written: string

    ghost predicate Valid()
      reads this
    {
      && maxChars >= 1
      && length == |Join(chunks)|
      && Join(chunks) == Tail(written, maxChars)
    }

    constructor (limit: int)
      ensures Valid() && written == "" && maxChars == if limit < 1 then 1 else limit
    {
      maxChars := if limit < 1 then 1 else limit;
      chunks, length, written := [], 0, "";
    }

    method Append(text: string)
      requires Valid()
      modifies this
      ensures Valid()
      ensures written == old(written) + text
    {
      if text == "" {
        assert written + text == written;
        return;
      }
      if |text| >= maxChars {
        TailOfLongText(written, text, maxChars);
        var tail := text[|text| - maxChars..];
        chunks, length, written := [tail], |tail|, written + text;
        return;
      }
      ghost var full := Join(chunks) + text;
      TailOfTail(written, text, maxChars);
      HoldsAppend(chunks, text);
      written := written + text;
      chunks := chunks + [text];
      length := length + |text|;
      Trim(full);
      HoldsTail(chunks, length, full, maxChars);
    }

    /** The trimming loop of `Append`: whole chunks go first, then part of the oldest one left. */
    method Trim(ghost full: string)
      requires Holds(chunks, length, full)
      modifies this`chunks, this`length
      ensures Holds(chunks, length, full)
      ensures length == if old(length) < maxChars then old(length) else maxChars
    {
      while length > maxChars && |chunks| > 0
        invariant Holds(chunks, length, full)
        invariant if old(length) < maxChars then length == old(length) else length >= maxChars
        decreases length, |chunks|
      {
        var overflow := length - maxChars;
        var head := chunks[0];
        DropFromHead(chunks, length, if |head| <= overflow then |head| else overflow, full);
        if |head| <= overflow {
          chunks := chunks[1..];
          length := length - |head|;
        } else {
          chunks := chunks[0 := head[overflow..]];
          length := length - overflow;
        }
      }
    }

    method Text() returns (t: string)
      requires Valid()
      ensures t == Tail(written, maxChars)
    {
      t := Join(chunks);
    }
  }

  /** The text of a fresh buffer after any appends is the tail of their concatenation. */
  method AppendAll(limit: int, texts: seq<string>) returns (t: string)
    ensures t == Tail(Join(texts), if limit < 1 then 1 else limit)
  {
    var buffer := new BoundedTextBuffer(limit);
    for n := 0 to |texts|
      invariant buffer.Valid() && fresh(buffer)
      invariant buffer.written == Join(texts[..n])
    {
      buffer.Append(texts[n]);
      JoinAppend(texts[..n], texts[n]);
      assert texts[..n + 1] == texts[..n] + [texts[n]];
    }
    assert texts[..|texts|] == texts;
    t := buffer.Text();
  }
}
