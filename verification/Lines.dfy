/** Reading a stream with `fgets` into a buffer of 4096 characters. */
module Lines {
  import opened Wrappers

  const LINE_MAX: nat := 4095

  /** How much one `fgets` takes: up to and including a newline, at most `cap` characters. */
  function LineLen(s: string, cap: nat): (k: nat)
    ensures k <= |s| && k <= cap
    ensures s != "" && cap > 0 ==> k > 0
  {
    if s == "" || cap == 0 then 0
    else if s[0] == '\n' then 1
    else 1 + LineLen(s[1..], cap - 1)
  }

  /** Everything successive `fgets` calls return. */
  function Chunks(s: string): seq<string>
    decreases |s|
  {
    if s == "" then [] else [s[..LineLen(s, LINE_MAX)]] + Chunks(s[LineLen(s, LINE_MAX)..])
  }

  function Concat(cs: seq<string>): string {
    if cs == [] then "" else cs[0] + Concat(cs[1..])
  }

  /** The characters before the terminating NUL, which is all a C string function sees. */
  function CStr(s: string): string {
    if s == "" || s[0] == '\0' then "" else [s[0]] + CStr(s[1..])
  }

  predicate StartsWith(s: string, p: string) {
    |p| <= |s| && s[..|p|] == p
  }

  ghost predicate NulFree(s: string) {
    '\0' !in s
  }

  ghost predicate EndsLine(s: string) {
    s == "" || s[|s| - 1] == '\n'
  }

  /** The read side of a socket: what has not been read yet. */
  class Reader {
    var rest: string

    constructor (input: string)
      ensures rest == input
    {
      rest := input;
    }

    method Fgets() returns (line: Option<string>)
      modifies this
      ensures old(rest) == "" ==> line.None? && rest == ""
      ensures old(rest) != "" ==> line.Some? && Chunks(old(rest)) == [line.value] + Chunks(rest) && |rest| < |old(rest)|
    {
      if rest == "" {
        return None;
      }
      var k := 0;
      while k < LINE_MAX && k < |rest| && (k == 0 || rest[k - 1] != '\n')
        invariant 0 <= k <= |rest| && k <= LINE_MAX
        invariant k > 0 && rest[k - 1] == '\n' ==> LineLen(rest, LINE_MAX) == k
        invariant k == 0 || rest[k - 1] != '\n' ==> LineLen(rest, LINE_MAX) == k + LineLen(rest[k..], LINE_MAX - k)
      {
        assert rest[k..][1..] == rest[k + 1..];
        k := k + 1;
      }
      line := Some(rest[..k]);
      rest := rest[k..];
    }
  }

  /**
   What one `fgets` takes is determined: no newline but possibly as its last character, and short of
   the buffer only at a newline or at the end of the stream.
   */
  lemma {:induction false} LineLenExact(s: string, cap: nat, k: nat)
    requires k <= |s| && k <= cap
    ensures k == LineLen(s, cap) <==>
            && (forall i :: 0 <= i < k - 1 ==> s[i] != '\n')
            && (k < cap && k < |s| ==> k > 0 && s[k - 1] == '\n')
  {
    if s == "" || cap == 0 || s[0] == '\n' || k == 0 {
    } else {
      LineLenExact(s[1..], cap - 1, k - 1);
      assert forall i :: 0 < i < |s| ==> s[i] == s[1..][i - 1];
    }
  }

  /** The first chunk ends with the first newline, at 4095 characters, or at the end, whichever comes first. */
  lemma FirstChunk(s: string)
    requires s != ""
    ensures Chunks(s) != []
    ensures var c := Chunks(s)[0];
      && 0 < |c| <= 4095 && c <= s && Chunks(s)[1..] == Chunks(s[|c|..])
      && (forall i :: 0 <= i < |c| - 1 ==> c[i] != '\n')
      && (|c| < 4095 && |c| < |s| ==> c[|c| - 1] == '\n')
  {
    LineLenExact(s, LINE_MAX, LineLen(s, LINE_MAX));
  }

  lemma {:induction false} ConcatChunks(s: string)
    ensures Concat(Chunks(s)) == s
    decreases |s|
  {
    if s == "" {
    } else {
      var k := LineLen(s, LINE_MAX);
      ConcatChunks(s[k..]);
      assert s[..k] + s[k..] == s;
    }
  }

  lemma {:induction false} ConcatAppend(a: seq<string>, b: seq<string>)
    ensures Concat(a + b) == Concat(a) + Concat(b)
  {
    if a == [] {
      assert a + b == b;
    } else {
      assert (a + b)[1..] == a[1..] + b;
      ConcatAppend(a[1..], b);
    }
  }

  lemma {:induction false} LineLenAppend(a: string, b: string, cap: nat)
    requires a != "" && a[|a| - 1] == '\n'
    ensures LineLen(a + b, cap) == LineLen(a, cap)
  {
    if cap == 0 || a[0] == '\n' {
    } else {
      assert (a + b)[1..] == a[1..] + b;
      LineLenAppend(a[1..], b, cap - 1);
    }
  }

  /** A chunk never spans a line end: texts that end a line are chunked independently. */
  lemma {:induction false} ChunksAppend(a: string, b: string)
    requires EndsLine(a)
    ensures Chunks(a + b) == Chunks(a) + Chunks(b)
    decreases |a|
  {
    if a == "" {
      assert a + b == b;
    } else {
      var k := LineLen(a, LINE_MAX);
      LineLenAppend(a, b, LINE_MAX);
      assert (a + b)[..k] == a[..k] && (a + b)[k..] == a[k..] + b;
      ChunksAppend(a[k..], b);
    }
  }

  /** One line that fits the buffer is one chunk. */
  lemma OneLine(body: string)
    requires '\n' !in body && |body| < LINE_MAX
    ensures Chunks(body + "\n") == [body + "\n"]
  {
    LineLenOfLine(body, LINE_MAX);
    assert (body + "\n")[|body| + 1..] == "";
    assert (body + "\n")[..|body| + 1] == body + "\n";
  }

  lemma {:induction false} LineLenOfLine(body: string, cap: nat)
    requires '\n' !in body && |body| < cap
    ensures LineLen(body + "\n", cap) == |body| + 1
  {
    if body == "" {
    } else {
      assert (body + "\n")[1..] == body[1..] + "\n";
      LineLenOfLine(body[1..], cap - 1);
    }
  }

  lemma {:induction false} CStrOfNulFree(s: string)
    requires NulFree(s)
    ensures CStr(s) == s
  {
    if s == "" {
    } else {
      CStrOfNulFree(s[1..]);
    }
  }

  /** C string functions see what stands before the first NUL. */
  lemma {:induction false} CStrStopsAtNul(a: string, b: string)
    requires NulFree(a)
    ensures CStr(a + "\0" + b) == a
  {
    if a == "" {
      assert (a + "\0" + b)[0] == '\0';
    } else {
      assert (a + "\0" + b)[1..] == a[1..] + "\0" + b;
      CStrStopsAtNul(a[1..], b);
    }
  }

  lemma {:induction false} ChunksNulFree(s: string, c: string)
    requires NulFree(s) && c in Chunks(s)
    ensures NulFree(c)
    decreases |s|
  {
    var k := LineLen(s, LINE_MAX);
    if c == s[..k] {
    } else {
      ChunksNulFree(s[k..], c);
    }
  }
}
