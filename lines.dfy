/** String primitives the batch-send script leans on: JavaScript's
    `String.prototype.split('\n')`, its inverse (joining with '\n') and
    `String.prototype.trim()`. Strings are sequences of characters. */
module Lines {

  /** The characters `trim()` removes: ECMAScript WhiteSpace (tab, vertical
      tab, form feed, space, no-break space, byte order mark and the other
      space separators of category Zs) and LineTerminator (line feed,
      carriage return, line and paragraph separator). Among ASCII characters
      exactly tab, line feed, vertical tab, form feed, carriage return and
      space are whitespace, so the letters, digits and punctuation of an
      address are never trimmed away. */
  function IsWhitespace(c: char): (ws: bool)
    ensures c < '\U{0080}' ==>
      (ws <==> c == '\t' || c == '\n' || c == '\U{000B}' || c == '\U{000C}' || c == '\r' || c == ' ')
    ensures ws ==> c <= '\U{FEFF}'
  {
    c == '\t' || c == '\n' || c == '\U{000B}' || c == '\U{000C}' || c == '\r' || c == ' '
    || c == '\U{00A0}' || c == '\U{1680}' || ('\U{2000}' <= c <= '\U{200A}')
    || c == '\U{2028}' || c == '\U{2029}' || c == '\U{202F}' || c == '\U{205F}'
    || c == '\U{3000}' || c == '\U{FEFF}'
  }

  /** No whitespace at either end: what every line looks like after `trim()`. */
  predicate Trimmed(s: string) {
    s == [] || (!IsWhitespace(s[0]) && !IsWhitespace(s[|s| - 1]))
  }

  /** Number of whitespace characters at the start of `s`. */
  function LeadingWhitespace(s: string): (n: nat)
    ensures n <= |s|
    ensures forall k :: 0 <= k < n ==> IsWhitespace(s[k])
    ensures n < |s| ==> !IsWhitespace(s[n])
  {
    if |s| > 0 && IsWhitespace(s[0]) then 1 + LeadingWhitespace(s[1..]) else 0
  }

  /** Number of whitespace characters at the end of `s`. */
  function TrailingWhitespace(s: string): (n: nat)
    ensures n <= |s|
    ensures forall k :: |s| - n <= k < |s| ==> IsWhitespace(s[k])
    ensures n < |s| ==> !IsWhitespace(s[|s| - 1 - n])
  {
    if |s| > 0 && IsWhitespace(s[|s| - 1]) then 1 + TrailingWhitespace(s[..|s| - 1]) else 0
  }

  /** `s.trim()`: the slice of `s` left after removing whitespace at both
      ends. Everything removed is whitespace and what is kept is trimmed. */
  function Trim(s: string): (r: string)
    ensures |r| <= |s| && Trimmed(r)
    ensures LeadingWhitespace(s) + |r| <= |s|
    ensures r == s[LeadingWhitespace(s)..LeadingWhitespace(s) + |r|]
    ensures forall k :: LeadingWhitespace(s) + |r| <= k < |s| ==> IsWhitespace(s[k])
  {
    var t := s[LeadingWhitespace(s)..];
    t[..|t| - TrailingWhitespace(t)]
  }

  /** Trim is the unique way to cut `s` into whitespace, a trimmed middle and
      whitespace: any such cut `s[i..j]` is `Trim(s)`. */
  lemma TrimUnique(s: string, i: nat, j: nat)
    requires i <= j <= |s|
    requires forall k :: 0 <= k < i ==> IsWhitespace(s[k])
    requires forall k :: j <= k < |s| ==> IsWhitespace(s[k])
    requires Trimmed(s[i..j])
    ensures Trim(s) == s[i..j]
  {
    var lead := LeadingWhitespace(s);
    if i == j {
      // every character is whitespace, so nothing survives
      assert lead == |s|;
    } else {
      assert lead == i;
      assert lead + |Trim(s)| == j;
    }
  }

  /** A trimmed string is its own trim. */
  lemma TrimFixed(s: string)
    requires Trimmed(s)
    ensures Trim(s) == s
  {
    TrimUnique(s, 0, |s|);
    assert s[0..|s|] == s;
  }

  /** Trimming never introduces a line feed. */
  lemma TrimNoLineFeed(s: string)
    requires '\n' !in s
    ensures '\n' !in Trim(s)
  {
    var t := Trim(s);
    var lead := LeadingWhitespace(s);
    forall k | 0 <= k < |t| ensures t[k] != '\n' {
      assert t[k] == s[lead + k];
    }
  }

  /** Trimming twice is trimming once. */
  lemma TrimIdempotent(s: string)
    ensures Trim(Trim(s)) == Trim(s)
  {
    TrimFixed(Trim(s));
  }

  /** `s.split('\n')`: the pieces of `s` between line feeds, in order. There
      is always at least one piece, and no piece holds a line feed. */
  function Split(s: string): (r: seq<string>)
    ensures |r| >= 1
    ensures forall i :: 0 <= i < |r| ==> '\n' !in r[i]
    decreases |s|
  {
    if s == [] then [""]
    else
      var rest := Split(s[1..]);
      if s[0] == '\n' then [""] + rest
      else [[s[0]] + rest[0]] + rest[1..]
  }

  /** `pieces.join('\n')`. */
  function Join(pieces: seq<string>): string
  {
    if pieces == [] then ""
    else if |pieces| == 1 then pieces[0]
    else pieces[0] + "\n" + Join(pieces[1..])
  }

  /** Splitting at a line feed splits the two sides independently. */
  lemma {:induction false} SplitAppend(a: string, b: string)
    ensures Split(a + "\n" + b) == Split(a) + Split(b)
    decreases |a|
  {
    var s := a + "\n" + b;
    if a == [] {
      assert s[1..] == b;
    } else {
      assert s[1..] == a[1..] + "\n" + b;
      SplitAppend(a[1..], b);
    }
  }

  /** Joining the pieces gives back the original string. */
  lemma {:induction false} JoinSplit(s: string)
    ensures Join(Split(s)) == s
    decreases |s|
  {
    if '\n' in s {
      var k :| 0 <= k < |s| && s[k] == '\n';
      assert s == s[..k] + "\n" + s[k + 1..];
      SplitAppend(s[..k], s[k + 1..]);
      JoinSplit(s[..k]);
      JoinSplit(s[k + 1..]);
      JoinAppend(Split(s[..k]), Split(s[k + 1..]));
    } else {
      SplitNoLineFeed(s);
    }
  }

  /** A string without line feeds is a single piece. */
  lemma {:induction false} SplitNoLineFeed(s: string)
    requires '\n' !in s
    ensures Split(s) == [s]
    decreases |s|
  {
    if s != [] {
      assert '\n' !in s[1..];
      SplitNoLineFeed(s[1..]);
      assert [s[0]] + s[1..] == s;
    }
  }

  /** Joining two non-empty lists of pieces puts a line feed between them. */
  lemma {:induction false} JoinAppend(xs: seq<string>, ys: seq<string>)
    requires xs != [] && ys != []
    ensures Join(xs + ys) == Join(xs) + "\n" + Join(ys)
    decreases |xs|
  {
    if |xs| == 1 {
      assert (xs + ys)[1..] == ys;
    } else {
      assert (xs + ys)[1..] == xs[1..] + ys;
      JoinAppend(xs[1..], ys);
    }
  }

  /** Splitting a join of line-feed-free pieces gives back the pieces. */
  lemma {:induction false} SplitJoin(pieces: seq<string>)
    requires pieces != []
    requires forall i :: 0 <= i < |pieces| ==> '\n' !in pieces[i]
    ensures Split(Join(pieces)) == pieces
    decreases |pieces|
  {
    SplitNoLineFeed(pieces[0]);
    if |pieces| > 1 {
      SplitAppend(pieces[0], Join(pieces[1..]));
      SplitJoin(pieces[1..]);
    }
  }

  /** A string ending in a line feed splits into a last piece that is empty. */
  lemma SplitTrailingLineFeed(s: string)
    ensures Split(s + "\n") == Split(s) + [""]
  {
    SplitAppend(s, "");
    assert s + "\n" + "" == s + "\n";
  }
}
