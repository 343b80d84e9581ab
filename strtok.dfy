/**
 * C's strtok with a single delimiter character, on values.
 * One call skips leading delimiters and returns the next maximal run of
 * non-delimiters (or NULL at the end); the next call resumes after the
 * delimiter that ended the run.
 */
module StrTok {
  import opened Wrappers

  /** Number of occurrences of `d` in `s`. */
  function Count(s: string, d: char): nat
  {
    if s == [] then 0 else (if s[0] == d then 1 else 0) + Count(s[1..], d)
  }

  /** Length of the leading run of `s` that holds no `d` (strcspn). */
  function RunLength(s: string, d: char): (n: nat)
    ensures n <= |s|
    ensures d !in s[..n]
    ensures n < |s| ==> s[n] == d
  {
    if s == [] || s[0] == d then 0
    else
      var m := RunLength(s[1..], d);
      assert s[..m + 1] == [s[0]] + s[1..][..m];
      1 + m
  }

  /** `s` with its leading delimiters dropped. */
  function SkipDelims(s: string, d: char): (t: string)
    ensures |t| <= |s|
    ensures t != [] ==> t[0] != d
  {
    if s != [] && s[0] == d then SkipDelims(s[1..], d) else s
  }

  /** One strtok call on the remaining text `s`: the token (None for NULL) and where the next call resumes. */
  function NextToken(s: string, d: char): (r: (Option<string>, string))
    ensures r.0.Some? ==> |r.1| < |s|
    ensures r.0.None? ==> r.1 == []
  {
    var t := SkipDelims(s, d);
    if t == [] then (None, [])
    else
      var n := RunLength(t, d);
      (Some(t[..n]), if n < |t| then t[n + 1..] else [])
  }

  /** Every token that repeated strtok calls return on `s`, in order. */
  function Tokens(s: string, d: char): (ts: seq<string>)
    ensures |ts| <= |s|
    decreases |s|
  {
    match NextToken(s, d)
    case (None, _) => []
    case (Some(tok), rest) => [tok] + Tokens(rest, d)
  }

  /** Every token is non-empty and free of the delimiter. */
  lemma {:induction false} TokensShape(s: string, d: char)
    ensures forall i :: 0 <= i < |Tokens(s, d)| ==> Tokens(s, d)[i] != [] && d !in Tokens(s, d)[i]
    decreases |s|
  {
    var r := NextToken(s, d);
    if r.0.Some? {
      var t := SkipDelims(s, d);
      assert r.0.value == t[..RunLength(t, d)] && t[0] != d;
      TokensShape(r.1, d);
      assert Tokens(s, d) == [r.0.value] + Tokens(r.1, d);
    }
  }

  /** The `d`-separated fields of `s`, empty ones included (the reference split). */
  function Split(s: string, d: char): (fields: seq<string>)
    decreases |s|
  {
    var n := RunLength(s, d);
    if n == |s| then [s] else [s[..n]] + Split(s[n + 1..], d)
  }

  /** `xs` without its empty strings. */
  function NonEmpty(xs: seq<string>): (ys: seq<string>)
    ensures |ys| <= |xs|
  {
    if xs == [] then []
    else (if xs[0] == [] then [] else [xs[0]]) + NonEmpty(xs[1..])
  }

  /** What the k-th strtok call returns, given the whole token list. */
  function TokenAt(ts: seq<string>, k: nat): Option<string>
  {
    if k < |ts| then Some(ts[k]) else None
  }

  /** One strtok call takes exactly the first token off the list of tokens. */
  lemma NextTokenStep(s: string, d: char)
    ensures NextToken(s, d).0 == TokenAt(Tokens(s, d), 0)
    ensures Tokens(NextToken(s, d).1, d) == if Tokens(s, d) == [] then [] else Tokens(s, d)[1..]
  {
  }

  /** The tokens after the first n. */
  function Drop(ts: seq<string>, n: nat): seq<string>
  {
    if n <= |ts| then ts[n..] else []
  }

  /**
   * One more strtok call while walking the token list ts: if the remaining
   * text holds the tokens after the first n, the call yields token n and
   * leaves the tokens after the first n + 1.
   */
  lemma StrtokStep(ts: seq<string>, n: nat, rest: string, d: char)
    requires Tokens(rest, d) == Drop(ts, n)
    ensures NextToken(rest, d).0 == TokenAt(ts, n)
    ensures Tokens(NextToken(rest, d).1, d) == Drop(ts, n + 1)
  {
    NextTokenStep(rest, d);
  }

  lemma {:induction false} SkipDelimsDrop(s: string, d: char)
    requires s != [] && s[0] == d
    ensures Tokens(s, d) == Tokens(s[1..], d)
  {
    assert SkipDelims(s, d) == SkipDelims(s[1..], d);
  }

  /** strtok collapses empty fields: its tokens are exactly the non-empty fields of the split. */
  lemma {:induction false} TokensAreNonEmptyFields(s: string, d: char)
    ensures Tokens(s, d) == NonEmpty(Split(s, d))
    decreases |s|
  {
    if s == [] {
      assert Split(s, d) == [[]];
    } else if s[0] == d {
      SkipDelimsDrop(s, d);
      assert RunLength(s, d) == 0;
      assert Split(s, d) == [[]] + Split(s[1..], d);
      TokensAreNonEmptyFields(s[1..], d);
      assert NonEmpty(Split(s, d)) == NonEmpty(Split(s[1..], d));
    } else {
      assert SkipDelims(s, d) == s;
      var n := RunLength(s, d);
      assert n > 0;
      if n == |s| {
        assert s[..n] == s;
        assert Split(s, d) == [s];
        assert NextToken(s, d) == (Some(s), []);
        assert Tokens(s, d) == [s] + Tokens([], d);
        assert Split([], d) == [[]];
      } else {
        var rest := s[n + 1..];
        assert NextToken(s, d) == (Some(s[..n]), rest);
        assert Tokens(s, d) == [s[..n]] + Tokens(rest, d);
        assert Split(s, d) == [s[..n]] + Split(rest, d);
        TokensAreNonEmptyFields(rest, d);
        assert NonEmpty(Split(s, d)) == [s[..n]] + NonEmpty(Split(rest, d)) by {
          assert ([s[..n]] + Split(rest, d))[1..] == Split(rest, d);
        }
      }
    }
  }

  /** The split has one field more than there are delimiters. */
  lemma {:induction false} SplitLength(s: string, d: char)
    ensures |Split(s, d)| == Count(s, d) + 1
    decreases |s|
  {
    var n := RunLength(s, d);
    CountRun(s, d);
    if n < |s| {
      SplitLength(s[n + 1..], d);
    }
  }

  /** Counting delimiters across the leading run and the delimiter that ends it. */
  lemma {:induction false} CountRun(s: string, d: char)
    ensures RunLength(s, d) == |s| ==> Count(s, d) == 0
    ensures RunLength(s, d) < |s| ==> Count(s, d) == 1 + Count(s[RunLength(s, d) + 1..], d)
    decreases |s|
  {
    if s != [] && s[0] != d {
      CountRun(s[1..], d);
      if RunLength(s, d) < |s| {
        assert s[1..][RunLength(s[1..], d) + 1..] == s[RunLength(s, d) + 1..];
      }
    }
  }

  /** strtok yields at most one token more than there are delimiters. */
  lemma TokenCountBound(s: string, d: char)
    ensures |Tokens(s, d)| <= Count(s, d) + 1
  {
    TokensAreNonEmptyFields(s, d);
    SplitLength(s, d);
  }

  /** A delimiter-free run followed by the delimiter is exactly the first field. */
  lemma {:induction false} RunLengthOfField(x: string, d: char, rest: string)
    requires d !in x
    ensures RunLength(x + [d] + rest, d) == |x|
    decreases |x|
  {
    if x != [] {
      assert (x + [d] + rest)[1..] == x[1..] + [d] + rest;
      RunLengthOfField(x[1..], d, rest);
    }
  }

  /** A delimiter-free `x` is its own whole leading run. */
  lemma {:induction false} RunLengthOfWhole(x: string, d: char)
    requires d !in x
    ensures RunLength(x, d) == |x|
    decreases |x|
  {
    if x != [] {
      RunLengthOfWhole(x[1..], d);
    }
  }

  /** Splitting peels off one delimiter-free field at a time. */
  lemma SplitField(x: string, d: char, rest: string)
    requires d !in x
    ensures Split(x + [d] + rest, d) == [x] + Split(rest, d)
  {
    var s := x + [d] + rest;
    RunLengthOfField(x, d, rest);
    assert s[..|x|] == x;
    assert s[|x| + 1..] == rest;
  }

  /** The first strtok call on a text that starts with a non-empty delimiter-free `x` followed by the delimiter returns `x`. */
  lemma FirstTokenOfField(x: string, d: char, rest: string)
    requires x != [] && d !in x
    ensures NextToken(x + [d] + rest, d).0 == Some(x)
  {
    var s := x + [d] + rest;
    assert s[0] == x[0];
    assert SkipDelims(s, d) == s;
    RunLengthOfField(x, d, rest);
    assert s[..|x|] == x;
  }

  /** On a non-empty text without the delimiter, strtok returns the whole text. */
  lemma FirstTokenOfWhole(x: string, d: char)
    requires x != [] && d !in x
    ensures NextToken(x, d).0 == Some(x)
  {
    assert SkipDelims(x, d) == x;
    RunLengthOfWhole(x, d);
    assert x[..|x|] == x;
  }
}
