/**
  The two pieces of Rust's string library the tokenizer relies on:
  `char::is_whitespace` and `str::trim`.
 */
module Strings {

  /**
    `char::is_whitespace` on ASCII input: space, tab, line feed, vertical tab,
    form feed and carriage return.
   */
  predicate IsWhitespace(c: char) {
    c == ' ' || ('\t' <= c <= '\r')
  }

  /** The six ASCII characters `char::is_whitespace` accepts, and no others. */
  lemma WhitespaceCharacters(c: char)
    ensures IsWhitespace(c) <==> c in {' ', '\t', '\n', 11 as char, 12 as char, '\r'}
  {
  }

  /** Every character of `s` at an index in `[lo, hi)` is whitespace. */
  predicate BlankBetween(s: string, lo: int, hi: int)
    requires 0 <= lo && hi <= |s|
  {
    forall k :: lo <= k < hi ==> IsWhitespace(s[k])
  }

  predicate AllWhitespace(s: string) {
    BlankBetween(s, 0, |s|)
  }

  /** The index of the first non-whitespace character at or after `from`, or `|s|`. */
  function SkipBlanks(s: string, from: nat): (n: nat)
    requires from <= |s|
    ensures from <= n <= |s| && BlankBetween(s, from, n)
    ensures n < |s| ==> !IsWhitespace(s[n])
    decreases |s| - from
  {
    if from < |s| && IsWhitespace(s[from]) then SkipBlanks(s, from + 1) else from
  }

  /** The end of `s[lo..hi]` once its trailing whitespace is dropped. */
  function DropTrailingBlanks(s: string, lo: nat, hi: nat): (e: nat)
    requires lo <= hi <= |s|
    ensures lo <= e <= hi && BlankBetween(s, e, hi)
    ensures lo < e ==> !IsWhitespace(s[e - 1])
    decreases hi
  {
    if lo < hi && IsWhitespace(s[hi - 1]) then DropTrailingBlanks(s, lo, hi - 1) else hi
  }

  /** `str::trim`: the slice of `s` from its first to its last non-whitespace character. */
  function Trim(s: string): (r: string)
    ensures |r| <= |s|
  {
    var i := SkipBlanks(s, 0);
    var j := DropTrailingBlanks(s, i, |s|);
    s[i..j]
  }

  /**
    What `str::trim` promises: the result is empty exactly when `s` is all
    whitespace; otherwise it starts and ends on non-whitespace; it is the part of
    `s` after its leading whitespace, interior whitespace included, and what is
    cut off after it is whitespace too.
   */
  lemma TrimSpec(s: string)
    ensures var r := Trim(s);
      && (r == [] <==> AllWhitespace(s))
      && (r != [] ==> !IsWhitespace(r[0]) && !IsWhitespace(r[|r| - 1]))
      && var i := SkipBlanks(s, 0);
         i + |r| <= |s| && r == s[i..i + |r|] && BlankBetween(s, 0, i) && BlankBetween(s, i + |r|, |s|)
  {
    var i := SkipBlanks(s, 0);
    var j := DropTrailingBlanks(s, i, |s|);
    assert i == j ==> BlankBetween(s, 0, |s|);
  }

  /** `SkipBlanks` stops at the first non-whitespace character and nowhere else. */
  lemma {:induction false} SkipBlanksIsFirstNonBlank(s: string, from: nat, n: nat)
    requires from <= n <= |s| && BlankBetween(s, from, n)
    requires n < |s| ==> !IsWhitespace(s[n])
    ensures SkipBlanks(s, from) == n
    decreases n - from
  {
    if from < n {
      SkipBlanksIsFirstNonBlank(s, from + 1, n);
    }
  }

  /** `DropTrailingBlanks` stops after the last non-whitespace character and nowhere else. */
  lemma {:induction false} DropTrailingBlanksIsLastNonBlank(s: string, lo: nat, hi: nat, e: nat)
    requires lo <= e <= hi <= |s| && BlankBetween(s, e, hi)
    requires lo < e ==> !IsWhitespace(s[e - 1])
    ensures DropTrailingBlanks(s, lo, hi) == e
    decreases hi - e
  {
    if e < hi {
      DropTrailingBlanksIsLastNonBlank(s, lo, hi - 1, e);
    }
  }

  /** Trimming strips exactly the whitespace padding around a body that has none at its ends. */
  lemma TrimPadded(lead: string, body: string, trail: string)
    requires AllWhitespace(lead) && AllWhitespace(trail)
    requires body == [] || (!IsWhitespace(body[0]) && !IsWhitespace(body[|body| - 1]))
    ensures Trim(lead + body + trail) == body
  {
    var s := lead + body + trail;
    if body == [] {
      assert AllWhitespace(s) by {
        forall k | 0 <= k < |s| ensures IsWhitespace(s[k]) {
          if k < |lead| { assert s[k] == lead[k]; } else { assert s[k] == trail[k - |lead|]; }
        }
      }
    } else {
      assert s[|lead|] == body[0];
      SkipBlanksIsFirstNonBlank(s, 0, |lead|);
      assert s[|lead| + |body| - 1] == body[|body| - 1];
      assert BlankBetween(s, |lead| + |body|, |s|) by {
        forall k | |lead| + |body| <= k < |s| ensures IsWhitespace(s[k]) {
          assert s[k] == trail[k - |lead| - |body|];
        }
      }
      DropTrailingBlanksIsLastNonBlank(s, |lead|, |s|, |lead| + |body|);
      assert s[|lead|..|lead| + |body|] == body;
    }
  }

  /** A string without whitespace at either end is its own trim. */
  lemma TrimmedIsFixedPoint(s: string)
    requires s == [] || (!IsWhitespace(s[0]) && !IsWhitespace(s[|s| - 1]))
    ensures Trim(s) == s
  {
  }

  /** Trimming twice is trimming once. */
  lemma TrimIdempotent(s: string)
    ensures Trim(Trim(s)) == Trim(s)
  {
    TrimSpec(s);
    TrimmedIsFixedPoint(Trim(s));
  }
}
