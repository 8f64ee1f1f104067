/**
  The lexer of s-html-parser/src/token.rs: a cursor over the content that hands
  out one token per call.
 */
module Tokens {
  import opened Wrappers
  import opened Errors
  import opened Strings

  datatype Token =
    | LAngle       // `<`
    | RAngle       // `>`
    | Backslash    // `/`
    | Equals       // `=`
    | Exclamation  // `!`
    | Text(text: string)
    | Eof
  {
    predicate IsPunctuation() {
      LAngle? || RAngle? || Backslash? || Equals? || Exclamation?
    }
  }

  /** The five characters that form a token on their own. */
  predicate IsPunctuationChar(c: char) {
    c == '<' || c == '>' || c == '/' || c == '=' || c == '!'
  }

  /** The character each punctuation token corresponds to. */
  function PunctuationChar(t: Token): (c: char)
    requires t.IsPunctuation()
    ensures IsPunctuationChar(c)
  {
    match t
    case LAngle => '<'
    case RAngle => '>'
    case Backslash => '/'
    case Equals => '='
    case Exclamation => '!'
  }

  /**
    `TryFrom<char> for Token`: exactly the five punctuation characters become
    tokens, each the one that corresponds to it; every other character is
    refused with `NonCharToken` carrying that same character.
   */
  function FromChar(c: char): (r: Result<Token, TokenError>)
    ensures r.Ok? <==> IsPunctuationChar(c)
    ensures r.Ok? ==> r.value.IsPunctuation() && PunctuationChar(r.value) == c
    ensures r.Err? ==> r.error == NonCharToken(c)
  {
    match c
    case '<' => Ok(LAngle)
    case '>' => Ok(RAngle)
    case '/' => Ok(Backslash)
    case '=' => Ok(Equals)
    case '!' => Ok(Exclamation)
    case _ => Err(NonCharToken(c))
  }

  /** Classifying a punctuation token's character gives the token back. */
  lemma FromCharRoundTrip(t: Token)
    requires t.IsPunctuation()
    ensures FromChar(PunctuationChar(t)) == Ok(t)
  {
  }

  /** The characters that end a text run: `<`, `>`, and in word-by-word mode whitespace. */
  predicate IsStop(c: char, wordByWord: bool) {
    c == '<' || c == '>' || (wordByWord && IsWhitespace(c))
  }

  /** The index of the first stop character at or after `from`, or `|content|`. */
  function RunEnd(content: string, from: nat, wordByWord: bool): (e: nat)
    requires from <= |content|
    ensures from <= e <= |content|
    ensures forall k :: from <= k < e ==> !IsStop(content[k], wordByWord)
    ensures e < |content| ==> IsStop(content[e], wordByWord)
    decreases |content| - from
  {
    if from == |content| || IsStop(content[from], wordByWord) then from
    else RunEnd(content, from + 1, wordByWord)
  }

  /** `RunEnd` is the only index that is a stop (or the end) with no stop before it. */
  lemma {:induction false} RunEndIsFirstStop(content: string, from: nat, e: nat, wordByWord: bool)
    requires from <= e <= |content|
    requires forall k :: from <= k < e ==> !IsStop(content[k], wordByWord)
    requires e == |content| || IsStop(content[e], wordByWord)
    ensures RunEnd(content, from, wordByWord) == e
    decreases e - from
  {
    if from < e {
      RunEndIsFirstStop(content, from + 1, e, wordByWord);
    }
  }

  /** One call to the tokenizer: the token handed out and where the cursor is afterwards. */
  datatype Lexed = Lexed(token: Token, head: nat)

  /**
    What `next_token_raw` returns from cursor `head`, and the cursor it leaves.
    The cursor never moves back and never passes the end of the content, and a
    call that leaves it where it was hands out `Eof`.
   */
  function Lex(content: string, head: nat, wordByWord: bool): (r: Lexed)
    ensures head <= r.head
    ensures head <= |content| ==> r.head <= |content|
    ensures r.head == head ==> r.token == Eof
  {
    if head >= |content| then Lexed(Eof, head)
    else match FromChar(content[head])
      case Ok(t) => Lexed(t, head + 1)
      case Err(_) =>
        var end := RunEnd(content, head, wordByWord);
        var s := Trim(content[head..end]);
        if s == [] then Lexed(Eof, end) else Lexed(Text(s), end)
  }

  /**
    A text token is non-empty and has no whitespace at either end, and the
    cursor after it sits on a stop character or at the end of the content.
   */
  lemma LexText(content: string, head: nat, wordByWord: bool)
    requires head <= |content| && Lex(content, head, wordByWord).token.Text?
    ensures var r := Lex(content, head, wordByWord);
      && r.token.text != []
      && !IsWhitespace(r.token.text[0]) && !IsWhitespace(r.token.text[|r.token.text| - 1])
      && (r.head == |content| || IsStop(content[r.head], wordByWord))
  {
    if head < |content| && !IsPunctuationChar(content[head]) {
      TrimSpec(content[head..RunEnd(content, head, wordByWord)]);
    }
  }

  /**
    In default mode every call made before the end moves the cursor forward:
    the run starts on a character that is not `<` or `>`, so it is never empty.
   */
  lemma LexMovesInDefaultMode(content: string, head: nat)
    requires head < |content|
    ensures Lex(content, head, false).head > head
  {
  }

  /** At or past the end of the content the tokenizer answers `Eof` and stays put. */
  lemma LexAtEnd(content: string, head: nat, wordByWord: bool)
    requires head >= |content|
    ensures Lex(content, head, wordByWord) == Lexed(Eof, head)
  {
  }

  /** A punctuation character becomes its token and the cursor moves past it, in either mode. */
  lemma LexPunctuation(content: string, head: nat, wordByWord: bool)
    requires head < |content| && IsPunctuationChar(content[head])
    ensures Lex(content, head, wordByWord).token.IsPunctuation()
    ensures PunctuationChar(Lex(content, head, wordByWord).token) == content[head]
    ensures Lex(content, head, wordByWord).head == head + 1
  {
  }

  /**
    In default mode a run that starts on any other character stops only at the
    first `<` or `>` (so `/`, `=` and `!` stay inside it) or at the end; the
    cursor lands on that stop, and the token is the run trimmed, or `Eof` when
    the run is blank.
   */
  lemma LexTextRun(content: string, head: nat)
    requires head < |content| && !IsPunctuationChar(content[head])
    ensures var r := Lex(content, head, false);
      && head < r.head <= |content|
      && (forall k :: head <= k < r.head ==> content[k] != '<' && content[k] != '>')
      && (r.head == |content| || content[r.head] == '<' || content[r.head] == '>')
      && (AllWhitespace(content[head..r.head]) ==> r.token == Eof)
      && (!AllWhitespace(content[head..r.head]) ==> r.token == Text(Trim(content[head..r.head])))
  {
  }

  /** In word-by-word mode a cursor on whitespace yields `Eof` and does not move. */
  lemma LexWordOnWhitespace(content: string, head: nat)
    requires head < |content| && IsWhitespace(content[head])
    ensures Lex(content, head, true) == Lexed(Eof, head)
  {
  }

  /** After a text token in default mode the next token is `<`, `>` or `Eof`; never `/`, `=`, `!` or text. */
  lemma AfterText(content: string, head: nat)
    requires head <= |content| && Lex(content, head, false).token.Text?
    ensures var next := Lex(content, Lex(content, head, false).head, false).token;
      next == LAngle || next == RAngle || next == Eof
  {
    LexText(content, head, false);
  }

  /**
    The tokens successive `next_token` calls hand out from cursor `head`, up to and
    including the first `Eof`: there are at most one more of them than characters
    left, so the stream always reaches `Eof`.
   */
  function TokenStream(content: string, head: nat): (ts: seq<Token>)
    requires head <= |content|
    ensures 1 <= |ts| <= |content| - head + 1
    ensures ts[|ts| - 1] == Eof
    ensures forall k :: 0 <= k < |ts| - 1 ==> ts[k] != Eof
    decreases |content| - head
  {
    var r := Lex(content, head, false);
    if r.token == Eof then [Eof] else [r.token] + TokenStream(content, r.head)
  }

  /** The stop search never looks behind where it starts: a prefix only shifts its result. */
  lemma RunEndShift(pre: string, rest: string, from: nat, wordByWord: bool)
    requires from <= |rest|
    ensures RunEnd(pre + rest, |pre| + from, wordByWord) == |pre| + RunEnd(rest, from, wordByWord)
  {
    var c := pre + rest;
    var e := RunEnd(rest, from, wordByWord);
    forall k | |pre| + from <= k < |pre| + e
      ensures !IsStop(c[k], wordByWord)
    {
      assert c[k] == rest[k - |pre|];
    }
    RunEndIsFirstStop(c, |pre| + from, |pre| + e, wordByWord);
  }

  /**
    The tokenizer never looks behind its cursor: with a prefix in front of the
    content, the cursor shifted by the prefix's length gets the same token and
    is left shifted by the same amount.
   */
  lemma LexShift(pre: string, rest: string, head: nat, wordByWord: bool)
    ensures var r := Lex(rest, head, wordByWord);
      Lex(pre + rest, |pre| + head, wordByWord) == Lexed(r.token, |pre| + r.head)
  {
    if head < |rest| {
      assert (pre + rest)[|pre| + head] == rest[head];
      if !IsPunctuationChar(rest[head]) {
        RunShift(pre, rest, head, wordByWord);
      }
    }
  }

  /** `LexShift` for a cursor at the start of a text run. */
  lemma RunShift(pre: string, rest: string, head: nat, wordByWord: bool)
    requires head < |rest| && !IsPunctuationChar(rest[head])
    ensures var r := Lex(rest, head, wordByWord);
      Lex(pre + rest, |pre| + head, wordByWord) == Lexed(r.token, |pre| + r.head)
  {
    var c := pre + rest;
    var e := RunEnd(rest, head, wordByWord);
    RunEndShift(pre, rest, head, wordByWord);
    assert c[|pre| + head] == rest[head];
    assert c[|pre| + head..|pre| + e] == rest[head..e];
  }

  /** The token stream from a cursor is likewise unaffected by a prefix. */
  lemma {:induction false} TokenStreamShift(pre: string, rest: string, head: nat)
    requires head <= |rest|
    ensures TokenStream(pre + rest, |pre| + head) == TokenStream(rest, head)
    decreases |rest| - head
  {
    LexShift(pre, rest, head, false);
    var r := Lex(rest, head, false);
    if r.token != Eof {
      TokenStreamShift(pre, rest, r.head);
    }
  }

  /**
    `.position(...).unwrap_or(...)` in `next_token_raw`: the offset from `from`
    of the first stop character, or of the end of the content.
   */
  method Position(content: string, from: nat, wordByWord: bool) returns (pos: nat)
    requires from <= |content|
    ensures from + pos == RunEnd(content, from, wordByWord)
    ensures forall k :: from <= k < from + pos ==> !IsStop(content[k], wordByWord)
    ensures from + pos == |content| || IsStop(content[from + pos], wordByWord)
  {
    pos := 0;
    while from + pos < |content| && !IsStop(content[from + pos], wordByWord)
      invariant from + pos <= |content|
      invariant RunEnd(content, from + pos, wordByWord) == RunEnd(content, from, wordByWord)
    {
      pos := pos + 1;
    }
  }

  /** The tokenizer: the content it was built from and its single forward cursor. */
  class Tokenizer {
    const content: string
    var head: nat

    ghost predicate Valid()
      reads this
    {
      head <= |content|
    }

    constructor (content: string)
      ensures Valid()
      ensures this.content == content && head == 0
    {
      this.content := content;
      head := 0;
    }

    /** `next_token`: the default mode, where only `<` and `>` end a text run. */
    method NextToken() returns (t: Token)
      requires Valid()
      modifies this
      ensures Valid()
      ensures Lexed(t, head) == Lex(content, old(head), false)
    {
      t := NextTokenRaw(false);
    }

    /** `next_token_by_word`: whitespace ends a text run as well. */
    method NextTokenByWord() returns (t: Token)
      requires Valid()
      modifies this
      ensures Valid()
      ensures Lexed(t, head) == Lex(content, old(head), true)
    {
      t := NextTokenRaw(true);
    }

    method NextTokenRaw(wordByWord: bool) returns (t: Token)
      requires Valid()
      modifies this
      ensures Valid()
      ensures Lexed(t, head) == Lex(content, old(head), wordByWord)
    {
      if head >= |content| {
        return Eof;
      }
      var current := content[head];
      var classified := FromChar(current);
      if classified.Ok? {
        head := head + 1;
        return classified.value;
      }
      var pos := Position(content, head, wordByWord);
      var end := head + pos;
      var s := Trim(content[head..end]);
      head := head + pos;
      if s == [] {
        return Eof;
      }
      return Text(s);
    }
  }
}
