/**
  The behaviour the repository's own tests (s-html-parser/src/lib.rs) and the
  documentation example of `Parser` check, and a few more inputs that show how
  the parser and this tokenizer work together, each proved of the model.

  Token streams are stated for inputs written as the pieces the tokenizer splits
  them into; each piece gives one token, and the shift lemma of the tokenizer
  moves the cursor past it. Parses are stated for an input fixed by the
  precondition and follow it one tag or text at a time, at fixed positions.
 */
module Examples {
  import opened Strings
  import opened Tokens
  import opened Parsing
  import Elements
  import opened Errors

  /** No `<` or `>` anywhere in `s`: a default-mode text run does not stop inside it. */
  predicate NoStops(s: string) {
    forall k :: 0 <= k < |s| ==> !IsStop(s[k], false)
  }

  /** Content that is empty or starts on `<` or `>`: where a text run stops. */
  predicate StopsRun(s: string) {
    s == [] || IsStop(s[0], false)
  }

  /**
    A stretch of text the tokenizer hands out unchanged: non-empty, not starting
    with punctuation, free of `<` and `>`, and without whitespace at either end.
   */
  predicate PlainText(s: string) {
    && s != [] && !IsPunctuationChar(s[0]) && NoStops(s)
    && !IsWhitespace(s[0]) && !IsWhitespace(s[|s| - 1])
  }

  /**
    A text run that starts at `h` and ends at `n`, on `<`, `>` or the end of the
    content: the tokenizer hands out its trim, or `Eof` when that is empty, and
    moves the cursor to `n`.
   */
  lemma RunAt(c: string, h: nat, n: nat)
    requires h < n <= |c| && !IsPunctuationChar(c[h])
    requires forall k :: h <= k < n ==> !IsStop(c[k], false)
    requires n == |c| || IsStop(c[n], false)
    ensures var s := Trim(c[h..n]);
      Lex(c, h, false) == if s == [] then Lexed(Eof, n) else Lexed(Text(s), n)
  {
    RunEndIsFirstStop(c, h, n, false);
  }

  /** The stream from `h` is the token there followed by the stream from where it leaves the cursor. */
  lemma StreamStep(c: string, h: nat, t: Token, next: nat)
    requires h <= |c| && Lex(c, h, false) == Lexed(t, next) && t != Eof
    ensures TokenStream(c, h) == [t] + TokenStream(c, next)
  {
  }

  /** Past a prefix, the stream is the stream of what follows it. */
  lemma After(pre: string, rest: string)
    ensures TokenStream(pre + rest, |pre|) == TokenStream(rest, 0)
  {
    TokenStreamShift(pre, rest, 0);
  }

  /** A text run followed by a stop: its trim is the first token, and then comes the stream of the rest. */
  lemma TextPiece(p: string, rest: string)
    requires p != [] && !IsPunctuationChar(p[0]) && NoStops(p) && StopsRun(rest) && Trim(p) != []
    ensures TokenStream(p + rest, 0) == [Text(Trim(p))] + TokenStream(rest, 0)
  {
    var c := p + rest;
    assert forall k :: 0 <= k < |p| ==> c[k] == p[k];
    assert |p| < |c| ==> c[|p|] == rest[0];
    assert c[0..|p|] == p;
    RunAt(c, 0, |p|);
    StreamStep(c, 0, Text(Trim(p)), |p|);
    After(p, rest);
  }

  /** A text run to the end of the content: its trim, then `Eof`; or only `Eof` when it is blank. */
  lemma LastPiece(p: string)
    requires p != [] && !IsPunctuationChar(p[0]) && NoStops(p)
    ensures TokenStream(p, 0) == if Trim(p) == [] then [Eof] else [Text(Trim(p)), Eof]
  {
    assert p[0..|p|] == p;
    RunAt(p, 0, |p|);
  }

  /** Blanks, a plain body and blanks, then a stop: the body, then the stream of the rest. */
  lemma PaddedPiece(lead: string, body: string, trail: string, rest: string)
    requires AllWhitespace(lead) && PlainText(body) && AllWhitespace(trail) && StopsRun(rest)
    ensures TokenStream(lead + body + trail + rest, 0) == [Text(body)] + TokenStream(rest, 0)
  {
    var p := lead + body + trail;
    assert NoStops(p) by {
      forall k | 0 <= k < |p| ensures !IsStop(p[k], false) {
        if k < |lead| { assert p[k] == lead[k]; }
        else if k < |lead| + |body| { assert p[k] == body[k - |lead|]; }
        else { assert p[k] == trail[k - |lead| - |body|]; }
      }
    }
    assert !IsPunctuationChar(p[0]) by {
      if lead == [] { assert p[0] == body[0]; } else { assert p[0] == lead[0]; }
    }
    TrimPadded(lead, body, trail);
    TextPiece(p, rest);
  }

  /** A plain word and blanks, then a stop: the word, then the stream of the rest. */
  lemma WordPiece(word: string, trail: string, rest: string)
    requires PlainText(word) && AllWhitespace(trail) && StopsRun(rest)
    ensures TokenStream(word + trail + rest, 0) == [Text(word)] + TokenStream(rest, 0)
  {
    var p := word + trail;
    assert NoStops(p) by {
      forall k | 0 <= k < |p| ensures !IsStop(p[k], false) {
        if k < |word| { assert p[k] == word[k]; } else { assert p[k] == trail[k - |word|]; }
      }
    }
    assert p[0] == word[0];
    assert [] + word + trail == p;
    TrimPadded([], word, trail);
    TextPiece(p, rest);
  }

  /** Blanks to the end of the content: only `Eof`. */
  lemma BlankLast(blanks: string)
    requires blanks != [] && AllWhitespace(blanks)
    ensures TokenStream(blanks, 0) == [Eof]
  {
    assert !IsPunctuationChar(blanks[0]) && NoStops(blanks);
    TrimSpec(blanks);
    LastPiece(blanks);
  }

  /** A punctuation character: its token, then the stream of what follows it. */
  lemma PunctuationPiece(p: string, rest: string)
    requires |p| == 1 && IsPunctuationChar(p[0])
    ensures TokenStream(p + rest, 0) == [FromChar(p[0]).value] + TokenStream(rest, 0)
  {
    var c := p + rest;
    assert c[0] == p[0];
    StreamStep(c, 0, FromChar(p[0]).value, 1);
    After(p, rest);
  }

  /** `tokenizer_basic`: `Hello <world` gives `Hello`, `<`, `world`, and so does any such pair of words. */
  lemma TokenizerBasic(first: string, second: string)
    requires PlainText(first) && PlainText(second)
    ensures TokenStream(first + " " + ("<" + second), 0) == [Text(first)] + ([LAngle] + [Text(second), Eof])
  {
    WordPiece(first, " ", "<" + second);
    PunctuationPiece("<", second);
    TrimmedIsFixedPoint(second);
    LastPiece(second);
  }

  lemma TokenizerBasicTest(hello: string, world: string)
    requires hello == "Hello" && world == "world"
    ensures TokenStream(hello + " " + ("<" + world), 0) == [Text("Hello")] + ([LAngle] + [Text("world"), Eof])
  {
    TokenizerBasic(hello, world);
  }

  /** `tokenizer_trims_ends`: a padded text, a tag and trailing blanks. */
  lemma TokenizerTrimsEnds(lead: string, body: string, trail: string, tag: string, blanks: string)
    requires AllWhitespace(lead) && PlainText(body) && AllWhitespace(trail) && PlainText(tag)
    requires blanks != [] && AllWhitespace(blanks)
    ensures TokenStream(lead + body + trail + ("<" + (tag + (">" + blanks))), 0)
         == [Text(body)] + ([LAngle] + ([Text(tag)] + ([RAngle] + [Eof])))
  {
    PaddedPiece(lead, body, trail, "<" + (tag + (">" + blanks)));
    PunctuationPiece("<", tag + (">" + blanks));
    TrimmedIsFixedPoint(tag);
    TextPiece(tag, ">" + blanks);
    PunctuationPiece(">", blanks);
    BlankLast(blanks);
  }

  lemma TokenizerTrimsEndsTest(lead: string, body: string, trail: string, tag: string, blanks: string)
    requires lead == "    " && body == "A wizard is never late   !" && trail == "  "
    requires tag == "tag" && blanks == "   "
    ensures TokenStream(lead + body + trail + ("<" + (tag + (">" + blanks))), 0)
         == [Text("A wizard is never late   !")] + ([LAngle] + ([Text("tag")] + ([RAngle] + [Eof])))
  {
    TokenizerTrimsEnds(lead, body, trail, tag, blanks);
  }

  /** `tokenizer_exclamation_in_text`: plain text, dots included, is one token. */
  lemma TokenizerExclamationInText(text: string)
    requires PlainText(text)
    ensures TokenStream(text, 0) == [Text(text), Eof]
  {
    TrimmedIsFixedPoint(text);
    LastPiece(text);
  }

  lemma TokenizerExclamationInTextTest(text: string)
    requires text == "This is a text..."
    ensures TokenStream(text, 0) == [Text("This is a text..."), Eof]
  {
    TokenizerExclamationInText(text);
  }

  /**
    A text run from `h` to `n` that is blank outside `[i, j)` and starts and
    ends on non-blank characters inside it.
   */
  predicate TextRun(c: string, h: nat, i: nat, j: nat, n: nat) {
    && h <= i <= j <= n <= |c| && h < n && !IsPunctuationChar(c[h])
    && (forall k :: h <= k < n ==> !IsStop(c[k], false))
    && (n == |c| || IsStop(c[n], false))
    && BlankBetween(c, h, i) && BlankBetween(c, j, n)
    && (i < j ==> !IsWhitespace(c[i]) && !IsWhitespace(c[j - 1]))
  }

  /** The tokenizer hands out the run's non-blank middle, or `Eof` when it has none. */
  lemma TextRunToken(c: string, h: nat, i: nat, j: nat, n: nat)
    requires TextRun(c, h, i, j, n)
    ensures Lex(c, h, false) == if i == j then Lexed(Eof, n) else Lexed(Text(c[i..j]), n)
  {
    RunAt(c, h, n);
    if i == j {
      BlankRunTrim(c, h, n);
    } else {
      TextRunTrim(c, h, i, j, n);
    }
  }

  lemma BlankRunTrim(c: string, h: nat, n: nat)
    requires h <= n <= |c| && BlankBetween(c, h, n)
    ensures Trim(c[h..n]) == []
  {
    var s := c[h..n];
    assert AllWhitespace(s) by {
      forall k | 0 <= k < |s| ensures IsWhitespace(s[k]) {
        assert s[k] == c[h + k];
      }
    }
    TrimSpec(s);
  }

  lemma TextRunTrim(c: string, h: nat, i: nat, j: nat, n: nat)
    requires h <= i < j <= n <= |c| && BlankBetween(c, h, i) && BlankBetween(c, j, n)
    requires !IsWhitespace(c[i]) && !IsWhitespace(c[j - 1])
    ensures Trim(c[h..n]) == c[i..j]
  {
    var s := c[h..n];
    assert BlankBetween(s, 0, i - h) && !IsWhitespace(s[i - h]);
    SkipBlanksIsFirstNonBlank(s, 0, i - h);
    assert BlankBetween(s, j - h, |s|) && !IsWhitespace(s[j - h - 1]);
    DropTrailingBlanksIsLastNonBlank(s, i - h, |s|, j - h);
    SliceOfSlice(c, h, n, i, j);
  }

  lemma SliceOfSlice(c: string, h: nat, n: nat, i: nat, j: nat)
    requires h <= i <= j <= n <= |c|
    ensures c[h..n][i - h..j - h] == c[i..j]
  {
    var inner := c[h..n][i - h..j - h];
    assert forall k :: 0 <= k < |inner| ==> inner[k] == c[i..j][k];
  }

  /** `<`, an identifier token and `>`: the tag, with no attributes, and the parse goes on after `>`. */
  lemma ParseTagAt(c: string, h: nat, s: string, n: nat, acc: Elements.UnstructuredSequence, env: Collaborators)
    requires h < |c| && c[h] == '<' && Lex(c, h + 1, false) == Lexed(Text(s), n) && n < |c| && c[n] == '>'
    ensures ParseSpec(c, h, acc, env) == ParseSpec(c, n + 1, Elements.Push(acc, Elements.Tag(s, map[])), env)
  {
    AngleAt(c, h);
    PlainTagAt(c, h, s, n, env);
    ParseAppendsTag(c, h, acc, env, Elements.Tag(s, map[]), n + 1);
  }

  /** A tag closed at once and the text after it: both are appended, and the parse goes on after the text. */
  lemma TagThenTextAt(c: string, h: nat, p: string, n: nat, t: string, m: nat, acc: Elements.UnstructuredSequence, env: Collaborators)
    requires h < |c| && c[h] == '<' && Lex(c, h + 1, false) == Lexed(Text(p), n) && n < |c| && c[n] == '>'
    requires Lex(c, n + 1, false) == Lexed(Text(t), m)
    ensures ParseSpec(c, h, acc, env)
         == ParseSpec(c, m, Elements.Push(Elements.Push(acc, Elements.Tag(p, map[])), Elements.Text(t)), env)
  {
    var after := n + 1;
    ParseAppendsText(c, after, Elements.Push(acc, Elements.Tag(p, map[])), env, t, m);
    ParseTagAt(c, h, p, n, acc, env);
  }

  /** `<` at the cursor is the token `LAngle`, one character long. */
  lemma AngleAt(c: string, h: nat)
    requires h < |c| && c[h] == '<'
    ensures Lex(c, h, false) == Lexed(LAngle, h + 1)
  {
  }

  lemma PlainTagAt(c: string, h: nat, s: string, n: nat, env: Collaborators)
    requires h < |c| && Lex(c, h + 1, false) == Lexed(Text(s), n) && n < |c| && c[n] == '>'
    ensures ParseTagSpec(c, h + 1, LAngle, env) == TagStep(Parsed(Elements.Tag(s, map[])), n + 1)
  {
    LexText(c, h + 1, false);
  }

  /** `<`, `/`, an identifier token and `>`: the same tag a `<` alone would give. */
  lemma ParseClosingTagAt(c: string, h: nat, s: string, n: nat, acc: Elements.UnstructuredSequence, env: Collaborators)
    requires h + 1 < |c| && c[h] == '<' && c[h + 1] == '/' && Lex(c, h + 2, false) == Lexed(Text(s), n)
    requires n < |c| && c[n] == '>'
    ensures ParseSpec(c, h, acc, env) == ParseSpec(c, n + 1, Elements.Push(acc, Elements.Tag(s, map[])), env)
  {
    AngleAt(c, h);
    PrefixedTagAt(c, h, s, n, env);
    ParseAppendsTag(c, h, acc, env, Elements.Tag(s, map[]), n + 1);
  }

  /** `<!` is `/` is the same prefix, as long as the identifier is not `--`. */
  lemma PrefixedTagAt(c: string, h: nat, s: string, n: nat, env: Collaborators)
    requires h + 1 < |c| && (c[h + 1] == '/' || (c[h + 1] == '!' && s != "--"))
    requires Lex(c, h + 2, false) == Lexed(Text(s), n) && n < |c| && c[n] == '>'
    ensures ParseTagSpec(c, h + 1, LAngle, env) == TagStep(Parsed(Elements.Tag(s, map[])), n + 1)
  {
  }

  /** `<`, `!`, an identifier token other than `--` and `>`: a tag named by that token. */
  lemma ParseBangTagAt(c: string, h: nat, s: string, n: nat, acc: Elements.UnstructuredSequence, env: Collaborators)
    requires h + 1 < |c| && c[h] == '<' && c[h + 1] == '!' && Lex(c, h + 2, false) == Lexed(Text(s), n)
    requires s != "--" && n < |c| && c[n] == '>'
    ensures ParseSpec(c, h, acc, env) == ParseSpec(c, n + 1, Elements.Push(acc, Elements.Tag(s, map[])), env)
  {
    AngleAt(c, h);
    PrefixedTagAt(c, h, s, n, env);
    ParseAppendsTag(c, h, acc, env, Elements.Tag(s, map[]), n + 1);
  }

  /** `<`, `!` and the token `--`: the comment branch, which panics. */
  lemma ParseCommentAt(c: string, h: nat, n: nat, acc: Elements.UnstructuredSequence, env: Collaborators)
    requires h + 1 < |c| && c[h] == '<' && c[h + 1] == '!' && Lex(c, h + 2, false) == Lexed(Text("--"), n)
    ensures ParseSpec(c, h, acc, env) == ParseStep(Panicked, n)
  {
    assert ParseTagSpec(c, h + 1, LAngle, env) == TagStep(Aborted, n);
  }

  /** `<` and an identifier token that runs to the end: the tag never closes, is dropped, and the parse ends. */
  lemma ParseUnclosedTagAt(c: string, h: nat, s: string, acc: Elements.UnstructuredSequence, env: Collaborators)
    requires h < |c| && c[h] == '<' && Lex(c, h + 1, false) == Lexed(Text(s), |c|)
    ensures ParseSpec(c, h, acc, env) == ParseStep(Done(acc), |c|)
  {
    UnclosedTagAt(c, h, s, env);
    ParseDropsFailedTag(c, h, acc, env, Unexpected, |c|);
    LexAtEnd(c, |c|, false);
    ParseStopsAtEof(c, |c|, acc, env, |c|);
  }

  lemma UnclosedTagAt(c: string, h: nat, s: string, env: Collaborators)
    requires h < |c| && Lex(c, h + 1, false) == Lexed(Text(s), |c|)
    ensures ParseTagSpec(c, h + 1, LAngle, env) == TagStep(Failed(Unexpected), |c|)
  {
    LexText(c, h + 1, false);
  }

  /** The parses below build their sequences one push at a time. */
  lemma PushedOne(a: Elements.Element)
    ensures Elements.Push(Elements.Default(), a) == Elements.UnstructuredSequence([a])
  {
    assert [] + [a] == [a];
  }

  lemma PushedTwo(a: Elements.Element, b: Elements.Element)
    ensures Elements.Push(Elements.Push(Elements.Default(), a), b) == Elements.UnstructuredSequence([a, b])
  {
    PushedOne(a);
    assert [a] + [b] == [a, b];
  }

  lemma PushedThree(a: Elements.Element, b: Elements.Element, c: Elements.Element)
    ensures Elements.Push(Elements.Push(Elements.Push(Elements.Default(), a), b), c) == Elements.UnstructuredSequence([a, b, c])
  {
    PushedTwo(a, b);
    assert [a, b] + [c] == [a, b, c];
  }

  lemma PushedFour(a: Elements.Element, b: Elements.Element, c: Elements.Element, d: Elements.Element)
    ensures Elements.Push(Elements.Push(Elements.Push(Elements.Push(Elements.Default(), a), b), c), d)
         == Elements.UnstructuredSequence([a, b, c, d])
  {
    PushedThree(a, b, c);
    assert [a, b, c] + [d] == [a, b, c, d];
  }

  /** The tokens of `<p>t`: the identifier, `>`, then the text to the end. */
  lemma TagThenText(p: string, t: string)
    requires PlainText(p) && PlainText(t)
    ensures var c := "<" + p + ">" + t; var n := |p| + 1;
      && c[0] == '<' && Lex(c, 1, false) == Lexed(Text(p), n) && n < |c| && c[n] == '>'
      && Lex(c, n + 1, false) == Lexed(Text(t), |c|)
  {
    var c := "<" + p + ">" + t;
    var n := |p| + 1;
    assert TextRun(c, 1, 1, n, n) by {
      forall k | 1 <= k <= n ensures c[k] == (p + ">")[k - 1] { }
    }
    assert c[1..n] == p;
    assert TextRun(c, n + 1, n + 1, |c|, |c|) by {
      forall k | n + 1 <= k < |c| ensures c[k] == t[k - n - 1] { }
    }
    assert c[n + 1..|c|] == t;
    TextRunToken(c, 1, 1, n, n);
    TextRunToken(c, n + 1, n + 1, |c|, |c|);
  }

  /** `parser_basic`: `<p>Text   !` gives the tag `p`, then the text; so does any such tag and text. */
  lemma ParserBasic(p: string, t: string, env: Collaborators)
    requires PlainText(p) && PlainText(t)
    ensures ParseSpec("<" + p + ">" + t, 0, Elements.Default(), env)
         == ParseStep(Done(Elements.UnstructuredSequence([Elements.Tag(p, map[]), Elements.Text(t)])), |p| + |t| + 2)
  {
    var c := "<" + p + ">" + t;
    var n := |p| + 1;
    TagThenText(p, t);
    var one := Elements.Push(Elements.Default(), Elements.Tag(p, map[]));
    ParseTagAt(c, 0, p, n, Elements.Default(), env);
    ParseAppendsText(c, n + 1, one, env, t, |c|);
    LexAtEnd(c, |c|, false);
    ParseStopsAtEof(c, |c|, Elements.Push(one, Elements.Text(t)), env, |c|);
    PushedTwo(Elements.Tag(p, map[]), Elements.Text(t));
  }

  lemma ParserBasicTest(p: string, t: string, env: Collaborators)
    requires p == "p" && t == "Text   !"
    ensures ParseSpec("<" + p + ">" + t, 0, Elements.Default(), env)
         == ParseStep(Done(Elements.UnstructuredSequence([Elements.Tag("p", map[]), Elements.Text("Text   !")])), 11)
  {
    ParserBasic(p, t, env);
  }

  /** `parser_unclosed_tag`: `<pText   !` gives nothing. */
  lemma ParserUnclosedTag(c: string, env: Collaborators)
    requires c == "<pText   !"
    ensures ParseSpec(c, 0, Elements.Default(), env) == ParseStep(Done(Elements.Default()), 10)
  {
    assert TextRun(c, 1, 1, 10, 10);
    TextRunToken(c, 1, 1, 10, 10);
    ParseUnclosedTagAt(c, 0, c[1..10], Elements.Default(), env);
  }

  /**
    The documentation example of `Parser`: `<p> Hello! </p>` gives the tag `p`,
    the text `Hello!` and the tag `p` again. The closing tag is told apart from
    the opening one by nothing, and the text is one trimmed token, where the
    documentation expects ` Hello` and `!` apart.
   */
  lemma ParserDocumentation(c: string, env: Collaborators)
    requires c == "<p> Hello! </p>"
    ensures ParseSpec(c, 0, Elements.Default(), env) == ParseStep(Done(Elements.UnstructuredSequence(
      [Elements.Tag("p", map[]), Elements.Text("Hello!"), Elements.Tag("p", map[])])), 15)
  {
    var p := Elements.Tag("p", map[]);
    IdentifierP(c, 1);
    ParseTagAt(c, 0, "p", 2, Elements.Default(), env);
    DocumentationFromText(c, env);
    PushedThree(p, Elements.Text("Hello!"), p);
  }

  lemma DocumentationFromText(c: string, env: Collaborators)
    requires c == "<p> Hello! </p>"
    ensures var one := Elements.Push(Elements.Default(), Elements.Tag("p", map[]));
      ParseSpec(c, 3, one, env) == ParseStep(Done(Elements.Push(Elements.Push(one, Elements.Text("Hello!")), Elements.Tag("p", map[]))), 15)
  {
    DocumentationText(c);
    IdentifierP(c, 13);
    var one := Elements.Push(Elements.Default(), Elements.Tag("p", map[]));
    var two := Elements.Push(one, Elements.Text("Hello!"));
    ParseAppendsText(c, 3, one, env, "Hello!", 11);
    ParseClosingTagAt(c, 11, "p", 14, two, env);
    LexAtEnd(c, 15, false);
    ParseStopsAtEof(c, 15, Elements.Push(two, Elements.Tag("p", map[])), env, 15);
  }

  /** The identifier `p` closed by `>` at once is the token `p`. */
  lemma IdentifierP(c: string, h: nat)
    requires h + 1 < |c| && c[h] == 'p' && c[h + 1] == '>'
    ensures Lex(c, h, false) == Lexed(Text("p"), h + 1)
  {
    assert TextRun(c, h, h, h + 1, h + 1) && c[h..h + 1] == "p";
    TextRunToken(c, h, h, h + 1, h + 1);
  }

  lemma DocumentationText(c: string)
    requires c == "<p> Hello! </p>"
    ensures Lex(c, 3, false) == Lexed(Text("Hello!"), 11)
  {
    assert TextRun(c, 3, 4, 10, 11) && c[4..10] == "Hello!";
    TextRunToken(c, 3, 4, 10, 11);
  }

  /**
    A comment the way `parse` meets one: `<!--` is followed by more text, so the
    identifier after `!` is the whole run `-- Hello --`, not `--`, and the
    comment comes out as a tag with that name.
   */
  lemma ParserCommentIsTag(c: string, env: Collaborators)
    requires c == "<p>Text <!-- Hello --> !"
    ensures ParseSpec(c, 0, Elements.Default(), env) == ParseStep(Done(Elements.UnstructuredSequence(
      [Elements.Tag("p", map[]), Elements.Text("Text"), Elements.Tag("-- Hello --", map[]), Elements.Text("!")])), 24)
  {
    CommentShape(c);
    IdentifierP(c, 1);
    CommentText(c);
    CommentIdentifier(c);
    CommentLastText(c);
    CommentParse(c, env);
  }

  /** The parse of the comment example, from the positions of its tokens. */
  lemma CommentParse(c: string, env: Collaborators)
    requires |c| == 24 && c[0] == '<' && c[2] == '>' && c[8] == '<' && c[9] == '!' && c[21] == '>'
    requires Lex(c, 1, false) == Lexed(Text("p"), 2) && Lex(c, 3, false) == Lexed(Text("Text"), 8)
    requires Lex(c, 10, false) == Lexed(Text("-- Hello --"), 21) && Lex(c, 22, false) == Lexed(Text("!"), 24)
    ensures ParseSpec(c, 0, Elements.Default(), env) == ParseStep(Done(Elements.UnstructuredSequence(
      [Elements.Tag("p", map[]), Elements.Text("Text"), Elements.Tag("-- Hello --", map[]), Elements.Text("!")])), 24)
  {
    TagThenTextAt(c, 0, "p", 2, "Text", 8, Elements.Default(), env);
    CommentFromBang(c, env);
    PushedFour(Elements.Tag("p", map[]), Elements.Text("Text"), Elements.Tag("-- Hello --", map[]), Elements.Text("!"));
  }

  /** Where the comment example has its `<`, `>` and `!`. */
  lemma CommentShape(c: string)
    requires c == "<p>Text <!-- Hello --> !"
    ensures |c| == 24 && c[0] == '<' && c[2] == '>' && c[8] == '<' && c[9] == '!' && c[21] == '>'
  {
  }

  lemma CommentFromBang(c: string, env: Collaborators)
    requires |c| == 24 && c[8] == '<' && c[9] == '!' && c[21] == '>'
    requires Lex(c, 10, false) == Lexed(Text("-- Hello --"), 21) && Lex(c, 22, false) == Lexed(Text("!"), 24)
    ensures var two := Elements.Push(Elements.Push(Elements.Default(), Elements.Tag("p", map[])), Elements.Text("Text"));
      ParseSpec(c, 8, two, env)
      == ParseStep(Done(Elements.Push(Elements.Push(two, Elements.Tag("-- Hello --", map[])), Elements.Text("!"))), 24)
  {
    var two := Elements.Push(Elements.Push(Elements.Default(), Elements.Tag("p", map[])), Elements.Text("Text"));
    var three := Elements.Push(two, Elements.Tag("-- Hello --", map[]));
    ParseBangTagAt(c, 8, "-- Hello --", 21, two, env);
    ParseAppendsText(c, 22, three, env, "!", 24);
    LexAtEnd(c, 24, false);
    ParseStopsAtEof(c, 24, Elements.Push(three, Elements.Text("!")), env, 24);
  }

  lemma CommentText(c: string)
    requires c == "<p>Text <!-- Hello --> !"
    ensures Lex(c, 3, false) == Lexed(Text("Text"), 8)
  {
    assert TextRun(c, 3, 3, 7, 8) && c[3..7] == "Text";
    TextRunToken(c, 3, 3, 7, 8);
  }

  lemma CommentIdentifier(c: string)
    requires c == "<p>Text <!-- Hello --> !"
    ensures Lex(c, 10, false) == Lexed(Text("-- Hello --"), 21)
  {
    assert TextRun(c, 10, 10, 21, 21) && c[10..21] == "-- Hello --";
    TextRunToken(c, 10, 10, 21, 21);
  }

  lemma CommentLastText(c: string)
    requires c == "<p>Text <!-- Hello --> !"
    ensures Lex(c, 22, false) == Lexed(Text("!"), 24)
  {
    assert TextRun(c, 22, 23, 24, 24) && c[23..24] == "!";
    TextRunToken(c, 22, 23, 24, 24);
  }

  /** `<!--` alone reaches the comment branch, which is `todo!()`: the parse panics. */
  lemma ParserBareComment(c: string, env: Collaborators)
    requires c == "<!--"
    ensures ParseSpec(c, 0, Elements.Default(), env) == ParseStep(Panicked, 4)
  {
    assert TextRun(c, 2, 2, 4, 4) && c[2..4] == "--";
    TextRunToken(c, 2, 2, 4, 4);
    ParseCommentAt(c, 0, 4, Elements.Default(), env);
  }

  /** Attributes are never read: `<a x=1 x=2>` is one tag named `a x=1 x=2`, with no attributes. */
  lemma ParserAttributesStayInIdentifier(c: string, env: Collaborators)
    requires c == "<a x=1 x=2>"
    ensures ParseSpec(c, 0, Elements.Default(), env)
         == ParseStep(Done(Elements.UnstructuredSequence([Elements.Tag("a x=1 x=2", map[])])), 11)
  {
    assert TextRun(c, 1, 1, 10, 10) && c[1..10] == "a x=1 x=2";
    TextRunToken(c, 1, 1, 10, 10);
    ParseTagAt(c, 0, "a x=1 x=2", 10, Elements.Default(), env);
    LexAtEnd(c, 11, false);
    ParseStopsAtEof(c, 11, Elements.Push(Elements.Default(), Elements.Tag("a x=1 x=2", map[])), env, 11);
    PushedOne(Elements.Tag("a x=1 x=2", map[]));
  }

  /**
    A blank run between two tags is an `Eof`: `<a> <b>` gives only the tag `a`,
    and the cursor stays on the second `<`.
   */
  lemma ParserStopsAtBlankRun(c: string, env: Collaborators)
    requires c == "<a> <b>"
    ensures ParseSpec(c, 0, Elements.Default(), env)
         == ParseStep(Done(Elements.UnstructuredSequence([Elements.Tag("a", map[])])), 4)
  {
    assert TextRun(c, 1, 1, 2, 2) && c[1..2] == "a" && TextRun(c, 3, 4, 4, 4);
    TextRunToken(c, 1, 1, 2, 2);
    TextRunToken(c, 3, 4, 4, 4);
    ParseTagAt(c, 0, "a", 2, Elements.Default(), env);
    ParseStopsAtEof(c, 3, Elements.Push(Elements.Default(), Elements.Tag("a", map[])), env, 4);
    PushedOne(Elements.Tag("a", map[]));
  }

  /** So a second `parse` on the same parser goes on from there and gives the tag `b`. */
  lemma ParserResumesAfterBlankRun(c: string, env: Collaborators)
    requires c == "<a> <b>"
    ensures ParseSpec(c, 4, Elements.Default(), env)
         == ParseStep(Done(Elements.UnstructuredSequence([Elements.Tag("b", map[])])), 7)
  {
    assert TextRun(c, 5, 5, 6, 6) && c[5..6] == "b";
    TextRunToken(c, 5, 5, 6, 6);
    ParseTagAt(c, 4, "b", 6, Elements.Default(), env);
    LexAtEnd(c, 7, false);
    ParseStopsAtEof(c, 7, Elements.Push(Elements.Default(), Elements.Tag("b", map[])), env, 7);
    PushedOne(Elements.Tag("b", map[]));
  }

  /** `< untag`: the blank after `<` is trimmed away, `untag` is read as an identifier, and the unclosed tag is dropped. */
  lemma ParserLoneAngle(c: string, env: Collaborators)
    requires c == "< untag"
    ensures ParseSpec(c, 0, Elements.Default(), env) == ParseStep(Done(Elements.Default()), 7)
  {
    assert TextRun(c, 1, 2, 7, 7);
    TextRunToken(c, 1, 2, 7, 7);
    ParseUnclosedTagAt(c, 0, c[2..7], Elements.Default(), env);
  }
}
