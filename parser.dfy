/**
  The flat parser of s-html-parser/src/parser.rs. It pulls tokens from the
  tokenizer one at a time and turns them into tags and text runs; a malformed
  tag is dropped and parsing goes on from wherever the cursor stopped.
 */
module Parsing {
  import opened Wrappers
  import opened Errors
  import opened Strings
  import opened Tokens
  import Elements

  type Element = Elements.Element
  type UnstructuredSequence = Elements.UnstructuredSequence

  /**
    Three helpers the parser calls on the tokenizer whose code is not part of
    this model: `concat` (the text spanned by two tokens), `token_to_str_empty`
    and `token_to_text_element`. The model fixes what `concat` and
    `token_to_text_element` give to be text elements: the first is turned into
    an element with `.try_into()` from a string, and every conversion from a
    string in element.rs builds a `Text`; the second says so in its name. The
    functions see only the token, not the content or the cursor.
   */
  datatype Collaborators = Collaborators(
    concat: (Token, Token) -> string,
    isEmptySpan: Token -> bool,
    spanText: Token -> string)

  /** What `parse_tag` comes to: a result, or the panic of the `todo!()` on `<!--`. */
  datatype TagOutcome = Parsed(element: Element) | Failed(error: ParseError) | Aborted

  /** What `parse` comes to: the sequence, or the panic raised inside `parse_tag`. */
  datatype ParseOutcome = Done(sequence: UnstructuredSequence) | Panicked

  /** The outcome of `parse` and where it leaves the tokenizer's cursor. */
  datatype ParseStep = ParseStep(outcome: ParseOutcome, head: nat)

  datatype TagStep = TagStep(outcome: TagOutcome, head: nat)
  datatype AttrStep = AttrStep(attrs: Result<map<string, string>, ParseError>, head: nat)

  predicate StartsWithSpace(s: string) {
    |s| > 0 && s[0] == ' '
  }

  /** No tag in `s` carries an attribute. */
  predicate NoAttributes(s: seq<Element>) {
    forall k :: 0 <= k < |s| && s[k].Tag? ==> s[k].attrs == map[]
  }

  /**
    The attribute loop of `parse_tag` from cursor `head`, with the attributes read
    so far: `>` ends it, `/` must be followed by `>`, and any other token is
    dropped and must be followed by exactly a text key, `=` and a text value,
    which overwrite any earlier value of that key.
   */
  function AttrLoop(content: string, head: nat, attrs: map<string, string>): (r: AttrStep)
    requires head <= |content|
    ensures head <= r.head <= |content|
    decreases |content| - head
  {
    var first := Lex(content, head, false);
    if first.token == RAngle then AttrStep(Ok(attrs), first.head)
    else if first.token == Backslash then
      var close := Lex(content, first.head, false);
      if close.token == RAngle then AttrStep(Ok(attrs), close.head)
      else AttrStep(Err(Unexpected), close.head)
    else
      var key := Lex(content, first.head, false);
      if !key.token.Text? then AttrStep(Err(Unexpected), key.head)
      else
        var equals := Lex(content, key.head, false);
        if equals.token != Equals then AttrStep(Err(Unexpected), equals.head)
        else
          var value := Lex(content, equals.head, false);
          if !value.token.Text? then AttrStep(Err(Unexpected), value.head)
          else AttrLoop(content, value.head, attrs[key.token.text := value.token.text])
  }

  /** The tag `ident` with the attributes its attribute loop reads, or that loop's error. */
  function Attributes(content: string, head: nat, ident: string): (r: TagStep)
    requires head <= |content|
    ensures head <= r.head <= |content|
  {
    var a := AttrLoop(content, head, map[]);
    TagStep(if a.attrs.Ok? then Parsed(Elements.Tag(ident, a.attrs.value)) else Failed(a.attrs.error), a.head)
  }

  /**
    `parse_tag`, called with the cursor just after `langle`. The identifier is a
    text token, a `/` and a text token, or a `!` and a text token other than `--`
    (which aborts); anything else is `Unexpected`. A text token starting with a
    space is merged with `langle` into a text element instead.
   */
  function ParseTagSpec(content: string, head: nat, langle: Token, env: Collaborators): (r: TagStep)
    requires head <= |content|
    ensures head <= r.head <= |content|
  {
    var first := Lex(content, head, false);
    match first.token
    case Text(ident) =>
      if StartsWithSpace(ident) then TagStep(Parsed(Elements.Text(env.concat(langle, first.token))), first.head)
      else Attributes(content, first.head, ident)
    case Exclamation =>
      var second := Lex(content, first.head, false);
      if !second.token.Text? then TagStep(Failed(Unexpected), second.head)
      else if second.token.text == "--" then TagStep(Aborted, second.head)
      else Attributes(content, second.head, second.token.text)
    case Backslash =>
      var second := Lex(content, first.head, false);
      if !second.token.Text? then TagStep(Failed(Unexpected), second.head)
      else Attributes(content, second.head, second.token.text)
    case _ => TagStep(Failed(Unexpected), first.head)
  }

  /**
    The main loop of `parse` from cursor `head`, with the elements `acc` pushed so
    far: it stops at the first `Eof`, leaving the cursor where that `Eof` put it;
    after `<` it appends the tag `parse_tag` returns and drops a failed one; it
    appends a non-blank text token as it is, and any other token through the
    tokenizer's helpers unless its span is empty.
   */
  function ParseSpec(content: string, head: nat, acc: UnstructuredSequence, env: Collaborators): (r: ParseStep)
    requires head <= |content|
    ensures head <= r.head <= |content|
    decreases |content| - head
  {
    var next := Lex(content, head, false);
    if next.token == LAngle then
      var tag := ParseTagSpec(content, next.head, next.token, env);
      match tag.outcome
      case Parsed(e) => ParseSpec(content, tag.head, Elements.Push(acc, e), env)
      case Failed(_) => ParseSpec(content, tag.head, acc, env)
      case Aborted => ParseStep(Panicked, tag.head)
    else if next.token.Text? && Trim(next.token.text) != [] then
      ParseSpec(content, next.head, Elements.Push(acc, Elements.Text(next.token.text)), env)
    else if next.token == Eof then
      ParseStep(Done(acc), next.head)
    else if !env.isEmptySpan(next.token) then
      ParseSpec(content, next.head, Elements.Push(acc, Elements.Text(env.spanText(next.token))), env)
    else
      ParseSpec(content, next.head, acc, env)
  }

  /** In the main loop, a tag `parse_tag` returns is appended and the loop goes on after it. */
  lemma ParseAppendsTag(content: string, head: nat, acc: UnstructuredSequence, env: Collaborators, e: Element, next: nat)
    requires head <= |content| && Lex(content, head, false) == Lexed(LAngle, head + 1)
    requires ParseTagSpec(content, head + 1, LAngle, env) == TagStep(Parsed(e), next)
    ensures ParseSpec(content, head, acc, env) == ParseSpec(content, next, Elements.Push(acc, e), env)
  {
    var tag := ParseTagSpec(content, head + 1, LAngle, env);
    assert tag.outcome == Parsed(e) && tag.head == next;
  }

  /**
    A tag that fails adds nothing, and the loop goes on from wherever `parse_tag`
    left the cursor: what it consumed is lost.
   */
  lemma ParseDropsFailedTag(content: string, head: nat, acc: UnstructuredSequence, env: Collaborators, err: ParseError, next: nat)
    requires head <= |content| && Lex(content, head, false) == Lexed(LAngle, head + 1)
    requires ParseTagSpec(content, head + 1, LAngle, env) == TagStep(Failed(err), next)
    ensures ParseSpec(content, head, acc, env) == ParseSpec(content, next, acc, env)
  {
    var tag := ParseTagSpec(content, head + 1, LAngle, env);
    assert tag.outcome == Failed(err) && tag.head == next;
  }

  /**
    A text token is appended as it is: the tokenizer never hands out a blank
    one, so the blank-text fallback is never taken.
   */
  lemma ParseAppendsText(content: string, head: nat, acc: UnstructuredSequence, env: Collaborators, s: string, next: nat)
    requires head <= |content| && Lex(content, head, false) == Lexed(Text(s), next)
    ensures ParseSpec(content, head, acc, env) == ParseSpec(content, next, Elements.Push(acc, Elements.Text(s)), env)
  {
    LexText(content, head, false);
    TrimmedIsFixedPoint(s);
  }

  /**
    The main loop stops at the first `Eof`, wherever the cursor is, and returns
    what it has; the cursor stays where that `Eof` left it, which is before the
    end of the content when the `Eof` stands for a blank run.
   */
  lemma ParseStopsAtEof(content: string, head: nat, acc: UnstructuredSequence, env: Collaborators, next: nat)
    requires head <= |content| && Lex(content, head, false) == Lexed(Eof, next)
    ensures ParseSpec(content, head, acc, env) == ParseStep(Done(acc), next)
  {
  }

  /**
    With this tokenizer the attribute loop never gets to store an attribute: a
    text key is always followed by `<`, `>` or `Eof`, never by `=`. So it
    succeeds, with the map it was given, exactly when it opens on `>` or on `/>`.
   */
  lemma AttributeLoopStoresNothing(content: string, head: nat, attrs: map<string, string>)
    requires head <= |content|
    ensures var first := Lex(content, head, false);
      AttrLoop(content, head, attrs).attrs ==
        if first.token == RAngle || (first.token == Backslash && Lex(content, first.head, false).token == RAngle)
        then Ok(attrs) else Err(Unexpected)
  {
    var first := Lex(content, head, false);
    if first.token != RAngle && first.token != Backslash {
      var key := Lex(content, first.head, false);
      if key.token.Text? {
        AfterText(content, first.head);
      }
    }
  }

  /**
    A tag introduced by a plain identifier is recognised exactly when its text run
    is closed by `>` at once; it then has no attributes and the cursor is past the
    `>`. Otherwise the tag fails with `Unexpected`.
   */
  lemma PlainTagOutcome(content: string, head: nat, langle: Token, env: Collaborators)
    requires head <= |content| && Lex(content, head, false).token.Text?
    ensures var first := Lex(content, head, false);
      var closed := first.head < |content| && content[first.head] == '>';
      && ParseTagSpec(content, head, langle, env).outcome ==
           (if closed then Parsed(Elements.Tag(first.token.text, map[])) else Failed(Unexpected))
      && first.head <= ParseTagSpec(content, head, langle, env).head
      && (closed ==> ParseTagSpec(content, head, langle, env).head == first.head + 1)
  {
    var first := Lex(content, head, false);
    AttributeLoopStoresNothing(content, first.head, map[]);
  }

  /**
    The outcome of `parse_tag` for every kind of token it can open on. A text
    identifier, or `/` or `!` and a text identifier, gives the tag exactly when
    `>` closes the identifier at once, except that `!` and `--` abort; a `/` or
    `!` not followed by text, and any other first token, give `Unexpected`.
   */
  lemma ParseTagOutcome(content: string, head: nat, langle: Token, env: Collaborators)
    requires head <= |content|
    ensures var first := Lex(content, head, false);
      var r := ParseTagSpec(content, head, langle, env).outcome;
      && (first.token.Text? ==>
            r == if first.head < |content| && content[first.head] == '>'
                 then Parsed(Elements.Tag(first.token.text, map[])) else Failed(Unexpected))
      && (first.token == Backslash || first.token == Exclamation ==>
            var second := Lex(content, first.head, false);
            if !second.token.Text? then r == Failed(Unexpected)
            else if first.token == Exclamation && second.token.text == "--" then r == Aborted
            else r == if second.head < |content| && content[second.head] == '>'
                      then Parsed(Elements.Tag(second.token.text, map[])) else Failed(Unexpected))
      && (!first.token.Text? && first.token != Backslash && first.token != Exclamation ==>
            r == Failed(Unexpected))
  {
    var first := Lex(content, head, false);
    if first.token.Text? {
      PlainTagOutcome(content, head, langle, env);
    } else if first.token == Backslash || first.token == Exclamation {
      var second := Lex(content, first.head, false);
      if second.token.Text? {
        LexText(content, first.head, false);
        AttributeLoopStoresNothing(content, second.head, map[]);
      }
    }
  }

  /** Every tag `parse_tag` returns has an empty attribute map, and it never returns merged text. */
  lemma ParsedTagHasNoAttributes(content: string, head: nat, langle: Token, env: Collaborators)
    requires head <= |content|
    ensures var r := ParseTagSpec(content, head, langle, env).outcome;
      r.Parsed? ==> r.element.Tag? && r.element.attrs == map[]
  {
    var first := Lex(content, head, false);
    if first.token.Text? {
      AttributeLoopStoresNothing(content, first.head, map[]);
    } else if first.token == Exclamation || first.token == Backslash {
      var second := Lex(content, first.head, false);
      if second.token.Text? {
        AttributeLoopStoresNothing(content, second.head, map[]);
      }
    }
  }

  /** `parse` only ever appends: what was pushed before is a prefix of the result. */
  lemma {:induction false} ParseAppendsOnly(content: string, head: nat, acc: UnstructuredSequence, env: Collaborators)
    requires head <= |content|
    ensures var r := ParseSpec(content, head, acc, env).outcome;
      r.Done? ==> |acc.elements| <= |r.sequence.elements| && r.sequence.elements[..|acc.elements|] == acc.elements
    decreases |content| - head
  {
    var next := Lex(content, head, false);
    if next.token == LAngle {
      var tag := ParseTagSpec(content, next.head, next.token, env);
      match tag.outcome
      case Parsed(e) =>
        ParseAppendsOnly(content, tag.head, Elements.Push(acc, e), env);
        PrefixOfPush(acc, e, ParseSpec(content, tag.head, Elements.Push(acc, e), env).outcome);
      case Failed(_) => ParseAppendsOnly(content, tag.head, acc, env);
      case Aborted =>
    } else if next.token.Text? && Trim(next.token.text) != [] {
      var e := Elements.Text(next.token.text);
      ParseAppendsOnly(content, next.head, Elements.Push(acc, e), env);
      PrefixOfPush(acc, e, ParseSpec(content, next.head, Elements.Push(acc, e), env).outcome);
    } else if next.token == Eof {
    } else if !env.isEmptySpan(next.token) {
      var e := Elements.Text(env.spanText(next.token));
      ParseAppendsOnly(content, next.head, Elements.Push(acc, e), env);
      PrefixOfPush(acc, e, ParseSpec(content, next.head, Elements.Push(acc, e), env).outcome);
    } else {
      ParseAppendsOnly(content, next.head, acc, env);
    }
  }

  lemma PrefixOfPush(acc: UnstructuredSequence, e: Element, r: ParseOutcome)
    requires var pushed := Elements.Push(acc, e).elements;
      r.Done? ==> |pushed| <= |r.sequence.elements| && r.sequence.elements[..|pushed|] == pushed
    ensures r.Done? ==> |acc.elements| <= |r.sequence.elements| && r.sequence.elements[..|acc.elements|] == acc.elements
  {
    if r.Done? {
      var pushed := Elements.Push(acc, e).elements;
      assert r.sequence.elements[..|acc.elements|] == pushed[..|acc.elements|];
    }
  }

  /** No tag in the output of `parse` carries an attribute. */
  lemma {:induction false} ParsedTagsHaveNoAttributes(content: string, head: nat, acc: UnstructuredSequence, env: Collaborators)
    requires head <= |content| && NoAttributes(acc.elements)
    ensures var r := ParseSpec(content, head, acc, env).outcome;
      r.Done? ==> NoAttributes(r.sequence.elements)
    decreases |content| - head
  {
    var next := Lex(content, head, false);
    if next.token == LAngle {
      var tag := ParseTagSpec(content, next.head, next.token, env);
      ParsedTagHasNoAttributes(content, next.head, next.token, env);
      match tag.outcome
      case Parsed(e) => ParsedTagsHaveNoAttributes(content, tag.head, Elements.Push(acc, e), env);
      case Failed(_) => ParsedTagsHaveNoAttributes(content, tag.head, acc, env);
      case Aborted =>
    } else if next.token.Text? && Trim(next.token.text) != [] {
      ParsedTagsHaveNoAttributes(content, next.head, Elements.Push(acc, Elements.Text(next.token.text)), env);
    } else if next.token == Eof {
    } else if !env.isEmptySpan(next.token) {
      ParsedTagsHaveNoAttributes(content, next.head, Elements.Push(acc, Elements.Text(env.spanText(next.token))), env);
    } else {
      ParsedTagsHaveNoAttributes(content, next.head, acc, env);
    }
  }

  /** `Parser`: owns the tokenizer that `parse` and `parse_tag` advance. */
  class Parser {
    const tokenizer: Tokenizer

    /** `Parser::new`: a fresh tokenizer over `content`, cursor at the start. */
    constructor (content: string)
      ensures fresh(tokenizer) && tokenizer.Valid()
      ensures tokenizer.content == content && tokenizer.head == 0
    {
      tokenizer := new Tokenizer(content);
    }

    /**
      `parse`: the main loop, from wherever the cursor stands. It leaves the
      cursor where it read its `Eof`, so a later call goes on from there.
     */
    method Parse(env: Collaborators) returns (r: ParseOutcome)
      requires tokenizer.Valid()
      modifies tokenizer
      ensures tokenizer.Valid()
      ensures ParseStep(r, tokenizer.head) == ParseSpec(tokenizer.content, old(tokenizer.head), Elements.Default(), env)
    {
      var sequence := Elements.Default();
      while true
        invariant tokenizer.Valid()
        invariant ParseSpec(tokenizer.content, tokenizer.head, sequence, env)
               == ParseSpec(tokenizer.content, old(tokenizer.head), Elements.Default(), env)
        decreases |tokenizer.content| - tokenizer.head
      {
        var token := tokenizer.NextToken();
        if token == LAngle {
          var tag := ParseTag(token, env);
          match tag
          case Parsed(e) => sequence := Elements.Push(sequence, e);
          case Failed(_) =>
          case Aborted => return Panicked;
        } else if token.Text? && Trim(token.text) != [] {
          sequence := Elements.Push(sequence, Elements.Text(token.text));
        } else if token == Eof {
          return Done(sequence);
        } else if !env.isEmptySpan(token) {
          sequence := Elements.Push(sequence, Elements.Text(env.spanText(token)));
        }
      }
    }

    /** `parse_tag`: the identifier, then the attribute loop. */
    method ParseTag(langle: Token, env: Collaborators) returns (r: TagOutcome)
      requires tokenizer.Valid()
      modifies tokenizer
      ensures tokenizer.Valid()
      ensures TagStep(r, tokenizer.head) == ParseTagSpec(tokenizer.content, old(tokenizer.head), langle, env)
    {
      var token := tokenizer.NextToken();
      var ident: string;
      match token {
        case Text(s) =>
          if StartsWithSpace(s) {
            return Parsed(Elements.Text(env.concat(langle, token)));
          }
          ident := s;
        case Exclamation =>
          var next := tokenizer.NextToken();
          if !next.Text? {
            return Failed(Unexpected);
          }
          if next.text == "--" {
            return Aborted;
          }
          ident := next.text;
        case Backslash =>
          var next := tokenizer.NextToken();
          if !next.Text? {
            return Failed(Unexpected);
          }
          ident := next.text;
        case _ =>
          return Failed(Unexpected);
      }
      assert ParseTagSpec(tokenizer.content, old(tokenizer.head), langle, env)
          == Attributes(tokenizer.content, tokenizer.head, ident);

      var attrs := ReadAttributes();
      if attrs.Err? {
        return Failed(attrs.error);
      }
      return Parsed(Elements.Tag(ident, attrs.value));
    }

    /** The attribute loop of `parse_tag`, from the cursor just after the identifier. */
    method ReadAttributes() returns (r: Result<map<string, string>, ParseError>)
      requires tokenizer.Valid()
      modifies tokenizer
      ensures tokenizer.Valid()
      ensures AttrStep(r, tokenizer.head) == AttrLoop(tokenizer.content, old(tokenizer.head), map[])
    {
      var attrs := map[];
      while true
        invariant tokenizer.Valid()
        invariant AttrLoop(tokenizer.content, tokenizer.head, attrs) == AttrLoop(tokenizer.content, old(tokenizer.head), map[])
        decreases |tokenizer.content| - tokenizer.head
      {
        var kind := tokenizer.NextToken();
        if kind == RAngle {
          return Ok(attrs);
        }
        if kind == Backslash {
          var close := tokenizer.NextToken();
          if close != RAngle {
            return Err(Unexpected);
          }
          return Ok(attrs);
        }
        var key := tokenizer.NextToken();
        if !key.Text? {
          return Err(Unexpected);
        }
        var equals := tokenizer.NextToken();
        if equals != Equals {
          return Err(Unexpected);
        }
        var value := tokenizer.NextToken();
        if !value.Text? {
          return Err(Unexpected);
        }
        attrs := attrs[key.text := value.text];
      }
    }
  }
}
