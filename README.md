# s-html-parser in Dafny

A model of the lexer and the flat parser of s-html-parser, a lenient HTML-ish
parser written in Rust, with proofs of what they do.

- **Tokenizer** (`Tokens`, token.rs). A class holds the content and one forward
  cursor `head`. `NextTokenRaw` does the following:
  - returns `Eof` at the end of the content;
  - turns the five punctuation characters `< > / = !` into their tokens and moves one step;
  - otherwise scans to the next `<` or `>` (in word-by-word mode, whitespace too),
    trims that run and returns it as `Text`, or returns `Eof` when the run is blank.

  Each method is proved against the function `Lex`, which says what one call
  returns and where it leaves the cursor. `TokenStream` is the sequence of tokens
  successive calls hand out.
- **Elements** (`Elements`, element.rs). Tags with an identifier and a
  string-to-string map, text elements, and the ordered sequence that holds them.
- **Parser** (`Parsing`, parser.rs). A class owns the tokenizer.
  - `Parse` is the main loop. It stops at the first `Eof`, appends text, and runs
    `ParseTag` after each `<`. A tag that fails is dropped.
  - `ParseTag` reads the identifier. This is a text token, `/` and a text token,
    or `!` and a text token. Then `ReadAttributes` runs the attribute loop.
  - Each method is proved against a function: `ParseSpec`, `ParseTagSpec` and
    `AttrLoop` respectively.
- **Examples** (`Examples`). The repository's tests in lib.rs and the
  documentation example of `Parser`, proved of the model, plus a few inputs that
  show how the parser and this tokenizer behave together.

Where the parser's code and its tokenizer do not fit, the model follows the
tokenizer in token.rs:
- parser.rs talks of `TokenKind` and of three tokenizer helpers that token.rs
  does not have;
- the model uses the `Token` enum of token.rs;
- the three helpers are parameters of `Parsing.Collaborators`.

The proofs bring out how the two files behave together:
- A text token is never blank and never starts with a space. So the parser's
  blank-text case and its "merge `<` with the text" case are never taken.
- A text token is always followed by `<`, `>` or `Eof`, never by `=`. So the
  attribute loop never stores an attribute.
  - Every tag has an empty attribute map.
  - `<a x=1 x=2>` is a single tag named `a x=1 x=2`.
- A run of blanks between two tags is handed out as `Eof`, and `parse` stops there.
  It leaves the cursor after the blanks, so a second `parse` on the same parser
  goes on from the next tag.
- The comment branch panics when the trimmed run after `<!` is exactly `--`:
  `<!--` does, and so do `<!-- >` and `<! --`. In
  `<p>Text <!-- Hello --> !` that run is `-- Hello --`, so the comment becomes a
  tag with that name.
- The documentation example `<p> Hello! </p>` gives the tag `p`, the text
  `Hello!` and the tag `p`. The documentation lists ` Hello` and `!` as two text
  elements; the code gives the one trimmed token.

## Model

| member | source | states |
|---|---|---|
| Strings.WhitespaceCharacters | s-html-parser/src/token.rs:39-52 | `char::is_whitespace` (`Strings.IsWhitespace`) on ASCII holds of exactly space, tab, line feed, vertical tab, form feed and carriage return |
| Strings.Trim | s-html-parser/src/token.rs:52 | `str::trim` never gives a longer string than its input; what it gives is stated by `Strings.TrimSpec` |
| Strings.TrimSpec | s-html-parser/src/token.rs:52 | `str::trim` is empty exactly on all-whitespace input; otherwise it starts and ends on non-whitespace, is the input after its leading whitespace with interior whitespace kept, and only whitespace follows it |
| Strings.SkipBlanksIsFirstNonBlank | s-html-parser/src/token.rs:52 | the start of the trim is the first non-whitespace character and no other index |
| Strings.DropTrailingBlanksIsLastNonBlank | s-html-parser/src/token.rs:52 | the end of the trim is just after the last non-whitespace character and no other index |
| Strings.TrimPadded | s-html-parser/src/token.rs:52 | trimming whitespace padding around a body with no whitespace at its ends gives exactly that body |
| Strings.TrimmedIsFixedPoint | s-html-parser/src/token.rs:52 | a string with no whitespace at either end is its own trim |
| Strings.TrimIdempotent | s-html-parser/src/token.rs:52 | trimming twice is trimming once |
| Tokens.FromChar | s-html-parser/src/token.rs:87-98 | classification is total: exactly `< > / = !` succeed, each giving the token that stands for that character; every other character is refused with `NonCharToken` of that same character |
| Tokens.FromCharRoundTrip | s-html-parser/src/token.rs:87-98 | classifying the character of a punctuation token gives that token back |
| Tokens.RunEnd | s-html-parser/src/token.rs:44-49 | the end of a run lies between its start and the end of the content, no stop character comes before it, and it is a stop or the end |
| Tokens.RunEndIsFirstStop | s-html-parser/src/token.rs:44-49 | the run ends at the first stop character and nowhere else |
| Tokens.Position | s-html-parser/src/token.rs:44-49 | the scan loop finds the offset of the first stop character (or of the end) after the cursor |
| Tokens.Lex | s-html-parser/src/token.rs:24-60 | one call never moves the cursor back, never past the end of the content, and hands out `Eof` whenever it leaves the cursor where it was |
| Tokens.LexAtEnd | s-html-parser/src/token.rs:28-30 | at or past the end the result is `Eof` and the cursor stays put |
| Tokens.LexPunctuation | s-html-parser/src/token.rs:32-36 | a punctuation character becomes the token for that character and the cursor moves by exactly one |
| Tokens.LexTextRun | s-html-parser/src/token.rs:38-59 | in default mode a run stops only at the first `<` or `>` or at the end, so `/`, `=` and `!` stay inside; the token is the trimmed run, or `Eof` when the run is blank, and the cursor lands on the stop |
| Tokens.LexText | s-html-parser/src/token.rs:52-59 | a text token is non-empty, has no whitespace at either end, and is followed by a stop or the end |
| Tokens.LexMovesInDefaultMode | s-html-parser/src/token.rs:28-54 | in default mode every call made before the end strictly advances the cursor |
| Tokens.LexWordOnWhitespace | s-html-parser/src/token.rs:38-56 | in word-by-word mode a cursor on whitespace gives `Eof` and does not move |
| Tokens.AfterText | s-html-parser/src/token.rs:44-59 | after a text token the next token is `<`, `>` or `Eof` |
| Tokens.TokenStream | s-html-parser/src/token.rs:18-20 | successive `next_token` calls reach `Eof` after at most one token per remaining character, and `Eof` appears only at the end |
| Tokens.RunEndShift | s-html-parser/src/token.rs:44-49 | a prefix before the content shifts the end of a run by its length and changes nothing else |
| Tokens.LexShift | s-html-parser/src/token.rs:24-60 | a prefix before the content does not change the token, and shifts the cursor by its length |
| Tokens.RunShift | s-html-parser/src/token.rs:38-59 | the same for a cursor at the start of a text run |
| Tokens.TokenStreamShift | s-html-parser/src/token.rs:18-20 | a prefix does not change the token stream from a cursor past it |
| Tokens.Tokenizer.constructor | s-html-parser/src/token.rs:9-17 | a new tokenizer holds the content with its cursor at 0 |
| Tokens.Tokenizer.NextToken | s-html-parser/src/token.rs:18-20 | returns the token `Lex` gives in default mode and moves the cursor to where `Lex` leaves it |
| Tokens.Tokenizer.NextTokenByWord | s-html-parser/src/token.rs:21-23 | the same in word-by-word mode |
| Tokens.Tokenizer.NextTokenRaw | s-html-parser/src/token.rs:24-60 | the cursor update and the result of one call are the ones `Lex` gives |
| Elements.NewTag | s-html-parser/src/element.rs:18-23 | a tag whose identifier and attributes are exactly the arguments |
| Elements.NewText | s-html-parser/src/element.rs:24-46 | `Element::text` and the three `From` conversions give text equal to the input |
| Elements.TagEquality | s-html-parser/src/element.rs:7-16 | two tags are equal iff their identifiers and their attribute maps are equal |
| Elements.AttributeOrderIrrelevant | s-html-parser/src/element.rs:10-13 | inserting two different keys in either order gives the same tag |
| Elements.Default | s-html-parser/src/element.rs:29-30 | the default sequence is empty |
| Elements.FromVec | s-html-parser/src/element.rs:48-52 | wrapping a vector keeps its length, order and elements |
| Elements.Push | s-html-parser/src/element.rs:59-63 | pushing through `DerefMut` puts the element last and keeps everything before it |
| Elements.Deref | s-html-parser/src/element.rs:53-58 | `Deref` shows the wrapped elements, same length, same order |
| Elements.DerefFromVec | s-html-parser/src/element.rs:48-58 | `Deref` gives back the wrapped vector, and wrapping what `Deref` shows gives back the sequence |
| Parsing.AttrLoop | s-html-parser/src/parser.rs:81-95 | the attribute loop never moves the cursor back or past the end |
| Parsing.Attributes | s-html-parser/src/parser.rs:81-97 | the tag with the attributes the loop reads, or its error, never moving the cursor back or past the end |
| Parsing.ParseTagSpec | s-html-parser/src/parser.rs:58-98 | `parse_tag` never moves the cursor back or past the end |
| Parsing.ParseSpec | s-html-parser/src/parser.rs:40-57 | the outcome of `parse` and the cursor it leaves, which never moves back or past the end; `ParseAppendsOnly` proves that earlier elements stay first, in order, and `ParsedTagsHaveNoAttributes` that no output tag has an attribute |
| Parsing.ParseAppendsTag | s-html-parser/src/parser.rs:46-53 | after `<`, a tag `parse_tag` returns is appended and the loop goes on from where `parse_tag` left the cursor |
| Parsing.ParseDropsFailedTag | s-html-parser/src/parser.rs:46 | a failed tag adds nothing and the loop goes on from where `parse_tag` stopped, without rewinding |
| Parsing.ParseAppendsText | s-html-parser/src/parser.rs:47 | a text token is appended with its content unchanged |
| Parsing.ParseStopsAtEof | s-html-parser/src/parser.rs:48 | the first `Eof` ends the loop with what has been collected, the cursor where that `Eof` left it |
| Parsing.AttributeLoopStoresNothing | s-html-parser/src/parser.rs:81-95 | with this tokenizer the loop succeeds, with the map it was given, exactly when it opens on `>` or `/>`; otherwise it fails with `Unexpected` |
| Parsing.PlainTagOutcome | s-html-parser/src/parser.rs:59-97 | a tag named by a text token is parsed, with no attributes and the cursor past `>`, exactly when `>` closes that token at once; otherwise it fails with `Unexpected` |
| Parsing.ParseTagOutcome | s-html-parser/src/parser.rs:59-97 | `parse_tag` for every first token: a text identifier, or `/` or `!` and a text identifier, gives the tag with no attributes exactly when `>` closes the identifier at once, and `Unexpected` otherwise; `!` and the token `--` abort; `/` or `!` not followed by text, and any other first token, give `Unexpected` |
| Parsing.ParsedTagHasNoAttributes | s-html-parser/src/parser.rs:58-97 | every element `parse_tag` returns is a tag with an empty attribute map |
| Parsing.ParseAppendsOnly | s-html-parser/src/parser.rs:40-57 | `parse` only appends: the elements pushed earlier stay first, in order |
| Parsing.ParsedTagsHaveNoAttributes | s-html-parser/src/parser.rs:40-57 | no tag in the output of `parse` has an attribute |
| Parsing.Parser.constructor | s-html-parser/src/parser.rs:32-39 | a new parser owns a fresh tokenizer over the content, cursor at 0 |
| Parsing.Parser.Parse | s-html-parser/src/parser.rs:40-57 | the main loop returns the outcome `ParseSpec` gives from the cursor it starts at, and leaves the cursor where `ParseSpec` says: where it read its `Eof`, or where `parse_tag` panicked |
| Parsing.Parser.ParseTag | s-html-parser/src/parser.rs:58-98 | the identifier dispatch and the attribute loop give the outcome and cursor of `ParseTagSpec` |
| Parsing.Parser.ReadAttributes | s-html-parser/src/parser.rs:81-95 | the attribute loop gives the result and cursor of `AttrLoop` |
| Examples.TokenizerBasic | s-html-parser/src/lib.rs:25-31 | two plain texts joined by a space and `<` tokenize to the first text, `<`, the second text and `Eof`; plain text here means non-empty, not starting with `/`, `=` or `!`, with no `<` or `>`, and no whitespace at either end |
| Examples.TokenizerBasicTest | s-html-parser/src/lib.rs:25-31 | `Hello <world` gives `Hello`, `<`, `world`, `Eof` |
| Examples.TokenizerExclamationInText | s-html-parser/src/lib.rs:33-37 | a plain text is one token, then `Eof`; plain text here means non-empty, not starting with `/`, `=` or `!`, with no `<` or `>`, and no whitespace at either end |
| Examples.TokenizerExclamationInTextTest | s-html-parser/src/lib.rs:33-37 | `This is a text...` is one text token, then `Eof` |
| Examples.TokenizerTrimsEnds | s-html-parser/src/lib.rs:39-47 | a plain text padded with whitespace, `<`, a plain text, `>` and trailing blanks give the unpadded text, `<`, the second text, `>`, `Eof`; plain text as for `Examples.TokenizerExclamationInText` |
| Examples.TokenizerTrimsEndsTest | s-html-parser/src/lib.rs:39-47 | the test's string gives `A wizard is never late   !`, `<`, `tag`, `>`, `Eof` |
| Examples.ParserBasic | s-html-parser/src/lib.rs:49-55 | `<`, a plain text `p`, `>` and a plain text `t` parse to the tag `p` and the text `t`, and the cursor ends at the end of the content; plain text here means non-empty, not starting with `/`, `=` or `!`, with no `<` or `>`, and no whitespace at either end |
| Examples.ParserBasicTest | s-html-parser/src/lib.rs:49-55 | `<p>Text   !` parses to the tag `p` and the text `Text   !` |
| Examples.ParserUnclosedTag | s-html-parser/src/lib.rs:57-61 | `<pText   !` parses to an empty sequence |
| Examples.ParserDocumentation | s-html-parser/src/parser.rs:18-26 | `<p> Hello! </p>` parses to the tag `p`, the text `Hello!` and the tag `p` |
| Examples.ParserCommentIsTag | s-html-parser/src/parser.rs:67-71 | in `<p>Text <!-- Hello --> !` the identifier after `!` is `-- Hello --`, and the comment becomes a tag |
| Examples.ParserBareComment | s-html-parser/src/parser.rs:67-70 | `<!--` reaches the `todo!()` and the parse panics |
| Examples.ParserAttributesStayInIdentifier | s-html-parser/src/parser.rs:81-97 | `<a x=1 x=2>` parses to one tag named `a x=1 x=2` with no attributes |
| Examples.ParserStopsAtBlankRun | s-html-parser/src/parser.rs:44-48 | `<a> <b>` parses to the tag `a` alone, because the blank run is an `Eof`, and leaves the cursor at 4, on the second `<` |
| Examples.ParserResumesAfterBlankRun | s-html-parser/src/parser.rs:40-57 | a second `parse` of `<a> <b>` from cursor 4 gives the tag `b` and ends at the end of the content |
| Examples.ParserLoneAngle | s-html-parser/src/parser.rs:59-66 | `< untag` parses to an empty sequence: the text is trimmed, so it never starts with a space |
| Examples.ParseTagAt | s-html-parser/src/parser.rs:59-97 | `<`, an identifier token and `>` append the tag with no attributes, and the parse goes on after `>` |
| Examples.ParseClosingTagAt | s-html-parser/src/parser.rs:74-77 | `</`, an identifier and `>` give the same tag as `<` alone |
| Examples.ParseBangTagAt | s-html-parser/src/parser.rs:67-71 | `<!`, an identifier other than `--` and `>` give a tag with that identifier |
| Examples.ParseCommentAt | s-html-parser/src/parser.rs:67-70 | `<!` followed by the token `--` makes the whole parse panic |
| Examples.ParseUnclosedTagAt | s-html-parser/src/parser.rs:81-95 | a tag whose identifier runs to the end is dropped and the parse ends |
| Examples.TagThenTextAt | s-html-parser/src/parser.rs:43-53 | a tag closed at once and the text after it are both appended, and the parse goes on after the text |
| Examples.TextRunToken | s-html-parser/src/token.rs:38-59 | a run that is blank outside one stretch hands out that stretch as text, or `Eof` when the stretch is empty |

## Left out

- Byte and character indexing are mixed in `next_token_raw`: `len()` counts bytes, but `chars().nth` counts characters. The content is a sequence of characters and is taken to be ASCII, where the two agree.
- Strings.IsWhitespace: covers only the ASCII whitespace characters (space, tab, line feed, vertical tab, form feed, carriage return). It does not cover the other Unicode characters `char::is_whitespace` accepts, because the content is taken to be ASCII.
- `RefCell` and `Cow`: the cursor is a plain mutable field and strings are values, so borrowing and ownership are not modelled.
- The bodies of `concat`, `token_to_str_empty` and `token_to_text_element` are not part of this model; they are the functions of `Parsing.Collaborators`, passed in as parameters. These functions see only the token, not the content or the cursor, so two equal tokens at different positions get the same answer. The model fixes the elements made from `concat` and `token_to_text_element` to be text elements. `concat`'s string is turned into an element with `.try_into()`, and every conversion from a string in element.rs builds a `Text`; `token_to_text_element` says so in its name. `Parsing.ParsedTagsHaveNoAttributes` relies on this for stray `>`, `/`, `=` and `!` tokens.
- The `todo!()` on `<!--` is the explicit `Aborted` outcome of `parse_tag`, and `Panicked` for `parse`. No comment-skipping behaviour is made up.
- `Display` and the error enums of error.rs are plain datatypes. `ParseError::Useless` is never produced.
- macros.rs: `on_err!` and `expect_token!` are folded into the parser's control flow. `expect_token!` is "read one token; on a mismatch return the error".
- The test-harness macros in lib.rs are not modelled; the tests themselves are the examples.
- `Token::text` (token.rs:83-85) is the `Text` constructor.
- Parsing.AttrLoop: the last-write-wins update of a repeated key is in its definition. No lemma states it, because with this tokenizer the loop never stores an attribute (`Parsing.AttributeLoopStoresNothing`).
- Tokens.TokenStream: follows `next_token` only, not the word-by-word mode.
- Strings.Trim: its own contract gives only the length bound; `Strings.TrimSpec` states what the trim is.
