# sleepyhead-kdl reader core, modelled in Dafny

This project models the core of sleepyhead-kdl, a streaming reader for the KDL
1.0 document language, and proves properties of that model. The modules follow
the repository's files.

- **Lex** (`lex.dfy`) models the hand-written parts of the lexer. These are:
  - the character classes for identifiers, newlines and skipped whitespace;
  - the quote stripping of `parse_str`;
  - the raw-string closing-delimiter search;
  - the non-nesting `/* ... */` skip;
  - the radix integer callbacks `hex`, `oct`, `bin` and `int`, with `_` separators and the i64 range.

  The lexer's cursor is a class, `Lexer`, whose `end` field the raw-string and
  comment callbacks advance.
- **Kdl** (`kdl.dfy`) holds the value and event types shared by the streaming parser, the escape engine and the assembler.
- **Unescape** (`unescape.dfy`) models the escape engine in both of its modes:
  - eager: `unescape_std`, a loop into a growing buffer that reports malformed escapes as errors;
  - lazy: the `EscapingIter` class, whose `next` pulls characters from a cursor and panics on malformed `\u` escapes.

  Lemmas relate the two modes to each other and to an escaper.
- **BoundedDeque** (`bounded.dfy`) models the fixed-capacity `heapless` deque that both parser revisions keep their close-stacks in.
- **EventParser** (`parser.dfy`) models the pull parser:
  - a `Parser` class with a token cursor and two close-stacks of capacity 256;
  - the pure functions `ScanBody`, `NodeOpenStep` and `NextStep`, which the class's methods are proved to follow;
  - lemmas on stack discipline, end-of-input draining, depth balance and how a node body is read.
- **Ast** (`ast.dfy`) models the older revision of the same machine. It has its own token, error, value and event types. Names must be identifiers, every identifier in a node starts a property, and `}` emits the same close event as `;`.
- **Assembler** (`assembler.dfy`) models the recursive fold of the event stream into a node tree. It is proved against a flattening of trees into events.

Where the code departs from the KDL 1.0 specification, the model follows the code:
- Slash-dash (`/-`) and type descriptors are lexed, but the parser has no case for them, so they end a node with `NotANode` (EventParser.StrayTokenRefused).
- `\u{}` with no digits is accepted and gives U+0000.
- A raw string opened with more than 30 `#` cannot be scanned.

The code also has a limit and a defect of its own:
- A push onto a full close-stack is silently dropped, and the model keeps that.
- In both parser revisions, `property` panics when the token after `=` is not a value. The authors evidently meant `IncompleteProperty` there. The parser models use that intended behaviour, and the as-written `property` is modelled beside it; see "## Findings".

## Model

| member | source | states |
|---|---|---|
| Lex.CharacterClassesDisjoint | src/lex.rs:27-52 | identifier starts are identifier chars; newline, whitespace and identifier chars are disjoint; digits continue but never start an identifier |
| Lex.NewlineToken | src/lex.rs:27-28 | a newline token is exactly the maximal run of CR, LF, NEL, FF, LS, PS at the cursor, present iff the first char is one |
| Lex.SpaceRun | src/lex.rs:52 | the skipped whitespace is the maximal run of Unicode space separators and tab |
| Lex.IdentifierToken | src/lex.rs:49-50 | an identifier exists iff the first char may start one, and it is the maximal run of identifier characters |
| Lex.LineComment | src/lex.rs:54 | a `//` comment is skipped only through its terminating `\n`, holding no other `\n`; with no `\n` nothing matches |
| Lex.FirstOccurrence | src/lex.rs:144 | the substring search returns an occurrence with none earlier, or None iff there is no occurrence at all |
| Lex.ParseStr | src/lex.rs:151-154 | the result is the slice with its first and last character removed |
| Lex.QuotedToken | src/lex.rs:29-33 | a quoted slice becomes a token iff either string rule matches it; the token holds the slice without its quotes, and it is `StringWithNoEscapes` exactly when the escape-free rule matches (priority 5); promises also in EscapeFreeWinsTie and OtherEscapesRejected |
| Lex.EscapeFreeBodyIsEscapedBody | src/lex.rs:29-32 | any quote- and backslash-free body also matches the escaped-string rule |
| Lex.EscapeFreeWinsTie | src/lex.rs:29-33 | an escape-free quoted string matches both rules and becomes `StringWithNoEscapes` of its contents (priority 5) |
| Lex.OtherEscapesRejected | src/lex.rs:29 | an escape other than `\t \u \n \"` matches neither string rule |
| Lex.RawClosing | src/lex.rs:141-142 | the closing delimiter for n hashes is `"` followed by n `#` |
| Lex.ScanRawString | src/lex.rs:138-149 | more than 30 hashes cannot be delimited; otherwise the contents are the text before the first closing delimiter, the cursor moves past it, and with no delimiter nothing is returned |
| Lex.RawStringRoundTrip | src/lex.rs:138-149 | contents without `"` followed by the closing delimiter are read back exactly, whatever follows |
| Lex.CommentSkip | src/lex.rs:156-164 | the skip ends just after the first `*/`, or is zero when there is none |
| Lex.CommentsDoNotNest | src/lex.rs:159-160 | in ` a /* b */ c */` the skip stops at the first `*/` |
| Lex.Lexer.constructor | src/lex.rs:138-140 | a lexer whose current token is `source[start..end]` |
| Lex.Lexer.Bump | src/lex.rs:146 | `bump(n)` advances the token end by n |
| Lex.Lexer.ParseRawString | src/lex.rs:138-149 | the callback returns the raw-string scan of the remainder for the opening's hash count and advances the cursor only on success |
| Lex.Lexer.MultilineComment | src/lex.rs:156-164 | the cursor advances by exactly the comment skip |
| Lex.ParseRadix | src/lex.rs:66-95 | the shared literal format: a value is returned only for a well-formed literal (digits required, no leading `_`, no sign) and is never negative; RadixRoundTrip, RadixRejections and SeparatorTransparent carry the rest |
| Lex.Int | src/lex.rs:105-111 | the whole slice is parsed in radix 10; a value is returned only for a well-formed decimal literal and is never negative (IntExample, RadixRoundTrip) |
| Lex.Hex | src/lex.rs:113-119 | the `0x` prefix is dropped and the rest is parsed in radix 16; a value only for a well-formed hex literal, never negative (HexExample, RadixRoundTrip, RadixRejections) |
| Lex.Oct | src/lex.rs:121-127 | the `0o` prefix is dropped and the rest is parsed in radix 8; a value only for a well-formed octal literal, never negative (OctExample, RadixRoundTrip) |
| Lex.Bin | src/lex.rs:129-135 | the `0b` prefix is dropped and the rest is parsed in radix 2; a value only for a well-formed binary literal, never negative (BinExample, RadixRejections) |
| Lex.HexExample | src/lex.rs:113-119 | `0x1_F` gives 31 |
| Lex.OctExample | src/lex.rs:121-127 | `0o17` gives 15 |
| Lex.BinExample | src/lex.rs:129-135 | `0b101` gives 5 |
| Lex.IntExample | src/lex.rs:105-111 | `1_0__` gives 10: trailing and consecutive separators are allowed |
| Lex.RadixRejections | src/lex.rs:66-95 | no digits, a leading `_`, a `+` sign and a digit outside the radix are all rejected |
| Lex.ToRadixDigitsValue | src/lex.rs:66-95 | the digits written for n in a radix denote n |
| Lex.RadixRoundTrip | src/lex.rs:66-95 | parsing the digits of any n gives n when it fits in i64 and nothing otherwise |
| Lex.SeparatorTransparent | src/lex.rs:70-73 | inserting `_` after the first digit never changes the parsed value |
| Unescape.LowByte | src/unescape.rs:59 | `as u8` keeps the code point's low byte, below 256 |
| Unescape.HexDigit | src/unescape.rs:114-121 | a byte that the classification accepts as a hex digit has a value below 16 |
| Unescape.ScanHex | src/unescape.rs:106-125 | a closed escape is reached only with at most six digits read, and consumes at least the brace and at most 7 - idx characters |
| Unescape.ReadCodepoint | src/unescape.rs:106-125 | the digit loop's outcome is exactly `ScanHex` of the text after `\u{`, and on success it returns the index just past the brace |
| Unescape.BraceMustBeLiteral | src/unescape.rs:101-104 | eagerly, `\u` not followed by a literal `{` is `BadUnicodeEscape` |
| Unescape.PlainPrefix | src/unescape.rs:131 | backslash-free text is copied and unescaping carries on after it, so each error below holds after any such text |
| Unescape.TrailingBackslash | src/unescape.rs:36-91 | a backslash that ends the text is `UnexpectedEOF` in eager mode (line 91); in lazy mode the missing escaped character ends the iteration (line 36), which has handed out exactly the text before the backslash |
| Unescape.LazyPlainPrefix | src/unescape.rs:33-77 | the lazy iterator hands out backslash-free text unchanged and carries on after it, panicking exactly when the rest does |
| Unescape.UnrecognizedEscapeRefused | src/unescape.rs:129 | a backslash before any letter other than `n r t \ b f / " u` is `UnrecognizedEscape` eagerly, while the lazy mode yields the letter |
| Unescape.ScanHexRunsOut | src/unescape.rs:115 | eagerly, text that ends among at most six digits runs out |
| Unescape.LazyHexRunsOut | src/unescape.rs:59 | lazily, text that ends among at most six digits ends the iteration |
| Unescape.UnclosedUnicodeEscape | src/unescape.rs:114-115 | `\u{` and at most six digits at the end of the text is `UnexpectedEOF` eagerly and the end of iteration lazily |
| Unescape.ScanHexBadChar | src/unescape.rs:120 | eagerly, a character whose low byte is neither a hex digit nor `}` stops the digits |
| Unescape.LazyHexBadChar | src/unescape.rs:64 | lazily, such a character (other than a backslash) panics |
| Unescape.BadHexCharRefused | src/unescape.rs:114-121 | such a character among the digits is `BadUnicodeEscape` eagerly and, unless it is a backslash, a panic lazily |
| Unescape.NonScalarRefused | src/unescape.rs:127 | a closed escape whose digits are a surrogate or above U+10FFFF is `BadUnicodeEscape` eagerly and ends the iteration lazily |
| Unescape.UnescapeStd | src/unescape.rs:85-137 | the eager loop returns exactly the reference unescaping `Unescaped(s)` |
| Unescape.LazyNext | src/unescape.rs:28-78 | a lazy step never grows the cursor, and yielding a character consumes at least one |
| Unescape.LazyHex | src/unescape.rs:51-71 | the lazy digit loop never grows the cursor |
| Unescape.ShimNext | src/unescape.rs:29-31 | a shim step never panics and ends only on an empty cursor; otherwise it hands over exactly one character, unchanged, and the character followed by the new cursor is the old cursor |
| Unescape.IterNext | src/unescape.rs:28-31 | one `next` call in either mode never grows the cursor, consumes input for every character it hands out, and never panics in shim mode |
| Unescape.EscapingIter.Unescape | src/unescape.rs:10-15 | an unescaping iterator over the given text |
| Unescape.EscapingIter.Shim | src/unescape.rs:17-22 | a pass-through iterator over the given text |
| Unescape.EscapingIter.Next | src/unescape.rs:28-78 | each call returns the step and leaves the cursor that `IterNext` gives for the old cursor |
| Unescape.ShimIsIdentity | src/unescape.rs:17-31 | shim mode yields the input unchanged |
| Unescape.UnescapedNoLonger | src/unescape.rs:85-137 | every output character consumes at least one input character |
| Unescape.HexAgree | src/unescape.rs:53-69 | the lazy digit loop gives the same character as the eager one wherever the eager one succeeds |
| Unescape.LazyAgreesWithEager | src/unescape.rs:28-137 | whenever `unescape_std` succeeds, the lazy iterator yields exactly its characters and ends |
| Unescape.UnknownEscapeDiverges | src/unescape.rs:73 | `\q` is `UnrecognizedEscape` eagerly but yields `q` lazily |
| Unescape.AsciiHexValue | src/unescape.rs:116-118 | the low-byte classification gives an ASCII hex digit the same value as the lexer's digit table |
| Unescape.HexValueSnoc | src/unescape.rs:123 | each further digit multiplies the code point so far by sixteen and adds the digit |
| Unescape.HexValueIsHexLiteral | src/unescape.rs:114-124 | the code point the digit loops accumulate is the value of the digits read as a base-16 literal (`Lex.DigitsValue`) |
| Unescape.ScanHexReadsDigits | src/unescape.rs:106-125 | up to six hex digits and `}` give the number they denote |
| Unescape.ScanHexRefusesSeventh | src/unescape.rs:109-112 | a seventh hex digit is refused whatever follows |
| Unescape.LazyHexReadsDigits | src/unescape.rs:51-71 | lazily, up to six digits and `}` give the character they denote, or end the iteration when that is not a scalar value |
| Unescape.LazyHexPanicsOnSeventh | src/unescape.rs:54-57 | lazily, a seventh digit panics |
| Unescape.UnicodeEscapeDecodes | src/unescape.rs:45-72 | `\u{ds}` stands for the scalar its digits denote, in both modes |
| Unescape.SevenDigitsRefused | src/unescape.rs:110-111 | seven digits are `BadUnicodeEscape` eagerly and a panic lazily |
| Unescape.EscapedBraceDiverges | src/unescape.rs:46-47 | the lazy mode unescapes the `{` of a `\u` escape, so `\u\u{7b}41}` yields `A`, while the eager mode refuses it |
| Unescape.UnescapeEscapedChar | src/unescape.rs:91-99 | an escaped character unescapes back to itself, followed by the rest |
| Unescape.UnescapeInvertsEscape | src/unescape.rs:85-137 | unescaping undoes escaping |
| Unescape.LazyInvertsEscape | src/unescape.rs:28-78 | the lazy mode undoes escaping too |
| Unescape.UnescapeName | src/assembler.rs:45 | an escape-free name is returned unchanged, and an unescaped name is never longer than its text |
| Unescape.BackslashFreeUnchanged | src/unescape.rs:75-77 | text without a backslash passes through unchanged in both modes |
| Unescape.EscapedSpellingAgrees | src/unescape.rs:100-128 | a name written with a `\u{...}` escape and its escape-free spelling unescape alike |
| BoundedDeque.PushBack | src/parser.rs:180-184 | the name goes on the back iff the deque holds fewer than 256; nothing already there moves, and a deque within capacity stays within it |
| EventParser.TokenToValue | src/parser.rs:80-93 | each value token becomes the value that is written back as that same token (the inverse of ValueToken) |
| EventParser.TokenValueBijection | src/parser.rs:80-93 | `token_to_value` is a bijection between value tokens and values |
| EventParser.NameOf | src/parser.rs:62-76 | a name keeps the token's text and is `Escaped` iff the token is a string with escapes |
| EventParser.PropertyStep | src/parser.rs:195-203 | the intended `property`: after `=`, a value token gives the property and is consumed; otherwise `IncompleteProperty` with only `=` consumed |
| EventParser.PropertyAsWritten | src/parser.rs:194-203 | `property` as written panics iff a token that is not a value follows `=`, and is `IncompleteProperty` iff nothing follows it |
| EventParser.PropertyPanicsAsWritten | src/parser.rs:197 | as written, `=` and a non-value token panic where the intended definition gives `IncompleteProperty`; on every other input the two agree |
| EventParser.ScanBody | src/parser.rs:131-178 | attrs and values only grow; a body without children stops at end, newline or `;` unconsumed; errors are `IncompleteProperty` or `NotANode`, the latter at an unconsumed stray token |
| EventParser.NodeOpenStep | src/parser.rs:124-192 | opening a node never grows the cursor |
| EventParser.NextStep | src/parser.rs:209-246 | a call never grows the cursor |
| EventParser.Parser.constructor | src/parser.rs:115-121 | a cursor over the tokens and two empty stacks |
| EventParser.Parser.Property | src/parser.rs:195-203 | `property` follows the intended `PropertyStep` and leaves both stacks alone |
| EventParser.Parser.NodeOpen | src/parser.rs:124-192 | `node_open` follows `NodeOpenStep` and keeps both stacks within capacity |
| EventParser.Parser.Next | src/parser.rs:209-246 | `next` follows `NextStep` and keeps both stacks within capacity |
| EventParser.BlockCloseStep | src/parser.rs:212-219 | `}` is consumed and pops the bracketed stack into `BracketedNodeClose`, or is `MismatchedNodeClosing` when it is empty |
| EventParser.SemicolonStep | src/parser.rs:221-228 | `;` is consumed and pops the terminator stack into `NodeClose`, or is `MismatchedNodeClosing` when it is empty |
| EventParser.NewlineStep | src/parser.rs:230-237 | a newline closes the innermost terminated node, or is skipped when none is open |
| EventParser.BlankLinesSkipped | src/parser.rs:230-237 | any number of newlines with no terminated node open yield nothing |
| EventParser.OpenPushesOneStack | src/parser.rs:180-184 | a successful open pushes its name onto the bracketed stack iff it has children, else onto the terminator stack, and pops nothing |
| EventParser.FullStackDropsName | src/parser.rs:98-99 | with a full bracketed stack an opened block's name is lost, and the next `}` closes the node opened before it |
| EventParser.ErrorsPushNothing | src/parser.rs:176 | no error changes either stack |
| EventParser.NotANodeConsumesNothing | src/parser.rs:125 | a node that does not start with an identifier or string is `NotANode` and the state is unchanged |
| EventParser.ValuesInSourceOrder | src/parser.rs:149-175 | literal and string tokens become positional values in source order |
| EventParser.PropertyParsed | src/parser.rs:166-167 | `key=value` adds one property, keyed by an identifier or a string |
| EventParser.IncompletePropertyRefused | src/parser.rs:197 | in the intended `property`, `key=` without a value token is `IncompleteProperty` |
| EventParser.StrayTokenRefused | src/parser.rs:176 | a token outside the node grammar after the name is `NotANode`; the name is consumed, the stray token is not, and neither stack changes |
| EventParser.BareIdentifierDropped | src/parser.rs:168-170 | an identifier not followed by `=` is dropped |
| EventParser.ContinuationTransparent | src/parser.rs:139-145 | `\` and at most one newline after it change nothing the node gathers |
| EventParser.BraceOpensChildren | src/parser.rs:133-138 | `{` marks the node as having children and swallows one newline |
| EventParser.StepDepth | src/parser.rs:180-237 | while neither stack is full, an open adds one pending name, a close removes one, anything else none |
| EventParser.RunBalance | src/parser.rs:180-245 | over any run that cannot fill a stack, pending names equal opens minus closes |
| EventParser.EndDrains | src/parser.rs:243-245 | at end of input each call closes one terminated node, innermost first, then the sequence ends; the bracketed stack is untouched |
| EventParser.PropertyLineEvents | src/parser.rs:124-246 | `foo bar=1 "baz"` and a newline give the open with `bar=1` and `"baz"`, then `NodeClose(foo)`, then the end |
| EventParser.ChildBlockEvents | src/parser.rs:124-246 | `foo {`, `bar`, `}` over newlines give open foo, open bar, close bar, bracketed close foo, then the end |
| Ast.TokenToValue | src/ast.rs:70-82 | each value token becomes the value that is written back as that same token (the inverse of ValueToken) |
| Ast.TokenValueBijection | src/ast.rs:70-82 | `token_to_value` is a bijection between value tokens and values |
| Ast.PropertyStep | src/ast.rs:185-193 | the intended `property`: a property needs `=` and a value token; otherwise `IncompleteProperty`, with `=` consumed only if present |
| Ast.PropertyAsWritten | src/ast.rs:185-193 | `property` as written panics iff `=` is followed by a token that is not a value; it returns an error only when `=` is missing or ends the input |
| Ast.PropertyPanicsAsWritten | src/ast.rs:187 | as written, `=` and a non-value token panic where the intended definition gives `IncompleteProperty`; on every other input the two agree |
| Ast.StrayTokenRefused | src/ast.rs:167 | a token outside the node grammar (`=`, `}` or any other kind) after the name is `NotANode`; the name is consumed, the stray token is not, and neither stack changes |
| Ast.ScanBody | src/ast.rs:133-169 | attrs and values only grow; a body without children stops at end, newline or `;` unconsumed |
| Ast.NodeOpenStep | src/ast.rs:125-183 | opening a node never grows the cursor |
| Ast.NextStep | src/ast.rs:199-238 | a call never grows the cursor |
| Ast.Parser.constructor | src/ast.rs:117-123 | a cursor over the tokens and two empty stacks |
| Ast.Parser.Property | src/ast.rs:185-193 | `property` follows the intended `PropertyStep` and leaves both stacks alone |
| Ast.Parser.NodeOpen | src/ast.rs:125-183 | `node_open` follows `NodeOpenStep` and keeps both stacks within capacity |
| Ast.Parser.Next | src/ast.rs:199-238 | `next` follows `NextStep` and keeps both stacks within capacity |
| Ast.NameMustBeIdentifier | src/ast.rs:126-127 | a node not starting with an identifier is `NotANode` with nothing consumed; otherwise the identifier is the name |
| Ast.IdentifierStartsProperty | src/ast.rs:160-166 | in the intended `property`, every identifier in a node must be followed by `=` and a value token, else `IncompleteProperty` |
| Ast.ValuesInSourceOrder | src/ast.rs:151-159 | value tokens become positional values in source order |
| Ast.CloseTokensStep | src/ast.rs:202-219 | `}` and `;` are consumed and pop their own stack into the same `NodeClose` kind, or are `MismatchedNodeClosing` |
| Ast.NewlineSkipped | src/ast.rs:220-228 | a newline with no terminated node open is skipped |
| Ast.OpenPushesOneStack | src/ast.rs:171-175 | the name goes onto the bracketed stack iff `{` was seen |
| Ast.EndDrains | src/ast.rs:233-237 | at end of input a call closes the innermost terminated node, or ends the sequence iff none is left |
| Ast.OlderRevisionExample | src/ast.rs:125-219 | `foo key=1 2 {` then `}` gives the open with property and value, then a plain `NodeClose(foo)` |
| Assembler.AddChildrenSpec | src/assembler.rs:31-63 | the fold never grows the stream and only appends to the nodes already collected |
| Assembler.EventStream.Next | src/assembler.rs:35 | each pull hands out the next event, or reports the end |
| Assembler.EventStream.AddChildren | src/assembler.rs:31-63 | `add_children` follows `AddChildrenSpec`, recursing for child blocks |
| Assembler.EventStream.ParseDocument | src/assembler.rs:22-28 | `parse_document` returns the fold from an empty list |
| Assembler.AssembleNode | src/assembler.rs:44-55 | a node's events append that node, with its children, attrs and values unchanged, whatever follows |
| Assembler.AssembleFlatten | src/assembler.rs:35-62 | a forest's events append exactly that forest, in order |
| Assembler.DocumentRoundTrip | src/assembler.rs:22-28 | `parse_document` gives back the tree whose events it reads |
| Assembler.NodeCloseSkipped | src/assembler.rs:58 | a `NodeClose` changes nothing |
| Assembler.RootCloseEndsDocument | src/assembler.rs:57 | a bracketed close at the root ends the document with the nodes read so far |
| Assembler.ErrorPropagates | src/assembler.rs:35-36 | an error event after complete nodes ends the fold with that error whatever was collected, leaving the events after it unread; so it is the document's result |
| Assembler.NameErrorPropagates | src/assembler.rs:45 | a node name that fails to unescape ends the fold with that error whatever was collected, leaving the events after it unread; so the document fails with it |
| Assembler.ErrorInsideChildBlock | src/assembler.rs:51-53 | an error inside a child block leaves the enclosing fold with the same error and the same unread events |
| Assembler.ErrorAtAnyDepth | src/assembler.rs:35-53 | the first error event or unescapable name at any depth of nesting is the result of the fold and of the document, and nothing after it is read |
| Assembler.EscapedNameUnescaped | src/assembler.rs:44-49 | an escaped name is stored unescaped |

## Left out

- The token automaton generated by `logos`, with its longest-match and priority rules, is not modelled (src/lex.rs:3-56). Only its callbacks and the character classes of its patterns are.
- Float lexing and parsing (src/lex.rs:97-103) is floating-point code in the `lexical` crate. Floats are an opaque 64-bit payload.
- The `lexical` digit-parsing and `memchr` search internals are not modelled. Radix parsing and substring search are defined by what they compute.
- Lex.IntExample: the decimal `int` callback uses the crate's Rust-literal format. It is modelled with the same `_` separator rules as the radix formats.
- `Parser::from_str` (src/parser.rs:102-111) only pairs `new` with the lexer. Parsers are built from a token sequence.
- The `Container` choice in src/lib.rs is modelled as unbounded lists for attrs and values, which is the `std` and `alloc` configuration. The close-stacks keep their 256 bound in every configuration.
- `TypedValue` is not part of this model. Assembled nodes hold `KdlValue`s, because the parser never builds a typed value.
- `KdlString::unescape` is not part of this model. Unescape.UnescapeName treats an escape-free name as itself and runs `unescape_std` on an escaped one.
- Slash-dash elision and type annotations are not implemented by the parser, so they are not modelled as behaviour (src/parser.rs:176).
- Not modelled: src/main.rs, the `node_printer` example program, the `assemble_nodes` benchmark and gen_tests.py. They are I/O, printing and benchmarking.
- Positions are counted in characters, not UTF-8 bytes. `as u8` is modelled by Unescape.LowByte.
- Lex.ScanRawString: with more than 30 hashes, slicing the delimiter constant panics. The model returns a `DelimiterTooLong` outcome instead.
- Unescape.EscapingIter.Next: the panics of the lazy mode become an `Abort` step. After a `None` in the middle of an escape, the model's consumer stops, as any consumer that stops at `None` does.
- The 32-bit code point accumulator is modelled as an unbounded number. At most six digits are ever accepted, so it cannot overflow.
- EventParser.PropertyStep, and through it `ScanBody`, `NodeOpenStep`, `NextStep` and the `Parser` methods of both revisions, follow the intended `property`. The panic on a non-value token after `=` is modelled only by `PropertyAsWritten`; see "## Findings".
- Assembler.EventStream.AddChildren: on an error, the source has already pushed some nodes into the caller's vector. That partial vector is not modelled, because `parse_document` discards it.

## Findings

| source | as written | input that shows it | evidently intended | confidence | as-written member | corrected member |
|---|---|---|---|---|---|---|
| src/parser.rs:197 | `next_if!(self, KdlValues)` matches the first macro arm, where `KdlValues` is a binding pattern that accepts any token. Whatever follows `=` is consumed, and `token_to_value!` reaches `unreachable!()` (src/parser.rs:90) on a non-value. The `#[allow(unreachable_patterns)]` at src/parser.rs:30 silences the warning that would show it | tokens `foo`, `bar`, `=`, newline (the line `foo bar=`) | `IncompleteProperty`, with only `=` consumed | high (macro arms are tried in order); not executed | EventParser.PropertyAsWritten, EventParser.PropertyPanicsAsWritten | EventParser.PropertyStep |
| src/ast.rs:187 | the same first-arm match of `KdlValues`: the token after `=` is consumed and `token_to_value!` reaches `unreachable!()` (src/ast.rs:79) | tokens `foo`, `key`, `=`, `;` | `IncompleteProperty`, with only `=` consumed | high (macro arms are tried in order); not executed | Ast.PropertyAsWritten, Ast.PropertyPanicsAsWritten | Ast.PropertyStep |
