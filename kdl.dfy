/**
 * The value and event types that the streaming parser (src/parser.rs), the
 * escape engine (src/unescape.rs) and the tree assembler (src/assembler.rs)
 * share. These files come from a later revision than src/ast.rs, whose own
 * older types are modelled in module Ast; the types here are the ones those
 * three files use.
 */
module Kdl {
  import opened Wrappers
  import opened Lex

  /** Everything that can go wrong while parsing or unescaping. */
  datatype ParseError =
    | IncompleteProperty      // `key=` not followed by a value token
    | MismatchedNodeClosing   // `;` or `}` with nothing to close
    | NotANode                // no node name, or a token that cannot be part of a node
    | UnrecognizedEscape      // a backslash escape outside the escape table
    | UnexpectedEOF           // the text ends inside an escape
    | BadUnicodeEscape        // a malformed `\u{...}` escape

  type ParseResult<T> = Result<T, ParseError>

  /** A string slice that is known to hold no escapes, or one that must be unescaped before use. */
  datatype KdlString = Escapeless(text: seq<char>) | Escaped(text: seq<char>)

  datatype KdlValue =
    | String(str: KdlString)
    | Integer(integer: I64)
    | Float(float: Float64)
    | Bool(boolean: bool)
    | Null

  datatype KdlProperty = KdlProperty(key: KdlString, value: KdlValue)

  /** The unit of the parser's output. */
  datatype KdlEvent =
    | NodeOpen(name: KdlString, attrs: seq<KdlProperty>, values: seq<KdlValue>, hasChildren: bool)
    | NodeClose(name: KdlString)             // closed by `;`, a newline or the end of input
    | BracketedNodeClose(name: KdlString)    // closed by the `}` of its child block
}
