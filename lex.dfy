/**
 * The lexical layer of the KDL reader (src/lex.rs).
 *
 * The token automaton itself is generated by a lexer-generator crate and is
 * not modelled; what is modelled are the pieces of it that are written by
 * hand: the token alphabet, the character classes of its patterns, and the
 * callbacks that the generated automaton runs on a match (quote stripping,
 * the raw-string delimiter search, multi-line comment skipping and radix
 * integer parsing).
 */
module Lex {
  import opened Wrappers

  const I64Max: int := 0x7FFF_FFFF_FFFF_FFFF

  /** Rust's `i64`, the payload of integer tokens. */
  newtype I64 = x: int | -0x8000_0000_0000_0000 <= x <= 0x7FFF_FFFF_FFFF_FFFF

  /** Rust's `f64`, kept as an opaque bit pattern: float lexing is not modelled. */
  datatype Float64 = Float64(bits: bv64)

  /** The token alphabet. String payloads are the text between the delimiters. */
  datatype Token =
    | BlockOpen            // {
    | BlockClose           // }
    | ParenOpen            // (
    | ParenClose           // )
    | True                 // true
    | False                // false
    | Equals               // =
    | SlashDash            // /-
    | Semicolon            // ;
    | Null                 // null
    | Backslash            // line continuation
    | Newline              // a maximal run of line separators
    | StringWithEscapes(text: seq<char>)
    | StringWithNoEscapes(text: seq<char>)
    | Float(float: Float64)
    | Integer(value: I64)
    | TyDescriptor(text: seq<char>)
    | Identifier(text: seq<char>)
    | Error

  // ---------------------------------------------------------------------
  // Character classes
  // ---------------------------------------------------------------------

  /** The characters of the Newline pattern: CR, LF, NEL, FF, LS and PS. */
  predicate IsNewlineChar(c: char) {
    c == '\r' || c == '\n' || c == '\U{0085}' || c == '\U{000C}' || c == '\U{2028}' || c == '\U{2029}'
  }

  /** The horizontal whitespace characters that the lexer skips. */
  predicate IsSpaceChar(c: char) {
    || c == '\t' || c == ' ' || c == '\U{00A0}' || c == '\U{1680}'
    || ('\U{2000}' <= c <= '\U{200A}')
    || c == '\U{202F}' || c == '\U{205F}' || c == '\U{3000}'
  }

  /** The punctuation that can never be part of an identifier. */
  predicate IsReservedPunctuation(c: char) {
    c in "/\\(){}<>;[]=,\""
  }

  /** A character allowed after the first one of an identifier. */
  predicate IsIdentifierChar(c: char) {
    c as int > 0x20 && !IsReservedPunctuation(c) && !IsNewlineChar(c) && !IsSpaceChar(c)
  }

  /** A character allowed to start an identifier: an identifier character that is not an ASCII digit. */
  predicate IsIdentifierStart(c: char) {
    IsIdentifierChar(c) && !('0' <= c <= '9')
  }

  lemma CharacterClassesDisjoint(c: char)
    ensures IsIdentifierStart(c) ==> IsIdentifierChar(c)
    ensures IsNewlineChar(c) ==> !IsSpaceChar(c) && !IsIdentifierChar(c)
    ensures IsSpaceChar(c) ==> !IsIdentifierChar(c)
    ensures '0' <= c <= '9' ==> IsIdentifierChar(c) && !IsIdentifierStart(c)
  {
  }

  // ---------------------------------------------------------------------
  // Small recognizers for the separator and identifier patterns
  // ---------------------------------------------------------------------

  /** Length of the longest prefix of `s` whose characters all satisfy `p`. */
  function RunLength(s: seq<char>, p: char -> bool): (n: nat)
    ensures n <= |s|
    ensures forall i :: 0 <= i < n ==> p(s[i])
    ensures n < |s| ==> !p(s[n])
  {
    if s == [] || !p(s[0]) then 0 else 1 + RunLength(s[1..], p)
  }

  /** Length of the Newline token at the start of `s`, if there is one. */
  function NewlineToken(s: seq<char>): (r: Option<nat>)
    ensures r.Some? <==> s != [] && IsNewlineChar(s[0])
    ensures r.Some? ==> 0 < r.value <= |s| && forall i :: 0 <= i < r.value ==> IsNewlineChar(s[i])
    ensures r.Some? && r.value < |s| ==> !IsNewlineChar(s[r.value])
  {
    var n := RunLength(s, IsNewlineChar);
    if n == 0 then None else Some(n)
  }

  /** Length of the run of skipped horizontal whitespace at the start of `s`, if there is one. */
  function SpaceRun(s: seq<char>): (r: Option<nat>)
    ensures r.Some? <==> s != [] && IsSpaceChar(s[0])
    ensures r.Some? ==> 0 < r.value <= |s| && forall i :: 0 <= i < r.value ==> IsSpaceChar(s[i])
    ensures r.Some? && r.value < |s| ==> !IsSpaceChar(s[r.value])
  {
    var n := RunLength(s, IsSpaceChar);
    if n == 0 then None else Some(n)
  }

  /** Length of the Identifier token at the start of `s`, if there is one. */
  function IdentifierToken(s: seq<char>): (r: Option<nat>)
    ensures r.Some? <==> s != [] && IsIdentifierStart(s[0])
    ensures r.Some? ==> 0 < r.value <= |s| && forall i :: 0 <= i < r.value ==> IsIdentifierChar(s[i])
    ensures r.Some? && r.value < |s| ==> !IsIdentifierChar(s[r.value])
  {
    if s != [] && IsIdentifierStart(s[0]) then Some(1 + RunLength(s[1..], IsIdentifierChar)) else None
  }

  /**
   * Length of the `//` comment at the start of `s`, if there is one. The pattern
   * includes the terminating line feed, so that line feed never becomes a Newline token.
   */
  function LineComment(s: seq<char>): (r: Option<nat>)
    ensures r.Some? ==> |s| >= 2 && s[..2] == "//"
    ensures r.Some? ==> 3 <= r.value <= |s| && s[r.value - 1] == '\n'
    ensures r.Some? ==> forall i :: 2 <= i < r.value - 1 ==> s[i] != '\n'
    ensures r.None? ==> !(|s| >= 2 && s[..2] == "//") || forall i :: 2 <= i < |s| ==> s[i] != '\n'
  {
    if |s| >= 2 && s[..2] == "//" then
      match FirstOccurrence(s[2..], "\n")
      case None =>
        assert forall i :: 2 <= i < |s| ==> s[i] != '\n' by {
          forall i | 2 <= i < |s| ensures s[i] != '\n' {
            assert !OccursAt(s[2..], "\n", i - 2);
          }
        }
        None
      case Some(k) =>
        assert forall i :: 2 <= i < k + 2 ==> s[i] != '\n' by {
          forall i | 2 <= i < k + 2 ensures s[i] != '\n' {
            assert !OccursAt(s[2..], "\n", i - 2);
          }
        }
        assert s[2..][k..k + 1] == "\n";
        Some(k + 3)
    else
      None
  }

  // ---------------------------------------------------------------------
  // Substring search (the contract of the byte-substring finder the source calls)
  // ---------------------------------------------------------------------

  predicate OccursAt(hay: seq<char>, needle: seq<char>, i: int) {
    0 <= i && i + |needle| <= |hay| && hay[i..i + |needle|] == needle
  }

  /** An occurrence at `i >= 1` is an occurrence at `i - 1` once the first character is dropped. */
  lemma OccursShift(hay: seq<char>, needle: seq<char>, i: int)
    requires hay != [] && 1 <= i
    ensures OccursAt(hay, needle, i) <==> OccursAt(hay[1..], needle, i - 1)
  {
    if i + |needle| <= |hay| {
      var a, b := hay[i..i + |needle|], hay[1..][i - 1..i - 1 + |needle|];
      assert |a| == |b|;
      forall j | 0 <= j < |a| ensures a[j] == b[j] {
        assert a[j] == hay[i + j];
        assert b[j] == hay[1..][i - 1 + j];
      }
      assert a == b;
    }
  }

  /** Index of the first occurrence of `needle` in `hay`. */
  function FirstOccurrence(hay: seq<char>, needle: seq<char>): (r: Option<nat>)
    ensures r.Some? ==> OccursAt(hay, needle, r.value)
    ensures r.Some? ==> forall i :: 0 <= i < r.value ==> !OccursAt(hay, needle, i)
    ensures r.None? ==> forall i :: !OccursAt(hay, needle, i)
    decreases |hay|
  {
    if |hay| < |needle| then None
    else if hay[..|needle|] == needle then Some(0)
    else
      var r := FirstOccurrence(hay[1..], needle);
      forall i | 1 <= i ensures OccursAt(hay, needle, i) <==> OccursAt(hay[1..], needle, i - 1) {
        OccursShift(hay, needle, i);
      }
      match r
      case None => None
      case Some(k) => Some(k + 1)
  }

  // ---------------------------------------------------------------------
  // String tokens
  // ---------------------------------------------------------------------

  /** `parse_str`: the matched slice without its first and last character (the quotes). */
  function ParseStr(slice: seq<char>): (r: seq<char>)
    requires |slice| >= 2
    ensures |r| == |slice| - 2
    ensures slice == [slice[0]] + r + [slice[|slice| - 1]]
  {
    slice[1..|slice| - 1]
  }

  /** The escape-free quoted-string pattern: a quote, no quote or backslash, a quote. */
  predicate IsEscapeFreeString(s: seq<char>) {
    |s| >= 2 && s[0] == '"' && s[|s| - 1] == '"' &&
    forall i :: 1 <= i < |s| - 1 ==> s[i] != '"' && s[i] != '\\'
  }

  /** The body of the escaped-string pattern: only the escapes \t, \u, \n and \" are admitted. */
  predicate EscapedBody(b: seq<char>)
    decreases |b|
  {
    || b == []
    || (b[0] != '"' && b[0] != '\\' && EscapedBody(b[1..]))
    || (|b| >= 2 && b[0] == '\\' && b[1] in "tun\"" && EscapedBody(b[2..]))
  }

  /** The escaped quoted-string pattern. */
  predicate IsEscapedString(s: seq<char>) {
    |s| >= 2 && s[0] == '"' && s[|s| - 1] == '"' && EscapedBody(s[1..|s| - 1])
  }

  /**
   * The token a complete quoted slice becomes. Where both patterns match the
   * same slice, the escape-free rule wins by its higher priority.
   */
  function QuotedToken(slice: seq<char>): (r: Option<Token>)
    ensures r.Some? <==> IsEscapeFreeString(slice) || IsEscapedString(slice)
    ensures r.Some? ==> (r.value.StringWithNoEscapes? || r.value.StringWithEscapes?)
                        && [slice[0]] + r.value.text + [slice[|slice| - 1]] == slice
    ensures r.Some? ==> (r.value.StringWithNoEscapes? <==> IsEscapeFreeString(slice))
  {
    if IsEscapeFreeString(slice) then Some(StringWithNoEscapes(ParseStr(slice)))
    else if IsEscapedString(slice) then Some(StringWithEscapes(ParseStr(slice)))
    else None
  }

  lemma {:induction false} EscapeFreeBodyIsEscapedBody(b: seq<char>)
    requires forall i :: 0 <= i < |b| ==> b[i] != '"' && b[i] != '\\'
    ensures EscapedBody(b)
    decreases |b|
  {
    if b != [] {
      EscapeFreeBodyIsEscapedBody(b[1..]);
    }
  }

  /** Every escape-free string also matches the escaped rule; the priority makes it escape-free. */
  lemma EscapeFreeWinsTie(s: seq<char>)
    requires IsEscapeFreeString(s)
    ensures IsEscapedString(s)
    ensures QuotedToken(s) == Some(StringWithNoEscapes(s[1..|s| - 1]))
  {
    EscapeFreeBodyIsEscapedBody(s[1..|s| - 1]);
  }

  /** A string holding any escape other than \t, \u, \n or \" matches neither string rule. */
  lemma OtherEscapesRejected(c: char)
    requires c !in "tun\""
    ensures QuotedToken(['"', '\\', c, '"']) == None
  {
    var b := ['\\', c];
    assert !EscapedBody(b);
    assert ['"', '\\', c, '"'][1..3] == b;
  }

  // ---------------------------------------------------------------------
  // Raw strings and multi-line comments: callbacks that move the lexer cursor
  // ---------------------------------------------------------------------

  /** The closing delimiter of a raw string opened with `hashes` hash marks. */
  function RawClosing(hashes: nat): (d: seq<char>)
    ensures |d| == hashes + 1 && d[0] == '"'
    ensures forall i :: 1 <= i < |d| ==> d[i] == '#'
  {
    ['"'] + seq(hashes, _ => '#')
  }

  /** The fixed 31-character constant (a quote and 30 hashes) that delimiters are sliced from. */
  const QuoteHashes: seq<char> := RawClosing(30)

  /** The opening pattern of a raw string: `r`, any number of `#`, `"`. */
  predicate IsRawOpening(slice: seq<char>) {
    |slice| >= 2 && slice[0] == 'r' && slice[|slice| - 1] == '"' &&
    forall i :: 1 <= i < |slice| - 1 ==> slice[i] == '#'
  }

  datatype RawScan =
    | RawClosed(contents: seq<char>, consumed: nat)   // Some(contents); the cursor moves by `consumed`
    | Unterminated                                    // None: the lexer reports an error token
    | DelimiterTooLong                                // more than 30 hashes: the slice bound panics

  /** What `parse_raw_string` finds in the remainder after an opening with `hashes` hash marks. */
  function ScanRawString(remainder: seq<char>, hashes: nat): (r: RawScan)
    ensures r.DelimiterTooLong? <==> hashes > 30
    ensures r.RawClosed? ==> r.consumed == |r.contents| + hashes + 1 <= |remainder|
    ensures r.RawClosed? ==> remainder[..r.consumed] == r.contents + RawClosing(hashes)
    ensures r.RawClosed? ==> forall i :: 0 <= i < |r.contents| ==> !OccursAt(remainder, RawClosing(hashes), i)
    ensures r.Unterminated? ==> forall i :: !OccursAt(remainder, RawClosing(hashes), i)
  {
    if hashes + 1 > |QuoteHashes| then DelimiterTooLong
    else
      var closing := QuoteHashes[..hashes + 1];
      assert closing == RawClosing(hashes);
      match FirstOccurrence(remainder, closing)
      case None => Unterminated
      case Some(i) =>
        assert remainder[..i + hashes + 1] == remainder[..i] + remainder[i..i + hashes + 1];
        RawClosed(remainder[..i], i + hashes + 1)
  }

  /** A raw string whose contents hold no quote is read back exactly, up to its delimiter. */
  lemma RawStringRoundTrip(contents: seq<char>, hashes: nat, tail: seq<char>)
    requires hashes <= 30
    requires '"' !in contents
    ensures ScanRawString(contents + RawClosing(hashes) + tail, hashes)
         == RawClosed(contents, |contents| + hashes + 1)
  {
    var rem := contents + RawClosing(hashes) + tail;
    var d := RawClosing(hashes);
    assert rem[|contents|..|contents| + |d|] == d;
    assert OccursAt(rem, d, |contents|);
    var r := ScanRawString(rem, hashes);
    assert r.RawClosed?;
    assert |r.contents| <= |contents|;
    assert rem[..r.consumed][|r.contents|] == d[0] == '"';
    assert |r.contents| == |contents|;
    assert r.contents == rem[..|contents|] == contents;
  }

  // How far `multiline_comment` moves past the comment opener: through the first
  // closing star-slash, or not at all.
  function CommentSkip(remainder: seq<char>): (n: nat)
    ensures n <= |remainder|
    ensures n == 0 <==> forall i :: !OccursAt(remainder, "*/", i)
    ensures n > 0 ==> n >= 2 && remainder[n - 2..n] == "*/"
    ensures n > 0 ==> forall i :: 0 <= i < n - 2 ==> !OccursAt(remainder, "*/", i)
  {
    match FirstOccurrence(remainder, "*/")
    case None => 0
    case Some(i) => i + 2
  }

  // Comments do not nest: the first closing star-slash ends the comment.
  lemma CommentsDoNotNest()
    ensures CommentSkip(" a /* b */ c */") == 10
  {
    var rem := " a /* b */ c */";
    assert OccursAt(rem, "*/", 8);
    forall i | 0 <= i < 8 ensures !OccursAt(rem, "*/", i) {
      assert rem[i] != '*' || rem[i + 1] != '/';
    }
  }

  /**
   * The cursor of the generated lexer as the callbacks see it: the matched
   * slice is `source[start..end]`, the remainder is `source[end..]`.
   */
  class Lexer {
    const source: seq<char>
    const start: nat
    var end: nat

    ghost predicate Valid()
      reads this
    {
      start <= end <= |source|
    }

    function Slice(): seq<char>
      reads this
      requires Valid()
    {
      source[start..end]
    }

    function Remainder(): seq<char>
      reads this
      requires Valid()
    {
      source[end..]
    }

    constructor (source: seq<char>, start: nat, end: nat)
      requires start <= end <= |source|
      ensures Valid()
      ensures this.source == source && this.start == start && this.end == end
    {
      this.source := source;
      this.start := start;
      this.end := end;
    }

    /** Extend the current match by `n` characters. */
    method Bump(n: nat)
      requires Valid() && end + n <= |source|
      modifies this
      ensures Valid() && end == old(end) + n
    {
      end := end + n;
    }

    /**
     * `parse_raw_string`: after an opening `r#..#"`, find the matching closing
     * delimiter in the remainder; on success return the text before it and move
     * the cursor past it, otherwise leave the cursor where it is.
     */
    method ParseRawString() returns (r: RawScan)
      requires Valid() && IsRawOpening(Slice())
      modifies this
      ensures Valid()
      ensures r == ScanRawString(old(Remainder()), |old(Slice())| - 2)
      ensures r.RawClosed? ==> end == old(end) + r.consumed
      ensures !r.RawClosed? ==> end == old(end)
    {
      var hashes := end - start - 2;
      if hashes + 1 > |QuoteHashes| {
        return DelimiterTooLong;
      }
      var closing := QuoteHashes[..hashes + 1];
      assert closing == RawClosing(hashes);
      var found := FirstOccurrence(source[end..], closing);
      match found {
        case None =>
          r := Unterminated;
        case Some(i) =>
          var s := source[end..][..i];
          r := RawClosed(s, i + |closing|);
          Bump(i + |closing|);
      }
    }

    // `multiline_comment`: skip through the first closing star-slash; with none,
    // only the opener itself is skipped.
    method MultilineComment()
      requires Valid()
      modifies this
      ensures Valid()
      ensures end == old(end) + CommentSkip(old(Remainder()))
    {
      var found := FirstOccurrence(source[end..], "*/");
      if found.Some? {
        Bump(found.value + 2);
      }
    }
  }

  // ---------------------------------------------------------------------
  // Integer literals
  // ---------------------------------------------------------------------

  /** Value of an ASCII hex digit in either case. */
  function DigitValue(c: char): (r: Option<nat>)
    ensures r.Some? ==> r.value < 16
  {
    if '0' <= c <= '9' then Some(c as int - '0' as int)
    else if 'a' <= c <= 'f' then Some(c as int - 'a' as int + 10)
    else if 'A' <= c <= 'F' then Some(c as int - 'A' as int + 10)
    else None
  }

  predicate IsRadixDigit(c: char, radix: nat) {
    DigitValue(c).Some? && DigitValue(c).value < radix
  }

  /** The digits of a literal, with the `_` separators dropped. */
  function StripSeparators(s: seq<char>): seq<char> {
    if s == [] then []
    else if s[0] == '_' then StripSeparators(s[1..])
    else [s[0]] + StripSeparators(s[1..])
  }

  /** The number a digit string denotes in `radix`, most significant digit first. */
  function DigitsValue(ds: seq<char>, radix: nat): nat
    requires forall i :: 0 <= i < |ds| ==> IsRadixDigit(ds[i], radix)
  {
    if ds == [] then 0
    else
      var init, last := ds[..|ds| - 1], ds[|ds| - 1];
      assert forall i :: 0 <= i < |init| ==> init[i] == ds[i];
      assert IsRadixDigit(last, radix);
      var v := DigitsValue(init, radix);
      MulNat(v, radix);
      v * radix + DigitValue(last).value
  }

  /** The product of two naturals is a natural (stated apart to keep the arithmetic out of larger proofs). */
  lemma MulNat(a: nat, b: nat)
    ensures a * b >= 0
  {
  }

  /**
   * The literal format the radix callbacks use: at least one digit, `_` allowed as an
   * internal, trailing or repeated separator but not a leading one, no sign, no special values.
   */
  predicate IsRadixLiteral(s: seq<char>, radix: nat) {
    |s| > 0 && s[0] != '_' && forall i :: 0 <= i < |s| ==> s[i] == '_' || IsRadixDigit(s[i], radix)
  }

  lemma {:induction false} StripKeepsDigits(s: seq<char>, radix: nat)
    requires forall i :: 0 <= i < |s| ==> s[i] == '_' || IsRadixDigit(s[i], radix)
    ensures forall i :: 0 <= i < |StripSeparators(s)| ==> IsRadixDigit(StripSeparators(s)[i], radix)
    decreases |s|
  {
    if s != [] {
      StripKeepsDigits(s[1..], radix);
    }
  }

  /** Parse a literal in `radix` into an `i64`; anything malformed or out of range is rejected. */
  function ParseRadix(s: seq<char>, radix: nat): (r: Option<I64>)
    requires 2 <= radix <= 16
    ensures r.Some? ==> IsRadixLiteral(s, radix) && r.value >= 0
  {
    if !IsRadixLiteral(s, radix) then None
    else
      StripKeepsDigits(s, radix);
      var v := DigitsValue(StripSeparators(s), radix);
      if v <= I64Max then Some(v as I64) else None
  }

  /** `hex`: drop the `0x` prefix, parse in radix 16. */
  function Hex(slice: seq<char>): (r: Option<I64>)
    requires |slice| >= 2
    ensures r.Some? ==> IsRadixLiteral(slice[2..], 16) && r.value >= 0
  {
    ParseRadix(slice[2..], 16)
  }

  /** `oct`: drop the `0o` prefix, parse in radix 8. */
  function Oct(slice: seq<char>): (r: Option<I64>)
    requires |slice| >= 2
    ensures r.Some? ==> IsRadixLiteral(slice[2..], 8) && r.value >= 0
  {
    ParseRadix(slice[2..], 8)
  }

  /** `bin`: drop the `0b` prefix, parse in radix 2. */
  function Bin(slice: seq<char>): (r: Option<I64>)
    requires |slice| >= 2
    ensures r.Some? ==> IsRadixLiteral(slice[2..], 2) && r.value >= 0
  {
    ParseRadix(slice[2..], 2)
  }

  /** `int`: a decimal literal with the same separator rules. */
  function Int(slice: seq<char>): (r: Option<I64>)
    ensures r.Some? ==> IsRadixLiteral(slice, 10) && r.value >= 0
  {
    ParseRadix(slice, 10)
  }

  lemma HexExample()
    ensures Hex("0x1_F") == Some(31)
  {
    var t := "1_F";
    assert "0x1_F"[2..] == t;
    assert IsRadixLiteral(t, 16) by {
      forall i | 0 <= i < |t| ensures t[i] == '_' || IsRadixDigit(t[i], 16) {
        assert t[i] in "1_F";
      }
    }
    assert StripSeparators(t) == "1F";
    assert "1F"[..1] == "1";
    assert "1"[..0] == [];
    assert DigitsValue("1F", 16) == 31;
  }

  lemma OctExample()
    ensures Oct("0o17") == Some(15)
  {
    var t := "17";
    assert "0o17"[2..] == t;
    assert IsRadixLiteral(t, 8) by {
      forall i | 0 <= i < |t| ensures t[i] == '_' || IsRadixDigit(t[i], 8) {
        assert t[i] in "17";
      }
    }
    assert StripSeparators(t) == "17";
    assert "17"[..1] == "1";
    assert "1"[..0] == [];
    assert DigitsValue("17", 8) == 15;
  }

  lemma BinExample()
    ensures Bin("0b101") == Some(5)
  {
    assert "0b101"[2..] == "101";
    assert StripSeparators("101") == "101";
    assert "101"[..2] == "10";
    assert "10"[..1] == "1";
    assert "1"[..0] == [];
  }

  /** Trailing and repeated separators are accepted. */
  lemma IntExample()
    ensures Int("1_0__") == Some(10)
  {
    var t := "1_0__";
    assert StripSeparators("_") == [];
    assert StripSeparators("__") == [];
    assert StripSeparators("0__") == "0";
    assert StripSeparators("_0__") == "0";
    assert StripSeparators(t) == "10";
    assert IsRadixLiteral(t, 10) by {
      forall i | 0 <= i < |t| ensures t[i] == '_' || IsRadixDigit(t[i], 10) {
        assert t[i] in "1_0";
      }
    }
    assert "10"[..1] == "1";
    assert "1"[..0] == [];
  }

  lemma RadixRejections(radix: nat)
    requires 2 <= radix <= 16
    ensures ParseRadix("", radix) == None
    ensures ParseRadix("_1", radix) == None
    ensures ParseRadix("+1", radix) == None
    ensures Bin("0b102") == None
  {
    assert !IsRadixDigit('2', 2);
    assert "0b102"[2..][2] == '2';
  }

  /** The digit character for `d`, lower-case for letters. */
  function DigitChar(d: nat): (c: char)
    requires d < 16
    ensures DigitValue(c) == Some(d) && c != '_'
  {
    if d < 10 then (48 + d) as char else (87 + d) as char
  }

  /** The canonical rendering of `n` in `radix`, without separators. */
  function ToRadixDigits(n: nat, radix: nat): (s: seq<char>)
    requires 2 <= radix <= 16
    ensures |s| > 0
    ensures forall i :: 0 <= i < |s| ==> IsRadixDigit(s[i], radix) && s[i] != '_'
    decreases n
  {
    if n < radix then [DigitChar(n)]
    else
      DivModShrinks(n, radix);
      ToRadixDigits(n / radix, radix) + [DigitChar(n % radix)]
  }

  lemma DivModShrinks(n: nat, radix: nat)
    requires 2 <= radix <= n
    ensures n / radix < n && n % radix < radix && (n / radix) * radix + n % radix == n
  {
  }

  lemma {:induction false} StripNoSeparators(s: seq<char>)
    requires forall i :: 0 <= i < |s| ==> s[i] != '_'
    ensures StripSeparators(s) == s
    decreases |s|
  {
    if s != [] {
      StripNoSeparators(s[1..]);
      assert s == [s[0]] + s[1..];
    }
  }

  lemma {:induction false} ToRadixDigitsValue(n: nat, radix: nat)
    requires 2 <= radix <= 16
    ensures DigitsValue(ToRadixDigits(n, radix), radix) == n
    decreases n
  {
    var s := ToRadixDigits(n, radix);
    if n >= radix {
      DivModShrinks(n, radix);
      ToRadixDigitsValue(n / radix, radix);
      assert s[..|s| - 1] == ToRadixDigits(n / radix, radix);
      assert DigitValue(s[|s| - 1]).value == n % radix;
    }
  }

  /**
   * Rendering a number and parsing it back gives the number, in every radix the
   * lexer uses, exactly when it fits an `i64`; larger numbers are rejected.
   */
  lemma RadixRoundTrip(n: nat, radix: nat)
    requires 2 <= radix <= 16
    ensures ParseRadix(ToRadixDigits(n, radix), radix) == if n <= I64Max then Some(n as I64) else None
  {
    var s := ToRadixDigits(n, radix);
    StripNoSeparators(s);
    ToRadixDigitsValue(n, radix);
  }

  lemma {:induction false} StripConcat(a: seq<char>, b: seq<char>)
    ensures StripSeparators(a + b) == StripSeparators(a) + StripSeparators(b)
    decreases |a|
  {
    if a == [] {
      assert a + b == b;
    } else {
      assert (a + b)[0] == a[0];
      assert (a + b)[1..] == a[1..] + b;
      StripConcat(a[1..], b);
    }
  }

  /** A `_` anywhere after the first character changes nothing. */
  lemma SeparatorTransparent(s: seq<char>, k: nat, radix: nat)
    requires 2 <= radix <= 16 && 0 < k <= |s|
    ensures ParseRadix(s[..k] + "_" + s[k..], radix) == ParseRadix(s, radix)
  {
    var t := s[..k] + "_" + s[k..];
    StripConcat(s[..k] + "_", s[k..]);
    StripConcat(s[..k], "_");
    StripConcat(s[..k], s[k..]);
    assert s[..k] + s[k..] == s;
    assert StripSeparators("_") == [];
    assert StripSeparators(t) == StripSeparators(s);
    assert t[0] == s[0];
    assert IsRadixLiteral(t, radix) <==> IsRadixLiteral(s, radix) by {
      if IsRadixLiteral(s, radix) {
        forall i | 0 <= i < |t| ensures t[i] == '_' || IsRadixDigit(t[i], radix) {
          if i < k { assert t[i] == s[i]; }
          else if i > k { assert t[i] == s[i - 1]; }
        }
      }
      if IsRadixLiteral(t, radix) {
        forall i | 0 <= i < |s| ensures s[i] == '_' || IsRadixDigit(s[i], radix) {
          if i < k { assert t[i] == s[i]; }
          else { assert t[i + 1] == s[i]; }
        }
      }
    }
  }
}
