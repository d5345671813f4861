/**
 * The escape engine (src/unescape.rs): the escape table of the String section
 * of KDL 1.0 (`\n \r \t \\ \b \f \/ \"` and `\u{...}`) applied in two modes.
 *
 *  - Lazy: `EscapingIter` hands out one character per call, reading from a
 *    character cursor; in "shim" mode it passes the text through unchanged.
 *    Malformed `\u` escapes make it panic; that is modelled as an `Abort` step.
 *  - Eager: `unescape_std` builds the whole unescaped string and reports
 *    malformed escapes as errors.
 */
module Unescape {
  import opened Wrappers
  import opened Kdl
  import Lex

  // ---------------------------------------------------------------------
  // The shared escape table
  // ---------------------------------------------------------------------

  /** The character a one-letter escape stands for. */
  function SimpleEscape(c: char): Option<char> {
    match c
    case 'n' => Some('\n')
    case 'r' => Some('\r')
    case 't' => Some('\t')
    case '\\' => Some('\\')
    case 'b' => Some('\U{0008}')
    case 'f' => Some('\U{000C}')
    case '/' => Some('/')
    case '"' => Some('"')
    case _ => None
  }

  /** `c as u8`: the low byte of the code point. */
  function LowByte(c: char): (b: nat)
    ensures b < 256
  {
    (c as int) % 256
  }

  /** The value of an ASCII hex digit byte, in either case. */
  function HexDigit(b: nat): (r: Option<nat>)
    ensures r.Some? ==> r.value < 16
  {
    if 48 <= b <= 57 then Some(b - 48)
    else if 97 <= b <= 102 then Some(b - 97 + 10)
    else if 65 <= b <= 70 then Some(b - 65 + 10)
    else None
  }

  const CloseBraceByte: nat := 125

  /** `char::from_u32` succeeds: the code point is a Unicode scalar value. */
  predicate IsScalar(cp: int) {
    0 <= cp < 0xD800 || 0xE000 <= cp < 0x11_0000
  }

  // ---------------------------------------------------------------------
  // Eager mode
  // ---------------------------------------------------------------------

  /** The outcome of reading the digits of a `\u{` escape up to its closing brace. */
  datatype HexScan =
    | HexClosed(codepoint: nat, rest: seq<char>)
    | HexTooLong      // a seventh digit
    | HexEof          // the text ends before the closing brace
    | HexBadChar      // neither a hex digit nor a closing brace

  /**
   * The digit loop of `unescape_std`: `idx` digits have been read so far and
   * give `cp`. Each step first refuses a seventh digit, then classifies the next
   * character by its low byte.
   */
  function ScanHex(t: seq<char>, idx: nat, cp: nat): (r: HexScan)
    ensures r.HexClosed? ==> idx <= 6 && 1 <= |t| - |r.rest| <= 7 - idx
    decreases |t|
  {
    if idx > 6 then HexTooLong
    else if t == [] then HexEof
    else
      var b := LowByte(t[0]);
      if b == CloseBraceByte then HexClosed(cp, t[1..])
      else match HexDigit(b)
        case None => HexBadChar
        case Some(d) =>
          ScanHex(t[1..], idx + 1, cp * 16 + d)
  }

  /** One step of the eager digit loop. */
  lemma ScanHexStep(t: seq<char>, idx: nat, cp: nat)
    requires idx <= 6 && t != []
    ensures LowByte(t[0]) == CloseBraceByte ==> ScanHex(t, idx, cp) == HexClosed(cp, t[1..])
    ensures LowByte(t[0]) != CloseBraceByte && HexDigit(LowByte(t[0])).None? ==> ScanHex(t, idx, cp) == HexBadChar
    ensures LowByte(t[0]) != CloseBraceByte && HexDigit(LowByte(t[0])).Some? ==>
              ScanHex(t, idx, cp) == ScanHex(t[1..], idx + 1, cp * 16 + HexDigit(LowByte(t[0])).value)
  {
  }

  /** Where the eager digit loop stops short of another digit. */
  lemma ScanHexStop(t: seq<char>, idx: nat, cp: nat)
    requires !(idx <= 6 && t != [] && LowByte(t[0]) != CloseBraceByte && HexDigit(LowByte(t[0])).Some?)
    ensures ScanHex(t, idx, cp)
            == if idx > 6 then HexTooLong
               else if t == [] then HexEof
               else if LowByte(t[0]) == CloseBraceByte then HexClosed(cp, t[1..])
               else HexBadChar
  {
  }

  /** Prefix `p` to a successful result; errors pass through. */
  function Prepend(p: seq<char>, r: ParseResult<seq<char>>): ParseResult<seq<char>> {
    match r
    case Ok(t) => Ok(p + t)
    case Err(e) => Err(e)
  }

  lemma PrependTwice(p: seq<char>, q: seq<char>, r: ParseResult<seq<char>>)
    ensures Prepend(p, Prepend(q, r)) == Prepend(p + q, r)
  {
    if r.Ok? {
      assert p + (q + r.value) == (p + q) + r.value;
    }
  }

  /** What `unescape_std` returns for `s`: the unescaped text, or the first malformed escape. */
  function Unescaped(s: seq<char>): ParseResult<seq<char>>
    decreases |s|
  {
    if s == [] then Ok([])
    else if s[0] != '\\' then Prepend([s[0]], Unescaped(s[1..]))
    else if |s| == 1 then Err(UnexpectedEOF)
    else match SimpleEscape(s[1])
      case Some(c) => Prepend([c], Unescaped(s[2..]))
      case None =>
        if s[1] != 'u' then Err(UnrecognizedEscape)
        else if |s| == 2 || s[2] != '{' then Err(BadUnicodeEscape)
        else match ScanHex(s[3..], 0, 0)
          case HexClosed(cp, rest) =>
            if IsScalar(cp) then Prepend([cp as char], Unescaped(rest)) else Err(BadUnicodeEscape)
          case HexTooLong => Err(BadUnicodeEscape)
          case HexEof => Err(UnexpectedEOF)
          case HexBadChar => Err(BadUnicodeEscape)
  }

  /**
   * The digit loop of `unescape_std`, started at index `start` just past `\u{`:
   * it reads at most six digits and the closing brace, and on success returns
   * the index after the brace.
   */
  method ReadCodepoint(s: seq<char>, start: nat) returns (h: HexScan, j: nat)
    requires start <= |s|
    ensures h == ScanHex(s[start..], 0, 0)
    ensures h.HexClosed? ==> start < j <= |s| && h.rest == s[j..]
  {
    j := start;
    var idx: nat := 0;
    var cp: nat := 0;
    // Each round first refuses a seventh digit, then reads one character.
    while idx <= 6 && j < |s| && LowByte(s[j]) != CloseBraceByte && HexDigit(LowByte(s[j])).Some?
      invariant start <= j <= |s|
      invariant ScanHex(s[start..], 0, 0) == ScanHex(s[j..], idx, cp)
      decreases |s| - j
    {
      ScanHexStep(s[j..], idx, cp);
      assert s[j..][1..] == s[j + 1..];
      cp := cp * 16 + HexDigit(LowByte(s[j])).value;
      idx := idx + 1;
      j := j + 1;
    }
    ScanHexStop(s[j..], idx, cp);
    if idx > 6 {
      return HexTooLong, j;
    }
    if j == |s| {
      return HexEof, j;
    }
    assert s[j..][1..] == s[j + 1..];
    if LowByte(s[j]) == CloseBraceByte {
      return HexClosed(cp, s[j + 1..]), j + 1;
    }
    return HexBadChar, j + 1;
  }

  /**
   * `unescape_std`: one pass over the characters, pushing onto a growing buffer,
   * returning at the first malformed escape.
   */
  method UnescapeStd(s: seq<char>) returns (r: ParseResult<seq<char>>)
    ensures r == Unescaped(s)
  {
    var buf: seq<char> := [];
    var i := 0;
    assert s[i..] == s;
    assert Prepend(buf, Unescaped(s)) == Unescaped(s) by {
      if Unescaped(s).Ok? {
        assert [] + Unescaped(s).value == Unescaped(s).value;
      }
    }
    while i < |s|
      invariant 0 <= i <= |s|
      invariant Unescaped(s) == Prepend(buf, Unescaped(s[i..]))
      decreases |s| - i
    {
      var c := s[i];
      if c != '\\' {
        assert s[i..][1..] == s[i + 1..];
        PrependTwice(buf, [c], Unescaped(s[i + 1..]));
        buf := buf + [c];
        i := i + 1;
        continue;
      }
      ghost var t := s[i..];
      assert t[0] == '\\';
      if i + 1 == |s| {
        return Err(UnexpectedEOF);
      }
      var e := s[i + 1];
      assert t[1] == e;
      var simple := SimpleEscape(e);
      if simple.Some? {
        assert s[i..][2..] == s[i + 2..];
        PrependTwice(buf, [simple.value], Unescaped(s[i + 2..]));
        buf := buf + [simple.value];
        i := i + 2;
        continue;
      }
      if e != 'u' {
        return Err(UnrecognizedEscape);
      }
      if i + 2 == |s| || s[i + 2] != '{' {
        return Err(BadUnicodeEscape);
      }
      assert t[2] == '{' && t[3..] == s[i + 3..];
      var h, j := ReadCodepoint(s, i + 3);
      if !h.HexClosed? {
        return if h.HexEof? then Err(UnexpectedEOF) else Err(BadUnicodeEscape);
      }
      var cp := h.codepoint;
      if !IsScalar(cp) {
        return Err(BadUnicodeEscape);
      }
      PrependTwice(buf, [cp as char], Unescaped(s[j..]));
      buf := buf + [cp as char];
      i := j;
    }
    assert s[i..] == [];
    assert buf + [] == buf;
    r := Ok(buf);
  }

  // ---------------------------------------------------------------------
  // Lazy mode
  // ---------------------------------------------------------------------

  /** One call of the lazy iterator: a character, the end of iteration, or a panic. */
  datatype Step = Item(ch: char) | End | Abort

  /** A step together with what is left of the cursor afterwards. */
  datatype Lazy = Lazy(step: Step, rest: seq<char>)

  /**
   * One call of `EscapingIter::next` in unescaping mode, from cursor `s`. The `{`
   * and the digits of a `\u` escape are read by calling `next` again, so they are
   * themselves unescaped; an unknown escape yields its letter.
   */
  function LazyNext(s: seq<char>): (r: Lazy)
    ensures |r.rest| <= |s|
    ensures r.step.Item? ==> |r.rest| < |s|
    decreases |s|, 0
  {
    if s == [] then Lazy(End, [])
    else if s[0] != '\\' then Lazy(Item(s[0]), s[1..])
    else if |s| == 1 then Lazy(End, [])
    else match SimpleEscape(s[1])
      case Some(c) => Lazy(Item(c), s[2..])
      case None =>
        if s[1] != 'u' then Lazy(Item(s[1]), s[2..])
        else
          var open := LazyNext(s[2..]);
          match open.step
          case End => Lazy(End, open.rest)
          case Abort => Lazy(Abort, open.rest)
          case Item(c) =>
            if c != '{' then Lazy(Abort, open.rest)
            else LazyHex(open.rest, 0, 0)
  }

  /** The digit loop of the lazy iterator: `idx` digits read so far, giving `cp`. */
  function LazyHex(s: seq<char>, idx: nat, cp: nat): (r: Lazy)
    ensures |r.rest| <= |s|
    decreases |s|, 1
  {
    if idx > 6 then Lazy(Abort, s)
    else
      var d := LazyNext(s);
      match d.step
      case End => Lazy(End, d.rest)
      case Abort => Lazy(Abort, d.rest)
      case Item(c) =>
        var b := LowByte(c);
        if b == CloseBraceByte then
          if IsScalar(cp) then Lazy(Item(cp as char), d.rest) else Lazy(End, d.rest)
        else match HexDigit(b)
          case None => Lazy(Abort, d.rest)
          case Some(v) => LazyHex(d.rest, idx + 1, cp * 16 + v)
  }

  /**
   * One call of the iterator in shim mode: it never panics, ends only on an
   * empty cursor, and otherwise moves exactly one character, unchanged, from
   * the cursor to its caller.
   */
  function ShimNext(s: seq<char>): (r: Lazy)
    ensures r.step != Abort
    ensures r.step.Item? <==> s != []
    ensures r.step.Item? ==> [r.step.ch] + r.rest == s
    ensures r.step.End? ==> r.rest == s
  {
    if s == [] then Lazy(End, []) else Lazy(Item(s[0]), s[1..])
  }

  /**
   * One call of `EscapingIter::next` in either mode: the cursor never grows,
   * every character handed out consumes input, and shim mode never panics.
   */
  function IterNext(shim: bool, s: seq<char>): (r: Lazy)
    ensures |r.rest| <= |s|
    ensures r.step.Item? ==> |r.rest| < |s|
    ensures shim ==> r.step != Abort
  {
    if shim then ShimNext(s) else LazyNext(s)
  }

  /** What a consumer that pulls until the end sees: the characters, or a panic. */
  datatype Collected = Collected(chars: seq<char>) | Panicked

  function Collect(shim: bool, s: seq<char>): Collected
    decreases |s|
  {
    var n := IterNext(shim, s);
    match n.step
    case End => Collected([])
    case Abort => Panicked
    case Item(c) =>
      match Collect(shim, n.rest)
      case Collected(cs) => Collected([c] + cs)
      case Panicked => Panicked
  }

  /** `EscapingIter`: a character cursor and the pass-through flag. */
  class EscapingIter {
    var inner: seq<char>
    const shim: bool

    /** `EscapingIter::unescape`. */
    constructor Unescape(s: seq<char>)
      ensures inner == s && !shim
    {
      inner := s;
      shim := false;
    }

    /** `EscapingIter::shim`. */
    constructor Shim(s: seq<char>)
      ensures inner == s && shim
    {
      inner := s;
      shim := true;
    }

    method Next() returns (r: Step)
      modifies this
      ensures Lazy(r, inner) == IterNext(shim, old(inner))
      decreases |inner|
    {
      if shim {
        if inner == [] {
          return End;
        }
        r := Item(inner[0]);
        inner := inner[1..];
        return;
      }
      if inner == [] {
        return End;
      }
      var c := inner[0];
      inner := inner[1..];
      if c != '\\' {
        return Item(c);
      }
      if inner == [] {
        return End;
      }
      var e := inner[0];
      inner := inner[1..];
      var simple := SimpleEscape(e);
      if simple.Some? {
        return Item(simple.value);
      }
      if e != 'u' {
        return Item(e);
      }
      ghost var afterU := inner;
      var open := Next();
      if open != Item('{') {
        return if open.Item? then Abort else open;
      }
      ghost var digits := inner;
      assert LazyNext(old(inner)) == LazyHex(digits, 0, 0);
      var idx := 0;
      var cp := 0;
      while true
        invariant |inner| < |old(inner)|
        invariant LazyNext(old(inner)) == LazyHex(inner, idx, cp)
        decreases |inner|
      {
        if idx > 6 {
          return Abort;
        }
        var d := Next();
        if !d.Item? {
          return d;
        }
        var b := LowByte(d.ch);
        if b == CloseBraceByte {
          if IsScalar(cp) {
            return Item(cp as char);
          }
          return End;
        }
        var v := HexDigit(b);
        if v.None? {
          return Abort;
        }
        cp := cp * 16 + v.value;
        idx := idx + 1;
      }
    }
  }

  // ---------------------------------------------------------------------
  // Properties
  // ---------------------------------------------------------------------

  /** Shim mode yields the input unchanged. */
  lemma {:induction false} ShimIsIdentity(s: seq<char>)
    ensures Collect(true, s) == Collected(s)
    decreases |s|
  {
    if s != [] {
      ShimIsIdentity(s[1..]);
      assert [s[0]] + s[1..] == s;
    }
  }

  /** Every output character consumes at least one input character. */
  lemma {:induction false} UnescapedNoLonger(s: seq<char>)
    ensures Unescaped(s).Ok? ==> |Unescaped(s).value| <= |s|
    decreases |s|
  {
    if s == [] || |s| == 1 {
    } else if s[0] != '\\' {
      UnescapedNoLonger(s[1..]);
    } else if SimpleEscape(s[1]).Some? {
      UnescapedNoLonger(s[2..]);
    } else if s[1] == 'u' && |s| > 2 && s[2] == '{' {
      var h := ScanHex(s[3..], 0, 0);
      if h.HexClosed? {
        UnescapedNoLonger(h.rest);
      }
    }
  }

  /** The lazy digit loop on text the eager digit loop accepts. */
  lemma {:induction false} HexAgree(t: seq<char>, idx: nat, cp: nat)
    requires ScanHex(t, idx, cp).HexClosed?
    requires IsScalar(ScanHex(t, idx, cp).codepoint)
    ensures LazyHex(t, idx, cp) == Lazy(Item(ScanHex(t, idx, cp).codepoint as char), ScanHex(t, idx, cp).rest)
    decreases |t|
  {
    // The backslash has low byte 0x5C, neither a hex digit nor a closing brace,
    // so every character the eager loop accepts is read back unchanged.
    var b := LowByte(t[0]);
    assert LowByte('\\') == 0x5C && HexDigit(0x5C).None?;
    LazyHexPlainStep(t, idx, cp);
    if b != CloseBraceByte {
      var d := HexDigit(b).value;
      assert ScanHex(t, idx, cp) == ScanHex(t[1..], idx + 1, cp * 16 + d);
      HexAgree(t[1..], idx + 1, cp * 16 + d);
    }
  }

  /** One step of the lazy digit loop on a character other than a backslash. */
  lemma LazyHexPlainStep(t: seq<char>, idx: nat, cp: nat)
    requires idx <= 6 && t != [] && t[0] != '\\'
    ensures LowByte(t[0]) == CloseBraceByte && IsScalar(cp) ==> LazyHex(t, idx, cp) == Lazy(Item(cp as char), t[1..])
    ensures LowByte(t[0]) != CloseBraceByte && HexDigit(LowByte(t[0])).Some? ==>
              LazyHex(t, idx, cp) == LazyHex(t[1..], idx + 1, cp * 16 + HexDigit(LowByte(t[0])).value)
  {
    assert LazyNext(t) == Lazy(Item(t[0]), t[1..]);
  }

  /**
   * Whenever the eager mode succeeds, the lazy mode yields exactly the same
   * characters, and then ends.
   */
  lemma {:induction false} LazyAgreesWithEager(s: seq<char>)
    requires Unescaped(s).Ok?
    ensures Collect(false, s) == Collected(Unescaped(s).value)
    decreases |s|
  {
    if s == [] {
    } else if s[0] != '\\' {
      LazyAgreesWithEager(s[1..]);
    } else if SimpleEscape(s[1]).Some? {
      LazyAgreesWithEager(s[2..]);
    } else {
      var h := ScanHex(s[3..], 0, 0);
      assert LazyNext(s[2..]) == Lazy(Item('{'), s[3..]);
      HexAgree(s[3..], 0, 0);
      LazyAgreesWithEager(h.rest);
    }
  }

  /** An unknown escape is an error in eager mode; the lazy mode yields its letter. */
  lemma UnknownEscapeDiverges()
    ensures Unescaped("\\q") == Err(UnrecognizedEscape)
    ensures Collect(false, "\\q") == Collected("q")
  {
    assert LazyNext("\\q") == Lazy(Item('q'), []);
    assert Collect(false, []) == Collected([]);
  }

  /** An ASCII hex digit, in either case. */
  predicate IsAsciiHex(c: char) {
    '0' <= c <= '9' || 'a' <= c <= 'f' || 'A' <= c <= 'F'
  }

  /** The number that hex digits `ds` denote when appended to the digits that gave `acc`. */
  function HexValue(ds: seq<char>, acc: nat): nat
    requires forall i | 0 <= i < |ds| :: IsAsciiHex(ds[i])
    decreases |ds|
  {
    if ds == [] then acc else HexValue(ds[1..], acc * 16 + AsciiHexValue(ds[0]))
  }

  /** The value of an ASCII hex digit, as the low-byte classification of both loops sees it. */
  function AsciiHexValue(c: char): (v: nat)
    requires IsAsciiHex(c)
    ensures HexDigit(LowByte(c)) == Some(v)
    ensures Lex.DigitValue(c) == Some(v)
  {
    assert LowByte(c) == c as int;
    HexDigit(LowByte(c)).value
  }

  /** Appending a digit multiplies the value so far by sixteen and adds the digit. */
  lemma {:induction false} HexValueSnoc(ds: seq<char>, c: char, acc: nat)
    requires forall i | 0 <= i < |ds| :: IsAsciiHex(ds[i])
    requires IsAsciiHex(c)
    ensures HexValue(ds + [c], acc) == HexValue(ds, acc) * 16 + AsciiHexValue(c)
    decreases |ds|
  {
    var t := ds + [c];
    if ds == [] {
      assert t[0] == c && t[1..] == [];
    } else {
      assert t[0] == ds[0] && t[1..] == ds[1..] + [c];
      HexValueSnoc(ds[1..], c, acc * 16 + AsciiHexValue(ds[0]));
    }
  }

  /**
   * The number both digit loops accumulate is the value of the digits read as
   * a base-16 literal, the same reading the lexer gives `0x` integers.
   */
  lemma {:induction false} HexValueIsHexLiteral(ds: seq<char>)
    requires forall i | 0 <= i < |ds| :: IsAsciiHex(ds[i])
    ensures forall i | 0 <= i < |ds| :: Lex.IsRadixDigit(ds[i], 16)
    ensures HexValue(ds, 0) == Lex.DigitsValue(ds, 16)
    decreases |ds|
  {
    forall i | 0 <= i < |ds| ensures Lex.IsRadixDigit(ds[i], 16) {
      assert Lex.DigitValue(ds[i]) == Some(AsciiHexValue(ds[i]));
    }
    if ds != [] {
      var init, last := ds[..|ds| - 1], ds[|ds| - 1];
      assert forall i | 0 <= i < |init| :: init[i] == ds[i];
      HexValueIsHexLiteral(init);
      HexValueSnoc(init, last, 0);
      assert init + [last] == ds;
    }
  }

  /** Eager mode: up to six hex digits and a closing brace give the number they denote. */
  lemma {:induction false} ScanHexReadsDigits(ds: seq<char>, rest: seq<char>, idx: nat, cp: nat)
    requires idx + |ds| <= 6
    requires forall i | 0 <= i < |ds| :: IsAsciiHex(ds[i])
    ensures ScanHex(ds + ['}'] + rest, idx, cp) == HexClosed(HexValue(ds, cp), rest)
    decreases |ds|
  {
    var t := ds + ['}'] + rest;
    if ds == [] {
      assert t[0] == '}' && t[1..] == rest;
    } else {
      assert t[0] == ds[0] && t[1..] == ds[1..] + ['}'] + rest;
      ScanHexReadsDigits(ds[1..], rest, idx + 1, cp * 16 + AsciiHexValue(ds[0]));
    }
  }

  /** Eager mode: a seventh hex digit is refused, whatever follows. */
  lemma {:induction false} ScanHexRefusesSeventh(ds: seq<char>, rest: seq<char>, idx: nat, cp: nat)
    requires idx + |ds| == 7
    requires forall i | 0 <= i < |ds| :: IsAsciiHex(ds[i])
    ensures ScanHex(ds + rest, idx, cp) == HexTooLong
    decreases |ds|
  {
    var t := ds + rest;
    if ds != [] {
      assert t[0] == ds[0] && t[1..] == ds[1..] + rest;
      ScanHexRefusesSeventh(ds[1..], rest, idx + 1, cp * 16 + AsciiHexValue(ds[0]));
    }
  }

  /**
   * Lazy mode: the same digits, read one `next` call at a time, give the same
   * character; a number that is not a scalar value ends the iteration.
   */
  lemma {:induction false} LazyHexReadsDigits(ds: seq<char>, rest: seq<char>, idx: nat, cp: nat)
    requires idx + |ds| <= 6
    requires forall i | 0 <= i < |ds| :: IsAsciiHex(ds[i])
    ensures LazyHex(ds + ['}'] + rest, idx, cp)
            == if IsScalar(HexValue(ds, cp)) then Lazy(Item(HexValue(ds, cp) as char), rest) else Lazy(End, rest)
    decreases |ds|
  {
    var t := ds + ['}'] + rest;
    if ds == [] {
      assert t[0] == '}' && t[1..] == rest;
      assert LazyNext(t) == Lazy(Item('}'), rest);
    } else {
      assert t[0] == ds[0] && t[1..] == ds[1..] + ['}'] + rest;
      assert LazyNext(t) == Lazy(Item(ds[0]), t[1..]);
      LazyHexReadsDigits(ds[1..], rest, idx + 1, cp * 16 + AsciiHexValue(ds[0]));
    }
  }

  /** Lazy mode: a seventh hex digit makes the iterator panic. */
  lemma {:induction false} LazyHexPanicsOnSeventh(ds: seq<char>, rest: seq<char>, idx: nat, cp: nat)
    requires idx + |ds| == 7
    requires forall i | 0 <= i < |ds| :: IsAsciiHex(ds[i])
    ensures LazyHex(ds + rest, idx, cp).step == Abort
    decreases |ds|
  {
    var t := ds + rest;
    if ds != [] {
      assert t[0] == ds[0] && t[1..] == ds[1..] + rest;
      assert LazyNext(t) == Lazy(Item(ds[0]), t[1..]);
      LazyHexPanicsOnSeventh(ds[1..], rest, idx + 1, cp * 16 + AsciiHexValue(ds[0]));
    }
  }

  /** The eager half of `UnicodeEscapeDecodes`. */
  lemma EagerUnicodeEscape(ds: seq<char>, rest: seq<char>)
    requires |ds| <= 6
    requires forall i | 0 <= i < |ds| :: IsAsciiHex(ds[i])
    requires IsScalar(HexValue(ds, 0))
    ensures Unescaped("\\u{" + ds + "}" + rest) == Prepend([HexValue(ds, 0) as char], Unescaped(rest))
  {
    var s := "\\u{" + ds + "}" + rest;
    assert s[0] == '\\' && s[1] == 'u' && s[2] == '{';
    assert s[3..] == ds + ['}'] + rest;
    ScanHexReadsDigits(ds, rest, 0, 0);
    UnescapedAtUnicode(s);
  }

  /** One unfolding of `Unescaped` at a `\u{` escape whose digits close. */
  lemma UnescapedAtUnicode(s: seq<char>)
    requires |s| >= 3 && s[0] == '\\' && s[1] == 'u' && s[2] == '{'
    requires ScanHex(s[3..], 0, 0).HexClosed? && IsScalar(ScanHex(s[3..], 0, 0).codepoint)
    ensures Unescaped(s) == Prepend([ScanHex(s[3..], 0, 0).codepoint as char], Unescaped(ScanHex(s[3..], 0, 0).rest))
  {
    assert SimpleEscape('u') == None;
  }

  /** The lazy half of `UnicodeEscapeDecodes`. */
  lemma LazyUnicodeEscape(ds: seq<char>, rest: seq<char>)
    requires |ds| <= 6
    requires forall i | 0 <= i < |ds| :: IsAsciiHex(ds[i])
    requires IsScalar(HexValue(ds, 0))
    ensures LazyNext("\\u{" + ds + "}" + rest) == Lazy(Item(HexValue(ds, 0) as char), rest)
  {
    var s := "\\u{" + ds + "}" + rest;
    assert s[0] == '\\' && s[1] == 'u';
    assert s[2..] == ['{'] + (ds + ['}'] + rest);
    assert LazyNext(s[2..]) == Lazy(Item('{'), ds + ['}'] + rest);
    LazyHexReadsDigits(ds, rest, 0, 0);
  }

  /** `\u{` followed by up to six hex digits and `}` stands for the scalar value they denote, in both modes. */
  lemma UnicodeEscapeDecodes(ds: seq<char>, rest: seq<char>)
    requires |ds| <= 6
    requires forall i | 0 <= i < |ds| :: IsAsciiHex(ds[i])
    requires IsScalar(HexValue(ds, 0))
    ensures Unescaped("\\u{" + ds + "}" + rest) == Prepend([HexValue(ds, 0) as char], Unescaped(rest))
    ensures LazyNext("\\u{" + ds + "}" + rest) == Lazy(Item(HexValue(ds, 0) as char), rest)
  {
    EagerUnicodeEscape(ds, rest);
    LazyUnicodeEscape(ds, rest);
  }

  /** A seventh hex digit in a `\u{` escape is an error in eager mode and a panic in lazy mode. */
  lemma SevenDigitsRefused(ds: seq<char>, rest: seq<char>)
    requires |ds| == 7
    requires forall i | 0 <= i < |ds| :: IsAsciiHex(ds[i])
    ensures Unescaped("\\u{" + ds + rest) == Err(BadUnicodeEscape)
    ensures LazyNext("\\u{" + ds + rest).step == Abort
  {
    var s := "\\u{" + ds + rest;
    assert s[3..] == ds + rest;
    assert s[2..] == ['{'] + s[3..];
    ScanHexRefusesSeventh(ds, rest, 0, 0);
    assert LazyNext(s[2..]) == Lazy(Item('{'), s[3..]);
    LazyHexPanicsOnSeventh(ds, rest, 0, 0);
  }

  /**
   * The lazy mode unescapes the brace and digits of a `\u` escape too, so an
   * escaped `{` (here itself written `\u{7b}`) opens the escape; the eager
   * mode refuses it.
   */
  lemma EscapedBraceDiverges()
    ensures Unescaped("\\u" + "\\u{7b}" + "41}") == Err(BadUnicodeEscape)
    ensures LazyNext("\\u" + "\\u{7b}" + "41}") == Lazy(Item('A'), [])
  {
    var s := "\\u" + "\\u{7b}" + "41}";
    BraceMustBeLiteral(s);
    var inner := "\\u{" + "7b" + "}" + "41}";
    assert s[2..] == inner;
    assert HexValue("7b", 0) == 0x7b by {
      assert "7b"[1..] == "b";
    }
    LazyUnicodeEscape("7b", "41}");
    assert "41}" == "41" + ['}'] + [];
    assert HexValue("41", 0) == 0x41 by {
      assert "41"[1..] == "1";
    }
    LazyHexReadsDigits("41", [], 0, 0);
    assert s[0] == '\\' && s[1] == 'u';
  }

  /** Eagerly, the brace after `\u` must be a literal `{`. */
  lemma BraceMustBeLiteral(s: seq<char>)
    requires |s| >= 3 && s[0] == '\\' && s[1] == 'u' && s[2] != '{'
    ensures Unescaped(s) == Err(BadUnicodeEscape)
  {
    assert SimpleEscape('u') == None;
  }

  /** Text without a backslash is copied, and unescaping carries on after it. */
  lemma {:induction false} PlainPrefix(p: seq<char>, t: seq<char>)
    requires forall i | 0 <= i < |p| :: p[i] != '\\'
    ensures Unescaped(p + t) == Prepend(p, Unescaped(t))
    decreases |p|
  {
    if p == [] {
      assert p + t == t;
      if Unescaped(t).Ok? {
        assert p + Unescaped(t).value == Unescaped(t).value;
      }
    } else {
      assert (p + t)[0] == p[0] && (p + t)[1..] == p[1..] + t;
      PlainPrefix(p[1..], t);
      PrependTwice([p[0]], p[1..], Unescaped(t));
      assert [p[0]] + p[1..] == p;
    }
  }

  /**
   * The lazy counterpart: text without a backslash is handed out as it is, and
   * the iterator carries on after it, panicking exactly when the rest does.
   */
  lemma {:induction false} LazyPlainPrefix(p: seq<char>, t: seq<char>)
    requires forall i | 0 <= i < |p| :: p[i] != '\\'
    ensures Collect(false, t).Collected? ==> Collect(false, p + t) == Collected(p + Collect(false, t).chars)
    ensures Collect(false, t).Panicked? ==> Collect(false, p + t) == Panicked
    decreases |p|
  {
    if p == [] {
      assert p + t == t;
      if Collect(false, t).Collected? {
        assert p + Collect(false, t).chars == Collect(false, t).chars;
      }
    } else {
      assert (p + t)[0] == p[0] && (p + t)[1..] == p[1..] + t;
      LazyPlainPrefix(p[1..], t);
      if Collect(false, t).Collected? {
        assert [p[0]] + (p[1..] + Collect(false, t).chars) == p + Collect(false, t).chars;
      }
    }
  }

  /**
   * A backslash that ends the text is an unexpected end of input in eager
   * mode; the lazy iterator ends there instead, having handed out the text
   * before it.
   */
  lemma TrailingBackslash(p: seq<char>)
    requires forall i | 0 <= i < |p| :: p[i] != '\\'
    ensures Unescaped(p + "\\") == Err(UnexpectedEOF)
    ensures Collect(false, p + "\\") == Collected(p)
  {
    PlainPrefix(p, "\\");
    assert LazyNext("\\") == Lazy(End, []);
    LazyPlainPrefix(p, "\\");
    assert p + [] == p;
  }

  /**
   * A backslash before a letter outside the escape table is an unrecognized
   * escape in eager mode; the lazy mode yields the letter itself.
   */
  lemma UnrecognizedEscapeRefused(c: char, rest: seq<char>)
    requires c !in "nrt\\bf/\"u"
    ensures Unescaped(['\\', c] + rest) == Err(UnrecognizedEscape)
    ensures LazyNext(['\\', c] + rest) == Lazy(Item(c), rest)
  {
    var s := ['\\', c] + rest;
    assert SimpleEscape(c) == None;
    assert s[0] == '\\' && s[1] == c && s[2..] == rest;
  }

  /** How `Unescaped` ends at a `\u{` escape whose digits do not decode. */
  lemma UnescapedAtBadUnicode(s: seq<char>)
    requires |s| >= 3 && s[0] == '\\' && s[1] == 'u' && s[2] == '{'
    ensures ScanHex(s[3..], 0, 0).HexEof? ==> Unescaped(s) == Err(UnexpectedEOF)
    ensures ScanHex(s[3..], 0, 0).HexBadChar? ==> Unescaped(s) == Err(BadUnicodeEscape)
    ensures ScanHex(s[3..], 0, 0).HexClosed? && !IsScalar(ScanHex(s[3..], 0, 0).codepoint) ==>
              Unescaped(s) == Err(BadUnicodeEscape)
  {
    assert SimpleEscape('u') == None;
  }

  /** Eager mode: the text ends among at most six digits. */
  lemma {:induction false} ScanHexRunsOut(ds: seq<char>, idx: nat, cp: nat)
    requires idx + |ds| <= 6
    requires forall i | 0 <= i < |ds| :: IsAsciiHex(ds[i])
    ensures ScanHex(ds, idx, cp) == HexEof
    decreases |ds|
  {
    if ds != [] {
      ScanHexRunsOut(ds[1..], idx + 1, cp * 16 + AsciiHexValue(ds[0]));
    }
  }

  /** Lazy mode: the text ends among at most six digits. */
  lemma {:induction false} LazyHexRunsOut(ds: seq<char>, idx: nat, cp: nat)
    requires idx + |ds| <= 6
    requires forall i | 0 <= i < |ds| :: IsAsciiHex(ds[i])
    ensures LazyHex(ds, idx, cp).step == End
    decreases |ds|
  {
    if ds == [] {
      assert LazyNext(ds) == Lazy(End, []);
    } else {
      assert LazyNext(ds) == Lazy(Item(ds[0]), ds[1..]);
      LazyHexRunsOut(ds[1..], idx + 1, cp * 16 + AsciiHexValue(ds[0]));
    }
  }

  /**
   * A `\u{` escape the text ends inside, after at most six digits: an
   * unexpected end of input in eager mode, the end of iteration in lazy mode.
   */
  lemma UnclosedUnicodeEscape(ds: seq<char>)
    requires |ds| <= 6
    requires forall i | 0 <= i < |ds| :: IsAsciiHex(ds[i])
    ensures Unescaped("\\u{" + ds) == Err(UnexpectedEOF)
    ensures LazyNext("\\u{" + ds).step == End
  {
    var s := "\\u{" + ds;
    assert s[0] == '\\' && s[1] == 'u' && s[2] == '{';
    assert s[3..] == ds;
    ScanHexRunsOut(ds, 0, 0);
    UnescapedAtBadUnicode(s);
    assert s[2..] == ['{'] + ds;
    assert LazyNext(s[2..]) == Lazy(Item('{'), ds);
    LazyHexRunsOut(ds, 0, 0);
  }

  /** Eager mode: a character that is neither a digit nor `}` stops the digits. */
  lemma {:induction false} ScanHexBadChar(ds: seq<char>, c: char, rest: seq<char>, idx: nat, cp: nat)
    requires idx + |ds| <= 6
    requires forall i | 0 <= i < |ds| :: IsAsciiHex(ds[i])
    requires HexDigit(LowByte(c)).None? && LowByte(c) != CloseBraceByte
    ensures ScanHex(ds + [c] + rest, idx, cp) == HexBadChar
    decreases |ds|
  {
    var t := ds + [c] + rest;
    if ds == [] {
      assert t[0] == c;
    } else {
      assert t[0] == ds[0] && t[1..] == ds[1..] + [c] + rest;
      ScanHexBadChar(ds[1..], c, rest, idx + 1, cp * 16 + AsciiHexValue(ds[0]));
    }
  }

  /** Lazy mode: the same character makes the iterator panic. */
  lemma {:induction false} LazyHexBadChar(ds: seq<char>, c: char, rest: seq<char>, idx: nat, cp: nat)
    requires idx + |ds| <= 6
    requires forall i | 0 <= i < |ds| :: IsAsciiHex(ds[i])
    requires HexDigit(LowByte(c)).None? && LowByte(c) != CloseBraceByte && c != '\\'
    ensures LazyHex(ds + [c] + rest, idx, cp).step == Abort
    decreases |ds|
  {
    var t := ds + [c] + rest;
    if ds == [] {
      assert t[0] == c && t[1..] == rest;
      assert LazyNext(t) == Lazy(Item(c), rest);
    } else {
      assert t[0] == ds[0] && t[1..] == ds[1..] + [c] + rest;
      assert LazyNext(t) == Lazy(Item(ds[0]), t[1..]);
      LazyHexBadChar(ds[1..], c, rest, idx + 1, cp * 16 + AsciiHexValue(ds[0]));
    }
  }

  /**
   * Among the digits of a `\u{` escape, a character whose low byte is neither a
   * hex digit nor `}` is a bad escape in eager mode and, unless it is a
   * backslash that starts an escape of its own, a panic in lazy mode.
   */
  lemma BadHexCharRefused(ds: seq<char>, c: char, rest: seq<char>)
    requires |ds| <= 6
    requires forall i | 0 <= i < |ds| :: IsAsciiHex(ds[i])
    requires HexDigit(LowByte(c)).None? && LowByte(c) != CloseBraceByte
    ensures Unescaped("\\u{" + ds + [c] + rest) == Err(BadUnicodeEscape)
    ensures c != '\\' ==> LazyNext("\\u{" + ds + [c] + rest).step == Abort
  {
    var s := "\\u{" + ds + [c] + rest;
    assert s[0] == '\\' && s[1] == 'u' && s[2] == '{';
    assert s[3..] == ds + [c] + rest;
    ScanHexBadChar(ds, c, rest, 0, 0);
    UnescapedAtBadUnicode(s);
    if c != '\\' {
      assert s[2..] == ['{'] + s[3..];
      assert LazyNext(s[2..]) == Lazy(Item('{'), s[3..]);
      LazyHexBadChar(ds, c, rest, 0, 0);
    }
  }

  /**
   * A closed `\u{...}` escape whose digits are not a Unicode scalar value (a
   * surrogate, or above U+10FFFF) is a bad escape in eager mode; the lazy mode
   * ends the iteration there.
   */
  lemma NonScalarRefused(ds: seq<char>, rest: seq<char>)
    requires |ds| <= 6
    requires forall i | 0 <= i < |ds| :: IsAsciiHex(ds[i])
    requires !IsScalar(HexValue(ds, 0))
    ensures Unescaped("\\u{" + ds + "}" + rest) == Err(BadUnicodeEscape)
    ensures LazyNext("\\u{" + ds + "}" + rest) == Lazy(End, rest)
  {
    var s := "\\u{" + ds + "}" + rest;
    assert s[0] == '\\' && s[1] == 'u' && s[2] == '{';
    assert s[3..] == ds + ['}'] + rest;
    ScanHexReadsDigits(ds, rest, 0, 0);
    UnescapedAtBadUnicode(s);
    assert s[2..] == ['{'] + (ds + ['}'] + rest);
    assert LazyNext(s[2..]) == Lazy(Item('{'), ds + ['}'] + rest);
    LazyHexReadsDigits(ds, rest, 0, 0);
  }

  /** How a writer escapes one character for a quoted KDL string. */
  function EscapeChar(c: char): seq<char> {
    match c
    case '\\' => "\\\\"
    case '"' => "\\\""
    case '\n' => "\\n"
    case '\r' => "\\r"
    case '\t' => "\\t"
    case _ => [c]
  }

  function Escape(s: seq<char>): seq<char>
    decreases |s|
  {
    if s == [] then [] else EscapeChar(s[0]) + Escape(s[1..])
  }

  lemma UnescapeEscapedChar(c: char, rest: seq<char>)
    ensures Unescaped(EscapeChar(c) + rest) == Prepend([c], Unescaped(rest))
  {
    var t := EscapeChar(c) + rest;
    if |EscapeChar(c)| == 1 {
      assert t[0] == c && t[1..] == rest;
    } else {
      assert t[0] == '\\' && t[2..] == rest;
    }
  }

  /** Unescaping undoes escaping. */
  lemma {:induction false} UnescapeInvertsEscape(s: seq<char>)
    ensures Unescaped(Escape(s)) == Ok(s)
    decreases |s|
  {
    if s != [] {
      UnescapeInvertsEscape(s[1..]);
      UnescapeEscapedChar(s[0], Escape(s[1..]));
      assert [s[0]] + s[1..] == s;
    }
  }

  /** The lazy mode undoes escaping as well. */
  lemma LazyInvertsEscape(s: seq<char>)
    ensures Collect(false, Escape(s)) == Collected(s)
  {
    UnescapeInvertsEscape(s);
    LazyAgreesWithEager(Escape(s));
  }

  /** What the assembler calls on a node name: only escaped names are unescaped. */
  function UnescapeName(k: KdlString): (r: ParseResult<seq<char>>)
    ensures k.Escapeless? ==> r == Ok(k.text)
    ensures r.Ok? ==> |r.value| <= |k.text|
  {
    match k
    case Escapeless(s) => Ok(s)
    case Escaped(s) => UnescapedNoLonger(s); Unescaped(s)
  }

  /** Text without a backslash is its own unescaping, in both modes. */
  lemma {:induction false} BackslashFreeUnchanged(s: seq<char>)
    requires forall i | 0 <= i < |s| :: s[i] != '\\'
    ensures Unescaped(s) == Ok(s)
    ensures Collect(false, s) == Collected(s)
    decreases |s|
  {
    if s != [] {
      BackslashFreeUnchanged(s[1..]);
      assert [s[0]] + s[1..] == s;
      LazyAgreesWithEager(s);
    }
  }

  /**
   * A name spelled with a `\u{...}` escape and the escape-free spelling of the
   * same text unescape alike.
   */
  lemma EscapedSpellingAgrees(ds: seq<char>, rest: seq<char>)
    requires |ds| <= 6
    requires forall i | 0 <= i < |ds| :: IsAsciiHex(ds[i])
    requires IsScalar(HexValue(ds, 0))
    requires forall i | 0 <= i < |rest| :: rest[i] != '\\'
    ensures UnescapeName(Escaped("\\u{" + ds + "}" + rest)) == UnescapeName(Escapeless([HexValue(ds, 0) as char] + rest))
  {
    UnicodeEscapeDecodes(ds, rest);
    BackslashFreeUnchanged(rest);
  }
}
