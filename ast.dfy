/**
 * The older parser revision (src/ast.rs), kept as a variant of its own. It has
 * its own types: three errors, plain string slices for names and keys, and a
 * single close-event kind. Names must be identifiers, and every identifier
 * inside a node must start a `key=value` property.
 */
module Ast {
  import opened Wrappers
  import Lex
  import BoundedDeque

  /** The token kinds this revision matches on; `Other` stands for every kind it does not. */
  datatype Token =
    | BlockOpen
    | BlockClose
    | Backslash
    | Newline
    | Semicolon
    | Equals
    | True
    | False
    | Null
    | Integer(value: Lex.I64)
    | String(text: seq<char>)
    | Float(float: Lex.Float64)
    | Identifier(text: seq<char>)
    | Other

  datatype ParseError = IncompleteProperty | MismatchedNodeClosing | NotANode

  type ParseResult<T> = Result<T, ParseError>

  datatype KdlValue =
    | String(str: seq<char>)
    | Integer(integer: Lex.I64)
    | Float(float: Lex.Float64)
    | Bool(boolean: bool)
    | Null

  datatype KdlProperty = KdlProperty(key: seq<char>, value: KdlValue)

  datatype KdlEvent =
    | NodeOpen(name: seq<char>, attrs: seq<KdlProperty>, values: seq<KdlValue>, hasChildren: bool)
    | NodeClose(name: seq<char>)

  const StackCapacity: nat := BoundedDeque.Capacity

  predicate IsValueToken(t: Token) {
    t.Integer? || t.String? || t.Float? || t.True? || t.False? || t.Null?
  }

  function TokenToValue(t: Token): (v: KdlValue)
    requires IsValueToken(t)
    ensures ValueToken(v) == t
  {
    match t
    case Integer(i) => KdlValue.Integer(i)
    case String(s) => KdlValue.String(s)
    case Float(f) => KdlValue.Float(f)
    case True => Bool(true)
    case False => Bool(false)
    case Null => KdlValue.Null
  }

  /** The token a value is written as. */
  function ValueToken(v: KdlValue): Token {
    match v
    case String(s) => Token.String(s)
    case Integer(i) => Token.Integer(i)
    case Float(f) => Token.Float(f)
    case Bool(b) => if b then True else False
    case Null => Token.Null
  }

  /** `token_to_value` is a bijection between value tokens and values. */
  lemma TokenValueBijection(t: Token, v: KdlValue)
    ensures IsValueToken(t) ==> ValueToken(TokenToValue(t)) == t
    ensures IsValueToken(ValueToken(v)) && TokenToValue(ValueToken(v)) == v
  {
  }

  function SkipNewline(ts: seq<Token>): (r: seq<Token>)
    ensures ts != [] && ts[0].Newline? ==> r == ts[1..]
    ensures !(ts != [] && ts[0].Newline?) ==> r == ts
  {
    if ts != [] && ts[0].Newline? then ts[1..] else ts
  }

  datatype PropertyScan = PropertyScan(result: ParseResult<KdlProperty>, rest: seq<Token>)

  /** `property`: an `=` and then a value token must follow the key. */
  function PropertyStep(key: seq<char>, ts: seq<Token>): (r: PropertyScan)
    ensures r.result.Ok? <==> |ts| >= 2 && ts[0].Equals? && IsValueToken(ts[1])
    ensures r.result.Ok? ==> r.result.value == KdlProperty(key, TokenToValue(ts[1])) && r.rest == ts[2..]
    ensures r.result.Err? ==> r.result.error == IncompleteProperty
    ensures r.result.Err? ==> if ts != [] && ts[0].Equals? then r.rest == ts[1..] else r.rest == ts
  {
    if ts == [] || !ts[0].Equals? then PropertyScan(Err(IncompleteProperty), ts)
    else
      var after := ts[1..];
      if after != [] && IsValueToken(after[0]) then
        PropertyScan(Ok(KdlProperty(key, TokenToValue(after[0]))), after[1..])
      else
        PropertyScan(Err(IncompleteProperty), after)
  }

  /** What a call of `property` as written does: return, or panic. */
  datatype PropertyOutcome = Returns(scan: PropertyScan) | Panics

  /**
   * `property` as written: a missing `=` is refused before anything is
   * consumed, but the `KdlValues` name falls into the binding-pattern arm of
   * `next_if!`, so any token after `=` is consumed and `token_to_value!` panics
   * on one that is not a value.
   */
  function PropertyAsWritten(key: seq<char>, ts: seq<Token>): (r: PropertyOutcome)
    ensures r.Panics? <==> |ts| >= 2 && ts[0].Equals? && !IsValueToken(ts[1])
    ensures r.Returns? && r.scan.result.Err? ==> |ts| <= 1 || !ts[0].Equals?
  {
    if ts == [] || !ts[0].Equals? then Returns(PropertyScan(Err(IncompleteProperty), ts))
    else
      var after := ts[1..];
      if after == [] then Returns(PropertyScan(Err(IncompleteProperty), []))
      else if IsValueToken(after[0]) then Returns(PropertyScan(Ok(KdlProperty(key, TokenToValue(after[0]))), after[1..]))
      else Panics
  }

  /** A token that makes `node_open` give up with `NotANode`. */
  predicate IsStray(t: Token) {
    !(t.BlockOpen? || t.Backslash? || t.Newline? || t.Semicolon? || IsValueToken(t) || t.Identifier?)
  }

  datatype Body = Body(attrs: seq<KdlProperty>, values: seq<KdlValue>, hasChildren: bool)

  datatype BodyScan = BodyScan(result: ParseResult<Body>, rest: seq<Token>)

  /** The loop of `node_open` after the name. */
  function ScanBody(ts: seq<Token>, attrs: seq<KdlProperty>, values: seq<KdlValue>): (r: BodyScan)
    ensures |r.rest| <= |ts|
    ensures r.result.Ok? ==> attrs <= r.result.value.attrs && values <= r.result.value.values
    ensures r.result.Ok? && !r.result.value.hasChildren ==>
              r.rest == [] || r.rest[0].Newline? || r.rest[0].Semicolon?
    decreases |ts|
  {
    if ts == [] then BodyScan(Ok(Body(attrs, values, false)), [])
    else
      var t := ts[0];
      if t.BlockOpen? then BodyScan(Ok(Body(attrs, values, true)), SkipNewline(ts[1..]))
      else if t.Backslash? then ScanBody(SkipNewline(ts[1..]), attrs, values)
      else if t.Newline? || t.Semicolon? then BodyScan(Ok(Body(attrs, values, false)), ts)
      else if IsValueToken(t) then ScanBody(ts[1..], attrs, values + [TokenToValue(t)])
      else if t.Identifier? then
        var p := PropertyStep(t.text, ts[1..]);
        match p.result
        case Err(e) => BodyScan(Err(e), p.rest)
        case Ok(prop) => ScanBody(p.rest, attrs + [prop], values)
      else BodyScan(Err(NotANode), ts)
  }

  datatype ParserState = ParserState(tokens: seq<Token>, nodesToClose: seq<seq<char>>, bracketed: seq<seq<char>>)

  function Depth(s: ParserState): nat {
    |s.nodesToClose| + |s.bracketed|
  }

  datatype Opened = Opened(result: ParseResult<KdlEvent>, next: ParserState)

  /** `node_open`: the name must be an identifier. */
  function NodeOpenStep(s: ParserState): (r: Opened)
    ensures |r.next.tokens| <= |s.tokens|
  {
    if s.tokens == [] || !s.tokens[0].Identifier? then Opened(Err(NotANode), s)
    else
      var name := s.tokens[0].text;
      var b := ScanBody(s.tokens[1..], [], []);
      match b.result
      case Err(e) => Opened(Err(e), s.(tokens := b.rest))
      case Ok(body) =>
        var ev := NodeOpen(name, body.attrs, body.values, body.hasChildren);
        if body.hasChildren then Opened(Ok(ev), ParserState(b.rest, s.nodesToClose, BoundedDeque.PushBack(s.bracketed, name)))
        else Opened(Ok(ev), ParserState(b.rest, BoundedDeque.PushBack(s.nodesToClose, name), s.bracketed))
  }

  datatype Transition = Transition(item: Option<ParseResult<KdlEvent>>, next: ParserState)

  /** `Iterator::next`: `}` and `;` both close with the same event kind. */
  function NextStep(s: ParserState): (r: Transition)
    ensures |r.next.tokens| <= |s.tokens|
    decreases |s.tokens|
  {
    if s.tokens == [] then
      if s.nodesToClose == [] then Transition(None, s)
      else
        var n := s.nodesToClose;
        Transition(Some(Ok(NodeClose(n[|n| - 1]))), s.(nodesToClose := n[..|n| - 1]))
    else
      var t := s.tokens[0];
      var rest := s.tokens[1..];
      if t.BlockClose? then
        if s.bracketed == [] then Transition(Some(Err(MismatchedNodeClosing)), s.(tokens := rest))
        else
          var b := s.bracketed;
          Transition(Some(Ok(NodeClose(b[|b| - 1]))), s.(tokens := rest, bracketed := b[..|b| - 1]))
      else if t.Semicolon? || t.Newline? then
        if s.nodesToClose == [] then
          if t.Semicolon? then Transition(Some(Err(MismatchedNodeClosing)), s.(tokens := rest))
          else NextStep(s.(tokens := rest))
        else
          var n := s.nodesToClose;
          Transition(Some(Ok(NodeClose(n[|n| - 1]))), s.(tokens := rest, nodesToClose := n[..|n| - 1]))
      else
        var o := NodeOpenStep(s);
        Transition(Some(o.result), o.next)
  }

  class Parser {
    var tokens: seq<Token>
    var nodesToClose: seq<seq<char>>
    var bracketed: seq<seq<char>>

    predicate Valid()
      reads this
    {
      |nodesToClose| <= StackCapacity && |bracketed| <= StackCapacity
    }

    function State(): ParserState
      reads this
    {
      ParserState(tokens, nodesToClose, bracketed)
    }

    /** `Parser::new`. */
    constructor(ts: seq<Token>)
      ensures Valid()
      ensures State() == ParserState(ts, [], [])
    {
      tokens := ts;
      nodesToClose := [];
      bracketed := [];
    }

    /** `property`. */
    method Property(key: seq<char>) returns (r: ParseResult<KdlProperty>)
      modifies this
      ensures PropertyScan(r, tokens) == PropertyStep(key, old(tokens))
      ensures nodesToClose == old(nodesToClose) && bracketed == old(bracketed)
    {
      if tokens == [] || !tokens[0].Equals? {
        return Err(IncompleteProperty);
      }
      tokens := tokens[1..];
      if tokens == [] || !IsValueToken(tokens[0]) {
        return Err(IncompleteProperty);
      }
      var value := tokens[0];
      tokens := tokens[1..];
      r := Ok(KdlProperty(key, TokenToValue(value)));
    }

    /** `node_open`. */
    method NodeOpen() returns (r: ParseResult<KdlEvent>)
      requires Valid()
      modifies this
      ensures Valid()
      ensures Opened(r, State()) == NodeOpenStep(old(State()))
    {
      if tokens == [] || !tokens[0].Identifier? {
        return Err(NotANode);
      }
      var name := tokens[0].text;
      tokens := tokens[1..];
      ghost var body := tokens;
      var attrs: seq<KdlProperty> := [];
      var values: seq<KdlValue> := [];
      var hasChildren := false;
      while tokens != []
        invariant nodesToClose == old(nodesToClose) && bracketed == old(bracketed)
        invariant !hasChildren
        invariant ScanBody(body, [], []) == ScanBody(tokens, attrs, values)
        decreases |tokens|
      {
        var t := tokens[0];
        if t.BlockOpen? {
          tokens := SkipNewline(tokens[1..]);
          hasChildren := true;
          break;
        } else if t.Backslash? {
          tokens := tokens[1..];
          if tokens != [] && tokens[0].Newline? {
            tokens := tokens[1..];
          }
        } else if t.Newline? || t.Semicolon? {
          break;
        } else if IsValueToken(t) {
          tokens := tokens[1..];
          values := values + [TokenToValue(t)];
        } else if t.Identifier? {
          tokens := tokens[1..];
          var p := Property(t.text);
          if p.Err? {
            return Err(p.error);
          }
          attrs := attrs + [p.value];
        } else {
          return Err(NotANode);
        }
      }
      if !hasChildren {
        if |nodesToClose| < StackCapacity {
          nodesToClose := nodesToClose + [name];
        }
      } else {
        if |bracketed| < StackCapacity {
          bracketed := bracketed + [name];
        }
      }
      r := Ok(KdlEvent.NodeOpen(name, attrs, values, hasChildren));
    }

    /** `Iterator::next`. */
    method Next() returns (r: Option<ParseResult<KdlEvent>>)
      requires Valid()
      modifies this
      ensures Valid()
      ensures Transition(r, State()) == NextStep(old(State()))
    {
      while tokens != []
        invariant NextStep(old(State())) == NextStep(State())
        invariant nodesToClose == old(nodesToClose) && bracketed == old(bracketed)
        decreases |tokens|
      {
        var t := tokens[0];
        if t.BlockClose? {
          tokens := tokens[1..];
          if bracketed == [] {
            return Some(Err(MismatchedNodeClosing));
          }
          var toClose := bracketed[|bracketed| - 1];
          bracketed := bracketed[..|bracketed| - 1];
          return Some(Ok(NodeClose(toClose)));
        } else if t.Semicolon? {
          tokens := tokens[1..];
          if nodesToClose == [] {
            return Some(Err(MismatchedNodeClosing));
          }
          var toClose := nodesToClose[|nodesToClose| - 1];
          nodesToClose := nodesToClose[..|nodesToClose| - 1];
          return Some(Ok(NodeClose(toClose)));
        } else if t.Newline? {
          tokens := tokens[1..];
          if nodesToClose != [] {
            var toClose := nodesToClose[|nodesToClose| - 1];
            nodesToClose := nodesToClose[..|nodesToClose| - 1];
            return Some(Ok(NodeClose(toClose)));
          }
        } else {
          var e := NodeOpen();
          return Some(e);
        }
      }
      if nodesToClose == [] {
        return None;
      }
      var toClose := nodesToClose[|nodesToClose| - 1];
      nodesToClose := nodesToClose[..|nodesToClose| - 1];
      r := Some(Ok(NodeClose(toClose)));
    }
  }

  // ---------------------------------------------------------------------
  // Properties
  // ---------------------------------------------------------------------

  predicate StartsNode(s: ParserState) {
    s.tokens != [] && !(s.tokens[0].BlockClose? || s.tokens[0].Semicolon? || s.tokens[0].Newline?)
  }

  /** Only an identifier can name a node; anything else is refused and left unconsumed. */
  lemma NameMustBeIdentifier(s: ParserState)
    requires StartsNode(s)
    ensures !s.tokens[0].Identifier? ==> NextStep(s) == Transition(Some(Err(NotANode)), s)
    ensures s.tokens[0].Identifier? && NextStep(s).item.value.Ok? ==>
              NextStep(s).item.value.value.name == s.tokens[0].text
  {
  }

  /**
   * Every identifier inside a node starts a property: without `=` and a value
   * token after it, the node is an incomplete property.
   */
  lemma IdentifierStartsProperty(x: seq<char>, ts: seq<Token>, attrs: seq<KdlProperty>, values: seq<KdlValue>)
    ensures var r := ScanBody([Identifier(x)] + ts, attrs, values);
            if |ts| >= 2 && ts[0].Equals? && IsValueToken(ts[1])
            then r == ScanBody(ts[2..], attrs + [KdlProperty(x, TokenToValue(ts[1]))], values)
            else r.result == Err(IncompleteProperty)
  {
    assert ([Identifier(x)] + ts)[1..] == ts;
  }

  /**
   * `property` as written panics where the intended definition reports an
   * incomplete property: `=` followed by a token that is not a value. Everywhere
   * else the two agree.
   */
  lemma PropertyPanicsAsWritten(key: seq<char>, ts: seq<Token>)
    ensures |ts| >= 2 && ts[0].Equals? && !IsValueToken(ts[1]) ==>
              PropertyAsWritten(key, ts) == Panics
              && PropertyStep(key, ts) == PropertyScan(Err(IncompleteProperty), ts[1..])
    ensures !(|ts| >= 2 && ts[0].Equals? && !IsValueToken(ts[1])) ==>
              PropertyAsWritten(key, ts) == Returns(PropertyStep(key, ts))
  {
  }

  /**
   * A token outside the node grammar after the name refuses the node: the name
   * is consumed, the stray token is not, and neither stack changes.
   */
  lemma StrayTokenRefused(x: seq<char>, t: Token, ts: seq<Token>, nodes: seq<seq<char>>, bracketed: seq<seq<char>>)
    requires IsStray(t)
    ensures ScanBody([t] + ts, [], []) == BodyScan(Err(NotANode), [t] + ts)
    ensures NextStep(ParserState([Identifier(x), t] + ts, nodes, bracketed))
            == Transition(Some(Err(NotANode)), ParserState([t] + ts, nodes, bracketed))
  {
    assert ([Identifier(x), t] + ts)[1..] == [t] + ts;
  }

  /** Value tokens become positional values in source order. */
  lemma {:induction false} ValuesInSourceOrder(ts: seq<Token>, attrs: seq<KdlProperty>, values: seq<KdlValue>)
    requires forall i | 0 <= i < |ts| :: IsValueToken(ts[i])
    ensures ScanBody(ts, attrs, values)
            == BodyScan(Ok(Body(attrs, values + seq(|ts|, i requires 0 <= i < |ts| => TokenToValue(ts[i])), false)), [])
    decreases |ts|
  {
    var vs := seq(|ts|, i requires 0 <= i < |ts| => TokenToValue(ts[i]));
    if ts == [] {
      assert values + vs == values;
    } else {
      var v := TokenToValue(ts[0]);
      ValuesInSourceOrder(ts[1..], attrs, values + [v]);
      var vs' := seq(|ts[1..]|, i requires 0 <= i < |ts[1..]| => TokenToValue(ts[1..][i]));
      assert values + [v] + vs' == values + vs;
    }
  }

  /** `}` pops the bracketed stack and `;` the terminator stack, and both emit the same `NodeClose` kind. */
  lemma CloseTokensStep(s: ParserState)
    requires s.tokens != [] && (s.tokens[0].BlockClose? || s.tokens[0].Semicolon?)
    ensures var stack := if s.tokens[0].BlockClose? then s.bracketed else s.nodesToClose;
            var t := NextStep(s);
            t.next.tokens == s.tokens[1..]
            && (stack == [] ==> t == Transition(Some(Err(MismatchedNodeClosing)), s.(tokens := s.tokens[1..])))
            && (stack != [] ==> (t.item == Some(Ok(NodeClose(stack[|stack| - 1]))) && Depth(t.next) + 1 == Depth(s)))
  {
  }

  /** A newline with no terminated node open is skipped. */
  lemma NewlineSkipped(s: ParserState)
    requires s.tokens != [] && s.tokens[0].Newline? && s.nodesToClose == []
    ensures NextStep(s) == NextStep(s.(tokens := s.tokens[1..]))
  {
  }

  /** The name goes onto the bracketed stack iff `{` was seen. */
  lemma OpenPushesOneStack(s: ParserState)
    requires StartsNode(s)
    requires NextStep(s).item.Some? && NextStep(s).item.value.Ok?
    ensures var e := NextStep(s).item.value.value;
            var n := NextStep(s).next;
            e.NodeOpen?
            && (e.hasChildren ==> n.bracketed == BoundedDeque.PushBack(s.bracketed, e.name) && n.nodesToClose == s.nodesToClose)
            && (!e.hasChildren ==> n.nodesToClose == BoundedDeque.PushBack(s.nodesToClose, e.name) && n.bracketed == s.bracketed)
  {
  }

  /**
   * At the end of input: one `NodeClose` per call, innermost first, then the
   * end; bracketed names stay.
   */
  lemma EndDrains(s: ParserState)
    requires s.tokens == []
    ensures NextStep(s).item.None? <==> s.nodesToClose == []
    ensures s.nodesToClose != [] ==>
              NextStep(s).item == Some(Ok(NodeClose(s.nodesToClose[|s.nodesToClose| - 1])))
              && NextStep(s).next == ParserState([], s.nodesToClose[..|s.nodesToClose| - 1], s.bracketed)
  {
  }

  /** The tokens of `foo key=1 2 {` and `}`. */
  const OlderRevisionTokens: seq<Token> :=
    [Identifier("foo"), Identifier("key"), Equals, Token.Integer(1), Token.Integer(2), BlockOpen, BlockClose]

  /** `foo key=1 2` then `}`: the `}` closes the bracketed node with the plain close event. */
  lemma OlderRevisionExample()
    ensures var t1 := NextStep(ParserState(OlderRevisionTokens, [], []));
            t1.item == Some(Ok(NodeOpen("foo", [KdlProperty("key", KdlValue.Integer(1))], [KdlValue.Integer(2)], true)))
            && NextStep(t1.next).item == Some(Ok(NodeClose("foo")))
  {
    OlderRevisionBody();
    var s1 := ParserState([BlockClose], [], ["foo"]);
    assert NextStep(ParserState(OlderRevisionTokens, [], [])).next == s1;
  }

  /** The body of the node in `OlderRevisionTokens`: one property, one value, then a child block. */
  lemma OlderRevisionBody()
    ensures ScanBody(OlderRevisionTokens[1..], [], [])
            == BodyScan(Ok(Body([KdlProperty("key", KdlValue.Integer(1))], [KdlValue.Integer(2)], true)), [BlockClose])
  {
    var ts := OlderRevisionTokens;
    var attrs := [KdlProperty("key", KdlValue.Integer(1))];
    IdentifierStartsProperty("key", ts[2..], [], []);
    assert ts[1..] == [Identifier("key")] + ts[2..];
    assert ts[2..][2..] == ts[4..];
    assert [] + attrs == attrs;
    assert ts[4..] == [Token.Integer(2), BlockOpen, BlockClose];
    assert [] + [KdlValue.Integer(2)] == [KdlValue.Integer(2)];
    assert ScanBody(ts[4..], attrs, []) == ScanBody([BlockOpen, BlockClose], attrs, [KdlValue.Integer(2)]);
  }
}
