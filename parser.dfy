/**
 * The streaming event parser (src/parser.rs): a pull-based state machine over
 * a peekable token cursor and two bounded LIFO stacks of names waiting to be
 * closed, one for nodes ended by `;`, a newline or the end of input, one for
 * nodes ended by the `}` of their child block. Each call of `Next` yields one
 * event, one error, or the end of the sequence.
 *
 * The pure functions below (`ScanBody`, `NodeOpenStep`, `NextStep`, `Run`)
 * state what one call does; class `Parser` performs it step by step and is
 * proved to agree with them.
 */
module EventParser {
  import opened Wrappers
  import opened Kdl
  import Lex
  import BoundedDeque

  type Token = Lex.Token

  /** The capacity of each close-stack (`heapless::Deque<_, 256>`). */
  const StackCapacity: nat := BoundedDeque.Capacity

  // ---------------------------------------------------------------------
  // Token classes and their meaning
  // ---------------------------------------------------------------------

  /** The tokens the `KdlValues` pattern accepts. */
  predicate IsValueToken(t: Token) {
    t.Integer? || t.StringWithEscapes? || t.StringWithNoEscapes? || t.Float? || t.True? || t.False? || t.Null?
  }

  /** The `token_to_value` mapping, defined on value tokens only. */
  function TokenToValue(t: Token): (v: KdlValue)
    requires IsValueToken(t)
    ensures ValueToken(v) == t
  {
    match t
    case Integer(i) => KdlValue.Integer(i)
    case StringWithEscapes(s) => KdlValue.String(Escaped(s))
    case StringWithNoEscapes(s) => KdlValue.String(Escapeless(s))
    case Float(f) => KdlValue.Float(f)
    case True => Bool(true)
    case False => Bool(false)
    case Null => KdlValue.Null
  }

  /** The token a value is written as: the inverse of `TokenToValue`. */
  function ValueToken(v: KdlValue): Token {
    match v
    case String(Escaped(s)) => Lex.StringWithEscapes(s)
    case String(Escapeless(s)) => Lex.StringWithNoEscapes(s)
    case Integer(i) => Lex.Integer(i)
    case Float(f) => Lex.Float(f)
    case Bool(b) => if b then Lex.True else Lex.False
    case Null => Lex.Null
  }

  /** `token_to_value` is a bijection between value tokens and values. */
  lemma TokenValueBijection(t: Token, v: KdlValue)
    ensures IsValueToken(t) ==> ValueToken(TokenToValue(t)) == t
    ensures IsValueToken(ValueToken(v)) && TokenToValue(ValueToken(v)) == v
  {
  }

  /** The tokens the `IdentOrStr` pattern accepts as a name. */
  predicate IsNameToken(t: Token) {
    t.Identifier? || t.StringWithEscapes? || t.StringWithNoEscapes?
  }

  /** `IdentOrStr`: identifiers and escape-free strings need no unescaping. */
  function NameOf(t: Token): (k: KdlString)
    requires IsNameToken(t)
    ensures k.text == t.text
    ensures k.Escaped? <==> t.StringWithEscapes?
  {
    if t.StringWithEscapes? then Escaped(t.text) else Escapeless(t.text)
  }

  /** A token that makes `node_open` give up with `NotANode`. */
  predicate IsStray(t: Token) {
    !(t.BlockOpen? || t.Backslash? || t.Newline? || t.Semicolon? || IsNameToken(t) || IsValueToken(t))
  }

  /** `next_if!(Token::Newline)`: drop one newline if there is one. */
  function SkipNewline(ts: seq<Token>): (r: seq<Token>)
    ensures ts != [] && ts[0].Newline? ==> r == ts[1..]
    ensures !(ts != [] && ts[0].Newline?) ==> r == ts
  {
    if ts != [] && ts[0].Newline? then ts[1..] else ts
  }

  // ---------------------------------------------------------------------
  // What one call does, as functions
  // ---------------------------------------------------------------------

  /** A result together with the tokens left afterwards. */
  datatype PropertyScan = PropertyScan(result: ParseResult<KdlProperty>, rest: seq<Token>)

  /** `property`: the cursor is on `=`; a value token must follow. */
  function PropertyStep(key: KdlString, ts: seq<Token>): (r: PropertyScan)
    requires ts != [] && ts[0].Equals?
    ensures r.result.Ok? <==> |ts| >= 2 && IsValueToken(ts[1])
    ensures r.result.Ok? ==> r.result.value == KdlProperty(key, TokenToValue(ts[1])) && r.rest == ts[2..]
    ensures r.result.Err? ==> r.result.error == IncompleteProperty && r.rest == ts[1..]
  {
    var after := ts[1..];
    if after != [] && IsValueToken(after[0]) then
      PropertyScan(Ok(KdlProperty(key, TokenToValue(after[0]))), after[1..])
    else
      PropertyScan(Err(IncompleteProperty), after)
  }

  /** What a call of `property` as written does: return, or panic. */
  datatype PropertyOutcome = Returns(scan: PropertyScan) | Panics

  /**
   * `property` as written. The first arm of `next_if!` takes the name
   * `KdlValues` as a binding pattern that matches any token, so whatever token
   * follows `=` is consumed, and `token_to_value!` then panics on one that is
   * not a value. Only a missing token gives `IncompleteProperty`.
   */
  function PropertyAsWritten(key: KdlString, ts: seq<Token>): (r: PropertyOutcome)
    requires ts != [] && ts[0].Equals?
    ensures r.Panics? <==> |ts| >= 2 && !IsValueToken(ts[1])
    ensures r == Returns(PropertyScan(Err(IncompleteProperty), [])) <==> |ts| == 1
  {
    var after := ts[1..];
    if after == [] then Returns(PropertyScan(Err(IncompleteProperty), []))
    else if IsValueToken(after[0]) then Returns(PropertyScan(Ok(KdlProperty(key, TokenToValue(after[0]))), after[1..]))
    else Panics
  }

  /** What the loop of `node_open` gathers after the name. */
  datatype Body = Body(attrs: seq<KdlProperty>, values: seq<KdlValue>, hasChildren: bool)

  datatype BodyScan = BodyScan(result: ParseResult<Body>, rest: seq<Token>)

  /**
   * The loop of `node_open`, from cursor `ts`, having gathered `attrs` and
   * `values` so far.
   */
  function ScanBody(ts: seq<Token>, attrs: seq<KdlProperty>, values: seq<KdlValue>): (r: BodyScan)
    ensures |r.rest| <= |ts|
    ensures r.result.Ok? ==> attrs <= r.result.value.attrs && values <= r.result.value.values
    ensures r.result.Ok? && !r.result.value.hasChildren ==>
              r.rest == [] || r.rest[0].Newline? || r.rest[0].Semicolon?
    ensures r.result.Err? ==> r.result.error == IncompleteProperty || r.result.error == NotANode
    ensures r.result == Err(NotANode) ==> r.rest != [] && IsStray(r.rest[0])
    decreases |ts|
  {
    if ts == [] then BodyScan(Ok(Body(attrs, values, false)), [])
    else
      var t := ts[0];
      if t.BlockOpen? then BodyScan(Ok(Body(attrs, values, true)), SkipNewline(ts[1..]))
      else if t.Backslash? then ScanBody(SkipNewline(ts[1..]), attrs, values)
      else if t.Newline? || t.Semicolon? then BodyScan(Ok(Body(attrs, values, false)), ts)
      else if IsNameToken(t) then
        var ident := NameOf(t);
        var after := ts[1..];
        if after != [] && after[0].Equals? then
          var p := PropertyStep(ident, after);
          match p.result
          case Err(e) => BodyScan(Err(e), p.rest)
          case Ok(prop) => ScanBody(p.rest, attrs + [prop], values)
        else if t.Identifier? then ScanBody(after, attrs, values)
        else ScanBody(after, attrs, values + [KdlValue.String(ident)])
      else if IsValueToken(t) then ScanBody(ts[1..], attrs, values + [TokenToValue(t)])
      else BodyScan(Err(NotANode), ts)
  }

  /** The whole parser state: the token cursor and the two close-stacks. */
  datatype ParserState = ParserState(tokens: seq<Token>, nodesToClose: seq<KdlString>, bracketed: seq<KdlString>)

  /** The number of names waiting to be closed. */
  function Depth(s: ParserState): nat {
    |s.nodesToClose| + |s.bracketed|
  }

  datatype Opened = Opened(result: ParseResult<KdlEvent>, next: ParserState)

  /** `node_open`: read a name, then the body, then push the name onto one stack. */
  function NodeOpenStep(s: ParserState): (r: Opened)
    ensures |r.next.tokens| <= |s.tokens|
  {
    if s.tokens == [] || !IsNameToken(s.tokens[0]) then Opened(Err(NotANode), s)
    else
      var name := NameOf(s.tokens[0]);
      var b := ScanBody(s.tokens[1..], [], []);
      match b.result
      case Err(e) => Opened(Err(e), s.(tokens := b.rest))
      case Ok(body) =>
        var ev := NodeOpen(name, body.attrs, body.values, body.hasChildren);
        if body.hasChildren then Opened(Ok(ev), ParserState(b.rest, s.nodesToClose, BoundedDeque.PushBack(s.bracketed, name)))
        else Opened(Ok(ev), ParserState(b.rest, BoundedDeque.PushBack(s.nodesToClose, name), s.bracketed))
  }

  /** One call of `Iterator::next`: an item (or the end) and the new state. */
  datatype Transition = Transition(item: Option<ParseResult<KdlEvent>>, next: ParserState)

  function Last(stack: seq<KdlString>): KdlString
    requires stack != []
  {
    stack[|stack| - 1]
  }

  function DropLast(stack: seq<KdlString>): seq<KdlString>
    requires stack != []
  {
    stack[..|stack| - 1]
  }

  /** `Iterator::next`. */
  function NextStep(s: ParserState): (r: Transition)
    ensures |r.next.tokens| <= |s.tokens|
    decreases |s.tokens|
  {
    if s.tokens == [] then
      if s.nodesToClose == [] then Transition(None, s)
      else Transition(Some(Ok(NodeClose(Last(s.nodesToClose)))), s.(nodesToClose := DropLast(s.nodesToClose)))
    else
      var t := s.tokens[0];
      var rest := s.tokens[1..];
      if t.BlockClose? then
        if s.bracketed == [] then Transition(Some(Err(MismatchedNodeClosing)), s.(tokens := rest))
        else Transition(Some(Ok(BracketedNodeClose(Last(s.bracketed)))), s.(tokens := rest, bracketed := DropLast(s.bracketed)))
      else if t.Semicolon? then
        if s.nodesToClose == [] then Transition(Some(Err(MismatchedNodeClosing)), s.(tokens := rest))
        else Transition(Some(Ok(NodeClose(Last(s.nodesToClose)))), s.(tokens := rest, nodesToClose := DropLast(s.nodesToClose)))
      else if t.Newline? then
        if s.nodesToClose == [] then NextStep(s.(tokens := rest))
        else Transition(Some(Ok(NodeClose(Last(s.nodesToClose)))), s.(tokens := rest, nodesToClose := DropLast(s.nodesToClose)))
      else
        var o := NodeOpenStep(s);
        Transition(Some(o.result), o.next)
  }

  // ---------------------------------------------------------------------
  // The parser object
  // ---------------------------------------------------------------------

  class Parser {
    var tokens: seq<Token>
    var nodesToClose: seq<KdlString>
    var bracketed: seq<KdlString>

    /** Neither deque ever holds more than its capacity. */
    predicate Valid()
      reads this
    {
      |nodesToClose| <= StackCapacity && |bracketed| <= StackCapacity
    }

    function State(): ParserState
      reads this
    {
      ParserState(tokens, nodesToClose, bracketed)
    }

    /** `Parser::new`: a cursor over `ts` and two empty stacks. */
    constructor(ts: seq<Token>)
      ensures Valid()
      ensures State() == ParserState(ts, [], [])
    {
      tokens := ts;
      nodesToClose := [];
      bracketed := [];
    }

    /** `property`: consume `=` and one value token. */
    method Property(key: KdlString) returns (r: ParseResult<KdlProperty>)
      requires tokens != [] && tokens[0].Equals?
      modifies this
      ensures PropertyScan(r, tokens) == PropertyStep(key, old(tokens))
      ensures nodesToClose == old(nodesToClose) && bracketed == old(bracketed)
    {
      tokens := tokens[1..];
      if tokens == [] || !IsValueToken(tokens[0]) {
        return Err(IncompleteProperty);
      }
      var value := tokens[0];
      tokens := tokens[1..];
      r := Ok(KdlProperty(key, TokenToValue(value)));
    }

    /** `node_open`. */
    method NodeOpen() returns (r: ParseResult<KdlEvent>)
      requires Valid()
      modifies this
      ensures Valid()
      ensures Opened(r, State()) == NodeOpenStep(old(State()))
    {
      if tokens == [] || !IsNameToken(tokens[0]) {
        return Err(NotANode);
      }
      var name := NameOf(tokens[0]);
      tokens := tokens[1..];
      ghost var body := tokens;
      var attrs: seq<KdlProperty> := [];
      var values: seq<KdlValue> := [];
      var hasChildren := false;
      while tokens != []
        invariant nodesToClose == old(nodesToClose) && bracketed == old(bracketed)
        invariant !hasChildren
        invariant ScanBody(body, [], []) == ScanBody(tokens, attrs, values)
        decreases |tokens|
      {
        var t := tokens[0];
        if t.BlockOpen? {
          tokens := SkipNewline(tokens[1..]);
          hasChildren := true;
          break;
        } else if t.Backslash? {
          tokens := tokens[1..];
          if tokens != [] && tokens[0].Newline? {
            tokens := tokens[1..];
          }
        } else if t.Newline? || t.Semicolon? {
          break;
        } else if IsNameToken(t) {
          var ident := NameOf(t);
          tokens := tokens[1..];
          if tokens != [] && tokens[0].Equals? {
            var p := Property(ident);
            if p.Err? {
              return Err(p.error);
            }
            attrs := attrs + [p.value];
          } else if !t.Identifier? {
            values := values + [KdlValue.String(ident)];
          }
        } else if IsValueToken(t) {
          tokens := tokens[1..];
          values := values + [TokenToValue(t)];
        } else {
          return Err(NotANode);
        }
      }
      if !hasChildren {
        if |nodesToClose| < StackCapacity {
          nodesToClose := nodesToClose + [name];
        }
      } else {
        if |bracketed| < StackCapacity {
          bracketed := bracketed + [name];
        }
      }
      r := Ok(KdlEvent.NodeOpen(name, attrs, values, hasChildren));
    }

    /** `Iterator::next`. */
    method Next() returns (r: Option<ParseResult<KdlEvent>>)
      requires Valid()
      modifies this
      ensures Valid()
      ensures Transition(r, State()) == NextStep(old(State()))
    {
      while tokens != []
        invariant NextStep(old(State())) == NextStep(State())
        invariant nodesToClose == old(nodesToClose) && bracketed == old(bracketed)
        decreases |tokens|
      {
        var t := tokens[0];
        if t.BlockClose? {
          tokens := tokens[1..];
          if bracketed == [] {
            return Some(Err(MismatchedNodeClosing));
          }
          var toClose := bracketed[|bracketed| - 1];
          bracketed := bracketed[..|bracketed| - 1];
          return Some(Ok(BracketedNodeClose(toClose)));
        } else if t.Semicolon? {
          tokens := tokens[1..];
          if nodesToClose == [] {
            return Some(Err(MismatchedNodeClosing));
          }
          var toClose := nodesToClose[|nodesToClose| - 1];
          nodesToClose := nodesToClose[..|nodesToClose| - 1];
          return Some(Ok(NodeClose(toClose)));
        } else if t.Newline? {
          tokens := tokens[1..];
          if nodesToClose != [] {
            var toClose := nodesToClose[|nodesToClose| - 1];
            nodesToClose := nodesToClose[..|nodesToClose| - 1];
            return Some(Ok(NodeClose(toClose)));
          }
        } else {
          var e := NodeOpen();
          return Some(e);
        }
      }
      if nodesToClose == [] {
        return None;
      }
      var toClose := nodesToClose[|nodesToClose| - 1];
      nodesToClose := nodesToClose[..|nodesToClose| - 1];
      r := Some(Ok(NodeClose(toClose)));
    }
  }

  // ---------------------------------------------------------------------
  // Closing tokens
  // ---------------------------------------------------------------------

  /** `}` is always consumed; it pops the bracketed stack, or reports a mismatch when that is empty. */
  lemma BlockCloseStep(s: ParserState)
    requires s.tokens != [] && s.tokens[0].BlockClose?
    ensures NextStep(s).next.tokens == s.tokens[1..]
    ensures NextStep(s).next.nodesToClose == s.nodesToClose
    ensures s.bracketed != [] ==>
              NextStep(s).item == Some(Ok(BracketedNodeClose(s.bracketed[|s.bracketed| - 1])))
              && NextStep(s).next.bracketed + [s.bracketed[|s.bracketed| - 1]] == s.bracketed
    ensures s.bracketed == [] ==>
              NextStep(s).item == Some(Err(MismatchedNodeClosing)) && NextStep(s).next.bracketed == []
  {
  }

  /** `;` is always consumed; it pops the terminator stack, or reports a mismatch when that is empty. */
  lemma SemicolonStep(s: ParserState)
    requires s.tokens != [] && s.tokens[0].Semicolon?
    ensures NextStep(s).next.tokens == s.tokens[1..]
    ensures NextStep(s).next.bracketed == s.bracketed
    ensures s.nodesToClose != [] ==>
              NextStep(s).item == Some(Ok(NodeClose(s.nodesToClose[|s.nodesToClose| - 1])))
              && NextStep(s).next.nodesToClose + [s.nodesToClose[|s.nodesToClose| - 1]] == s.nodesToClose
    ensures s.nodesToClose == [] ==>
              NextStep(s).item == Some(Err(MismatchedNodeClosing)) && NextStep(s).next.nodesToClose == []
  {
  }

  /** A newline closes the innermost terminated node; with none open it is skipped. */
  lemma NewlineStep(s: ParserState)
    requires s.tokens != [] && s.tokens[0].Newline?
    ensures s.nodesToClose != [] ==>
              NextStep(s) == Transition(Some(Ok(NodeClose(s.nodesToClose[|s.nodesToClose| - 1]))),
                                        ParserState(s.tokens[1..], s.nodesToClose[..|s.nodesToClose| - 1], s.bracketed))
    ensures s.nodesToClose == [] ==> NextStep(s) == NextStep(s.(tokens := s.tokens[1..]))
  {
  }

  function Newlines(k: nat): (ts: seq<Token>)
    ensures |ts| == k && forall i | 0 <= i < k :: ts[i].Newline?
  {
    seq(k, _ => Lex.Newline)
  }

  /** Any number of blank lines between nodes at the top level yields nothing. */
  lemma {:induction false} BlankLinesSkipped(s: ParserState, k: nat)
    requires s.nodesToClose == []
    ensures NextStep(s.(tokens := Newlines(k) + s.tokens)) == NextStep(s)
    decreases k
  {
    if k > 0 {
      var ts := Newlines(k) + s.tokens;
      assert ts[1..] == Newlines(k - 1) + s.tokens;
      BlankLinesSkipped(s, k - 1);
    } else {
      assert Newlines(0) + s.tokens == s.tokens;
    }
  }

  // ---------------------------------------------------------------------
  // Opening nodes
  // ---------------------------------------------------------------------

  /** A call that does not start on a closing token or newline goes to `node_open`. */
  predicate StartsNode(s: ParserState) {
    s.tokens != [] && !(s.tokens[0].BlockClose? || s.tokens[0].Semicolon? || s.tokens[0].Newline?)
  }

  /**
   * A successful open pushes its name onto exactly one stack, the bracketed one
   * iff the node has children (unless that stack is full); it never pops.
   */
  lemma OpenPushesOneStack(s: ParserState)
    requires StartsNode(s)
    requires NextStep(s).item.Some? && NextStep(s).item.value.Ok?
    ensures var e := NextStep(s).item.value.value;
            var n := NextStep(s).next;
            e.NodeOpen?
            && (e.hasChildren ==> n.bracketed == BoundedDeque.PushBack(s.bracketed, e.name) && n.nodesToClose == s.nodesToClose)
            && (!e.hasChildren ==> n.nodesToClose == BoundedDeque.PushBack(s.nodesToClose, e.name) && n.bracketed == s.bracketed)
  {
  }

  /**
   * When the bracketed stack is full, opening another node with children
   * leaves it unchanged: the name is lost, and its `}` will close the node
   * that was open before it.
   */
  lemma FullStackDropsName(s: ParserState)
    requires StartsNode(s) && |s.bracketed| == StackCapacity
    requires NextStep(s).item.Some? && NextStep(s).item.value.Ok?
    requires NextStep(s).item.value.value.hasChildren
    ensures NextStep(s).next.bracketed == s.bracketed
    ensures var t := NextStep(s).next.(tokens := [Lex.BlockClose]);
            NextStep(t).item == Some(Ok(BracketedNodeClose(s.bracketed[StackCapacity - 1])))
  {
    OpenPushesOneStack(s);
  }

  /** No error touches either stack. */
  lemma {:induction false} ErrorsPushNothing(s: ParserState)
    requires NextStep(s).item.Some? && NextStep(s).item.value.Err?
    ensures NextStep(s).next.nodesToClose == s.nodesToClose
    ensures NextStep(s).next.bracketed == s.bracketed
    decreases |s.tokens|
  {
    if s.tokens != [] && s.tokens[0].Newline? && s.nodesToClose == [] {
      ErrorsPushNothing(s.(tokens := s.tokens[1..]));
    }
  }

  /**
   * A node must start with an identifier or a string; any other token is
   * refused without being consumed, so every later call refuses it again.
   */
  lemma NotANodeConsumesNothing(s: ParserState)
    requires StartsNode(s) && !IsNameToken(s.tokens[0])
    ensures NextStep(s) == Transition(Some(Err(NotANode)), s)
  {
  }

  /** Positional values, strings included, are gathered in source order. */
  lemma {:induction false} ValuesInSourceOrder(ts: seq<Token>, attrs: seq<KdlProperty>, values: seq<KdlValue>)
    requires forall i | 0 <= i < |ts| :: IsValueToken(ts[i])
    ensures ScanBody(ts, attrs, values)
            == BodyScan(Ok(Body(attrs, values + seq(|ts|, i requires 0 <= i < |ts| => TokenToValue(ts[i])), false)), [])
    decreases |ts|
  {
    var vs := seq(|ts|, i requires 0 <= i < |ts| => TokenToValue(ts[i]));
    if ts == [] {
      assert values + vs == values;
    } else {
      var v := TokenToValue(ts[0]);
      ValuesInSourceOrder(ts[1..], attrs, values + [v]);
      var vs' := seq(|ts[1..]|, i requires 0 <= i < |ts[1..]| => TokenToValue(ts[1..][i]));
      assert values + [v] + vs' == values + vs;
    }
  }

  /** `key=value` adds one property; the key may be an identifier or a string. */
  lemma PropertyParsed(k: Token, v: Token, ts: seq<Token>, attrs: seq<KdlProperty>, values: seq<KdlValue>)
    requires IsNameToken(k) && IsValueToken(v)
    ensures ScanBody([k, Lex.Equals, v] + ts, attrs, values)
            == ScanBody(ts, attrs + [KdlProperty(NameOf(k), TokenToValue(v))], values)
  {
    var all := [k, Lex.Equals, v] + ts;
    assert all[1..][1..][1..] == ts;
  }

  /** `key=` not followed by a value token is an incomplete property; the `=` has been consumed. */
  lemma IncompletePropertyRefused(k: Token, ts: seq<Token>, attrs: seq<KdlProperty>, values: seq<KdlValue>)
    requires IsNameToken(k)
    requires ts == [] || !IsValueToken(ts[0])
    ensures ScanBody([k, Lex.Equals] + ts, attrs, values) == BodyScan(Err(IncompleteProperty), ts)
  {
    var all := [k, Lex.Equals] + ts;
    assert all[1..][1..] == ts;
  }

  /**
   * `property` as written panics where the intended definition reports an
   * incomplete property: `=` followed by a token that is not a value, such as
   * the newline of `foo bar=`. Everywhere else the two agree.
   */
  lemma PropertyPanicsAsWritten(key: KdlString, ts: seq<Token>)
    requires ts != [] && ts[0].Equals?
    ensures |ts| >= 2 && !IsValueToken(ts[1]) ==>
              PropertyAsWritten(key, ts) == Panics
              && PropertyStep(key, ts) == PropertyScan(Err(IncompleteProperty), ts[1..])
    ensures !(|ts| >= 2 && !IsValueToken(ts[1])) ==> PropertyAsWritten(key, ts) == Returns(PropertyStep(key, ts))
  {
  }

  /**
   * A token outside the node grammar after the name refuses the node: the name
   * is consumed, the stray token is not, and neither stack changes.
   */
  lemma StrayTokenRefused(n: Token, t: Token, ts: seq<Token>, nodes: seq<KdlString>, bracketed: seq<KdlString>)
    requires IsNameToken(n) && IsStray(t)
    ensures ScanBody([t] + ts, [], []) == BodyScan(Err(NotANode), [t] + ts)
    ensures NextStep(ParserState([n, t] + ts, nodes, bracketed))
            == Transition(Some(Err(NotANode)), ParserState([t] + ts, nodes, bracketed))
  {
    assert ([n, t] + ts)[1..] == [t] + ts;
  }

  /** A bare identifier that does not start a property is dropped. */
  lemma BareIdentifierDropped(x: seq<char>, ts: seq<Token>, attrs: seq<KdlProperty>, values: seq<KdlValue>)
    requires ts == [] || !ts[0].Equals?
    ensures ScanBody([Lex.Identifier(x)] + ts, attrs, values) == ScanBody(ts, attrs, values)
  {
    assert ([Lex.Identifier(x)] + ts)[1..] == ts;
  }

  /** A line continuation changes nothing the node gathers. */
  lemma ContinuationTransparent(ts: seq<Token>, attrs: seq<KdlProperty>, values: seq<KdlValue>)
    ensures ScanBody([Lex.Backslash, Lex.Newline] + ts, attrs, values) == ScanBody(ts, attrs, values)
    ensures (ts == [] || !ts[0].Newline?) ==> ScanBody([Lex.Backslash] + ts, attrs, values) == ScanBody(ts, attrs, values)
  {
    assert ([Lex.Backslash, Lex.Newline] + ts)[1..][1..] == ts;
    assert ([Lex.Backslash] + ts)[1..] == ts;
  }

  /** `{` ends the node's line, marks it as having children and swallows one newline. */
  lemma BraceOpensChildren(ts: seq<Token>, attrs: seq<KdlProperty>, values: seq<KdlValue>)
    ensures ScanBody([Lex.BlockOpen, Lex.Newline] + ts, attrs, values) == BodyScan(Ok(Body(attrs, values, true)), ts)
    ensures (ts == [] || !ts[0].Newline?) ==>
              ScanBody([Lex.BlockOpen] + ts, attrs, values) == BodyScan(Ok(Body(attrs, values, true)), ts)
  {
    assert ([Lex.BlockOpen, Lex.Newline] + ts)[1..][1..] == ts;
    assert ([Lex.BlockOpen] + ts)[1..] == ts;
  }

  // ---------------------------------------------------------------------
  // Runs of calls
  // ---------------------------------------------------------------------

  /** The items of up to `n` calls, the state after them, and whether the sequence ended. */
  datatype Trace = Trace(events: seq<ParseResult<KdlEvent>>, last: ParserState, ended: bool)

  function Run(s: ParserState, n: nat): (r: Trace)
    ensures |r.events| <= n
    decreases n
  {
    if n == 0 then Trace([], s, false)
    else
      var t := NextStep(s);
      match t.item
      case None => Trace([], t.next, true)
      case Some(e) =>
        var r := Run(t.next, n - 1);
        Trace([e] + r.events, r.last, r.ended)
  }

  predicate IsOpen(e: ParseResult<KdlEvent>) {
    e.Ok? && e.value.NodeOpen?
  }

  predicate IsClose(e: ParseResult<KdlEvent>) {
    e.Ok? && !e.value.NodeOpen?
  }

  function Opens(es: seq<ParseResult<KdlEvent>>): nat {
    if es == [] then 0 else (if IsOpen(es[0]) then 1 else 0) + Opens(es[1..])
  }

  function Closes(es: seq<ParseResult<KdlEvent>>): nat {
    if es == [] then 0 else (if IsClose(es[0]) then 1 else 0) + Closes(es[1..])
  }

  lemma CountsCons(e: ParseResult<KdlEvent>, es: seq<ParseResult<KdlEvent>>)
    ensures Opens([e] + es) == (if IsOpen(e) then 1 else 0) + Opens(es)
    ensures Closes([e] + es) == (if IsClose(e) then 1 else 0) + Closes(es)
  {
    assert ([e] + es)[1..] == es;
  }

  /** While neither stack is full, an open adds one name, a close removes one, anything else none. */
  lemma {:induction false} StepDepth(s: ParserState)
    requires |s.nodesToClose| < StackCapacity && |s.bracketed| < StackCapacity
    ensures var t := NextStep(s);
            Depth(t.next) + (if t.item.Some? && IsClose(t.item.value) then 1 else 0)
            == Depth(s) + (if t.item.Some? && IsOpen(t.item.value) then 1 else 0)
    decreases |s.tokens|
  {
    if s.tokens != [] && s.tokens[0].Newline? && s.nodesToClose == [] {
      StepDepth(s.(tokens := s.tokens[1..]));
    }
  }

  /**
   * Over any run that cannot fill a stack, the names waiting to be closed
   * number exactly the opens minus the closes.
   */
  lemma {:induction false} RunBalance(s: ParserState, n: nat)
    requires Depth(s) + n <= StackCapacity
    ensures Depth(Run(s, n).last) + Closes(Run(s, n).events) == Depth(s) + Opens(Run(s, n).events)
    decreases n
  {
    if n > 0 {
      var t := NextStep(s);
      StepDepth(s);
      if t.item.Some? {
        var r' := Run(t.next, n - 1);
        RunBalance(t.next, n - 1);
        assert Run(s, n) == Trace([t.item.value] + r'.events, r'.last, r'.ended);
        CountsCons(t.item.value, r'.events);
      }
    }
  }

  /**
   * At the end of input each call closes one remaining terminated node,
   * innermost first, and then the sequence ends; the bracketed stack is never
   * drained.
   */
  lemma {:induction false} EndDrains(s: ParserState)
    requires s.tokens == []
    ensures var r := Run(s, |s.nodesToClose| + 1);
            r.ended && r.last == ParserState([], [], s.bracketed)
            && |r.events| == |s.nodesToClose|
            && forall i | 0 <= i < |r.events| :: r.events[i] == Ok(NodeClose(s.nodesToClose[|s.nodesToClose| - 1 - i]))
    decreases |s.nodesToClose|
  {
    if s.nodesToClose != [] {
      var n := s.nodesToClose;
      var s' := s.(nodesToClose := DropLast(n));
      EndDrains(s');
      var r' := Run(s', |n|);
      var r := Run(s, |n| + 1);
      assert r.events == [Ok(NodeClose(n[|n| - 1]))] + r'.events;
      forall i | 0 <= i < |r.events|
        ensures r.events[i] == Ok(NodeClose(n[|n| - 1 - i]))
      {
        if i > 0 {
          assert r.events[i] == r'.events[i - 1];
        }
      }
    }
  }

  // ---------------------------------------------------------------------
  // Worked examples
  // ---------------------------------------------------------------------

  /** The tokens of `foo bar=1 "baz"` and a newline. */
  const PropertyLine: seq<Token> :=
    [Lex.Identifier("foo"), Lex.Identifier("bar"), Lex.Equals, Lex.Integer(1), Lex.StringWithNoEscapes("baz"), Lex.Newline]

  lemma PropertyLineEvents()
    ensures Run(ParserState(PropertyLine, [], []), 3).events
            == [Ok(NodeOpen(Escapeless("foo"), [KdlProperty(Escapeless("bar"), KdlValue.Integer(1))],
                            [KdlValue.String(Escapeless("baz"))], false)),
                Ok(NodeClose(Escapeless("foo")))]
    ensures Run(ParserState(PropertyLine, [], []), 3).ended
  {
    PropertyLineBody();
    var open := NodeOpen(Escapeless("foo"), [KdlProperty(Escapeless("bar"), KdlValue.Integer(1))],
                         [KdlValue.String(Escapeless("baz"))], false);
    var s1 := ParserState([Lex.Newline], [Escapeless("foo")], []);
    assert NextStep(ParserState(PropertyLine, [], [])) == Transition(Some(Ok(open)), s1);
    assert NextStep(s1) == Transition(Some(Ok(NodeClose(Escapeless("foo")))), ParserState([], [], []));
    assert Run(ParserState([], [], []), 1) == Trace([], ParserState([], [], []), true);
  }

  /** The body of the node in `PropertyLine`: one property and one value, stopping at the newline. */
  lemma PropertyLineBody()
    ensures ScanBody(PropertyLine[1..], [], [])
            == BodyScan(Ok(Body([KdlProperty(Escapeless("bar"), KdlValue.Integer(1))], [KdlValue.String(Escapeless("baz"))], false)),
                        [Lex.Newline])
  {
    var ts := PropertyLine;
    PropertyParsed(ts[1], ts[3], ts[4..], [], []);
    assert [ts[1], Lex.Equals, ts[3]] + ts[4..] == ts[1..];
    var attrs := [KdlProperty(Escapeless("bar"), KdlValue.Integer(1))];
    assert [] + attrs == attrs;
    assert ts[4..] == [Lex.StringWithNoEscapes("baz"), Lex.Newline];
    assert [] + [KdlValue.String(Escapeless("baz"))] == [KdlValue.String(Escapeless("baz"))];
    assert ScanBody(ts[4..], attrs, []) == ScanBody([Lex.Newline], attrs, [KdlValue.String(Escapeless("baz"))]);
  }

  /** The tokens of `foo {`, newline, `bar`, newline, `}`, newline. */
  const ChildBlock: seq<Token> :=
    [Lex.Identifier("foo"), Lex.BlockOpen, Lex.Newline, Lex.Identifier("bar"), Lex.Newline, Lex.BlockClose, Lex.Newline]

  lemma ChildBlockEvents()
    ensures Run(ParserState(ChildBlock, [], []), 5).events
            == [Ok(NodeOpen(Escapeless("foo"), [], [], true)),
                Ok(NodeOpen(Escapeless("bar"), [], [], false)),
                Ok(NodeClose(Escapeless("bar"))),
                Ok(BracketedNodeClose(Escapeless("foo")))]
    ensures Run(ParserState(ChildBlock, [], []), 5).ended
  {
    ChildBlockOpensFoo();
    ChildBlockOpensBar();
    ChildBlockCloses();
    assert Run(ParserState(ChildBlock[6..], [], []), 1) == Trace([], ParserState([], [], []), true);
  }

  lemma ChildBlockOpensFoo()
    ensures NextStep(ParserState(ChildBlock, [], []))
            == Transition(Some(Ok(NodeOpen(Escapeless("foo"), [], [], true))), ParserState(ChildBlock[3..], [], [Escapeless("foo")]))
  {
    var ts := ChildBlock;
    assert ts[1..] == [Lex.BlockOpen, Lex.Newline] + ts[3..];
    BraceOpensChildren(ts[3..], [], []);
  }

  lemma ChildBlockOpensBar()
    ensures NextStep(ParserState(ChildBlock[3..], [], [Escapeless("foo")]))
            == Transition(Some(Ok(NodeOpen(Escapeless("bar"), [], [], false))),
                          ParserState(ChildBlock[4..], [Escapeless("bar")], [Escapeless("foo")]))
  {
    var ts := ChildBlock[3..];
    assert ts[1..] == ChildBlock[4..] && ts[1..][0].Newline?;
  }

  lemma ChildBlockCloses()
    ensures NextStep(ParserState(ChildBlock[4..], [Escapeless("bar")], [Escapeless("foo")]))
            == Transition(Some(Ok(NodeClose(Escapeless("bar")))), ParserState(ChildBlock[5..], [], [Escapeless("foo")]))
    ensures NextStep(ParserState(ChildBlock[5..], [], [Escapeless("foo")]))
            == Transition(Some(Ok(BracketedNodeClose(Escapeless("foo")))), ParserState(ChildBlock[6..], [], []))
    ensures NextStep(ParserState(ChildBlock[6..], [], [])) == Transition(None, ParserState([], [], []))
  {
    assert ChildBlock[4..][1..] == ChildBlock[5..];
    assert ChildBlock[5..][1..] == ChildBlock[6..];
    assert ChildBlock[6..][1..] == [];
  }
}
