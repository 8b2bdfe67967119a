/** The parser against a batch splitter, and inputs it cannot tell apart. */
module ParserTheorems {
  import opened ParserSpec

  // The reference splitter --------------------------------------------------

  /** One character of the input with what `parse` answered to it. */
  datatype Item = Item(c: char, verdict: Verdict)

  /** A character that counts, or the point up to which a partial match took the line. */
  datatype Token = Char(c: char) | Cut

  function AfterLineFeed(items: seq<Item>): seq<Item>
    ensures |AfterLineFeed(items)| <= |items|
  {
    if items == [] then [] else if items[0].c == '\n' then items[1..] else AfterLineFeed(items[1..])
  }

  predicate HasLineFeed(items: seq<Item>) {
    items != [] && (items[0].c == '\n' || HasLineFeed(items[1..]))
  }

  /** A match that asked for more, or to skip, discards everything up to the next line feed. */
  function Tokens(items: seq<Item>): seq<Token>
    decreases |items|
  {
    if items == [] then []
    else match items[0].verdict
      case Next => [Cut] + Tokens(items[1..])
      case More => [Cut] + Tokens(AfterLineFeed(items[1..]))
      case Skip => [Cut] + Tokens(AfterLineFeed(items[1..]))
      case _ => [Char(items[0].c)] + Tokens(items[1..])
  }

  /** A line feed ends a line; so does a carriage return, once something follows it. */
  predicate EndsAt(tokens: seq<Token>, k: nat)
    requires k < |tokens|
  {
    tokens[k] == Char('\n') || (tokens[k] == Char('\r') && k + 1 < |tokens|)
  }

  function FirstEnd(tokens: seq<Token>, from: nat): (k: nat)
    requires from <= |tokens|
    ensures from <= k <= |tokens|
    decreases |tokens| - from
  {
    if from == |tokens| || EndsAt(tokens, from) then from else FirstEnd(tokens, from + 1)
  }

  lemma {:induction false} FirstEndEnds(tokens: seq<Token>, from: nat)
    requires from <= |tokens|
    ensures var k := FirstEnd(tokens, from);
      && (forall j :: from <= j < k ==> !EndsAt(tokens, j))
      && (k < |tokens| ==> EndsAt(tokens, k))
    decreases |tokens| - from
  {
    if from < |tokens| && !EndsAt(tokens, from) {
      FirstEndEnds(tokens, from + 1);
    }
  }

  /** The text of a piece of a line: what follows the last cut, without backspaces. */
  function Text(tokens: seq<Token>): string {
    if tokens == [] then ""
    else
      var init, last := tokens[..|tokens| - 1], tokens[|tokens| - 1];
      if last.Cut? then "" else if last.c == BACKSPACE then Text(init) else Text(init) + [last.c]
  }

  function OneLine(text: string): seq<string> {
    if Blank(text) then [] else [text]
  }

  /** The reference: every line that has ended and is not blank, in order. */
  function Lines(tokens: seq<Token>): seq<string>
    decreases |tokens|
  {
    var k := FirstEnd(tokens, 0);
    if k == |tokens| then [] else OneLine(Text(tokens[..k])) + Lines(tokens[k + 1..])
  }

  /** What is left of the input after the last line that has ended. */
  function Rest(tokens: seq<Token>): seq<Token>
    decreases |tokens|
  {
    var k := FirstEnd(tokens, 0);
    if k == |tokens| then tokens else Rest(tokens[k + 1..])
  }

  predicate PendingReturn(tokens: seq<Token>) {
    tokens != [] && tokens[|tokens| - 1] == Char('\r')
  }

  function WithoutReturn(tokens: seq<Token>): seq<Token> {
    if PendingReturn(tokens) then tokens[..|tokens| - 1] else tokens
  }

  /** The input ends in the part of a line that is being skipped. */
  predicate Skipping(items: seq<Item>)
    decreases |items|
  {
    if items == [] then false
    else if items[0].verdict.More? || items[0].verdict.Skip?
    then HasLineFeed(items[1..]) ==> Skipping(AfterLineFeed(items[1..]))
    else Skipping(items[1..])
  }

  // One more character ------------------------------------------------------

  lemma {:induction false} AfterLineFeedSnoc(items: seq<Item>, x: Item)
    ensures HasLineFeed(items + [x]) <==> HasLineFeed(items) || x.c == '\n'
    ensures if HasLineFeed(items) then AfterLineFeed(items + [x]) == AfterLineFeed(items) + [x]
            else AfterLineFeed(items) == [] && AfterLineFeed(items + [x]) == []
  {
    if items == [] {
      assert items + [x] == [x] && [x][1..] == [];
    } else {
      assert (items + [x])[1..] == items[1..] + [x];
      AfterLineFeedSnoc(items[1..], x);
    }
  }

  function TokenOf(x: Item): Token {
    if x.verdict.Next? || x.verdict.More? || x.verdict.Skip? then Cut else Char(x.c)
  }

  lemma {:induction false} TokensSnoc(items: seq<Item>, x: Item)
    requires Skipping(items) ==> x.verdict.Unmatched?
    ensures Tokens(items + [x]) == if Skipping(items) then Tokens(items) else Tokens(items) + [TokenOf(x)]
    ensures Skipping(items + [x]) <==>
            if Skipping(items) then x.c != '\n' else x.verdict.More? || x.verdict.Skip?
    decreases |items|
  {
    if items == [] {
      assert items + [x] == [x] && [x][1..] == [];
    } else {
      var all := items + [x];
      assert all[1..] == items[1..] + [x];
      if items[0].verdict.More? || items[0].verdict.Skip? {
        AfterLineFeedSnoc(items[1..], x);
        if HasLineFeed(items[1..]) {
          TokensSnoc(AfterLineFeed(items[1..]), x);
        }
      } else {
        TokensSnoc(items[1..], x);
      }
    }
  }

  lemma FirstEndIs(tokens: seq<Token>, k: nat)
    requires k <= |tokens| && forall j :: 0 <= j < k ==> !EndsAt(tokens, j)
    requires k < |tokens| ==> EndsAt(tokens, k)
    ensures FirstEnd(tokens, 0) == k
  {
    FirstEndEnds(tokens, 0);
  }

  lemma LinesOfOne(t: Token)
    ensures Lines([t]) == [] && Rest([t]) == if t == Char('\n') then [] else [t]
  {
    if t == Char('\n') {
      FirstEndIs([t], 0);
      assert [t][1..] == [] && [t][..0] == [];
      FirstEndIs([], 0);
    } else {
      FirstEndIs([t], 1);
    }
  }

  lemma {:induction false} RestKeepsReturn(tokens: seq<Token>)
    ensures PendingReturn(Rest(tokens)) <==> PendingReturn(tokens)
    decreases |tokens|
  {
    var k := FirstEnd(tokens, 0);
    FirstEndEnds(tokens, 0);
    if k < |tokens| {
      RestKeepsReturn(tokens[k + 1..]);
    }
  }

  lemma FirstEndKept(tokens: seq<Token>, t: Token)
    requires FirstEnd(tokens, 0) < |tokens|
    ensures FirstEnd(tokens + [t], 0) == FirstEnd(tokens, 0)
  {
    FirstEndEnds(tokens, 0);
    var k, all := FirstEnd(tokens, 0), tokens + [t];
    forall j | 0 <= j < k
      ensures !EndsAt(all, j)
    {
      assert !EndsAt(tokens, j) && all[j] == tokens[j];
    }
    assert all[k] == tokens[k];
    FirstEndIs(all, k);
  }

  lemma ReturnKept(tokens: seq<Token>, k: nat)
    requires k < |tokens| && EndsAt(tokens, k)
    ensures PendingReturn(tokens[k + 1..]) <==> PendingReturn(tokens)
  {
  }

  /** A line that has ended is not affected by what comes later. */
  lemma FirstLineKept(tokens: seq<Token>, t: Token)
    requires FirstEnd(tokens, 0) < |tokens|
    ensures var k := FirstEnd(tokens, 0);
      var first, tail := OneLine(Text(tokens[..k])), tokens[k + 1..];
      && Lines(tokens) == first + Lines(tail) && Lines(tokens + [t]) == first + Lines(tail + [t])
      && Rest(tokens) == Rest(tail) && Rest(tokens + [t]) == Rest(tail + [t])
      && (PendingReturn(tail) <==> PendingReturn(tokens))
  {
    FirstEndEnds(tokens, 0);
    var k, all := FirstEnd(tokens, 0), tokens + [t];
    FirstEndKept(tokens, t);
    ReturnKept(tokens, k);
    assert all[..k] == tokens[..k] && all[k + 1..] == tokens[k + 1..] + [t];
  }

  /** The last line has not ended yet, and a pending carriage return is about to end it. */
  lemma ReturnEndsLine(tokens: seq<Token>, t: Token)
    requires FirstEnd(tokens, 0) == |tokens| && PendingReturn(tokens)
    ensures Lines(tokens + [t]) == OneLine(Text(tokens[..|tokens| - 1]))
    ensures Rest(tokens + [t]) == if t == Char('\n') then [] else [t]
  {
    FirstEndEnds(tokens, 0);
    var last, all := |tokens| - 1, tokens + [t];
    assert forall j :: 0 <= j < last ==> (EndsAt(all, j) <==> EndsAt(tokens, j));
    FirstEndIs(all, last);
    assert all[..last] == tokens[..last] && all[last + 1..] == [t];
    LinesOfOne(t);
  }

  lemma LineGoesOn(tokens: seq<Token>, t: Token)
    requires FirstEnd(tokens, 0) == |tokens| && !PendingReturn(tokens)
    ensures Lines(tokens + [t]) == if t == Char('\n') then OneLine(Text(tokens)) else []
    ensures Rest(tokens + [t]) == if t == Char('\n') then [] else tokens + [t]
  {
    FirstEndEnds(tokens, 0);
    var all := tokens + [t];
    assert forall j :: 0 <= j < |tokens| ==> (EndsAt(all, j) <==> EndsAt(tokens, j));
    FirstEndIs(all, if t == Char('\n') then |tokens| else |all|);
    assert all[..|tokens|] == tokens && all[|tokens| + 1..] == [];
    FirstEndIs([], 0);
  }

  lemma AppendLater<T>(first: seq<T>, tail: seq<T>, longer: seq<T>, more: seq<T>)
    requires longer == tail + more
    ensures first + longer == first + tail + more
  {
  }

  /** The text of the line that has not ended yet. */
  function Current(tokens: seq<Token>): string {
    Text(WithoutReturn(Rest(tokens)))
  }

  /** The line, if any, that ends when one more token comes. */
  function Ended(tokens: seq<Token>, t: Token): seq<string> {
    if PendingReturn(tokens) || t == Char('\n') then OneLine(Current(tokens)) else []
  }

  /** What one more token does to the lines and to the rest. */
  ghost predicate Snoc(tokens: seq<Token>, t: Token) {
    && Lines(tokens + [t]) == Lines(tokens) + Ended(tokens, t)
    && Rest(tokens + [t]) ==
         if t == Char('\n') then [] else if PendingReturn(tokens) then [t] else Rest(tokens) + [t]
  }

  lemma SnocAfterALine(tokens: seq<Token>, t: Token)
    requires FirstEnd(tokens, 0) < |tokens| && Snoc(tokens[FirstEnd(tokens, 0) + 1..], t)
    ensures Snoc(tokens, t)
  {
    var k := FirstEnd(tokens, 0);
    var tail := tokens[k + 1..];
    FirstLineKept(tokens, t);
    assert Ended(tail, t) == Ended(tokens, t);
    AppendLater(OneLine(Text(tokens[..k])), Lines(tail), Lines(tail + [t]), Ended(tail, t));
  }

  lemma SnocInALine(tokens: seq<Token>, t: Token)
    requires FirstEnd(tokens, 0) == |tokens|
    ensures Snoc(tokens, t)
  {
    assert Lines(tokens) == [] && Rest(tokens) == tokens;
    if PendingReturn(tokens) {
      ReturnEndsLine(tokens, t);
    } else {
      LineGoesOn(tokens, t);
    }
  }

  lemma {:induction false} LinesSnoc(tokens: seq<Token>, t: Token)
    ensures Snoc(tokens, t)
    decreases |tokens|
  {
    var k := FirstEnd(tokens, 0);
    if k < |tokens| {
      LinesSnoc(tokens[k + 1..], t);
      SnocAfterALine(tokens, t);
    } else {
      SnocInALine(tokens, t);
    }
  }

  lemma TextSnoc(tokens: seq<Token>, t: Token)
    ensures Text(tokens + [t]) ==
            if t.Cut? then "" else if t.c == BACKSPACE then Text(tokens) else Text(tokens) + [t.c]
  {
    assert (tokens + [t])[..|tokens|] == tokens;
  }

  /** The text of a line to which one more token is added. */
  lemma CurrentSnoc(rest: seq<Token>, t: Token)
    requires t != Char('\n') && !PendingReturn(rest)
    ensures Text(WithoutReturn(rest + [t])) ==
            if t.Cut? then "" else if t.c == '\r' || t.c == BACKSPACE then Text(rest) else Text(rest) + [t.c]
  {
    TextSnoc(rest, t);
    assert (rest + [t])[..|rest|] == rest;
  }

  /** What one more token does to the reference. */
  lemma OneMoreToken(tokens: seq<Token>, t: Token)
    ensures Lines(tokens + [t]) ==
            Lines(tokens) + if PendingReturn(tokens) || t == Char('\n') then OneLine(Current(tokens)) else []
    ensures PendingReturn(tokens + [t]) <==> t == Char('\r')
    ensures var line := if PendingReturn(tokens) then "" else Current(tokens);
      Current(tokens + [t]) ==
        if t == Char('\n') || t.Cut? then ""
        else if t.c == '\r' || t.c == BACKSPACE then line
        else line + [t.c]
  {
    LinesSnoc(tokens, t);
    RestKeepsReturn(tokens);
    var rest := if PendingReturn(tokens) then [] else Rest(tokens);
    if t != Char('\n') {
      assert Rest(tokens + [t]) == rest + [t];
      CurrentSnoc(rest, t);
    }
  }

  // The refinement ----------------------------------------------------------

  /** A run that records what `parse` answers. */
  function Trace(ms: seq<Matcher>, s: State, input: string): seq<Item>
    decreases |input|
  {
    if input == "" then []
    else
      var r := Parse(ms, s, input[0]);
      [Item(input[0], r.verdict)] + Trace(ms, r.state, input[1..])
  }

  /** The state of the parser says what the reference says about the items so far. */
  ghost predicate Agrees(s: State, items: seq<Item>) {
    var tokens := Tokens(items);
    && s.handed + s.lines == Lines(tokens)
    && (s.skip <==> Skipping(items))
    && (s.cr <==> PendingReturn(tokens))
    && s.line == Current(tokens)
    && (s.skip ==> s.line == "" && !s.cr)
  }

  /** What accepting a character does to the parts of the state the splitter speaks of. */
  lemma AcceptAgrees(ms: seq<Matcher>, s: State, c: char)
    requires !s.skip && c != '\n' && c != '\r' && c != BACKSPACE
    ensures var r := Parse(ms, s, c);
      var t := if s.cr then EndLine(s) else s;
      && r.state.handed + r.state.lines == t.handed + t.lines
      && !r.state.cr
      && (r.state.skip <==> r.verdict.More? || r.verdict.Skip?)
      && r.state.line == if r.verdict.Unmatched? || r.verdict.Done? then t.line + [c] else ""
  {
    var t := if s.cr then EndLine(s) else s;
    var u := t.(line := t.line + [c]);
    HandleLinesInOrder(ms, u);
    var v := HandleLines(ms, u).state;
    HandleOnlyCalls(ms, 0, v, v.line, false, Unmatched, false);
  }

  lemma SkippedAgrees(ms: seq<Matcher>, s: State, items: seq<Item>, c: char)
    requires Agrees(s, items) && s.skip
    ensures Agrees(Parse(ms, s, c).state, items + [Item(c, Unmatched)])
  {
    TokensSnoc(items, Item(c, Unmatched));
  }

  lemma LineFeedAgrees(ms: seq<Matcher>, s: State, items: seq<Item>)
    requires Agrees(s, items) && !s.skip
    ensures Agrees(Parse(ms, s, '\n').state, items + [Item('\n', Unmatched)])
  {
    TokensSnoc(items, Item('\n', Unmatched));
    OneMoreToken(Tokens(items), Char('\n'));
    AppendLater(s.handed, s.lines, s.lines + OneLine(s.line), OneLine(s.line));
  }

  lemma ReturnAgrees(ms: seq<Matcher>, s: State, items: seq<Item>)
    requires Agrees(s, items) && !s.skip
    ensures Agrees(Parse(ms, s, '\r').state, items + [Item('\r', Unmatched)])
  {
    TokensSnoc(items, Item('\r', Unmatched));
    OneMoreToken(Tokens(items), Char('\r'));
    AppendLater(s.handed, s.lines, s.lines + OneLine(s.line), OneLine(s.line));
  }

  lemma BackspaceAgrees(ms: seq<Matcher>, s: State, items: seq<Item>)
    requires Agrees(s, items) && !s.skip
    ensures Agrees(Parse(ms, s, BACKSPACE).state, items + [Item(BACKSPACE, Unmatched)])
  {
    TokensSnoc(items, Item(BACKSPACE, Unmatched));
    OneMoreToken(Tokens(items), Char(BACKSPACE));
    AppendLater(s.handed, s.lines, s.lines + OneLine(s.line), OneLine(s.line));
  }

  /** An item with an ordinary character, whatever `parse` answered to it. */
  lemma OneMoreItem(items: seq<Item>, x: Item)
    requires !Skipping(items) && x.c != '\n' && x.c != '\r' && x.c != BACKSPACE
    ensures var tokens, longer := Tokens(items), Tokens(items + [x]);
      && Lines(longer) == Lines(tokens) + (if PendingReturn(tokens) then OneLine(Current(tokens)) else [])
      && !PendingReturn(longer)
      && Current(longer) == (if TokenOf(x).Cut? then "" else (if PendingReturn(tokens) then "" else Current(tokens)) + [x.c])
      && (Skipping(items + [x]) <==> x.verdict.More? || x.verdict.Skip?)
  {
    TokensSnoc(items, x);
    OneMoreToken(Tokens(items), TokenOf(x));
  }

  lemma AcceptedAgrees(ms: seq<Matcher>, s: State, items: seq<Item>, c: char)
    requires Agrees(s, items) && !s.skip && c != '\n' && c != '\r' && c != BACKSPACE
    ensures var r := Parse(ms, s, c); Agrees(r.state, items + [Item(c, r.verdict)])
  {
    OneMoreItem(items, Item(c, Parse(ms, s, c).verdict));
    AcceptAgrees(ms, s, c);
    AppendLater(s.handed, s.lines, s.lines + OneLine(s.line), OneLine(s.line));
  }

  lemma CharAgrees(ms: seq<Matcher>, s: State, items: seq<Item>, c: char)
    requires Agrees(s, items)
    ensures var r := Parse(ms, s, c); Agrees(r.state, items + [Item(c, r.verdict)])
  {
    if s.skip {
      SkippedAgrees(ms, s, items, c);
    } else if c == '\n' {
      LineFeedAgrees(ms, s, items);
    } else if c == '\r' {
      ReturnAgrees(ms, s, items);
    } else if c == BACKSPACE {
      BackspaceAgrees(ms, s, items);
    } else {
      AcceptedAgrees(ms, s, items, c);
    }
  }

  lemma {:induction false} RunAgrees(ms: seq<Matcher>, s: State, items: seq<Item>, input: string)
    requires Agrees(s, items)
    ensures Agrees(Run(ms, s, input), items + Trace(ms, s, input))
    decreases |input|
  {
    if input == "" {
      assert items + [] == items;
    } else {
      var r := Parse(ms, s, input[0]);
      var x := Item(input[0], r.verdict);
      var rest := Trace(ms, r.state, input[1..]);
      CharAgrees(ms, s, items, input[0]);
      RunAgrees(ms, r.state, items + [x], input[1..]);
      AppendLater(items, [x], [x] + rest, rest);
      assert Trace(ms, s, input) == [x] + rest;
      assert Run(ms, s, input) == Run(ms, r.state, input[1..]);
    }
  }

  /** For any input and any handlers: the lines handed over as complete, followed by those
      still waiting, are exactly the lines of the reference, in order and once each. */
  lemma ParserRefinesSplitter(ms: seq<Matcher>, input: string)
    ensures var s := Run(ms, INIT, input);
      var tokens := Tokens(Trace(ms, INIT, input));
      && s.handed + s.lines == Lines(tokens)
      && s.line == Current(tokens)
      && (s.cr <==> PendingReturn(tokens))
      && (s.skip <==> Skipping(Trace(ms, INIT, input)))
      && (s.skip ==> s.line == "" && !s.cr)
  {
    FirstEndIs([], 0);
    RunAgrees(ms, INIT, [], input);
    assert [] + Trace(ms, INIT, input) == Trace(ms, INIT, input);
  }

  // Inputs the parser cannot tell apart -------------------------------------

  /** Every line feed replaced by a carriage return and a line feed. */
  function WithReturns(input: string): string {
    if input == "" then "" else (if input[0] == '\n' then "\r\n" else [input[0]]) + WithReturns(input[1..])
  }

  lemma {:induction false} RunAppend(ms: seq<Matcher>, s: State, first: string, second: string)
    ensures Run(ms, s, first + second) == Run(ms, Run(ms, s, first), second)
    decreases |first|
  {
    if first == "" {
      assert first + second == second;
    } else {
      assert (first + second)[1..] == first[1..] + second;
      RunAppend(ms, Parse(ms, s, first[0]).state, first[1..], second);
    }
  }

  lemma ReturnBeforeLineFeed(ms: seq<Matcher>, s: State)
    ensures Run(ms, s, "\r\n") == Run(ms, s, "\n")
  {
    assert "\r\n"[1..] == "\n" && "\n"[1..] == "";
    var t := Parse(ms, s, '\r').state;
    assert Run(ms, s, "\r\n") == Run(ms, t, "\n") == Parse(ms, t, '\n').state;
  }

  /** With CRLF line ends the parser makes the same handler calls and ends in the same state
      as with LF line ends, whatever the handlers do. */
  lemma {:induction false} ReturnsMakeNoDifference(ms: seq<Matcher>, s: State, input: string)
    ensures Run(ms, s, WithReturns(input)) == Run(ms, s, input)
    decreases |input|
  {
    if input == "" {
    } else {
      var c := input[0];
      var t := Parse(ms, s, c).state;
      assert [c][1..] == "" && Run(ms, s, [c]) == t;
      if c == '\n' {
        ReturnBeforeLineFeed(ms, s);
        RunAppend(ms, s, "\r\n", WithReturns(input[1..]));
      } else {
        RunAppend(ms, s, [c], WithReturns(input[1..]));
      }
      ReturnsMakeNoDifference(ms, t, input[1..]);
    }
  }

  function WithoutBackspaces(input: string): string {
    if input == "" then ""
    else (if input[0] == BACKSPACE then "" else [input[0]]) + WithoutBackspaces(input[1..])
  }

  /** A backspace may have ended a line that is still pending without it. */
  ghost predicate Close(s: State, t: State) {
    s == t || (t.cr && !t.skip && s == EndLine(t))
  }

  lemma BackspaceStaysClose(ms: seq<Matcher>, s: State, t: State, c: char)
    requires Close(s, t)
    ensures if c == BACKSPACE then Close(Parse(ms, s, c).state, t)
            else Close(Parse(ms, s, c).state, Parse(ms, t, c).state)
  {
  }

  lemma {:induction false} BackspacesStayClose(ms: seq<Matcher>, s: State, t: State, input: string)
    requires Close(s, t)
    ensures Close(Run(ms, s, input), Run(ms, t, WithoutBackspaces(input)))
    decreases |input|
  {
    if input == "" {
    } else {
      var c := input[0];
      var u := Parse(ms, s, c).state;
      BackspaceStaysClose(ms, s, t, c);
      if c == BACKSPACE {
        assert "" + WithoutBackspaces(input[1..]) == WithoutBackspaces(input[1..]);
        BackspacesStayClose(ms, u, t, input[1..]);
      } else {
        var rest := WithoutBackspaces(input[1..]);
        assert ([c] + rest)[1..] == rest;
        BackspacesStayClose(ms, u, Parse(ms, t, c).state, input[1..]);
      }
    }
  }

  /** Deleting every backspace changes neither the handler calls nor the lines handed over. */
  lemma BackspacesMakeNoDifference(ms: seq<Matcher>, input: string)
    ensures var s, t := Run(ms, INIT, input), Run(ms, INIT, WithoutBackspaces(input));
      s.calls == t.calls && s.handed == t.handed
  {
    BackspacesStayClose(ms, INIT, INIT, input);
  }
}
