/** The parser as the program states it: fields updated in place, a loop over the matchers
    and a loop over the complete lines, proved against the function on states. */
module Parser {
  import opened ParserSpec
  import opened ParserCalls

  /** The answer to the character after the first k stops the parser. */
  predicate StopsAt(ms: seq<Matcher>, s: State, input: string, k: nat)
    requires k < |input|
  {
    var r := Parse(ms, ParserSpec.Run(ms, s, input[..k]), input[k]);
    r.verdict.Done? || r.error
  }

  lemma {:induction false} HandleFromReadsNoLines(ms: seq<Matcher>, k: nat, s: State, lines: seq<string>, text: string, verdict: Verdict, error: bool)
    ensures var r := HandleFrom(ms, k, s, text, true, verdict, error);
      HandleFrom(ms, k, s.(lines := lines), text, true, verdict, error)
      == Reply(r.state.(lines := lines), r.verdict, r.error)
    decreases |ms| - k
  {
    if k >= |ms| {
    } else {
      if !ms[k].matches(text, true) {
        HandleFromReadsNoLines(ms, k + 1, s, lines, text, verdict, error);
      } else {
        var call := Call(k, text, true);
        var (v, e) := ms[k].handle(s.calls, call, error);
        if v == More {
          HandleFromReadsNoLines(ms, k + 1, s.(calls := s.calls + [call]), lines, text, v, e);
        }
      }
    }
  }

  lemma {:induction false} RunSnoc(ms: seq<Matcher>, s: State, input: string, c: char)
    ensures ParserSpec.Run(ms, s, input + [c]) == Parse(ms, ParserSpec.Run(ms, s, input), c).state
    decreases |input|
  {
    if input == "" {
      assert "" + [c] == [c] && [c][1..] == "";
    } else {
      assert (input + [c])[1..] == input[1..] + [c];
      RunSnoc(ms, Parse(ms, s, input[0]).state, input[1..], c);
    }
  }

  class Parser {
    const matchers: seq<Matcher>
    var cr: bool
    var skip: bool
    var line: string
    var lines: seq<string>
    /** The lines handed over as complete, and the handler calls made. */
    var handed: seq<string>
    var calls: seq<Call>

    function View(): State
      reads this
    {
      State(cr, skip, line, lines, handed, calls)
    }

    constructor (matchers: seq<Matcher>)
      ensures View() == INIT && this.matchers == matchers
    {
      this.matchers := matchers;
      cr, skip, line, lines, handed, calls := false, false, "", [], [], [];
    }

    /** The description of `handle`, for the state before it. */
    lemma HandleDescribed(text: string, eol: bool, error: bool)
      ensures var r := ParserSpec.Handle(matchers, View(), text, eol, error);
        && calls <= r.state.calls
        && Handled(matchers, calls, text, eol, error, r.state.calls[|calls|..], (r.verdict, r.error))
    {
      var r := ParserSpec.Handle(matchers, View(), text, eol, error);
      HandleOnlyCalls(matchers, 0, View(), text, eol, Unmatched, error);
      var added := r.state.calls[|calls|..];
      assert r.state.calls == calls + added;
      HandleCalls(matchers, View(), text, eol, error, added, (r.verdict, r.error));
    }

    /** `handle`. The handlers it calls, their order and the answer are as described. */
    method Handle(text: string, eol: bool, error0: bool) returns (verdict: Verdict, error: bool)
      modifies this`calls
      ensures Reply(View(), verdict, error) == ParserSpec.Handle(matchers, old(View()), text, eol, error0)
      ensures old(calls) <= calls
      ensures Handled(matchers, old(calls), text, eol, error0, calls[|old(calls)|..], (verdict, error))
    {
      HandleDescribed(text, eol, error0);
      verdict, error := Unmatched, error0;
      for k := 0 to |matchers|
        invariant HandleFrom(matchers, k, View(), text, eol, verdict, error)
               == HandleFrom(matchers, 0, old(View()), text, eol, Unmatched, error0)
      {
        if matchers[k].matches(text, eol) {
          var call := Call(k, text, eol);
          var answer := matchers[k].handle(calls, call, error);
          verdict, error, calls := answer.0, answer.1, calls + [call];
          if verdict != More {
            return;
          }
        }
      }
    }

    /** What happens at the end of a line: it is kept unless it is blank. */
    method EndLine()
      modifies this`lines, this`line, this`cr
      ensures View() == ParserSpec.EndLine(old(View()))
    {
      if !Blank(line) {
        lines := lines + [line];
      }
      line, cr := "", false;
    }

    /** Handlers do not see the pending lines. */
    lemma HandleReadsNoLines(s: State, lines: seq<string>, text: string)
      ensures var r := ParserSpec.Handle(matchers, s, text, true, false);
        ParserSpec.Handle(matchers, s.(lines := lines), text, true, false)
        == Reply(r.state.(lines := lines), r.verdict, r.error)
    {
      HandleFromReadsNoLines(matchers, 0, s, lines, text, Unmatched, false);
    }

    /** The loop over the complete lines; those handed over are erased. */
    method HandleLines() returns (stopped: bool, error: bool)
      modifies this`calls, this`handed, this`lines
      ensures var r := ParserSpec.HandleLines(matchers, old(View()));
        View() == r.state && error == r.error && (stopped <==> r.verdict.Done?)
    {
      error := false;
      var i, end := 0, lines;
      while i < |end|
        invariant 0 <= i <= |end| && lines == end && !error
        invariant ParserSpec.HandleLines(matchers, View().(lines := end[i..]))
               == ParserSpec.HandleLines(matchers, old(View()))
      {
        var verdict;
        HandleReadsNoLines(View().(handed := handed + [end[i]]), end[i..], end[i]);
        handed := handed + [end[i]];
        verdict, error := Handle(end[i], true, false);
        i := i + 1;
        assert end[i - 1..][1..] == end[i..];
        if verdict.Done? || error {
          lines := end[i..];
          return true, error;
        }
      }
      lines := [];
      return false, false;
    }

    lemma ParseDescribed(c: char)
      ensures var r := ParserSpec.Parse(matchers, View(), c);
        && (!Ordinary(View(), c) ==> r.state.calls == calls && r.state.handed == handed && r.verdict == Unmatched && !r.error)
        && (Ordinary(View(), c) ==> r.verdict.Done? || r.state.lines == [])
        && (Ordinary(View(), c) ==> exists d :: Accepted(matchers, WithChar(View(), c), r, d))
    {
      if Ordinary(View(), c) {
        var d := ParseAccepts(matchers, View(), c);
      } else {
        ParseCallsNobody(matchers, View(), c);
      }
    }

    /** The body of `parse`. */
    method Step(c: char) returns (verdict: Verdict, error: bool)
      modifies this
      ensures Reply(View(), verdict, error) == ParserSpec.Parse(matchers, old(View()), c)
    {
      error := false;
      if skip {
        if c == '\n' {
          skip := false;
        }
        return Unmatched, false;
      }
      if c == '\n' {
        EndLine();
        return Unmatched, false;
      }
      if cr {
        EndLine();
      }
      if c == '\r' {
        cr := true;
        return Unmatched, false;
      }
      if c == BACKSPACE {
        return Unmatched, false;
      }
      line := line + [c];
      var stopped;
      ghost var accepted := View();
      HandleLinesInOrder(matchers, accepted);
      stopped, error := HandleLines();
      if stopped {
        return Done, error;
      }
      if Blank(line) {
        return Unmatched, false;
      }
      verdict, error := Handle(line, false, false);
      if verdict.Done? || error {
        return Done, error;
      }
      match verdict
      case More => skip, line := true, "";
      case Skip => skip, line := true, "";
      case Next => line := "";
      case _ =>
    }

    /** `parse`. The lines pending are handed over before the current one is tried, and none is
        left unless something has stopped the parser. */
    method Parse(c: char) returns (verdict: Verdict, error: bool)
      modifies this
      ensures Reply(View(), verdict, error) == ParserSpec.Parse(matchers, old(View()), c)
      ensures !Ordinary(old(View()), c) ==> calls == old(calls) && handed == old(handed) && verdict == Unmatched && !error
      ensures Ordinary(old(View()), c) ==> verdict.Done? || lines == []
      ensures Ordinary(old(View()), c) ==>
                exists d :: Accepted(matchers, WithChar(old(View()), c), Reply(View(), verdict, error), d)
    {
      ParseDescribed(c);
      verdict, error := Step(c);
    }

    /** `run`, over a stream that delivers these characters: it stops at the first one that is
        answered with `Done` or an error, and says how many characters it consumed. */
    method Run(input: string) returns (consumed: nat, stopped: bool)
      modifies this
      ensures consumed <= |input| && View() == ParserSpec.Run(matchers, old(View()), input[..consumed])
      ensures stopped ==> consumed > 0 && StopsAt(matchers, old(View()), input, consumed - 1)
      ensures !stopped ==> consumed == |input|
      ensures forall k :: 0 <= k < consumed - (if stopped then 1 else 0) ==> !StopsAt(matchers, old(View()), input, k)
    {
      consumed := 0;
      assert input[..0] == "";
      while consumed < |input|
        invariant consumed <= |input| && View() == ParserSpec.Run(matchers, old(View()), input[..consumed])
        invariant forall k :: 0 <= k < consumed ==> !StopsAt(matchers, old(View()), input, k)
      {
        RunSnoc(matchers, old(View()), input[..consumed], input[consumed]);
        assert input[..consumed + 1] == input[..consumed] + [input[consumed]];
        var verdict, error := Parse(input[consumed]);
        consumed := consumed + 1;
        if verdict.Done? || error {
          return consumed, true;
        }
      }
      assert input[..|input|] == input;
      return consumed, false;
    }
  }
}
