/** The incremental parser as a function of its state and one character. Regular
    expressions and handlers are arbitrary: a matcher is any predicate on the line and the
    end-of-line flag together with any function of the calls made so far. */
module ParserSpec {

  datatype Verdict = Unmatched | More | Skip | Next | Done

  datatype Call = Call(matcher: nat, line: string, eol: bool)

  /** `handle` sees every earlier call, the call itself and the error flag, and answers with
      a verdict and the error flag it leaves behind. */
  datatype Matcher = Matcher(matches: (string, bool) -> bool, handle: (seq<Call>, Call, bool) -> (Verdict, bool))

  datatype State = State(
    cr: bool,              // cr_
    skip: bool,            // skip_
    line: string,          // line_
    lines: seq<string>,    // lines_
    handed: seq<string>,   // lines given to handle(., true) so far
    calls: seq<Call>)      // handler calls so far

  datatype Reply = Reply(state: State, verdict: Verdict, error: bool)

  const INIT := State(false, false, "", [], [], [])

  /** The characters a blank line may consist of: space, \t, \v, \b, \f, \a. */
  predicate IsBlankChar(c: char) {
    c in {' ', '\t', '\U{0B}', '\U{08}', '\U{0C}', '\U{07}'}
  }

  const BACKSPACE: char := '\U{08}'

  predicate Blank(line: string) {
    forall i :: 0 <= i < |line| ==> IsBlankChar(line[i])
  }

  lemma CodeOf(c: char)
    ensures IsBlankChar(c) <==> c as int in {7, 8, 9, 11, 12, 32}
  {
    if c as int in {7, 8, 9, 11, 12, 32} {
      assert (c as int) as char == c;
    }
  }

  /** By their codes: bell, backspace, both tabs, form feed and space, and nothing else. */
  lemma BlankCodes(line: string)
    ensures Blank(line) <==> forall i :: 0 <= i < |line| ==> line[i] as int in {7, 8, 9, 11, 12, 32}
    ensures BACKSPACE as int == 8
  {
    forall c: char
      ensures IsBlankChar(c) <==> c as int in {7, 8, 9, 11, 12, 32}
    {
      CodeOf(c);
    }
  }

  /** `handle`, from matcher k on: handlers are called until one does not answer `More`. */
  function HandleFrom(ms: seq<Matcher>, k: nat, s: State, line: string, eol: bool, verdict: Verdict, error: bool): Reply
    decreases |ms| - k
  {
    if k >= |ms| then Reply(s, verdict, error)
    else if !ms[k].matches(line, eol) then HandleFrom(ms, k + 1, s, line, eol, verdict, error)
    else
      var call := Call(k, line, eol);
      var (v, e) := ms[k].handle(s.calls, call, error);
      var t := s.(calls := s.calls + [call]);
      if v != More then Reply(t, v, e) else HandleFrom(ms, k + 1, t, line, eol, v, e)
  }

  function Handle(ms: seq<Matcher>, s: State, line: string, eol: bool, error: bool): Reply {
    HandleFrom(ms, 0, s, line, eol, Unmatched, error)
  }

  /** Complete lines are handed over in order, until a handler stops the parser or fails. */
  function HandleLines(ms: seq<Matcher>, s: State): Reply
    decreases |s.lines|
  {
    if s.lines == [] then Reply(s, Unmatched, false)
    else
      var line := s.lines[0];
      var r := Handle(ms, s.(handed := s.handed + [line]), line, true, false);
      var t := r.state.(lines := s.lines[1..]);
      if r.verdict.Done? || r.error then Reply(t, Done, r.error) else HandleLines(ms, t)
  }

  /** The end of a line: blank lines are dropped. */
  function EndLine(s: State): State {
    s.(lines := if Blank(s.line) then s.lines else s.lines + [s.line], line := "", cr := false)
  }

  /** What a partial match does to the current line. */
  function Partial(ms: seq<Matcher>, s: State): Reply {
    var r := Handle(ms, s, s.line, false, false);
    if r.verdict.Done? || r.error then Reply(r.state, Done, r.error)
    else match r.verdict
      case Unmatched => r
      case Next => r.(state := r.state.(line := ""))
      case _ => r.(state := r.state.(line := "", skip := true))
  }

  function Accept(ms: seq<Matcher>, s: State): Reply {
    var r := HandleLines(ms, s);
    if r.verdict.Done? then r
    else if Blank(r.state.line) then Reply(r.state, Unmatched, false)
    else Partial(ms, r.state)
  }

  /** A character that becomes part of a line. */
  predicate Ordinary(s: State, c: char) {
    !s.skip && c != '\n' && c != '\r' && c != BACKSPACE
  }

  function Parse(ms: seq<Matcher>, s: State, c: char): Reply {
    if s.skip then Reply(s.(skip := c != '\n'), Unmatched, false)
    else if c == '\n' then Reply(EndLine(s), Unmatched, false)
    else
      var t := if s.cr then EndLine(s) else s;
      if c == '\r' then Reply(t.(cr := true), Unmatched, false)
      else if c == BACKSPACE then Reply(t, Unmatched, false)
      else Accept(ms, t.(line := t.line + [c]))
  }

  /** A run over an input, whatever the verdicts are. */
  function Run(ms: seq<Matcher>, s: State, input: string): State
    decreases |input|
  {
    if input == "" then s else Run(ms, Parse(ms, s, input[0]).state, input[1..])
  }

  // What handlers can and cannot touch -------------------------------------

  lemma {:induction false} HandleOnlyCalls(ms: seq<Matcher>, k: nat, s: State, line: string, eol: bool, verdict: Verdict, error: bool)
    ensures var r := HandleFrom(ms, k, s, line, eol, verdict, error);
      s.calls <= r.state.calls && r.state == s.(calls := r.state.calls)
    decreases |ms| - k
  {
    if k >= |ms| {
    } else {
      if !ms[k].matches(line, eol) {
        HandleOnlyCalls(ms, k + 1, s, line, eol, verdict, error);
      } else {
        var call := Call(k, line, eol);
        var (v, e) := ms[k].handle(s.calls, call, error);
        if v == More {
          HandleOnlyCalls(ms, k + 1, s.(calls := s.calls + [call]), line, eol, v, e);
        }
      }
    }
  }

  /** Handing over moves lines from the front of `lines` to the end of `handed`, in order. */
  lemma {:induction false} HandleLinesInOrder(ms: seq<Matcher>, s: State)
    ensures var r := HandleLines(ms, s);
      && r.state.handed + r.state.lines == s.handed + s.lines
      && r.state.line == s.line && r.state.cr == s.cr && r.state.skip == s.skip
      && s.calls <= r.state.calls
      && (!r.verdict.Done? ==> r.state.lines == [])
      && (r.verdict.Done? || r.verdict.Unmatched?)
    decreases |s.lines|
  {
    if s.lines != [] {
      var line := s.lines[0];
      var h := s.(handed := s.handed + [line]);
      HandleOnlyCalls(ms, 0, h, line, true, Unmatched, false);
      var r := Handle(ms, h, line, true, false);
      var t := r.state.(lines := s.lines[1..]);
      assert t.handed + t.lines == s.handed + s.lines;
      if !(r.verdict.Done? || r.error) {
        HandleLinesInOrder(ms, t);
      }
    }
  }
}
