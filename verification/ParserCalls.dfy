/** Which handlers one character calls, in which order and with what effect: a description by
    the list of calls alone, and the proof that the parser meets it. */
module ParserCalls {
  import opened ParserSpec

  // One line through `handle` -------------------------------------------------

  /** What the i-th of these calls was answered: it was told of the calls before it, and of the
      error flag the call before it left behind. */
  function Answer(ms: seq<Matcher>, before: seq<Call>, error: bool, calls: seq<Call>, i: nat): (Verdict, bool)
    requires i < |calls| && forall j :: 0 <= j < |calls| ==> calls[j].matcher < |ms|
  {
    ms[calls[i].matcher].handle(before + calls[..i], calls[i],
                                if i == 0 then error else Answer(ms, before, error, calls, i - 1).1)
  }

  /** Calls of matching matchers for this line, in the order of the matchers. */
  ghost predicate InTurn(ms: seq<Matcher>, line: string, eol: bool, calls: seq<Call>) {
    && (forall i :: 0 <= i < |calls| ==>
          calls[i].line == line && calls[i].eol == eol && calls[i].matcher < |ms| && ms[calls[i].matcher].matches(line, eol))
    && (forall i, j :: 0 <= i < j < |calls| ==> calls[i].matcher < calls[j].matcher)
  }

  ghost predicate Called(calls: seq<Call>, k: nat) {
    exists i :: 0 <= i < |calls| && calls[i].matcher == k
  }

  /** Every matching matcher from `low` on and below `high` was called. */
  ghost predicate NoneLeftOut(ms: seq<Matcher>, line: string, eol: bool, calls: seq<Call>, low: nat, high: nat) {
    forall k :: low <= k < high && k < |ms| && ms[k].matches(line, eol) ==> Called(calls, k)
  }

  /** The same from matcher `low` on, with `so_far` as the answer up to there. */
  ghost predicate HandledFrom(ms: seq<Matcher>, low: nat, before: seq<Call>, line: string, eol: bool, so_far: (Verdict, bool),
                              calls: seq<Call>, answer: (Verdict, bool))
  {
    && InTurn(ms, line, eol, calls) && (calls != [] ==> calls[0].matcher >= low)
    && (calls != [] ==> NoneLeftOut(ms, line, eol, calls, low, calls[|calls| - 1].matcher))
    && (forall i :: 0 <= i < |calls| - 1 ==> Answer(ms, before, so_far.1, calls, i).0 == More)
    && (calls == [] || answer.0 == More ==> NoneLeftOut(ms, line, eol, calls, low, |ms|))
    && answer == if calls == [] then so_far else Answer(ms, before, so_far.1, calls, |calls| - 1)
  }

  /** `handle` made these calls, and ended with this verdict and error flag: matching matchers
      are called in turn, none is left out, one that does not answer `More` is the last, and
      otherwise all are called; the last answer counts. */
  ghost predicate Handled(ms: seq<Matcher>, before: seq<Call>, line: string, eol: bool, error: bool,
                          calls: seq<Call>, answer: (Verdict, bool))
  {
    HandledFrom(ms, 0, before, line, eol, (Unmatched, error), calls, answer)
  }

  lemma {:induction false} AnswerLater(ms: seq<Matcher>, before: seq<Call>, error: bool, first: Call, rest: seq<Call>, i: nat)
    requires i < |rest| && first.matcher < |ms| && forall j :: 0 <= j < |rest| ==> rest[j].matcher < |ms|
    ensures var calls := [first] + rest;
      var told := ms[first.matcher].handle(before, first, error).1;
      && (forall j :: 0 <= j < |calls| ==> calls[j].matcher < |ms|)
      && Answer(ms, before, error, calls, i + 1) == Answer(ms, before + [first], told, rest, i)
  {
    var calls := [first] + rest;
    assert forall j :: 0 < j < |calls| ==> calls[j] == rest[j - 1];
    assert before + calls[..i + 1] == before + [first] + rest[..i];
    if i == 0 {
      assert before + calls[..0] == before;
      assert Answer(ms, before, error, calls, 0) == ms[first.matcher].handle(before, first, error);
    } else {
      AnswerLater(ms, before, error, first, rest, i - 1);
    }
  }

  /** A matcher that does not match makes no difference. */
  lemma HandledSkip(ms: seq<Matcher>, low: nat, before: seq<Call>, line: string, eol: bool, so_far: (Verdict, bool),
                    calls: seq<Call>, answer: (Verdict, bool))
    requires low < |ms| && !ms[low].matches(line, eol)
    ensures HandledFrom(ms, low + 1, before, line, eol, so_far, calls, answer)
       <==> HandledFrom(ms, low, before, line, eol, so_far, calls, answer)
  {
  }

  lemma CalledLater(first: Call, rest: seq<Call>, k: nat)
    ensures Called([first] + rest, k) <==> k == first.matcher || Called(rest, k)
  {
    var calls := [first] + rest;
    if k == first.matcher {
      assert calls[0].matcher == k;
    }
    if Called(rest, k) {
      var i :| 0 <= i < |rest| && rest[i].matcher == k;
      assert calls[i + 1].matcher == k;
    }
  }

  /** What the first call was answered. */
  function Told(ms: seq<Matcher>, before: seq<Call>, error: bool, first: Call): (Verdict, bool)
    requires first.matcher < |ms|
  {
    ms[first.matcher].handle(before, first, error)
  }

  lemma InTurnMore(ms: seq<Matcher>, line: string, eol: bool, low: nat, rest: seq<Call>)
    requires low < |ms| && ms[low].matches(line, eol)
    requires InTurn(ms, line, eol, rest) && (rest != [] ==> rest[0].matcher > low)
    ensures InTurn(ms, line, eol, [Call(low, line, eol)] + rest)
  {
    var calls := [Call(low, line, eol)] + rest;
    assert forall i :: 0 < i < |calls| ==> calls[i] == rest[i - 1];
    assert forall i :: 0 < i < |rest| ==> rest[0].matcher < rest[i].matcher;
  }

  lemma NoneLeftOutMore(ms: seq<Matcher>, line: string, eol: bool, low: nat, rest: seq<Call>, high: nat)
    requires NoneLeftOut(ms, line, eol, rest, low + 1, high)
    ensures NoneLeftOut(ms, line, eol, [Call(low, line, eol)] + rest, low, high)
  {
    forall k | low <= k < high && k < |ms| && ms[k].matches(line, eol)
      ensures Called([Call(low, line, eol)] + rest, k)
    {
      CalledLater(Call(low, line, eol), rest, k);
    }
  }

  /** The first answer, and the later ones, when there is one more call in front. */
  lemma AnswersMore(ms: seq<Matcher>, before: seq<Call>, error: bool, first: Call, rest: seq<Call>)
    requires first.matcher < |ms| && forall j :: 0 <= j < |rest| ==> rest[j].matcher < |ms|
    ensures var calls := [first] + rest;
      && (forall j :: 0 <= j < |calls| ==> calls[j].matcher < |ms|)
      && Answer(ms, before, error, calls, 0) == Told(ms, before, error, first)
      && forall i :: 0 <= i < |rest| ==>
           Answer(ms, before, error, calls, i + 1)
           == Answer(ms, before + [first], Told(ms, before, error, first).1, rest, i)
  {
    var calls := [first] + rest;
    assert before + calls[..0] == before;
    assert forall j :: 0 < j < |calls| ==> calls[j] == rest[j - 1];
    forall i | 0 <= i < |rest|
      ensures Answer(ms, before, error, calls, i + 1)
           == Answer(ms, before + [first], Told(ms, before, error, first).1, rest, i)
    {
      AnswerLater(ms, before, error, first, rest, i);
    }
  }

  /** After a call that was answered `More`, the rest is handled as from the next matcher on. */
  lemma HandledMore(ms: seq<Matcher>, low: nat, before: seq<Call>, line: string, eol: bool, so_far: (Verdict, bool),
                    rest: seq<Call>, answer: (Verdict, bool))
    requires low < |ms| && ms[low].matches(line, eol)
    requires Told(ms, before, so_far.1, Call(low, line, eol)).0 == More
    requires HandledFrom(ms, low + 1, before + [Call(low, line, eol)], line, eol,
                         Told(ms, before, so_far.1, Call(low, line, eol)), rest, answer)
    ensures HandledFrom(ms, low, before, line, eol, so_far, [Call(low, line, eol)] + rest, answer)
  {
    var first := Call(low, line, eol);
    var calls := [first] + rest;
    InTurnMore(ms, line, eol, low, rest);
    AnswersMore(ms, before, so_far.1, first, rest);
    forall i | 0 <= i < |calls| - 1
      ensures Answer(ms, before, so_far.1, calls, i).0 == More
    {
      if i > 0 {
        assert Answer(ms, before, so_far.1, calls, (i - 1) + 1)
            == Answer(ms, before + [first], Told(ms, before, so_far.1, first).1, rest, i - 1);
      }
    }
    if rest == [] {
      NoneLeftOutMore(ms, line, eol, low, rest, |ms|);
    } else {
      assert calls[|calls| - 1] == rest[|rest| - 1];
      NoneLeftOutMore(ms, line, eol, low, rest, rest[|rest| - 1].matcher);
      if answer.0 == More {
        NoneLeftOutMore(ms, line, eol, low, rest, |ms|);
      }
      assert Answer(ms, before, so_far.1, calls, (|rest| - 1) + 1)
          == Answer(ms, before + [first], Told(ms, before, so_far.1, first).1, rest, |rest| - 1);
    }
  }

  lemma HandledLast(ms: seq<Matcher>, low: nat, before: seq<Call>, line: string, eol: bool, so_far: (Verdict, bool))
    requires low < |ms| && ms[low].matches(line, eol)
    requires Told(ms, before, so_far.1, Call(low, line, eol)).0 != More
    ensures HandledFrom(ms, low, before, line, eol, so_far, [Call(low, line, eol)],
                        Told(ms, before, so_far.1, Call(low, line, eol)))
  {
    assert before + [Call(low, line, eol)][..0] == before;
  }

  lemma FirstApart<T>(a: seq<T>, b: seq<T>)
    requires b != []
    ensures a + [b[0]] + b[1..] == a + b
  {
  }

  lemma HandledEmpty(ms: seq<Matcher>, k: nat, before: seq<Call>, line: string, eol: bool, so_far: (Verdict, bool))
    requires k >= |ms|
    ensures HandledFrom(ms, k, before, line, eol, so_far, [], so_far)
  {
  }

  /** How `handle` goes on after the call of matcher k. */
  lemma HandleFromCall(ms: seq<Matcher>, k: nat, s: State, line: string, eol: bool, verdict: Verdict, error: bool)
    requires k < |ms| && ms[k].matches(line, eol)
    ensures var call := Call(k, line, eol);
      var told, t := Told(ms, s.calls, error, call), s.(calls := s.calls + [call]);
      HandleFrom(ms, k, s, line, eol, verdict, error)
      == if told.0 != More then Reply(t, told.0, told.1) else HandleFrom(ms, k + 1, t, line, eol, told.0, told.1)
  {
  }

  lemma CalledMore(ms: seq<Matcher>, k: nat, s: State, line: string, eol: bool, verdict: Verdict, error: bool, r: Reply, rest: seq<Call>)
    requires k < |ms| && ms[k].matches(line, eol) && Told(ms, s.calls, error, Call(k, line, eol)).0 == More
    requires r.state.calls == s.calls + [Call(k, line, eol)] + rest
    requires HandledFrom(ms, k + 1, s.calls + [Call(k, line, eol)], line, eol,
                         Told(ms, s.calls, error, Call(k, line, eol)), rest, (r.verdict, r.error))
    ensures r.state.calls == s.calls + ([Call(k, line, eol)] + rest)
    ensures HandledFrom(ms, k, s.calls, line, eol, (verdict, error), [Call(k, line, eol)] + rest, (r.verdict, r.error))
  {
    HandledMore(ms, k, s.calls, line, eol, (verdict, error), rest, (r.verdict, r.error));
    FirstApart(s.calls, [Call(k, line, eol)] + rest);
  }

  lemma {:induction false} HandleFromCalls(ms: seq<Matcher>, k: nat, s: State, line: string, eol: bool, verdict: Verdict, error: bool)
    returns (calls: seq<Call>)
    ensures var r := HandleFrom(ms, k, s, line, eol, verdict, error);
      r.state.calls == s.calls + calls && HandledFrom(ms, k, s.calls, line, eol, (verdict, error), calls, (r.verdict, r.error))
    decreases |ms| - k
  {
    var r := HandleFrom(ms, k, s, line, eol, verdict, error);
    if k >= |ms| {
      calls := [];
      HandledEmpty(ms, k, s.calls, line, eol, (verdict, error));
    } else if !ms[k].matches(line, eol) {
      calls := HandleFromCalls(ms, k + 1, s, line, eol, verdict, error);
      HandledSkip(ms, k, s.calls, line, eol, (verdict, error), calls, (r.verdict, r.error));
    } else {
      var call := Call(k, line, eol);
      var told := Told(ms, s.calls, error, call);
      HandleFromCall(ms, k, s, line, eol, verdict, error);
      if told.0 != More {
        calls := [call];
        HandledLast(ms, k, s.calls, line, eol, (verdict, error));
      } else {
        var rest := HandleFromCalls(ms, k + 1, s.(calls := s.calls + [call]), line, eol, told.0, told.1);
        calls := [call] + rest;
        CalledMore(ms, k, s, line, eol, verdict, error, r, rest);
      }
    }
  }

  /** A matcher that matches is called first. */
  lemma FirstIsCalled(ms: seq<Matcher>, low: nat, before: seq<Call>, line: string, eol: bool, so_far: (Verdict, bool),
                      calls: seq<Call>, answer: (Verdict, bool))
    requires low < |ms| && ms[low].matches(line, eol)
    requires HandledFrom(ms, low, before, line, eol, so_far, calls, answer)
    ensures calls != [] && calls[0] == Call(low, line, eol)
  {
    if calls == [] || calls[0].matcher > low {
      assert Called(calls, low);
    }
  }

  lemma NoneLeftOutRest(ms: seq<Matcher>, line: string, eol: bool, first: Call, rest: seq<Call>, high: nat)
    requires NoneLeftOut(ms, line, eol, [first] + rest, first.matcher, high)
    ensures NoneLeftOut(ms, line, eol, rest, first.matcher + 1, high)
  {
    forall k | first.matcher + 1 <= k < high && k < |ms| && ms[k].matches(line, eol)
      ensures Called(rest, k)
    {
      CalledLater(first, rest, k);
    }
  }

  /** What comes after it is as its answer says. */
  lemma HandledRest(ms: seq<Matcher>, before: seq<Call>, line: string, eol: bool, so_far: (Verdict, bool),
                    first: Call, rest: seq<Call>, answer: (Verdict, bool))
    requires HandledFrom(ms, first.matcher, before, line, eol, so_far, [first] + rest, answer)
    ensures first.matcher < |ms|
    ensures var told := Told(ms, before, so_far.1, first);
      if told.0 == More then HandledFrom(ms, first.matcher + 1, before + [first], line, eol, told, rest, answer)
      else rest == [] && answer == told
  {
    var calls := [first] + rest;
    assert calls[0] == first && forall i :: 0 <= i < |rest| ==> rest[i] == calls[i + 1];
    AnswersMore(ms, before, so_far.1, first, rest);
    if Told(ms, before, so_far.1, first).0 == More {
      NoneLeftOutRest(ms, line, eol, first, rest, calls[|calls| - 1].matcher);
      if rest == [] || answer.0 == More {
        NoneLeftOutRest(ms, line, eol, first, rest, |ms|);
      }
    }
  }

  /** Both together. */
  lemma HandledFirst(ms: seq<Matcher>, low: nat, before: seq<Call>, line: string, eol: bool, so_far: (Verdict, bool),
                     calls: seq<Call>, answer: (Verdict, bool)) returns (rest: seq<Call>)
    requires low < |ms| && ms[low].matches(line, eol)
    requires HandledFrom(ms, low, before, line, eol, so_far, calls, answer)
    ensures calls == [Call(low, line, eol)] + rest
    ensures var first := Call(low, line, eol);
      var told := Told(ms, before, so_far.1, first);
      if told.0 == More then HandledFrom(ms, low + 1, before + [first], line, eol, told, rest, answer)
      else rest == [] && answer == told
  {
    FirstIsCalled(ms, low, before, line, eol, so_far, calls, answer);
    rest := calls[1..];
    assert calls == [calls[0]] + rest;
    HandledRest(ms, before, line, eol, so_far, calls[0], rest, answer);
  }

  /** The description leaves no choice: it determines the calls and the answer. */
  lemma {:induction false} HandledOneWay(ms: seq<Matcher>, low: nat, s: State, line: string, eol: bool, verdict: Verdict, error: bool,
                                         calls: seq<Call>, answer: (Verdict, bool))
    requires HandledFrom(ms, low, s.calls, line, eol, (verdict, error), calls, answer)
    ensures var r := HandleFrom(ms, low, s, line, eol, verdict, error);
      r.state.calls == s.calls + calls && (r.verdict, r.error) == answer
    decreases |ms| - low
  {
    if low >= |ms| {
      assert calls == [];
      assert s.calls + calls == s.calls;
    } else if !ms[low].matches(line, eol) {
      HandledSkip(ms, low, s.calls, line, eol, (verdict, error), calls, answer);
      HandledOneWay(ms, low + 1, s, line, eol, verdict, error, calls, answer);
    } else {
      var rest := HandledFirst(ms, low, s.calls, line, eol, (verdict, error), calls, answer);
      var first := Call(low, line, eol);
      var told := Told(ms, s.calls, error, first);
      if told.0 == More {
        HandledOneWay(ms, low + 1, s.(calls := s.calls + [first]), line, eol, told.0, told.1, rest, answer);
        FirstApart(s.calls, calls);
      }
    }
  }

  /** `handle` on any state: the calls it adds and its answer are the ones described. */
  lemma HandleCalls(ms: seq<Matcher>, s: State, line: string, eol: bool, error: bool, calls: seq<Call>, answer: (Verdict, bool))
    ensures var r := Handle(ms, s, line, eol, error);
      r.state.calls == s.calls + calls && (r.verdict, r.error) == answer
      <==> Handled(ms, s.calls, line, eol, error, calls, answer)
  {
    var r := Handle(ms, s, line, eol, error);
    var added := HandleFromCalls(ms, 0, s, line, eol, Unmatched, error);
    if r.state.calls == s.calls + calls && (r.verdict, r.error) == answer {
      assert calls == (s.calls + calls)[|s.calls|..] == added;
    }
    if Handled(ms, s.calls, line, eol, error, calls, answer) {
      HandledOneWay(ms, 0, s, line, eol, Unmatched, error, calls, answer);
    }
  }

  // One character through `parse` ---------------------------------------------

  function Flat(cuts: seq<seq<Call>>): seq<Call> {
    if cuts == [] then [] else cuts[0] + Flat(cuts[1..])
  }

  predicate Stops(answer: (Verdict, bool)) {
    answer.0.Done? || answer.1
  }

  /** The calls and the answer of each complete line handed over, and those of the current line. */
  datatype Delivery = Delivery(cuts: seq<seq<Call>>, answers: seq<(Verdict, bool)>, last: seq<Call>, answer: (Verdict, bool))

  predicate Stopped(d: Delivery) {
    d.answers != [] && Stops(d.answers[|d.answers| - 1])
  }

  /** What it is for a line to make these calls and get this answer, after the calls before. */
  type Handling = (seq<Call>, string, seq<Call>, (Verdict, bool)) -> bool

  ghost function Through(ms: seq<Matcher>, eol: bool): Handling {
    (before, line, calls, answer) => Handled(ms, before, line, eol, false, calls, answer)
  }

  /** The pending lines were handled in order, up to the first that stopped, or all of them. */
  ghost predicate Delivered(h: Handling, before: seq<Call>, lines: seq<string>, d: Delivery) {
    && |d.cuts| == |d.answers| <= |lines|
    && (forall i :: 0 <= i < |d.cuts| ==> h(before + Flat(d.cuts[..i]), lines[i], d.cuts[i], d.answers[i]))
    && (forall i :: 0 <= i < |d.answers| - 1 ==> !Stops(d.answers[i]))
    && (|d.cuts| < |lines| ==> Stopped(d))
  }

  /** The current line was handled too, if it is not blank and no other line has stopped. */
  ghost predicate Tried(h: Handling, before: seq<Call>, line: string, d: Delivery) {
    if Stopped(d) || Blank(line) then d.last == [] && d.answer == (Unmatched, false)
    else h(before + Flat(d.cuts), line, d.last, d.answer)
  }

  /** What the parser answers. */
  predicate Answered(r: Reply, d: Delivery) {
    if Stopped(d) then r.verdict == Done && r.error == d.answers[|d.answers| - 1].1
    else r.verdict == (if Stops(d.answer) then Done else d.answer.0) && r.error == d.answer.1
  }

  /** What becomes of the current line. */
  predicate Consumed(s: State, t: State, d: Delivery) {
    if !Stopped(d) && !Stops(d.answer) && d.answer.0 in {More, Skip, Next}
    then t.line == "" && (t.skip <==> s.skip || !d.answer.0.Next?)
    else t.line == s.line && t.skip == s.skip
  }

  /** `parse` has accepted a character, with `s` as the state in which the current line ends in
      it: complete lines go first, with the end-of-line flag, then the current line without. */
  ghost predicate Accepted(ms: seq<Matcher>, s: State, r: Reply, d: Delivery) {
    && Delivered(Through(ms, true), s.calls, s.lines, d) && Tried(Through(ms, false), s.calls, s.line, d)
    && r.state.calls == s.calls + Flat(d.cuts) + d.last
    && r.state.handed == s.handed + s.lines[..|d.cuts|] && r.state.lines == s.lines[|d.cuts|..]
    && r.state.cr == s.cr && Answered(r, d) && Consumed(s, r.state, d)
  }

  /** The current line with one more character, after a pending carriage return has ended the line before. */
  function WithChar(s: State, c: char): State {
    var t := if s.cr then EndLine(s) else s;
    t.(line := t.line + [c])
  }

  const NOTHING := Delivery([], [], [], (Unmatched, false))

  /** The same delivery with one line before all of its lines. */
  function Before(calls: seq<Call>, answer: (Verdict, bool), d: Delivery): Delivery {
    d.(cuts := [calls] + d.cuts, answers := [answer] + d.answers)
  }

  lemma FlatBefore(before: seq<Call>, calls: seq<Call>, cuts: seq<seq<Call>>, i: nat)
    requires i <= |cuts|
    ensures before + Flat(([calls] + cuts)[..i + 1]) == before + calls + Flat(cuts[..i])
  {
    var all := [calls] + cuts;
    assert all[..i + 1][0] == calls && all[..i + 1][1..] == cuts[..i];
  }

  lemma DeliveredBefore(h: Handling, before: seq<Call>, lines: seq<string>, calls: seq<Call>, answer: (Verdict, bool), d: Delivery)
    requires lines != [] && h(before, lines[0], calls, answer) && !Stops(answer)
    requires Delivered(h, before + calls, lines[1..], d)
    ensures Delivered(h, before, lines, Before(calls, answer, d))
    ensures before + Flat(Before(calls, answer, d).cuts) == before + calls + Flat(d.cuts)
    ensures Stopped(Before(calls, answer, d)) <==> Stopped(d)
  {
    var e := Before(calls, answer, d);
    forall i | 0 <= i < |e.cuts|
      ensures h(before + Flat(e.cuts[..i]), lines[i], e.cuts[i], e.answers[i])
    {
      if i == 0 {
        assert before + Flat(e.cuts[..0]) == before;
      } else {
        FlatBefore(before, calls, d.cuts, i - 1);
      }
    }
    FlatBefore(before, calls, d.cuts, |d.cuts|);
    assert e.cuts[..|d.cuts| + 1] == e.cuts && d.cuts[..|d.cuts|] == d.cuts;
  }

  /** The first line stops the parser. */
  lemma DeliveredFirst(h: Handling, before: seq<Call>, lines: seq<string>, calls: seq<Call>, answer: (Verdict, bool))
    requires lines != [] && h(before, lines[0], calls, answer) && Stops(answer)
    ensures Delivered(h, before, lines, Before(calls, answer, NOTHING)) && Stopped(Before(calls, answer, NOTHING))
    ensures before + Flat(Before(calls, answer, NOTHING).cuts) == before + calls
  {
    var d := Before(calls, answer, NOTHING);
    assert before + Flat(d.cuts[..0]) == before;
    assert d.cuts[1..] == [] && calls + [] == calls;
  }

  /** The calls `handle` adds are the ones described. */
  lemma HandleAdds(ms: seq<Matcher>, s: State, line: string, eol: bool) returns (calls: seq<Call>)
    ensures var r := Handle(ms, s, line, eol, false);
      r.state == s.(calls := s.calls + calls) && Through(ms, eol)(s.calls, line, calls, (r.verdict, r.error))
  {
    var r := Handle(ms, s, line, eol, false);
    HandleOnlyCalls(ms, 0, s, line, eol, Unmatched, false);
    calls := HandleFromCalls(ms, 0, s, line, eol, Unmatched, false);
  }

  /** What handing over has done to the state, and its answer. */
  predicate Handing(s: State, r: Reply, d: Delivery) {
    && |d.cuts| <= |s.lines|
    && r.state == s.(calls := s.calls + Flat(d.cuts), handed := s.handed + s.lines[..|d.cuts|], lines := s.lines[|d.cuts|..])
    && d.last == [] && d.answer == (Unmatched, false)
    && if Stopped(d) then r.verdict == Done && r.error == d.answers[|d.answers| - 1].1 else r.verdict == Unmatched && !r.error
  }

  lemma HandingBefore(s: State, calls: seq<Call>, answer: (Verdict, bool), t: State, r: Reply, d: Delivery)
    requires s.lines != [] && t == s.(calls := s.calls + calls, handed := s.handed + [s.lines[0]], lines := s.lines[1..])
    requires Handing(t, r, d) && s.calls + Flat(Before(calls, answer, d).cuts) == s.calls + calls + Flat(d.cuts)
    requires Stopped(Before(calls, answer, d)) <==> Stopped(d)
    ensures Handing(s, r, Before(calls, answer, d))
  {
    var e := Before(calls, answer, d);
    assert t.handed + t.lines[..|d.cuts|] == s.handed + s.lines[..|e.cuts|];
    assert t.lines[|d.cuts|..] == s.lines[|e.cuts|..];
  }

  lemma {:induction false} HandleLinesDelivers(ms: seq<Matcher>, s: State) returns (d: Delivery)
    ensures Delivered(Through(ms, true), s.calls, s.lines, d) && Handing(s, HandleLines(ms, s), d)
    decreases |s.lines|
  {
    if s.lines == [] {
      d := NOTHING;
      assert s.calls + Flat(d.cuts) == s.calls && s.handed + s.lines[..0] == s.handed;
    } else {
      var h := s.(handed := s.handed + [s.lines[0]]);
      var calls := HandleAdds(ms, h, s.lines[0], true);
      var r := Handle(ms, h, s.lines[0], true, false);
      var answer := (r.verdict, r.error);
      if Stops(answer) {
        d := Before(calls, answer, NOTHING);
        DeliveredFirst(Through(ms, true), s.calls, s.lines, calls, answer);
        assert s.lines[..1] == [s.lines[0]];
      } else {
        var t := r.state.(lines := s.lines[1..]);
        var e := HandleLinesDelivers(ms, t);
        d := Before(calls, answer, e);
        DeliveredBefore(Through(ms, true), s.calls, s.lines, calls, answer, e);
        HandingBefore(s, calls, answer, t, HandleLines(ms, t), e);
      }
    }
  }

  lemma TriedNothing(h: Handling, before: seq<Call>, line: string, d: Delivery)
    requires d.last == [] && d.answer == (Unmatched, false) && (Stopped(d) || Blank(line))
    ensures Tried(h, before, line, d) && before + Flat(d.cuts) + d.last == before + Flat(d.cuts)
  {
  }

  /** The complete lines do not care about the current one. */
  lemma SameLines(h: Handling, before: seq<Call>, lines: seq<string>, d: Delivery, last: seq<Call>, answer: (Verdict, bool))
    requires Delivered(h, before, lines, d)
    ensures Delivered(h, before, lines, d.(last := last, answer := answer))
    ensures Stopped(d.(last := last, answer := answer)) <==> Stopped(d)
  {
  }

  lemma PartialAnswers(ms: seq<Matcher>, s: State, v: State, d: Delivery)
    requires !s.skip && !Stopped(d) && v.line == s.line && v.skip == s.skip
    requires var r := Handle(ms, v, v.line, false, false); d.answer == (r.verdict, r.error) && r.state == v.(calls := r.state.calls)
    ensures var r := Partial(ms, v); Answered(r, d) && Consumed(s, r.state, d)
    ensures Partial(ms, v).state.calls == Handle(ms, v, v.line, false, false).state.calls
    ensures var t := Partial(ms, v).state; t.handed == v.handed && t.lines == v.lines && t.cr == v.cr
  {
  }

  lemma PartialAccepts(ms: seq<Matcher>, s: State, d: Delivery) returns (e: Delivery)
    requires Delivered(Through(ms, true), s.calls, s.lines, d) && Handing(s, HandleLines(ms, s), d)
    requires !s.skip && !Stopped(d) && !Blank(s.line)
    ensures Accepted(ms, s, Partial(ms, HandleLines(ms, s).state), e)
  {
    var v := HandleLines(ms, s).state;
    var last := HandleAdds(ms, v, s.line, false);
    var r := Handle(ms, v, s.line, false, false);
    e := d.(last := last, answer := (r.verdict, r.error));
    SameLines(Through(ms, true), s.calls, s.lines, d, last, e.answer);
    PartialAnswers(ms, s, v, e);
  }

  lemma AcceptAccepts(ms: seq<Matcher>, s: State) returns (d: Delivery)
    requires !s.skip
    ensures Accepted(ms, s, Accept(ms, s), d)
    ensures Accept(ms, s).verdict.Done? || Accept(ms, s).state.lines == []
  {
    d := HandleLinesDelivers(ms, s);
    if Stopped(d) || Blank(s.line) {
      TriedNothing(Through(ms, false), s.calls, s.line, d);
    } else {
      d := PartialAccepts(ms, s, d);
    }
  }

  /** An ordinary character outside skipped text: the lines pending go first, in order and as
      complete lines, then the current line as a partial one; and unless something stops the
      parser no complete line is left. */
  lemma ParseAccepts(ms: seq<Matcher>, s: State, c: char) returns (d: Delivery)
    requires Ordinary(s, c)
    ensures Accepted(ms, WithChar(s, c), Parse(ms, s, c), d)
    ensures Parse(ms, s, c).verdict.Done? || Parse(ms, s, c).state.lines == []
  {
    d := AcceptAccepts(ms, WithChar(s, c));
  }

  /** Any other character, and any in skipped text, calls nobody and hands over nothing. */
  lemma ParseCallsNobody(ms: seq<Matcher>, s: State, c: char)
    requires !Ordinary(s, c)
    ensures var r := Parse(ms, s, c);
      r.state.calls == s.calls && r.state.handed == s.handed && r.verdict == Unmatched && !r.error
  {
  }
}
