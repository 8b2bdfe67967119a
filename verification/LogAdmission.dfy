/** The logger's admission check: a thread compares `g_count` with `g_limit` and only later
    adds one, so more entries than the limit can be admitted; this is by how many. */
module LogAdmission {

  /** Where a calling thread is. `Loaded` holds the count it read, `Passed` has found it
      below the limit and is about to add one, `Waiting` has not and waits for its entry. */
  datatype Pc = Idle | Loaded(seen: nat) | Passed | Waiting

  datatype State = State(
    count: nat,          // g_count
    admitted: nat,       // entries that have added one
    finished: nat,       // of these, entries that have been printed and have subtracted one
    threads: seq<Pc>)

  datatype Action = Load(i: nat) | Compare(i: nat) | Add(i: nat) | Completed(i: nat) | FinishEntry

  function Init(p: nat): State {
    State(0, 0, 0, seq(p, _ => Idle))
  }

  function Step(s: State, limit: nat, a: Action): State {
    if a.FinishEntry? then
      if s.finished < s.admitted && s.count > 0 then s.(count := s.count - 1, finished := s.finished + 1) else s
    else if a.i >= |s.threads| then s
    else
      var pc := s.threads[a.i];
      match a
      case Load(i) => if pc.Idle? then s.(threads := s.threads[i := Loaded(s.count)]) else s
      case Compare(i) =>
        if pc.Loaded? then s.(threads := s.threads[i := if pc.seen < limit then Passed else Waiting]) else s
      case Add(i) =>
        if pc.Passed? then s.(count := s.count + 1, admitted := s.admitted + 1, threads := s.threads[i := Idle]) else s
      case Completed(i) => if pc.Waiting? then s.(threads := s.threads[i := Idle]) else s
  }

  function Run(s: State, limit: nat, schedule: seq<Action>): State
    decreases |schedule|
  {
    if schedule == [] then s else Run(Step(s, limit, schedule[0]), limit, schedule[1..])
  }

  ghost function Reach(p: nat, limit: nat, schedule: seq<Action>): State {
    Run(Init(p), limit, schedule)
  }

  /** The thread has passed the check, or has read a count with which it will pass. */
  predicate Commits(pc: Pc, limit: nat) {
    pc.Passed? || (pc.Loaded? && pc.seen < limit)
  }

  function Committed(threads: seq<Pc>, limit: nat): nat {
    if threads == [] then 0
    else (if Commits(threads[0], limit) then 1 else 0) + Committed(threads[1..], limit)
  }

  function PastCheck(threads: seq<Pc>): nat {
    if threads == [] then 0 else (if threads[0].Passed? then 1 else 0) + PastCheck(threads[1..])
  }

  lemma {:induction false} CommittedBounds(threads: seq<Pc>, limit: nat)
    ensures PastCheck(threads) <= Committed(threads, limit) <= |threads|
  {
    if threads == [] {
    } else {
      CommittedBounds(threads[1..], limit);
    }
  }

  lemma {:induction false} CommittedUpdate(threads: seq<Pc>, limit: nat, i: nat, pc: Pc)
    requires i < |threads|
    ensures Committed(threads[i := pc], limit) + (if Commits(threads[i], limit) then 1 else 0)
         == Committed(threads, limit) + (if Commits(pc, limit) then 1 else 0)
  {
    if i == 0 {
      assert threads[i := pc][1..] == threads[1..];
    } else {
      assert threads[i := pc][1..] == threads[1..][i - 1 := pc];
      CommittedUpdate(threads[1..], limit, i - 1, pc);
    }
  }

  function Bound(limit: nat, p: nat): nat {
    if limit == 0 || p == 0 then 0 else limit + p - 1
  }

  ghost predicate Inv(s: State, limit: nat) {
    && s.finished <= s.admitted && s.count == s.admitted - s.finished
    && s.count + Committed(s.threads, limit) <= Bound(limit, |s.threads|)
    && (limit == 0 ==> forall i :: 0 <= i < |s.threads| ==> !s.threads[i].Passed?)
  }

  lemma StepKeepsInv(s: State, limit: nat, a: Action)
    requires Inv(s, limit)
    ensures Inv(Step(s, limit, a), limit) && |Step(s, limit, a).threads| == |s.threads|
  {
    var t := Step(s, limit, a);
    CommittedBounds(t.threads, limit);
    if !a.FinishEntry? && a.i < |s.threads| {
      CommittedUpdate(s.threads, limit, a.i, t.threads[a.i]);
      assert t.threads == s.threads[a.i := t.threads[a.i]];
    }
  }

  lemma {:induction false} RunKeepsInv(s: State, limit: nat, schedule: seq<Action>)
    requires Inv(s, limit)
    ensures Inv(Run(s, limit, schedule), limit) && |Run(s, limit, schedule).threads| == |s.threads|
    decreases |schedule|
  {
    if schedule == [] {
    } else {
      StepKeepsInv(s, limit, schedule[0]);
      RunKeepsInv(Step(s, limit, schedule[0]), limit, schedule[1..]);
    }
  }

  lemma {:induction false} NoneCommitted(threads: seq<Pc>, limit: nat)
    requires forall i :: 0 <= i < |threads| ==> threads[i].Idle?
    ensures Committed(threads, limit) == 0
  {
    if threads == [] {
    } else {
      NoneCommitted(threads[1..], limit);
    }
  }

  /** With p calling threads, the count together with the threads that have passed the check
      and not been counted stays below limit + p; and the count is exact at every step. */
  lemma AdmissionBound(p: nat, limit: nat, schedule: seq<Action>)
    ensures var s := Reach(p, limit, schedule);
      && s.finished <= s.admitted && s.count == s.admitted - s.finished
      && s.count + PastCheck(s.threads) <= Bound(limit, p)
  {
    NoneCommitted(Init(p).threads, limit);
    RunKeepsInv(Init(p), limit, schedule);
    CommittedBounds(Reach(p, limit, schedule).threads, limit);
  }

  // The bound is attained ---------------------------------------------------

  lemma {:induction false} RunAppend(s: State, limit: nat, first: seq<Action>, second: seq<Action>)
    ensures Run(s, limit, first + second) == Run(Run(s, limit, first), limit, second)
    decreases |first|
  {
    if first == [] {
      assert first + second == second;
    } else {
      assert (first + second)[1..] == first[1..] + second;
      RunAppend(Step(s, limit, first[0]), limit, first[1..], second);
    }
  }

  function One(i: nat): seq<Action> {
    [Load(i), Compare(i), Add(i)]
  }

  lemma OneEntry(s: State, limit: nat, i: nat)
    requires i < |s.threads| && s.threads[i].Idle? && s.count < limit
    ensures Run(s, limit, One(i)) == s.(count := s.count + 1, admitted := s.admitted + 1)
  {
    var t := s.(threads := s.threads[i := Loaded(s.count)]);
    var u := s.(threads := s.threads[i := Passed]);
    assert One(i)[1..] == [Compare(i), Add(i)] && [Compare(i), Add(i)][1..] == [Add(i)] && [Add(i)][1..] == [];
    assert t.threads[i := Passed] == u.threads && u.threads[i := Idle] == s.threads;
    assert Run(u, limit, [Add(i)]) == Step(u, limit, Add(i));
    assert Run(t, limit, [Compare(i), Add(i)]) == Run(u, limit, [Add(i)]);
  }

  /** One thread after the other, n entries. */
  lemma {:induction false} Fill(s: State, limit: nat, n: nat) returns (schedule: seq<Action>)
    requires s.threads != [] && s.threads[0].Idle? && s.count + n <= limit
    ensures Run(s, limit, schedule) == s.(count := s.count + n, admitted := s.admitted + n)
    decreases n
  {
    if n == 0 {
      schedule := [];
    } else {
      var t := s.(count := s.count + 1, admitted := s.admitted + 1);
      var rest := Fill(t, limit, n - 1);
      OneEntry(s, limit, 0);
      RunAppend(s, limit, One(0), rest);
      schedule := One(0) + rest;
    }
  }

  lemma PassCheck(s: State, limit: nat, i: nat)
    requires i < |s.threads| && s.threads[i].Idle? && s.count < limit
    ensures Run(s, limit, [Load(i), Compare(i)]) == s.(threads := s.threads[i := Passed])
  {
    var t := s.(threads := s.threads[i := Loaded(s.count)]);
    assert [Load(i), Compare(i)][1..] == [Compare(i)] && [Compare(i)][1..] == [];
    assert t.threads[i := Passed] == s.threads[i := Passed];
    assert Run(t, limit, [Compare(i)]) == Step(t, limit, Compare(i));
  }

  /** Threads i and up read the count and pass, one after the other; then all add one. */
  lemma {:induction false} Crowd(s: State, limit: nat, i: nat) returns (schedule: seq<Action>)
    requires s.count < limit && i <= |s.threads|
    requires forall j :: i <= j < |s.threads| ==> s.threads[j].Idle?
    ensures Run(s, limit, schedule) ==
            s.(count := s.count + |s.threads| - i, admitted := s.admitted + |s.threads| - i)
    decreases |s.threads| - i
  {
    if i == |s.threads| {
      schedule := [];
    } else {
      var t := s.(threads := s.threads[i := Passed]);
      var inner := Crowd(t, limit, i + 1);
      var enter := [Load(i), Compare(i)];
      PassCheck(s, limit, i);
      RunAppend(s, limit, enter, inner + [Add(i)]);
      RunAppend(t, limit, inner, [Add(i)]);
      var u := Run(t, limit, inner);
      assert u.threads[i := Idle] == s.threads;
      assert [Add(i)][1..] == [] && Run(u, limit, [Add(i)]) == Step(u, limit, Add(i));
      schedule := enter + (inner + [Add(i)]);
    }
  }

  /** The bound is tight: for every limit and every number of threads some schedule attains it. */
  lemma BoundIsAttained(p: nat, limit: nat) returns (schedule: seq<Action>)
    ensures Reach(p, limit, schedule).count == Bound(limit, p)
  {
    if limit == 0 || p == 0 {
      schedule := [];
    } else {
      var first := Fill(Init(p), limit, limit - 1);
      var s := Run(Init(p), limit, first);
      var second := Crowd(s, limit, 0);
      RunAppend(Init(p), limit, first, second);
      schedule := first + second;
    }
  }
}
