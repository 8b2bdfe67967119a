/** The logger's free function `queue` and the counting part of `logger::queue`, with the
    other threads free to act before every access. */
module Log {
  import opened LogAdmission

  predicate ActsFor(a: Action, me: nat) {
    !a.FinishEntry? && a.i == me
  }

  lemma {:induction false} OthersLeaveMe(s: State, limit: nat, others: seq<Action>, me: nat)
    requires me < |s.threads| && forall a :: a in others ==> !ActsFor(a, me)
    ensures var t := Run(s, limit, others); |t.threads| == |s.threads| && t.threads[me] == s.threads[me]
    decreases |others|
  {
    if others == [] {
    } else {
      assert others[0] in others;
      OthersLeaveMe(Step(s, limit, others[0]), limit, others[1..], me);
    }
  }

  ghost predicate NeverActsFor(turns: seq<seq<Action>>, me: nat) {
    forall i, a :: 0 <= i < |turns| && a in turns[i] ==> !ActsFor(a, me)
  }

  class Logger {
    const limit: nat
    const threads: nat
    var count: nat
    /** What the other threads do before each of the accesses to come. */
    var turns: seq<seq<Action>>
    var sys: State
    ghost var schedule: seq<Action>

    ghost predicate Valid(me: nat)
      reads this
    {
      && sys == Reach(threads, limit, schedule) && count == sys.count
      && me < threads == |sys.threads|
      && NeverActsFor(turns, me)
    }

    constructor (limit: nat, threads: nat, me: nat, turns: seq<seq<Action>>)
      requires me < threads
      requires NeverActsFor(turns, me)
      ensures Valid(me) && sys == Init(threads) && this.turns == turns && this.limit == limit
    {
      this.limit, this.threads, this.turns := limit, threads, turns;
      count, sys, schedule := 0, Init(threads), [];
    }

    method Did(a: Action)
      requires sys == Reach(threads, limit, schedule)
      modifies this`sys, this`schedule
      ensures sys == Step(old(sys), limit, a) == Reach(threads, limit, schedule)
      ensures schedule == old(schedule) + [a]
    {
      RunAppend(Init(threads), limit, schedule, [a]);
      sys, schedule := Step(sys, limit, a), schedule + [a];
    }

    method Others(me: nat)
      requires Valid(me)
      modifies this
      ensures Valid(me) && old(schedule) <= schedule && sys.threads[me] == old(sys.threads)[me]
    {
      if turns != [] {
        OthersLeaveMe(sys, limit, turns[0], me);
        RunAppend(Init(threads), limit, schedule, turns[0]);
        sys, schedule, turns := Run(sys, limit, turns[0]), schedule + turns[0], turns[1..];
        count := sys.count;
      }
    }

    /** `queue`: true when the entry was admitted and counted, false when the caller waited for
        it. The count read after the first `at` actions decides; the increment comes last. */
    method Queue(me: nat) returns (admitted: bool, ghost at: nat)
      requires Valid(me) && sys.threads[me].Idle?
      modifies this
      ensures Valid(me) && old(schedule) <= schedule && sys.threads[me].Idle?
      ensures |old(schedule)| <= at < |schedule| - 1 && schedule[at] == Load(me)
      ensures admitted <==> Reach(threads, limit, schedule[..at]).count < limit
      ensures schedule[|schedule| - 1] == if admitted then Add(me) else Completed(me)
      ensures count <= Bound(limit, threads) && count == sys.admitted - sys.finished
    {
      Others(me);
      ghost var before := schedule;
      at := |before|;
      var seen := count;
      Did(Load(me));
      Others(me);
      admitted := seen < limit;
      Did(Compare(me));
      Others(me);
      if admitted {
        count := count + 1;
        Did(Add(me));
      } else {
        Did(Completed(me));
      }
      assert schedule[..at] == before && before + [Load(me)] <= schedule;
      AdmissionBound(threads, limit, schedule);
    }

    /** The end of `logger::queue`, on the logger's thread. */
    method Finish(me: nat)
      requires Valid(me) && sys.finished < sys.admitted
      modifies this
      ensures Valid(me) && sys.finished == old(sys.finished) + 1 && count == old(count) - 1
    {
      AdmissionBound(threads, limit, schedule);
      count := count - 1;
      Did(FinishEntry);
    }
  }
}
