/** Sequences read backwards, and sequences without repetition. */
module Sequences {

  datatype Option<+T> = None | Some(value: T)

  /** All numbers below n, in order. */
  function Upto(n: nat): seq<nat> {
    seq(n, i => i)
  }

  function Reverse<T>(s: seq<T>): seq<T> {
    if s == [] then [] else Reverse(s[1..]) + [s[0]]
  }

  lemma {:induction false} ReverseMembers<T>(s: seq<T>)
    ensures |Reverse(s)| == |s|
    ensures forall x :: x in Reverse(s) <==> x in s
  {
    if s == [] {
    } else {
      ReverseMembers(s[1..]);
      assert s == [s[0]] + s[1..];
    }
  }

  lemma {:induction false} ReverseAt<T>(s: seq<T>, i: nat)
    requires i < |s|
    ensures |Reverse(s)| == |s| && Reverse(s)[i] == s[|s| - 1 - i]
  {
    ReverseMembers(s[1..]);
    if i < |s| - 1 {
      ReverseAt(s[1..], i);
    }
  }

  /** One turn of a reversal: what is left, and what has been reversed so far. */
  lemma {:induction false} ReverseTurn<T>(rest: seq<T>, done: seq<T>)
    requires rest != []
    ensures Reverse(rest[1..]) + ([rest[0]] + done) == Reverse(rest) + done
    ensures |rest| == 1 ==> Reverse(rest) + done == [rest[0]] + done
  {
    var init, x := Reverse(rest[1..]), [rest[0]];
    assert init + (x + done) == (init + x) + done;
    if |rest| == 1 {
      assert rest[1..] == [] && init == [] && init + x == x;
    }
  }

  ghost predicate Distinct<T>(s: seq<T>) {
    forall i, j :: 0 <= i < j < |s| ==> s[i] != s[j]
  }

  lemma DistinctParts<T>(a: seq<T>, b: seq<T>)
    requires Distinct(a + b)
    ensures Distinct(a) && Distinct(b) && forall x :: x in a ==> x !in b
  {
    var c := a + b;
    assert forall i :: 0 <= i < |a| ==> c[i] == a[i];
    assert forall j :: 0 <= j < |b| ==> c[|a| + j] == b[j];
    forall i, j | 0 <= i < j < |b|
      ensures b[i] != b[j]
    {
      assert c[|a| + i] != c[|a| + j];
    }
    forall x | x in a
      ensures x !in b
    {
      var i :| 0 <= i < |a| && a[i] == x;
      forall j | 0 <= j < |b|
        ensures b[j] != x
      {
        assert c[i] != c[|a| + j];
      }
    }
  }

  lemma DistinctReversed<T>(s: seq<T>)
    requires Distinct(Reverse(s))
    ensures Distinct(s)
  {
    forall i, j | 0 <= i < j < |s|
      ensures s[i] != s[j]
    {
      ReverseAt(s, |s| - 1 - i);
      ReverseAt(s, |s| - 1 - j);
    }
  }
}
