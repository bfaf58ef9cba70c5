/**
 The trace collection of one compilation unit, seen as an append-only log.

 The optimizer informs the collection of two kinds of facts: an exception of
 some type may leave the current point (`onExceptionRaiseExit`), and the
 local variables have escaped analysis (`onLocalsUsage`). Both only ever add
 facts, so the collection is modelled as the sequence of events recorded so
 far; the facts it holds are derived from that sequence.
 */
module Trace {

  /** Name of the root exception class recorded for calls through a builtin. */
  const BaseException: string := "BaseException"

  datatype Event =
    | ExceptionRaiseExit(exceptionType: string)
    | LocalsUsage

  /** Number of times `e` was recorded in `t`. */
  function Count(t: seq<Event>, e: Event): (n: nat)
    ensures n <= |t|
    ensures n == 0 <==> e !in t
    decreases |t|
  {
    if |t| == 0 then 0
    else (if t[0] == e then 1 else 0) + Count(t[1..], e)
  }

  /** Counting distributes over appending events. */
  lemma {:induction false} CountAppend(a: seq<Event>, b: seq<Event>, e: Event)
    ensures Count(a + b, e) == Count(a, e) + Count(b, e)
    decreases |a|
  {
    if |a| == 0 {
      assert a + b == b;
    } else {
      assert (a + b)[0] == a[0];
      assert (a + b)[1..] == a[1..] + b;
      CountAppend(a[1..], b, e);
    }
  }

  /** `t'` is `t` with zero or more events appended. */
  predicate Extends(t: seq<Event>, t': seq<Event>)
  {
    |t| <= |t'| && t'[..|t|] == t
  }

  /** The exception types that may exit, according to the recorded events. */
  function RaisedTypes(t: seq<Event>): set<string>
  {
    set i | 0 <= i < |t| && t[i].ExceptionRaiseExit? :: t[i].exceptionType
  }

  /** Whether the local variables have escaped, according to the recorded events. */
  predicate LocalsEscaped(t: seq<Event>)
  {
    LocalsUsage in t
  }

  /** Appending events never retracts a fact. */
  lemma FactsMonotone(t: seq<Event>, t': seq<Event>)
    requires Extends(t, t')
    ensures RaisedTypes(t) <= RaisedTypes(t')
    ensures LocalsEscaped(t) ==> LocalsEscaped(t')
  {
  }

  /** The facts after appending `extra` are the old facts plus those of `extra`. */
  lemma FactsOfAppend(t: seq<Event>, extra: seq<Event>)
    ensures RaisedTypes(t + extra) == RaisedTypes(t) + RaisedTypes(extra)
    ensures LocalsEscaped(t + extra) <==> LocalsEscaped(t) || LocalsEscaped(extra)
  {
    var u := t + extra;
    forall x | x in RaisedTypes(u)
      ensures x in RaisedTypes(t) + RaisedTypes(extra)
    {
      var i :| 0 <= i < |u| && u[i].ExceptionRaiseExit? && u[i].exceptionType == x;
      if i >= |t| {
        assert extra[i - |t|] == u[i];
      }
    }
    forall x | x in RaisedTypes(extra)
      ensures x in RaisedTypes(u)
    {
      var i :| 0 <= i < |extra| && extra[i].ExceptionRaiseExit? && extra[i].exceptionType == x;
      assert u[|t| + i] == extra[i];
    }
    assert u[..|t|] == t;
    FactsMonotone(t, u);
  }
}
