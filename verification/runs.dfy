// Runs of a program over durable states: one event at a time, each enabled in
// the state it happens in. A crash is a run that ends.
module Runs {

  datatype Protocol<!S, !E> = Protocol(enabled: (S, E) -> bool, next: (S, E) -> S)

  ghost predicate IsRun<S, E>(p: Protocol<S, E>, trace: seq<S>, log: seq<E>) {
    && |trace| == |log| + 1
    && forall i {:trigger log[i]} :: 0 <= i < |log| ==>
      p.enabled(trace[i], log[i]) && trace[i + 1] == p.next(trace[i], log[i])
  }

  // What every enabled event keeps holds in every state of every run.
  lemma {:induction false} Keeps<S, E>(p: Protocol<S, E>, inv: S -> bool, trace: seq<S>, log: seq<E>, i: nat)
    requires IsRun(p, trace, log) && inv(trace[0]) && i < |trace|
    requires forall s, e :: p.enabled(s, e) && inv(s) ==> inv(p.next(s, e))
    ensures inv(trace[i])
  {
    if i > 0 {
      Keeps(p, inv, trace, log, i - 1);
      assert p.enabled(trace[i - 1], log[i - 1]);
    }
  }

  // A crash ends a run anywhere, and the next process starts from the state it
  // left: together they are a run.
  lemma RestartIsRun<S, E>(
    p: Protocol<S, E>, first: seq<S>, firstLog: seq<E>, i: nat, second: seq<S>, secondLog: seq<E>)
    requires IsRun(p, first, firstLog) && i < |first|
    requires IsRun(p, second, secondLog) && second[0] == first[i]
    ensures IsRun(p, first[..i] + second, firstLog[..i] + secondLog)
  {
    var trace, log := first[..i] + second, firstLog[..i] + secondLog;
    forall k | 0 <= k < |log| ensures p.enabled(trace[k], log[k]) && trace[k + 1] == p.next(trace[k], log[k]) {
      if k < i {
        assert log[k] == firstLog[k] && trace[k] == first[k] && trace[k + 1] == first[k + 1];
      } else {
        assert log[k] == secondLog[k - i] && trace[k] == second[k - i] && trace[k + 1] == second[k - i + 1];
      }
    }
  }
}
