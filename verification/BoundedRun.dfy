/**
 Overlapping independent work up to a limit. The items' outcomes are fixed; the
 order in which running items complete is arbitrary.
 */
module BoundedRun {
  import opened Wrappers

  /** The error the sequential loop returns: that of the first failing item. */
  function SequentialFailure(outcome: seq<Option<string>>): Option<string> {
    if outcome == [] then None
    else if outcome[0].Some? then outcome[0]
    else SequentialFailure(outcome[1..])
  }

  /** Index k carries the first error of the list. */
  lemma {:induction false} FirstFailureIs(outcome: seq<Option<string>>, k: nat)
    requires k <= |outcome|
    requires forall i | 0 <= i < k :: outcome[i].None?
    ensures SequentialFailure(outcome) == SequentialFailure(outcome[k..])
    ensures k < |outcome| && outcome[k].Some? ==> SequentialFailure(outcome) == outcome[k]
    ensures k == |outcome| ==> SequentialFailure(outcome) == None
  {
    if k > 0 {
      FirstFailureIs(outcome[1..], k - 1);
      assert outcome[1..][k - 1..] == outcome[k..];
    } else {
      assert outcome[0..] == outcome;
    }
  }

  datatype Action = Launch(item: nat) | Receive(item: nat)

  /** The items an action log has running. */
  function Running(log: seq<Action>): set<nat> {
    if log == [] then {}
    else match log[|log| - 1] {
      case Launch(i) => Running(log[..|log| - 1]) + {i}
      case Receive(i) => Running(log[..|log| - 1]) - {i}
    }
  }

  function LaunchedItems(log: seq<Action>): seq<nat> {
    if log == [] then []
    else if log[|log| - 1].Launch? then LaunchedItems(log[..|log| - 1]) + [log[|log| - 1].item]
    else LaunchedItems(log[..|log| - 1])
  }

  ghost predicate NeverMoreThan(log: seq<Action>, limit: int) {
    forall k | 0 <= k <= |log| :: |Running(log[..k])| <= limit
  }

  predicate IsFailure(outcome: seq<Option<string>>, a: Action) {
    a.Receive? && a.item < |outcome| && outcome[a.item].Some?
  }

  /** Once a failure has been received, nothing more is started. */
  ghost predicate StopsAfterFailure(outcome: seq<Option<string>>, log: seq<Action>) {
    forall a, b | 0 <= a < b < |log| && IsFailure(outcome, log[a]) :: !log[b].Launch?
  }

  ghost predicate NoFailureYet(outcome: seq<Option<string>>, log: seq<Action>) {
    forall a | 0 <= a < |log| :: !IsFailure(outcome, log[a])
  }

  lemma Append(log: seq<Action>, a: Action, limit: int)
    requires NeverMoreThan(log, limit) && |Running(log + [a])| <= limit
    ensures NeverMoreThan(log + [a], limit)
    ensures Running(log + [a]) == if a.Launch? then Running(log) + {a.item} else Running(log) - {a.item}
    ensures LaunchedItems(log + [a]) == if a.Launch? then LaunchedItems(log) + [a.item] else LaunchedItems(log)
  {
    assert (log + [a])[..|log|] == log;
    forall k | 0 <= k <= |log| + 1 ensures |Running((log + [a])[..k])| <= limit {
      if k <= |log| {
        assert (log + [a])[..k] == log[..k];
      } else {
        assert (log + [a])[..k] == log + [a];
      }
    }
  }

  function Iota(n: nat): seq<nat> {
    seq(n, i requires 0 <= i => i)
  }

  /** The limit the loop works with: at least one, at most one per item. */
  function EffectiveLimit(items: nat, limit: int): int {
    var atLeastOne := if limit < 1 then 1 else limit;
    if atLeastOne > items then items else atLeastOne
  }

  /** The log has started the first `next` items in order, and those in `running` are not received yet. */
  ghost predicate Logged(log: seq<Action>, running: set<nat>, next: nat, bound: int) {
    running == Running(log) && LaunchedItems(log) == Iota(next) && NeverMoreThan(log, bound)
  }

  /** What the received items say so far: none below `firstFailure` failed, and `err` is the error of that one. */
  ghost predicate Judged(outcome: seq<Option<string>>, running: set<nat>, next: nat, firstFailure: nat,
                         err: Option<string>) {
    && next <= |outcome|
    && (forall i | i in running :: i < next)
    && (forall i: nat | i < next && i !in running && i < firstFailure :: outcome[i].None?)
    && (if err.None? then firstFailure == |outcome|
        else firstFailure < next && firstFailure !in running && err == outcome[firstFailure])
  }

  lemma LaunchKeepsJudged(outcome: seq<Option<string>>, running: set<nat>, next: nat, firstFailure: nat,
                          err: Option<string>)
    requires Judged(outcome, running, next, firstFailure, err) && next < |outcome|
    ensures next !in running && |running + {next}| == |running| + 1
    ensures Judged(outcome, running + {next}, next + 1, firstFailure, err)
  {
  }

  lemma ReceiveKeepsJudged(outcome: seq<Option<string>>, running: set<nat>, next: nat, firstFailure: nat,
                           err: Option<string>, index: nat)
    requires Judged(outcome, running, next, firstFailure, err) && index in running
    ensures index < |outcome| && |running - {index}| == |running| - 1
    ensures if outcome[index].Some? && index < firstFailure
            then Judged(outcome, running - {index}, next, index, outcome[index])
            else Judged(outcome, running - {index}, next, firstFailure, err)
  {
  }

  lemma LastJudgement(outcome: seq<Option<string>>, next: nat, firstFailure: nat, err: Option<string>)
    requires Judged(outcome, {}, next, firstFailure, err) && (err.None? ==> next == |outcome|)
    ensures err == SequentialFailure(outcome)
  {
    FirstFailureIs(outcome, firstFailure);
  }

  lemma LaunchKeepsOrder(outcome: seq<Option<string>>, log: seq<Action>, item: nat)
    requires NoFailureYet(outcome, log)
    ensures NoFailureYet(outcome, log + [Launch(item)]) && StopsAfterFailure(outcome, log + [Launch(item)])
  {
  }

  lemma ReceiveKeepsOrder(outcome: seq<Option<string>>, log: seq<Action>, item: nat)
    requires StopsAfterFailure(outcome, log)
    ensures StopsAfterFailure(outcome, log + [Receive(item)])
    ensures NoFailureYet(outcome, log) && item < |outcome| && outcome[item].None? ==>
              NoFailureYet(outcome, log + [Receive(item)])
  {
  }

  /**
   Returns what the sequential loop returns, whichever running item completes
   next. Items start in input order and no more than the limit run at once;
   everything started has been awaited.
   */
  method RunBounded(outcome: seq<Option<string>>, limit: int) returns (err: Option<string>, ghost log: seq<Action>)
    ensures err == SequentialFailure(outcome)
    ensures exists n: nat :: n <= |outcome| && LaunchedItems(log) == Iota(n)
    ensures NeverMoreThan(log, if limit < 1 then 1 else limit)
    ensures Running(log) == {} && StopsAfterFailure(outcome, log)
    ensures err.None? ==> LaunchedItems(log) == Iota(|outcome|)
  {
    hide Running, LaunchedItems, NeverMoreThan, Iota, SequentialFailure, StopsAfterFailure, NoFailureYet, Logged,
         Judged;
    ghost var bound := if limit < 1 then 1 else limit;
    var limit := EffectiveLimit(|outcome|, limit);
    log := [];
    Start(outcome, bound);
    if |outcome| == 0 {
      FirstFailureIs(outcome, 0);
      return None, [];
    }
    var next, active := 0, 0;
    var running: set<nat> := {}; // the items whose goroutine has not been received yet
    err := None;
    var firstFailure: nat := |outcome|;
    while next < |outcome| && active < limit
      invariant 0 <= next <= |outcome| && active == next == |running| <= limit
      invariant Judged(outcome, running, next, firstFailure, err)
      invariant NoFailureYet(outcome, log) && StopsAfterFailure(outcome, log) && Logged(log, running, next, bound)
    {
      LaunchKeepsJudged(outcome, running, next, firstFailure, err);
      LaunchNext(log, next, running, bound);
      LaunchKeepsOrder(outcome, log, next);
      log := log + [Launch(next)];
      running := running + {next};
      active := active + 1;
      next := next + 1;
    }
    while active > 0
      invariant 0 <= next <= |outcome| && active == |running| <= limit
      invariant Judged(outcome, running, next, firstFailure, err) && Logged(log, running, next, bound)
      invariant StopsAfterFailure(outcome, log)
                && (err.None? ==> NoFailureYet(outcome, log) && firstFailure == |outcome|)
      invariant err.None? ==> next == |outcome| || active > 0
      decreases |outcome| - next + active, |outcome| - next
    {
      var index :| index in running;
      ReceiveKeepsJudged(outcome, running, next, firstFailure, err, index);
      Complete(log, index, running, next, bound);
      ReceiveKeepsOrder(outcome, log, index);
      log := log + [Receive(index)];
      running := running - {index};
      active := active - 1;
      if outcome[index].Some? && index < firstFailure {
        firstFailure := index;
        err := outcome[index];
      }
      if err.None? && next < |outcome| {
        LaunchKeepsJudged(outcome, running, next, firstFailure, err);
        LaunchNext(log, next, running, bound);
        LaunchKeepsOrder(outcome, log, next);
        log := log + [Launch(next)];
        running := running + {next};
        active := active + 1;
        next := next + 1;
      }
    }
    assert running == {};
    LastJudgement(outcome, next, firstFailure, err);
    AllReceived(log, running, next, bound);
  }

  lemma AllReceived(log: seq<Action>, running: set<nat>, next: nat, bound: int)
    requires Logged(log, running, next, bound) && |running| == 0
    ensures Running(log) == {} && LaunchedItems(log) == Iota(next) && NeverMoreThan(log, bound)
  {
  }

  lemma Start(outcome: seq<Option<string>>, bound: int)
    requires bound >= 0
    ensures Logged([], {}, 0, bound) && Running([]) == {} && LaunchedItems([]) == Iota(0) && NeverMoreThan([], bound)
    ensures NoFailureYet(outcome, []) && StopsAfterFailure(outcome, []) && Judged(outcome, {}, 0, |outcome|, None)
  {
  }

  lemma LaunchNext(log: seq<Action>, next: nat, running: set<nat>, bound: int)
    requires Logged(log, running, next, bound) && |running| < bound && next !in running
    ensures Logged(log + [Launch(next)], running + {next}, next + 1, bound)
  {
    assert (log + [Launch(next)])[..|log|] == log;
    Append(log, Launch(next), bound);
    assert Iota(next + 1) == Iota(next) + [next];
  }

  lemma Complete(log: seq<Action>, item: nat, running: set<nat>, next: nat, bound: int)
    requires Logged(log, running, next, bound) && item in running && |running| <= bound
    ensures Logged(log + [Receive(item)], running - {item}, next, bound)
  {
    assert (log + [Receive(item)])[..|log|] == log;
    Append(log, Receive(item), bound);
  }
}
