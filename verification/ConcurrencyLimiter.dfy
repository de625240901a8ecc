/** The concurrency limiter: callers that load the counter, then add to it, and guards that are dropped. */
module ConcurrencyLimiter {
  import opened Wrappers

  // Where a caller is inside its check: before the load, or after it with the outcome.
  datatype Phase = Outside | Admitted | Refused

  datatype System = System(counter: nat, guards: nat, callers: seq<Phase>)

  datatype Action = Load(caller: nat) | Add(caller: nat) | Decline(caller: nat) | Drop

  predicate At(s: System, caller: nat, phase: Phase) {
    caller < |s.callers| && s.callers[caller] == phase
  }

  predicate Enabled(s: System, a: Action) {
    match a
    case Load(c) => At(s, c, Outside)
    case Add(c) => At(s, c, Admitted)
    case Decline(c) => At(s, c, Refused)
    case Drop => s.guards > 0
  }

  function Step(s: System, a: Action, max: nat): System
    requires Enabled(s, a)
  {
    match a
    case Load(c) => s.(callers := s.callers[c := if s.counter < max then Admitted else Refused])
    case Add(c) => System(s.counter + 1, s.guards + 1, s.callers[c := Outside])
    case Decline(c) => s.(callers := s.callers[c := Outside])
    // The counter is unsigned; `Inv` shows it does not wrap.
    case Drop => System(if s.counter == 0 then 0xFFFF_FFFF_FFFF_FFFF else s.counter - 1, s.guards - 1, s.callers)
  }

  // A run, or nothing when some action is not enabled.
  function Run(s: System, actions: seq<Action>, max: nat): Option<System>
    decreases |actions|
  {
    if actions == [] then Some(s)
    else if !Enabled(s, actions[0]) then None
    else Run(Step(s, actions[0], max), actions[1..], max)
  }

  function Start(callers: nat): System {
    System(0, 0, seq(callers, _ => Outside))
  }

  // ---- Safety ----

  function AdmittedIn(callers: seq<Phase>): (n: nat)
    ensures n <= |callers|
  {
    if callers == [] then 0 else (if callers[0] == Admitted then 1 else 0) + AdmittedIn(callers[1..])
  }

  lemma {:induction false} AdmittedUpdate(callers: seq<Phase>, c: nat, phase: Phase)
    requires c < |callers|
    ensures AdmittedIn(callers[c := phase])
         == AdmittedIn(callers) - (if callers[c] == Admitted then 1 else 0) + (if phase == Admitted then 1 else 0)
    ensures callers[c] != Admitted ==> AdmittedIn(callers) < |callers|
    decreases |callers|
  {
    var next := callers[c := phase];
    if c == 0 {
      assert next[1..] == callers[1..];
    } else {
      assert next[1..] == callers[1..][c - 1 := phase];
      AdmittedUpdate(callers[1..], c - 1, phase);
    }
  }

  predicate Inv(s: System, max: nat) {
    && s.callers != []
    && s.counter == s.guards
    && s.counter + AdmittedIn(s.callers) <= max + |s.callers| - 1
  }

  lemma StepKeeps(s: System, a: Action, max: nat)
    requires Inv(s, max) && Enabled(s, a)
    ensures Inv(Step(s, a, max), max) && |Step(s, a, max).callers| == |s.callers|
  {
    match a
    case Load(c) => AdmittedUpdate(s.callers, c, if s.counter < max then Admitted else Refused);
    case Add(c) => AdmittedUpdate(s.callers, c, Outside);
    case Decline(c) => AdmittedUpdate(s.callers, c, Outside);
    case Drop =>
  }

  lemma {:induction false} RunKeeps(s: System, actions: seq<Action>, max: nat)
    requires Inv(s, max) && Run(s, actions, max).Some?
    ensures var end := Run(s, actions, max).value; Inv(end, max) && |end.callers| == |s.callers|
    decreases |actions|
  {
    if actions != [] {
      StepKeeps(s, actions[0], max);
      RunKeeps(Step(s, actions[0], max), actions[1..], max);
    }
  }

  lemma {:induction false} NoneAdmitted(callers: seq<Phase>)
    requires forall i | 0 <= i < |callers| :: callers[i] == Outside
    ensures AdmittedIn(callers) == 0
    decreases |callers|
  {
    if callers != [] {
      NoneAdmitted(callers[1..]);
    }
  }

  /** Over every interleaving, the counter is the number of live guards and overshoots the maximum
      by at most the number of other callers; with one caller it does not overshoot. */
  lemma CounterBound(callers: nat, actions: seq<Action>, max: nat)
    requires callers >= 1 && Run(Start(callers), actions, max).Some?
    ensures var end := Run(Start(callers), actions, max).value;
      && end.counter == end.guards
      && end.counter <= max + callers - 1
      && (callers == 1 ==> end.guards <= max)
  {
    NoneAdmitted(Start(callers).callers);
    RunKeeps(Start(callers), actions, max);
  }

  // ---- The bound is reached ----

  lemma {:induction false} RunConcat(s: System, first: seq<Action>, second: seq<Action>, max: nat)
    requires Run(s, first, max).Some?
    ensures Run(s, first + second, max) == Run(Run(s, first, max).value, second, max)
    decreases |first|
  {
    if first == [] {
      assert first + second == second;
    } else {
      RunConcat(Step(s, first[0], max), first[1..], second, max);
      assert (first + second)[1..] == first[1..] + second;
    }
  }

  lemma RunTwo(s: System, a: Action, b: Action, max: nat)
    requires Enabled(s, a) && Enabled(Step(s, a, max), b)
    ensures Run(s, [a, b], max) == Some(Step(Step(s, a, max), b, max))
  {
    assert [a, b][1..] == [b] && [b][1..] == [];
    assert Run(Step(s, a, max), [b], max) == Some(Step(Step(s, a, max), b, max));
  }

  function Idle(n: nat, callers: nat): System {
    System(n, n, seq(callers, _ => Outside))
  }

  // The first `loaded` callers have loaded the counter at n.
  function Loading(n: nat, callers: nat, loaded: nat): System {
    System(n, n, seq(callers, i => if i < loaded then Admitted else Outside))
  }

  // The first `added` callers have added to it since.
  function Adding(n: nat, callers: nat, added: nat): System {
    System(n + added, n + added, seq(callers, i => if i < added then Outside else Admitted))
  }

  lemma {:induction false} FillUp(n: nat, callers: nat, max: nat) returns (actions: seq<Action>)
    requires callers >= 1 && n < max
    ensures Run(Start(callers), actions, max) == Some(Idle(n, callers))
    decreases n
  {
    if n == 0 {
      actions := [];
      assert Start(callers) == Idle(0, callers);
    } else {
      var before := FillUp(n - 1, callers, max);
      actions := before + [Load(0), Add(0)];
      RunConcat(Start(callers), before, [Load(0), Add(0)], max);
      var s := Idle(n - 1, callers);
      assert Step(Step(s, Load(0), max), Add(0), max) == Idle(n, callers);
      RunTwo(s, Load(0), Add(0), max);
    }
  }

  lemma {:induction false} LoadAll(n: nat, callers: nat, loaded: nat, max: nat) returns (actions: seq<Action>)
    requires n < max && loaded <= callers
    ensures Run(Loading(n, callers, loaded), actions, max) == Some(Loading(n, callers, callers))
    decreases callers - loaded
  {
    if loaded == callers {
      actions := [];
    } else {
      var after := LoadAll(n, callers, loaded + 1, max);
      actions := [Load(loaded)] + after;
      assert actions[1..] == after;
      assert Step(Loading(n, callers, loaded), Load(loaded), max) == Loading(n, callers, loaded + 1);
    }
  }

  lemma {:induction false} AddAll(n: nat, callers: nat, added: nat, max: nat) returns (actions: seq<Action>)
    requires added <= callers
    ensures Run(Adding(n, callers, added), actions, max) == Some(Adding(n, callers, callers))
    decreases callers - added
  {
    if added == callers {
      actions := [];
    } else {
      var after := AddAll(n, callers, added + 1, max);
      actions := [Add(added)] + after;
      assert actions[1..] == after;
      assert Step(Adding(n, callers, added), Add(added), max) == Adding(n, callers, added + 1);
    }
  }

  /** Some interleaving reaches the bound. */
  lemma BoundIsReached(callers: nat, max: nat) returns (actions: seq<Action>)
    requires callers >= 1 && max >= 1
    ensures Run(Start(callers), actions, max).Some?
    ensures Run(Start(callers), actions, max).value.counter == max + callers - 1
  {
    var n := max - 1;
    var fill := FillUp(n, callers, max);
    var load := LoadAll(n, callers, 0, max);
    var add := AddAll(n, callers, 0, max);
    assert Idle(n, callers) == Loading(n, callers, 0);
    assert Loading(n, callers, callers) == Adding(n, callers, 0);
    RunConcat(Start(callers), fill, load, max);
    RunConcat(Start(callers), fill + load, add, max);
    actions := fill + load + add;
  }

  // With a maximum of zero nobody is ever admitted.
  predicate Quiet(s: System) {
    s.counter == 0 && s.guards == 0 && forall i | 0 <= i < |s.callers| :: s.callers[i] != Admitted
  }

  lemma {:induction false} StaysQuiet(s: System, actions: seq<Action>)
    requires Quiet(s) && Run(s, actions, 0).Some?
    ensures Quiet(Run(s, actions, 0).value)
    decreases |actions|
  {
    if actions != [] {
      StaysQuiet(Step(s, actions[0], 0), actions[1..]);
    }
  }

  ghost predicate WithinMaximum(callers: nat, actions: seq<Action>, max: nat) {
    var end := Run(Start(callers), actions, max);
    end.Some? ==> end.value.counter <= max
  }

  /** The counter stays within the maximum over every interleaving exactly when no two callers can meet or nobody
      is admitted at all. */
  lemma WithinMaximumExactly(callers: nat, max: nat)
    ensures (forall actions :: WithinMaximum(callers, actions, max)) <==> callers <= 1 || max == 0
  {
    if callers <= 1 || max == 0 {
      forall actions ensures WithinMaximum(callers, actions, max) {
        if Run(Start(callers), actions, max).Some? {
          if callers == 1 {
            CounterBound(1, actions, max);
          } else if max == 0 {
            StaysQuiet(Start(callers), actions);
          } else {
            NobodyActs(actions, max);
          }
        }
      }
    } else {
      var actions := BoundIsReached(callers, max);
      assert !WithinMaximum(callers, actions, max);
    }
  }

  lemma NobodyActs(actions: seq<Action>, max: nat)
    requires Run(Start(0), actions, max).Some?
    ensures actions == []
  {
  }

  // ---- The limiter as an object ----

  class Limiter {
    const maxConcurrent: nat
    var concurrent: nat

    constructor (maxConcurrent: nat)
      ensures concurrent == 0 && this.maxConcurrent == maxConcurrent
    {
      this.maxConcurrent, concurrent := maxConcurrent, 0;
    }

    /** One caller's check, uninterrupted: the run of its load and its add or decline. */
    method IsAllowed() returns (guard: bool)
      modifies this
      ensures Run(Idle(old(concurrent), 1), if guard then [Load(0), Add(0)] else [Load(0), Decline(0)], maxConcurrent)
           == Some(Idle(concurrent, 1))
      ensures old(concurrent) <= maxConcurrent ==> concurrent <= maxConcurrent
    {
      guard := false;
      if concurrent < maxConcurrent {
        concurrent := concurrent + 1;
        guard := true;
      }
      ghost var s, second := Idle(old(concurrent), 1), if guard then Add(0) else Decline(0);
      RunTwo(s, Load(0), second, maxConcurrent);
      assert Step(Step(s, Load(0), maxConcurrent), second, maxConcurrent) == Idle(concurrent, 1);
    }

    /** Dropping a guard. */
    method Release()
      requires concurrent > 0
      modifies this
      ensures Run(Idle(old(concurrent), 1), [Drop], maxConcurrent) == Some(Idle(concurrent, 1))
    {
      concurrent := concurrent - 1;
    }
  }
}
