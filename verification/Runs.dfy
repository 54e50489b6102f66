/** Runs of a labelled transition system, shared by all the state machines of this project.

    A machine is a function that gives the state after a step, or None where the step is not
    enabled.  All nondeterminism (which process moves, what the hardware answers) is in the label. */
module Runs {

  datatype Option<+T> = None | Some(value: T)

  function Run<S, L>(next: (S, L) -> Option<S>, s: S, steps: seq<L>): Option<S> {
    if steps == [] then Some(s)
    else match next(s, steps[0])
      case None => None
      case Some(t) => Run(next, t, steps[1..])
  }

  /** All steps but the last, and the last. */
  function Front<L>(steps: seq<L>): seq<L>
    requires steps != []
  {
    steps[..|steps| - 1]
  }

  function Final<L>(steps: seq<L>): L
    requires steps != []
  {
    steps[|steps| - 1]
  }

  /** What every step keeps, every run keeps. */
  lemma {:induction false} Invariant<S(!new), L(!new)>(
      next: (S, L) -> Option<S>, inv: S -> bool, s: S, steps: seq<L>)
    requires inv(s)
    requires Run(next, s, steps).Some?
    requires forall t, l {:trigger next(t, l)} :: inv(t) && next(t, l).Some? ==> inv(next(t, l).value)
    ensures inv(Run(next, s, steps).value)
  {
    if steps != [] {
      assert next(s, steps[0]).Some?;
      Invariant(next, inv, next(s, steps[0]).value, steps[1..]);
    }
  }

  /** What every allowed step keeps, every run of allowed steps keeps. */
  lemma {:induction false} InvariantUnder<S(!new), L(!new)>(
      next: (S, L) -> Option<S>, allowed: L -> bool, inv: S -> bool, s: S, steps: seq<L>)
    requires inv(s)
    requires Run(next, s, steps).Some?
    requires forall l :: l in steps ==> allowed(l)
    requires forall t, l {:trigger next(t, l)} ::
               inv(t) && allowed(l) && next(t, l).Some? ==> inv(next(t, l).value)
    ensures inv(Run(next, s, steps).value)
  {
    if steps != [] {
      assert next(s, steps[0]).Some?;
      InvariantUnder(next, allowed, inv, next(s, steps[0]).value, steps[1..]);
    }
  }

  /** A relation between the state and the steps taken so far that every step keeps. */
  lemma {:induction false} TraceInvariant<S(!new), L(!new)>(
      next: (S, L) -> Option<S>, inv: (S, seq<L>) -> bool, s: S, past: seq<L>, steps: seq<L>)
    requires inv(s, past)
    requires Run(next, s, steps).Some?
    requires forall t, l, trace {:trigger next(t, l), inv(t, trace)} ::
               inv(t, trace) && next(t, l).Some? ==> inv(next(t, l).value, trace + [l])
    ensures inv(Run(next, s, steps).value, past + steps)
    decreases |steps|
  {
    if steps == [] {
      assert past + steps == past;
    } else {
      assert next(s, steps[0]).Some?;
      TraceInvariant(next, inv, next(s, steps[0]).value, past + [steps[0]], steps[1..]);
      assert past + steps == (past + [steps[0]]) + steps[1..];
    }
  }

  function Count<L>(counted: L -> bool, steps: seq<L>): nat {
    if steps == [] then 0
    else (if counted(steps[0]) then 1 else 0) + Count(counted, steps[1..])
  }

  /** If counted steps use up rank, and no allowed step adds any, a run of allowed steps contains no more
      counted steps than the rank it uses. */
  lemma {:induction false} Potential<S(!new), L(!new)>(
      next: (S, L) -> Option<S>, allowed: L -> bool, counted: L -> bool, rank: S -> nat, s: S, steps: seq<L>)
    requires Run(next, s, steps).Some?
    requires forall l :: l in steps ==> allowed(l)
    requires forall t, l {:trigger next(t, l)} :: allowed(l) && next(t, l).Some? ==>
               rank(next(t, l).value) + (if counted(l) then 1 else 0) <= rank(t)
    ensures rank(Run(next, s, steps).value) + Count(counted, steps) <= rank(s)
  {
    if steps != [] {
      assert next(s, steps[0]).Some?;
      Potential(next, allowed, counted, rank, next(s, steps[0]).value, steps[1..]);
    }
  }

  lemma {:induction false} RunConcat<S, L>(next: (S, L) -> Option<S>, s: S, a: seq<L>, b: seq<L>)
    ensures Run(next, s, a + b) ==
            match Run(next, s, a) case None => None case Some(t) => Run(next, t, b)
  {
    if a == [] {
      assert a + b == b;
    } else {
      assert (a + b)[0] == a[0] && (a + b)[1..] == a[1..] + b;
      match next(s, a[0])
      case None =>
      case Some(t) => RunConcat(next, t, a[1..], b);
    }
  }

  lemma RunOne<S, L>(next: (S, L) -> Option<S>, s: S, l: L)
    ensures Run(next, s, [l]) == next(s, l)
  {}

  lemma RunTwo<S, L>(next: (S, L) -> Option<S>, s: S, l: L, t: S, m: L, u: S)
    requires next(s, l) == Some(t) && next(t, m) == Some(u)
    ensures Run(next, s, [l, m]) == Some(u)
  {
    assert [l, m][1..] == [m];
    RunOne(next, t, m);
  }

  lemma RunFour<S, L>(next: (S, L) -> Option<S>, s: S, k: L, t: S, l: L, u: S, m: L, v: S, n: L, w: S)
    requires next(s, k) == Some(t) && next(t, l) == Some(u) && next(u, m) == Some(v) && next(v, n) == Some(w)
    ensures Run(next, s, [k, l, m, n]) == Some(w)
  {
    assert [k, l, m, n][1..] == [l, m, n] && [l, m, n][1..] == [m, n];
    RunTwo(next, u, m, v, n, w);
  }

  /** One more step at the end of a run. */
  lemma RunSnoc<S, L>(next: (S, L) -> Option<S>, s: S, steps: seq<L>, l: L)
    requires Run(next, s, steps).Some?
    ensures Run(next, s, steps + [l]) == next(Run(next, s, steps).value, l)
  {
    RunConcat(next, s, steps, [l]);
    RunOne(next, Run(next, s, steps).value, l);
  }

  /** Each step of a run is enabled where the steps before it lead. */
  lemma RunAt<S, L>(next: (S, L) -> Option<S>, s: S, steps: seq<L>, i: nat)
    requires Run(next, s, steps).Some? && i < |steps|
    ensures Run(next, s, steps[..i]).Some? && next(Run(next, s, steps[..i]).value, steps[i]).Some?
  {
    assert steps == steps[..i] + steps[i..];
    RunConcat(next, s, steps[..i], steps[i..]);
  }

  /** Two runs end to end. */
  lemma RunJoin<S, L>(next: (S, L) -> Option<S>, s: S, a: seq<L>, t: S, b: seq<L>, u: S)
    requires Run(next, s, a) == Some(t) && Run(next, t, b) == Some(u)
    ensures Run(next, s, a + b) == Some(u)
  {
    RunConcat(next, s, a, b);
  }

  lemma RunJoinSnoc<S, L>(next: (S, L) -> Option<S>, s: S, a: seq<L>, t: S, b: seq<L>, u: S, l: L)
    requires Run(next, s, a) == Some(t) && Run(next, t, b) == Some(u)
    ensures Run(next, s, a + b + [l]) == next(u, l)
  {
    RunJoin(next, s, a, t, b, u);
    RunSnoc(next, s, a + b, l);
  }

  /** The abstract steps of a concrete run: `lift` names the abstract step that a concrete step
      implements, or None where it implements nothing (a stutter). */
  function Lifted<S, L, B>(next: (S, L) -> Option<S>, lift: (S, L) -> Option<B>, s: S, steps: seq<L>): seq<B> {
    if steps == [] then []
    else match next(s, steps[0])
      case None => []
      case Some(t) =>
        var rest := Lifted(next, lift, t, steps[1..]);
        match lift(s, steps[0])
        case None => rest
        case Some(b) => [b] + rest
  }

  /** One concrete step is one abstract step, or leaves the abstract state alone. */
  ghost predicate StepSimulates<S, L, A, B>(
      next: (S, L) -> Option<S>, abs: (A, B) -> Option<A>, proj: S -> A, lift: (S, L) -> Option<B>, s: S, l: L)
  {
    match next(s, l)
    case None => true
    case Some(t) =>
      match lift(s, l)
      case None => proj(t) == proj(s)
      case Some(b) => abs(proj(s), b) == Some(proj(t))
  }

  /** Forward simulation: if every step of the concrete machine simulates, every concrete run
      projects on an abstract run. */
  lemma {:induction false} Simulation<S(!new), L(!new), A, B>(
      next: (S, L) -> Option<S>, inv: S -> bool,
      abs: (A, B) -> Option<A>, proj: S -> A, lift: (S, L) -> Option<B>,
      s: S, steps: seq<L>)
    requires inv(s)
    requires Run(next, s, steps).Some?
    requires forall t, l {:trigger next(t, l)} :: inv(t) && next(t, l).Some? ==> inv(next(t, l).value)
    requires forall t, l :: inv(t) ==> StepSimulates(next, abs, proj, lift, t, l)
    ensures Run(abs, proj(s), Lifted(next, lift, s, steps)) == Some(proj(Run(next, s, steps).value))
  {
    if steps != [] {
      var t := next(s, steps[0]).value;
      Simulation(next, inv, abs, proj, lift, t, steps[1..]);
      assert StepSimulates(next, abs, proj, lift, s, steps[0]);
      var rest := Lifted(next, lift, t, steps[1..]);
      match lift(s, steps[0])
      case None =>
      case Some(b) => assert ([b] + rest)[1..] == rest;
    }
  }

  /** Lifting in two stages gives the same abstract steps as lifting at once. */
  lemma {:induction false} LiftedTwice<S(!new), L(!new), A, B, C>(
      next: (S, L) -> Option<S>, inv: S -> bool,
      mid: (A, B) -> Option<A>, proj: S -> A, lift: (S, L) -> Option<B>,
      up: (A, B) -> Option<C>, direct: (S, L) -> Option<C>, s: S, steps: seq<L>)
    requires inv(s)
    requires Run(next, s, steps).Some?
    requires forall t, l {:trigger next(t, l)} :: inv(t) && next(t, l).Some? ==> inv(next(t, l).value)
    requires forall t, l :: inv(t) ==> StepSimulates(next, mid, proj, lift, t, l)
    requires forall t, l {:trigger direct(t, l)} :: inv(t) && next(t, l).Some? ==>
               direct(t, l) == match lift(t, l) case None => None case Some(b) => up(proj(t), b)
    ensures Lifted(next, direct, s, steps) == Lifted(mid, up, proj(s), Lifted(next, lift, s, steps))
  {
    if steps != [] {
      var t := next(s, steps[0]).value;
      LiftedTwice(next, inv, mid, proj, lift, up, direct, t, steps[1..]);
      assert StepSimulates(next, mid, proj, lift, s, steps[0]);
      assert direct(s, steps[0]) ==
             match lift(s, steps[0]) case None => None case Some(b) => up(proj(s), b);
      var rest := Lifted(next, lift, t, steps[1..]);
      match lift(s, steps[0])
      case None =>
      case Some(b) => assert ([b] + rest)[1..] == rest;
    }
  }
}
