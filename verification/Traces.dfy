/** Runs of a system given by a step function: what an action makes of a state, if it is enabled.

    A run is written in two ways.  `Leads` follows a list of actions from one state to another
    and is what a schedule is built with, piece by piece; `Passes` is a list of states with the
    actions between them and is what a statement about every moment of a run is made of.  The
    lemmas take one to the other: a schedule unfolds into its states, a run is extended by a
    schedule from its last state, and each step of a run is a step of the system.  The modules
    of the CCD protocol, of the runner queue and of the work pool use it. */
module Traces {
  import opened Options

  /** `acts` leads from `s` to `t`. */
  ghost predicate Leads<S, A>(step: (S, A) -> Option<S>, s: S, acts: seq<A>, t: S)
    decreases |acts|
  {
    if acts == [] then s == t
    else
      var u := step(s, acts[0]);
      u.Some? && Leads(step, u.value, acts[1..], t)
  }

  lemma {:induction false} LeadsOn<S, A>(step: (S, A) -> Option<S>, s: S, a: seq<A>, t: S, b: seq<A>, u: S)
    requires Leads(step, s, a, t) && Leads(step, t, b, u)
    ensures Leads(step, s, a + b, u)
    decreases |a|
  {
    if a == [] {
      assert a + b == b;
    } else {
      assert (a + b)[1..] == a[1..] + b;
      LeadsOn(step, step(s, a[0]).value, a[1..], t, b, u);
    }
  }

  lemma OneStep<S, A>(step: (S, A) -> Option<S>, s: S, a: A, t: S)
    requires step(s, a) == Some(t)
    ensures Leads(step, s, [a], t)
  {
    assert [a][1..] == [];
  }

  /** One more step at the end. */
  lemma LeadsStep<S, A>(step: (S, A) -> Option<S>, s: S, acts: seq<A>, t: S, a: A, u: S)
    requires Leads(step, s, acts, t) && step(t, a) == Some(u)
    ensures Leads(step, s, acts + [a], u)
  {
    OneStep(step, t, a, u);
    LeadsOn(step, s, acts, t, [a], u);
  }

  /** The states passed on the way. */
  ghost predicate Passes<S, A>(step: (S, A) -> Option<S>, ss: seq<S>, acts: seq<A>) {
    && |ss| == |acts| + 1
    && forall k {:trigger acts[k]} :: 0 <= k < |acts| ==> step(ss[k], acts[k]) == Some(ss[k + 1])
  }

  lemma StepAt<S, A>(step: (S, A) -> Option<S>, ss: seq<S>, acts: seq<A>, k: nat)
    requires Passes(step, ss, acts) && k < |acts|
    ensures step(ss[k], acts[k]) == Some(ss[k + 1])
  {
  }

  lemma {:induction false} Unfold<S, A>(step: (S, A) -> Option<S>, s: S, acts: seq<A>, t: S) returns (ss: seq<S>)
    requires Leads(step, s, acts, t)
    ensures Passes(step, ss, acts) && ss[0] == s && ss[|acts|] == t
    decreases |acts|
  {
    if acts == [] {
      ss := [s];
    } else {
      var rest := Unfold(step, step(s, acts[0]).value, acts[1..], t);
      ss := [s] + rest;
      forall k | 0 < k < |acts| ensures step(ss[k], acts[k]) == Some(ss[k + 1]) {
        assert acts[1..][k - 1] == acts[k] && ss[k] == rest[k - 1] && ss[k + 1] == rest[k];
      }
    }
  }

  /** A run goes on along whatever its last state leads to. */
  lemma Extend<S, A>(step: (S, A) -> Option<S>, ss: seq<S>, acts: seq<A>, more: seq<A>, t: S) returns (ss': seq<S>)
    requires Passes(step, ss, acts) && Leads(step, ss[|acts|], more, t)
    ensures Passes(step, ss', acts + more)
    ensures ss <= ss'
    ensures ss'[|acts + more|] == t
  {
    var tail := Unfold(step, ss[|acts|], more, t);
    ss' := ss + tail[1..];
    forall k | 0 <= k < |acts + more| ensures step(ss'[k], (acts + more)[k]) == Some(ss'[k + 1]) {
      if k >= |acts| {
        assert ss'[k] == tail[k - |acts|] && ss'[k + 1] == tail[k + 1 - |acts|];
      }
    }
  }
}
