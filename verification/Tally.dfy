/** Adding up what the elements of a sequence hold.

    References are counted as multisets of buffers: `Gather` adds up, over the elements of a
    sequence, the buffers each of them holds a reference to, whatever the elements are --
    descriptors, cache entries, planes, frames, headers, requests, users of a pool.  The lemmas
    say what appending an element, replacing one, or splitting the sequence does to the sum.
    `Remove` takes one element out of a list, as list_del does, and `UpTo` is the list of the
    first numbers, which a pool starts with. */
module Tally {
  /** The things held by the elements of `s`, `f` saying what each holds. */
  function Gather<T>(f: T -> multiset<nat>, s: seq<T>): multiset<nat> {
    if s == [] then multiset{} else Gather(f, s[..|s| - 1]) + f(s[|s| - 1])
  }

  lemma GatherSnoc<T>(f: T -> multiset<nat>, s: seq<T>, x: T)
    ensures Gather(f, s + [x]) == Gather(f, s) + f(x)
  {
    assert (s + [x])[..|s|] == s;
  }

  lemma {:induction false} GatherConcat<T>(f: T -> multiset<nat>, s: seq<T>, t: seq<T>)
    ensures Gather(f, s + t) == Gather(f, s) + Gather(f, t)
  {
    if t == [] {
      assert s + t == s;
    } else {
      assert (s + t)[..|s + t| - 1] == s + t[..|t| - 1];
      GatherConcat(f, s, t[..|t| - 1]);
    }
  }

  lemma {:induction false} GatherUpdate<T>(f: T -> multiset<nat>, s: seq<T>, k: nat, x: T)
    requires k < |s|
    ensures f(s[k]) <= Gather(f, s)
    ensures Gather(f, s[k := x]) == Gather(f, s) - f(s[k]) + f(x)
  {
    var n := |s| - 1;
    if k < n {
      GatherUpdate(f, s[..n], k, x);
      assert s[k := x][..n] == s[..n][k := x];
    } else {
      assert s[k := x][..n] == s[..n];
    }
  }

  lemma GatherPrefix<T>(f: T -> multiset<nat>, s: seq<T>, k: nat)
    requires k < |s|
    ensures Gather(f, s[..k + 1]) == Gather(f, s[..k]) + f(s[k])
    ensures Gather(f, s[..k + 1]) <= Gather(f, s)
  {
    hide Gather;
    assert s[..k + 1] == s[..k] + [s[k]];
    GatherSnoc(f, s[..k], s[k]);
    assert s == s[..k + 1] + s[k + 1..];
    GatherConcat(f, s[..k + 1], s[k + 1..]);
  }

  function UpTo(n: nat): seq<nat> { seq(n, i => i) }

  /** `s` without the first `x`. */
  function Remove(s: seq<nat>, x: nat): seq<nat> {
    if s == [] then [] else if s[0] == x then s[1..] else [s[0]] + Remove(s[1..], x)
  }

  lemma {:induction false} RemoveOne(s: seq<nat>, x: nat)
    requires x in s
    ensures multiset(Remove(s, x)) == multiset(s) - multiset{x} && |Remove(s, x)| == |s| - 1
  {
    assert s == [s[0]] + s[1..];
    if s[0] != x { RemoveOne(s[1..], x); }
  }
}
