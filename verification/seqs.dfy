/** Order-preserving selection from a sequence, as Ruby's `Array#select` does it, and
    a map over a sequence that stops at the first failure, as a Ruby loop that raises
    does. */
module Seqs {

  import opened Wrappers

  /** The elements of `s` that satisfy `p`, in their order in `s`. */
  function Filter<T>(s: seq<T>, p: T -> bool): (r: seq<T>)
    ensures |r| <= |s|
    ensures forall k | 0 <= k < |r| :: r[k] in s && p(r[k])
    ensures forall i | 0 <= i < |s| && p(s[i]) :: s[i] in r
    decreases |s|
  {
    if s == [] then []
    else
      var init := s[..|s| - 1];
      assert s == init + [s[|s| - 1]];
      Filter(init, p) + (if p(s[|s| - 1]) then [s[|s| - 1]] else [])
  }

  /** Selecting from a prefix one element longer adds that element when it qualifies. */
  lemma FilterPrefixStep<T>(s: seq<T>, i: int, p: T -> bool)
    requires 0 <= i < |s|
    ensures Filter(s[..i + 1], p) == Filter(s[..i], p) + (if p(s[i]) then [s[i]] else [])
  {
    assert s[..i + 1][..i] == s[..i];
  }

  /** Selection keeps relative order: a sequence all of whose elements qualify is unchanged. */
  lemma {:induction false} FilterAll<T>(s: seq<T>, p: T -> bool)
    requires forall k | 0 <= k < |s| :: p(s[k])
    ensures Filter(s, p) == s
    decreases |s|
  {
    if s != [] {
      var n := |s| - 1;
      assert forall k | 0 <= k < n :: s[..n][k] == s[k];
      FilterAll(s[..n], p);
      assert s == s[..n] + [s[n]];
    }
  }

  /** Selecting with a predicate no element satisfies gives nothing. */
  lemma {:induction false} FilterNone<T>(s: seq<T>, p: T -> bool)
    requires forall k | 0 <= k < |s| :: !p(s[k])
    ensures Filter(s, p) == []
    decreases |s|
  {
    if s != [] {
      var init := s[..|s| - 1];
      assert forall k | 0 <= k < |init| :: !p(init[k]) by {
        forall k | 0 <= k < |init| ensures !p(init[k]) {
          assert init[k] == s[k];
        }
      }
      FilterNone(init, p);
    }
  }

  /** Selection gives nothing exactly when no element qualifies. */
  lemma FilterEmptyIff<T>(s: seq<T>, p: T -> bool)
    ensures Filter(s, p) == [] <==> forall k | 0 <= k < |s| :: !p(s[k])
  {
    if forall k | 0 <= k < |s| :: !p(s[k]) {
      FilterNone(s, p);
    }
    if exists k | 0 <= k < |s| :: p(s[k]) {
      var k :| 0 <= k < |s| && p(s[k]);
      assert s[k] in Filter(s, p);
    }
  }

  /** Selection distributes over concatenation: it keeps the order of the elements. */
  lemma {:induction false} FilterAppend<T>(a: seq<T>, b: seq<T>, p: T -> bool)
    ensures Filter(a + b, p) == Filter(a, p) + Filter(b, p)
    decreases |b|
  {
    if b == [] {
      assert a + b == a;
    } else {
      var init := b[..|b| - 1];
      FilterAppend(a, init, p);
      assert (a + b)[..|a + b| - 1] == a + init;
      assert (a + b)[|a + b| - 1] == b[|b| - 1];
    }
  }

  /** `f` applied to each element in order; the first failure is the result. */
  function MapResults<A, B>(xs: seq<A>, f: A -> Result<B>): Result<seq<B>>
    decreases |xs|
  {
    if xs == [] then Ok([])
    else
      var acc := MapResults(xs[..|xs| - 1], f);
      var y := f(xs[|xs| - 1]);
      if acc.Err? then acc
      else if y.Err? then Err(y.reason)
      else Ok(acc.value + [y.value])
  }

  /** Mapping one more element of `xs` after a successful prefix. */
  lemma MapResultsStep<A, B>(xs: seq<A>, i: int, f: A -> Result<B>)
    requires 0 <= i < |xs| && MapResults(xs[..i], f).Ok?
    ensures MapResults(xs[..i + 1], f) ==
              if f(xs[i]).Err? then Err(f(xs[i]).reason) else Ok(MapResults(xs[..i], f).value + [f(xs[i]).value])
  {
    assert xs[..i + 1][..i] == xs[..i];
  }

  /** A successful map holds the result of `f` on each element, in order. */
  lemma {:induction false} MapResultsOk<A, B>(xs: seq<A>, f: A -> Result<B>)
    requires MapResults(xs, f).Ok?
    ensures |MapResults(xs, f).value| == |xs|
    ensures forall i | 0 <= i < |xs| :: f(xs[i]).Ok? && MapResults(xs, f).value[i] == f(xs[i]).value
    decreases |xs|
  {
    if xs != [] {
      var init := xs[..|xs| - 1];
      MapResultsOk(init, f);
      forall i | 0 <= i < |xs|
        ensures f(xs[i]).Ok? && MapResults(xs, f).value[i] == f(xs[i]).value
      {
        if i < |init| {
          assert xs[i] == init[i];
        }
      }
    }
  }

  /** A failure on a prefix is the failure of the whole map. */
  lemma {:induction false} MapResultsFailurePersists<A, B>(xs: seq<A>, k: int, f: A -> Result<B>)
    requires 0 <= k <= |xs|
    requires MapResults(xs[..k], f).Err?
    ensures MapResults(xs, f) == MapResults(xs[..k], f)
    decreases |xs| - k
  {
    if k < |xs| {
      assert xs[..k + 1][..k] == xs[..k];
      MapResultsFailurePersists(xs, k + 1, f);
    } else {
      assert xs[..k] == xs;
    }
  }

  /** The map fails exactly when `f` fails on some element, and then with the failure of
      the first such element. */
  lemma {:induction false} MapResultsErrIff<A, B>(xs: seq<A>, f: A -> Result<B>)
    ensures MapResults(xs, f).Err? <==> exists i | 0 <= i < |xs| :: f(xs[i]).Err?
    ensures MapResults(xs, f).Err? ==>
              exists i | 0 <= i < |xs| :: f(xs[i]).Err? && MapResults(xs, f).reason == f(xs[i]).reason
                                          && forall j | 0 <= j < i :: f(xs[j]).Ok?
    decreases |xs|
  {
    if xs != [] {
      var init := xs[..|xs| - 1];
      MapResultsErrIff(init, f);
      if MapResults(init, f).Err? {
        var i :| 0 <= i < |init| && f(init[i]).Err? && MapResults(init, f).reason == f(init[i]).reason
                 && forall j | 0 <= j < i :: f(init[j]).Ok?;
        assert xs[i] == init[i];
        forall j | 0 <= j < i ensures f(xs[j]).Ok? {
          assert xs[j] == init[j];
        }
      } else {
        forall j | 0 <= j < |init| ensures f(xs[j]).Ok? {
          assert xs[j] == init[j];
        }
      }
    }
  }

  /** A left fold whose step may fail, stopping at the first failure, as a Ruby loop
      that updates its state and whose body may raise. */
  function FoldResults<S, A>(xs: seq<A>, init: S, step: (S, A) -> Result<S>): Result<S>
    decreases |xs|
  {
    if xs == [] then Ok(init)
    else
      var acc := FoldResults(xs[..|xs| - 1], init, step);
      if acc.Err? then acc else step(acc.value, xs[|xs| - 1])
  }

  /** Folding one more element of `xs`. */
  lemma FoldResultsStep<S, A>(xs: seq<A>, i: int, init: S, step: (S, A) -> Result<S>)
    requires 0 <= i < |xs|
    ensures FoldResults(xs[..i + 1], init, step) ==
              if FoldResults(xs[..i], init, step).Err? then FoldResults(xs[..i], init, step)
              else step(FoldResults(xs[..i], init, step).value, xs[i])
  {
    assert xs[..i + 1][..i] == xs[..i];
  }

  /** A failure on a prefix is the failure of the whole fold. */
  lemma {:induction false} FoldResultsFailurePersists<S, A>(xs: seq<A>, k: int, init: S, step: (S, A) -> Result<S>)
    requires 0 <= k <= |xs|
    requires FoldResults(xs[..k], init, step).Err?
    ensures FoldResults(xs, init, step) == FoldResults(xs[..k], init, step)
    decreases |xs| - k
  {
    if k < |xs| {
      FoldResultsStep(xs, k, init, step);
      FoldResultsFailurePersists(xs, k + 1, init, step);
    } else {
      assert xs[..k] == xs;
    }
  }
}
