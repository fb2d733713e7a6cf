/** Repeated casts on one filter instance. The `@klass` cache lives as long as
    the filter, so one cast leaves behind the state the next one starts from;
    here every cast uses the default `reconstantize` and the same namespace. */
module FilterRuns {
  import opened Wrappers
  import opened ObjectFilter

  /** The outcomes of a series of casts, the state after the last one, and the
      resolutions and match tests spent by all of them. */
  datatype Run<V> = Run(outcomes: seq<Outcome<V>>, state: FilterState, resolutions: nat, matchTests: nat)

  /** Cast each value of `vs` in turn, threading the filter state through. */
  function CastEach<V>(f: Filter, res: Resolver, mem: Membership<V>, st: FilterState, vs: seq<V>): (r: Run<V>)
    ensures |r.outcomes| == |vs|
    ensures r.resolutions <= 2 * |vs| && r.matchTests <= 2 * |vs|
    ensures st.cached.Some? ==> r.state.cached.Some?
    decreases |vs|
  {
    if |vs| == 0 then Run([], st, 0, 0)
    else
      var c := Cast(f, res, mem, st, vs[0], true);
      var rest := CastEach(f, res, mem, c.state, vs[1..]);
      Run([c.outcome] + rest.outcomes, rest.state, c.resolutions + rest.resolutions, c.matchTests + rest.matchTests)
  }

  /** How many values of `vs` the class `d` rejects. */
  function Rejected<V>(mem: Membership<V>, d: Descriptor, vs: seq<V>): nat
    decreases |vs|
  {
    if |vs| == 0 then 0
    else (if Matches(mem, d, vs[0]) then 0 else 1) + Rejected(mem, d, vs[1..])
  }

  /** What a single cast against the up-to-date class `d` ends in. */
  function Verdict<V>(mem: Membership<V>, d: Descriptor, v: V): Outcome<V> {
    if Matches(mem, d, v) then Returned(v) else DelegatedToSuper(v)
  }

  /** With a resolvable name and a cache that is empty or up to date, a series
      of casts resolves the class once to fill the cache and once more per
      rejected value, tests each value once plus once more per rejection,
      admits exactly the values the current class matches, and ends with the
      current class cached. */
  lemma {:induction false} RunWithFreshCache<V>(f: Filter, res: Resolver, mem: Membership<V>, st: FilterState, vs: seq<V>)
    requires Resolvable(f, res)
    requires st.cached.None? || st.cached == Some(Current(f, res))
    ensures var r := CastEach(f, res, mem, st, vs);
            && (forall i :: 0 <= i < |vs| ==> r.outcomes[i] == Verdict(mem, Current(f, res), vs[i]))
            && r.resolutions == (if st.cached.None? && |vs| > 0 then 1 else 0) + Rejected(mem, Current(f, res), vs)
            && r.matchTests == |vs| + Rejected(mem, Current(f, res), vs)
            && (|vs| > 0 ==> r.state == FilterState(Some(Current(f, res))))
    decreases |vs|
  {
    if |vs| > 0 {
      var d := Current(f, res);
      var c := Cast(f, res, mem, st, vs[0], true);
      assert c.outcome == Verdict(mem, d, vs[0]);
      assert c.state == FilterState(Some(d));
      assert c.resolutions == (if st.cached.None? then 1 else 0) + (if Matches(mem, d, vs[0]) then 0 else 1);
      assert c.matchTests == 1 + (if Matches(mem, d, vs[0]) then 0 else 1);
      RunWithFreshCache(f, res, mem, c.state, vs[1..]);
      var r := CastEach(f, res, mem, st, vs);
      var rest := CastEach(f, res, mem, c.state, vs[1..]);
      assert r.outcomes == [c.outcome] + rest.outcomes;
      forall i | 0 <= i < |vs|
        ensures r.outcomes[i] == Verdict(mem, d, vs[i])
      {
        if i > 0 {
          assert r.outcomes[i] == rest.outcomes[i - 1];
          assert vs[1..][i - 1] == vs[i];
        }
      }
    }
  }

  /** With an empty cache and no class under the name, every cast of a series
      raises `InvalidClassError` with that name, each after one resolution and
      no match test, and the cache stays empty throughout. */
  lemma {:induction false} RunWithMissingClass<V>(f: Filter, res: Resolver, mem: Membership<V>, vs: seq<V>)
    requires !Resolvable(f, res)
    ensures var r := CastEach(f, res, mem, Unresolved, vs);
            && (forall i :: 0 <= i < |vs| ==> r.outcomes[i] == InvalidClass(KlassName(f, res.camelize)))
            && r.state == Unresolved
            && r.resolutions == |vs|
            && r.matchTests == 0
    decreases |vs|
  {
    if |vs| > 0 {
      var c := Cast(f, res, mem, Unresolved, vs[0], true);
      assert c == CastResult(InvalidClass(KlassName(f, res.camelize)), Unresolved, 1, 0);
      RunWithMissingClass(f, res, mem, vs[1..]);
      var r := CastEach(f, res, mem, Unresolved, vs);
      var rest := CastEach(f, res, mem, Unresolved, vs[1..]);
      assert r.outcomes == [c.outcome] + rest.outcomes;
      forall i | 0 <= i < |vs|
        ensures r.outcomes[i] == InvalidClass(KlassName(f, res.camelize))
      {
        if i > 0 {
          assert r.outcomes[i] == rest.outcomes[i - 1];
        }
      }
    }
  }

  /** Once filled, the cache is never emptied again by later casts, and every
      class it comes to hold is one the namespace holds under the name. */
  lemma {:induction false} RunKeepsCacheCurrent<V>(f: Filter, res: Resolver, mem: Membership<V>, d: Descriptor, vs: seq<V>)
    ensures var r := CastEach(f, res, mem, FilterState(Some(d)), vs);
            r.state.cached == Some(d) || (Resolvable(f, res) && r.state.cached == Some(Current(f, res)))
    decreases |vs|
  {
    if |vs| > 0 {
      var c := Cast(f, res, mem, FilterState(Some(d)), vs[0], true);
      assert c.state.cached.Some?;
      RunKeepsCacheCurrent(f, res, mem, c.state.cached.value, vs[1..]);
    }
  }
}
