/** Facts about a single `ObjectFilter#cast` call: which name is resolved,
    when a value is admitted, what the cache holds afterwards, and how many
    resolutions and match tests the call spends. */
module ObjectFilterProperties {
  import opened Wrappers
  import opened ObjectFilter

  /** The class the first match test of a call consults: the cached one, or
      else the one `@klass ||= klass` resolves; `None` when that resolution
      fails. */
  function FirstClass(f: Filter, res: Resolver, st: FilterState): Option<Descriptor> {
    if st.cached.Some? then st.cached
    else if Resolvable(f, res) then Some(Current(f, res))
    else None
  }

  // ---------------------------------------------------------------------
  // Name selection (`options.fetch(:class, name).to_s.camelize`)
  // ---------------------------------------------------------------------

  /** An explicit `:class` option decides the name alone: two attributes with
      the same options resolve the same name, whatever they are called. */
  lemma ExplicitClassOptionWins(f: Filter, g: Filter, camelize: string -> string)
    requires f.options == g.options && f.options.classOption.Some?
    ensures KlassName(f, camelize) == KlassName(g, camelize)
    ensures KlassName(f, camelize) == camelize(f.options.classOption.value.ToS())
  {
  }

  /** Without a `:class` option the camelized attribute name is resolved. */
  lemma AttributeNameFallback(f: Filter, camelize: string -> string)
    requires f.options.classOption.None?
    ensures KlassName(f, camelize) == camelize(f.name)
  {
  }

  /** An option given as `nil` is present, not absent: `fetch` returns it and
      the empty string is camelized, not the attribute name. */
  lemma ExplicitNilIsNotAbsent(f: Filter, camelize: string -> string)
    requires f.options.classOption == Some(NilOption)
    ensures KlassName(f, camelize) == camelize("")
  {
  }

  // ---------------------------------------------------------------------
  // Admission
  // ---------------------------------------------------------------------

  /** A value the first consulted class matches comes back unchanged, with no
      error, one match test, and a resolution only if the cache was empty. */
  lemma MatchingValueReturned<V>(f: Filter, res: Resolver, mem: Membership<V>, st: FilterState, v: V, reconstantize: bool)
    requires FirstClass(f, res, st).Some? && Matches(mem, FirstClass(f, res, st).value, v)
    ensures Cast(f, res, mem, st, v, reconstantize) ==
              CastResult(Returned(v), FilterState(FirstClass(f, res, st)), if st.cached.None? then 1 else 0, 1)
  {
  }

  /** The membership test is a disjunction: a value the class's case equality
      accepts is admitted even when it is not an instance of the class. */
  lemma CustomMembershipAdmits<V>(f: Filter, res: Resolver, mem: Membership<V>, st: FilterState, v: V, reconstantize: bool)
    requires FirstClass(f, res, st).Some?
    requires mem.caseEquals(FirstClass(f, res, st).value, v) && !mem.isA(FirstClass(f, res, st).value, v)
    ensures Cast(f, res, mem, st, v, reconstantize).outcome == Returned(v)
  {
  }

  /** An instance of the class is admitted whatever its case equality says. */
  lemma InstanceAdmits<V>(f: Filter, res: Resolver, mem: Membership<V>, st: FilterState, v: V, reconstantize: bool)
    requires FirstClass(f, res, st).Some? && mem.isA(FirstClass(f, res, st).value, v)
    ensures Cast(f, res, mem, st, v, reconstantize).outcome == Returned(v)
  {
  }

  /** Exactly when a cast hands the value back: the first consulted class
      matches it, or a retry is allowed and the class the namespace now holds
      matches it. */
  lemma ReturnedExactly<V>(f: Filter, res: Resolver, mem: Membership<V>, st: FilterState, v: V, reconstantize: bool)
    ensures Cast(f, res, mem, st, v, reconstantize).outcome.Returned? <==>
              || (FirstClass(f, res, st).Some? && Matches(mem, FirstClass(f, res, st).value, v))
              || (reconstantize && Resolvable(f, res) && Matches(mem, Current(f, res), v))
  {
  }

  // ---------------------------------------------------------------------
  // Errors
  // ---------------------------------------------------------------------

  /** With an empty cache and no class under the name, every cast raises
      `InvalidClassError` with that name after one resolution and before any
      match test, and the cache stays empty. */
  lemma MissingClassFailsBeforeMatch<V>(f: Filter, res: Resolver, mem: Membership<V>, st: FilterState, v: V, reconstantize: bool)
    requires st.cached.None? && !Resolvable(f, res)
    ensures Cast(f, res, mem, st, v, reconstantize) ==
              CastResult(InvalidClass(KlassName(f, res.camelize)), st, 1, 0)
  {
  }

  /** When the re-resolution of the retry fails, the error propagates and the
      cache keeps the class it held: the assignment never happens. */
  lemma FailedReResolutionKeepsCache<V>(f: Filter, res: Resolver, mem: Membership<V>, d: Descriptor, v: V)
    requires !Resolvable(f, res) && !Matches(mem, d, v)
    ensures Cast(f, res, mem, FilterState(Some(d)), v, true) ==
              CastResult(InvalidClass(KlassName(f, res.camelize)), FilterState(Some(d)), 1, 1)
  {
  }

  // ---------------------------------------------------------------------
  // Cache and retry
  // ---------------------------------------------------------------------

  /** A populated cache is not resolved again for a matching value, and is
      left as it was. */
  lemma PopulatedCacheSkipsResolution<V>(f: Filter, res: Resolver, mem: Membership<V>, d: Descriptor, v: V, reconstantize: bool)
    requires Matches(mem, d, v)
    ensures Cast(f, res, mem, FilterState(Some(d)), v, reconstantize) ==
              CastResult(Returned(v), FilterState(Some(d)), 0, 1)
  {
  }

  /** Without `reconstantize`, a value the first consulted class rejects goes
      to the parent cast. A populated cache is neither resolved again nor
      changed; an empty one is filled by the resolution of `@klass ||= klass`
      before the hand-over. */
  lemma NoRetryDelegates<V>(f: Filter, res: Resolver, mem: Membership<V>, st: FilterState, v: V)
    requires FirstClass(f, res, st).Some? && !Matches(mem, FirstClass(f, res, st).value, v)
    ensures Cast(f, res, mem, st, v, false) ==
              CastResult(DelegatedToSuper(v), FilterState(FirstClass(f, res, st)), if st.cached.None? then 1 else 0, 1)
  {
  }

  /** A non-matching value with a retry allowed and a resolvable name costs
      exactly one more resolution and one more match test than the first
      attempt, and leaves the cache holding the freshly resolved class. */
  lemma RetryRefreshesCache<V>(f: Filter, res: Resolver, mem: Membership<V>, st: FilterState, v: V)
    requires Resolvable(f, res)
    requires !Matches(mem, FirstClass(f, res, st).value, v)
    ensures Cast(f, res, mem, st, v, true).state == FilterState(Some(Current(f, res)))
    ensures Cast(f, res, mem, st, v, true).resolutions == (if st.cached.None? then 2 else 1)
    ensures Cast(f, res, mem, st, v, true).matchTests == 2
  {
  }

  /** The retry repairs a stale cache: a value the cached class rejects but
      the class now in the namespace accepts is returned, and the cache is
      brought up to date. */
  lemma StaleCacheRecovers<V>(f: Filter, res: Resolver, mem: Membership<V>, stale: Descriptor, v: V)
    requires Resolvable(f, res)
    requires !Matches(mem, stale, v) && Matches(mem, Current(f, res), v)
    ensures Cast(f, res, mem, FilterState(Some(stale)), v, true) ==
              CastResult(Returned(v), FilterState(Some(Current(f, res))), 1, 2)
  {
  }

  /** With an empty or up-to-date cache the retry cannot change the verdict:
      it consults the same class again, and the value goes to the parent cast. */
  lemma RetryWithFreshCacheDelegates<V>(f: Filter, res: Resolver, mem: Membership<V>, st: FilterState, v: V)
    requires Resolvable(f, res) && (st.cached.None? || st.cached == Some(Current(f, res)))
    requires !Matches(mem, Current(f, res), v)
    ensures Cast(f, res, mem, st, v, true).outcome == DelegatedToSuper(v)
    ensures Cast(f, res, mem, st, v, true).state == FilterState(Some(Current(f, res)))
  {
  }

  /** Casting an admitted value a second time on the same filter returns it
      again, with no resolution and no change to the cache. */
  lemma CastIdempotent<V>(f: Filter, res: Resolver, mem: Membership<V>, st: FilterState, v: V)
    requires Cast(f, res, mem, st, v, true).outcome.Returned?
    ensures var first := Cast(f, res, mem, st, v, true);
            Cast(f, res, mem, first.state, v, true) == CastResult(Returned(v), first.state, 0, 1)
  {
  }
}
