/** The object filter of ActiveInteraction: a filter that admits a value when
    it belongs to a class named by the `:class` option (or, failing that, by
    the attribute name), caching the resolved class on the filter and
    re-resolving it once when a value does not match.

    The pieces the filter borrows from its surroundings are parameters here:
    - `Resolver`: Ruby's constant namespace (`Object.const_get`) as a map from
      constant name to class, and ActiveSupport's `String#camelize` as an
      arbitrary function on strings;
    - `Membership`: the resolved class's case equality (`===`) and the value's
      `is_a?`, as arbitrary predicates per class;
    - the parent `Filter#cast` as the opaque outcome `DelegatedToSuper`. */
module ObjectFilter {
  import opened Wrappers

  /** A class object found in the constant namespace. Two definitions of the
      same constant name (say, a class reloaded after it was first looked up)
      differ in their `generation`. */
  datatype Descriptor = Descriptor(className: string, generation: nat)

  /** The value given for the `:class` option. A class handle stringifies to
      its name, a String or a Symbol to its text, and an explicit `nil` to the
      empty string. */
  datatype ClassOption =
    | ClassHandle(handleName: string)
    | NameText(text: string)
    | NilOption
  {
    /** Ruby's `to_s` on the option value. */
    function ToS(): string {
      match this
      case ClassHandle(n) => n
      case NameText(t) => t
      case NilOption => ""
    }
  }

  /** The options of one attribute declaration that the object filter reads:
      `classOption` is `None` when the `:class` key is absent. */
  datatype Options = Options(classOption: Option<ClassOption>)

  /** One declared attribute: its name (the symbol given to `object`) and its
      options. Both are fixed once the attribute is declared. */
  datatype Filter = Filter(name: string, options: Options)

  /** The mutable part of a filter instance: the `@klass` cache, `None` until
      the class is first resolved. */
  datatype FilterState = FilterState(cached: Option<Descriptor>)

  /** The ambient constant namespace and the camelizing name transformation. */
  datatype Resolver = Resolver(namespace: map<string, Descriptor>, camelize: string -> string)

  /** The two membership tests a class offers for a value. */
  datatype Membership<!V> = Membership(caseEquals: (Descriptor, V) -> bool, isA: (Descriptor, V) -> bool)

  /** The result of the private `klass` helper: the class found, or the
      `InvalidClassError` it raises, carrying the name it tried. */
  datatype Resolution = Resolved(descriptor: Descriptor) | InvalidClassError(className: string)

  /** How one `cast` call ends: the value handed back unchanged, the
      `InvalidClassError` raised by `klass`, or a call of the parent
      `Filter#cast` with the value. */
  datatype Outcome<V> =
    | Returned(value: V)
    | InvalidClass(className: string)
    | DelegatedToSuper(value: V)

  /** What one `cast` call produces: its outcome, the filter state it leaves
      behind, and how many times it called `klass` and `matches?`. */
  datatype CastResult<V> = CastResult(outcome: Outcome<V>, state: FilterState, resolutions: nat, matchTests: nat)

  /** The unresolved state a freshly built filter starts in. */
  const Unresolved := FilterState(None)

  /** The string `options.fetch(:class, name).to_s` yields before camelizing:
      the option when the key is present, even when its value is `nil`. */
  function SelectedName(f: Filter): string {
    match f.options.classOption
    case Some(o) => o.ToS()
    case None => f.name
  }

  /** The constant name `klass` looks up. */
  function KlassName(f: Filter, camelize: string -> string): string {
    camelize(SelectedName(f))
  }

  /** The private `klass` helper: look the constant name up in the namespace,
      turning a failed lookup into an `InvalidClassError` with that name. */
  function Klass(f: Filter, res: Resolver): (r: Resolution)
    ensures r.Resolved? <==> KlassName(f, res.camelize) in res.namespace
    ensures r.Resolved? ==> r.descriptor == res.namespace[KlassName(f, res.camelize)]
    ensures r.InvalidClassError? ==> r.className == KlassName(f, res.camelize)
  {
    var n := KlassName(f, res.camelize);
    if n in res.namespace then Resolved(res.namespace[n]) else InvalidClassError(n)
  }

  /** The private `matches?` helper: case equality, or else `is_a?`. */
  predicate Matches<V>(mem: Membership<V>, d: Descriptor, v: V) {
    mem.caseEquals(d, v) || mem.isA(d, v)
  }

  /** True when the namespace currently holds a class under the filter's name. */
  predicate Resolvable(f: Filter, res: Resolver) {
    KlassName(f, res.camelize) in res.namespace
  }

  /** The class the namespace currently holds under the filter's name. */
  function Current(f: Filter, res: Resolver): Descriptor
    requires Resolvable(f, res)
  {
    res.namespace[KlassName(f, res.camelize)]
  }

  /** `ObjectFilter#cast(value, context, reconstantize)`. The context is only
      passed on to the parent cast and is left out.

      1. `@klass ||= klass`: resolve only when the cache is empty; a failed
         resolution raises before any match test.
      2. A matching value is returned as it is.
      3. Otherwise, without `reconstantize`, the parent cast takes over.
      4. Otherwise `klass` runs again, its class replaces the cache, and the
         call recurses once with `reconstantize` false. */
  function Cast<V>(f: Filter, res: Resolver, mem: Membership<V>, st: FilterState, v: V, reconstantize: bool): (r: CastResult<V>)
    // one recursion at most, and so at most two calls of each helper
    ensures r.resolutions <= 2 && r.matchTests <= 2
    ensures !reconstantize ==> r.matchTests <= 1 && r.resolutions <= (if st.cached.None? then 1 else 0)
    // the value is never transformed
    ensures r.outcome.Returned? ==> r.outcome.value == v
    ensures r.outcome.DelegatedToSuper? ==> r.outcome.value == v
    // the class error: when, with which name, and with the cache untouched
    ensures r.outcome.InvalidClass? <==>
              !Resolvable(f, res) && (st.cached.None? || (reconstantize && !Matches(mem, st.cached.value, v)))
    ensures r.outcome.InvalidClass? ==> r.outcome.className == KlassName(f, res.camelize) && r.state == st
    ensures r.matchTests == 0 <==> st.cached.None? && !Resolvable(f, res)
    // the cache is filled on every other path, and holds the class last consulted
    ensures !r.outcome.InvalidClass? ==> r.state.cached.Some?
    ensures r.outcome.Returned? ==> Matches(mem, r.state.cached.value, v)
    ensures r.outcome.DelegatedToSuper? ==> !Matches(mem, r.state.cached.value, v)
    // the cache changes only to what the namespace now holds
    ensures r.state == st || (Resolvable(f, res) && r.state.cached == Some(Current(f, res)))
    decreases if reconstantize then 1 else 0
  {
    var filled := if st.cached.Some? then Resolved(st.cached.value) else Klass(f, res);
    var filling := if st.cached.Some? then 0 else 1;
    match filled
    case InvalidClassError(n) => CastResult(InvalidClass(n), st, filling, 0)
    case Resolved(d) =>
      if Matches(mem, d, v) then
        CastResult(Returned(v), FilterState(Some(d)), filling, 1)
      else if !reconstantize then
        CastResult(DelegatedToSuper(v), FilterState(Some(d)), filling, 1)
      else
        match Klass(f, res)
        case InvalidClassError(n) => CastResult(InvalidClass(n), FilterState(Some(d)), filling + 1, 1)
        case Resolved(d') =>
          var retried := Cast(f, res, mem, FilterState(Some(d')), v, false);
          CastResult(retried.outcome, retried.state, filling + 1 + retried.resolutions, 1 + retried.matchTests)
  }
}
