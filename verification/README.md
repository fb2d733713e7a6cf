# ObjectFilter#cast in Dafny

A model of the object filter of ActiveInteraction. An attribute declared with
`object :account` (or `object :account, class: User`) admits a value only if
it belongs to a class. The filter finds that class by name: the `:class`
option when given, otherwise the attribute name. It camelizes the name and
looks it up in Ruby's constant namespace. The class found is cached on the
filter (`@klass`). A value that does not match is tried once more against a
freshly resolved class; if it still does not match, the parent
`Filter#cast` takes over.

The model is functional. A filter is an immutable `Filter` record (attribute
name and options). Its cache is a `FilterState` holding an `Option<Descriptor>`.
`Cast` returns the outcome, the new state, and how many times it called the
private `klass` (resolutions) and `matches?` (match tests). The outside pieces
are parameters:

- the constant namespace is a `map<string, Descriptor>`;
- `String#camelize` is an arbitrary `string -> string`;
- `===` and `is_a?` are arbitrary predicates per class (`Membership`);
- the parent cast is the opaque outcome `DelegatedToSuper(value)`.

A `Descriptor` has a generation, so a class redefined under the same name (a
reload) is a different descriptor. That is the stale cache the retry exists
for.

Modules:

- `Wrappers`: `Option`.
- `ObjectFilter` (`object_filter.dfy`): the data model, `KlassName`, `Klass`,
  `Matches` and `Cast`.
- `ObjectFilterProperties` (`object_filter_properties.dfy`): facts about one call.
- `FilterRuns` (`filter_runs.dfy`): a series of casts on one filter instance, which
  shares its cache, and inductive facts about such a series.
- `Scenarios` (`scenarios.dfy`): concrete declarations worked through.

Three points of the code's behaviour that are easy to misread:

- A value still rejected after the retry is not turned into a type-mismatch
  error by this file. It is handed to the parent `Filter#cast`, whose behaviour
  is not shown, so the model stops at `DelegatedToSuper`.
- Admission is `===` or `is_a?`, which also admits subclass instances. It is
  not an exact-instance test.
- With an empty or up-to-date cache, the retry resolves and tests the same
  class a second time. Both resolutions of one call see the same namespace
  (see "Left out"), so the retry cannot change the verdict
  (`RetryWithFreshCacheDelegates`). Only a stale cache is repaired
  (`StaleCacheRecovers`).

## Model

| member | source | states |
|---|---|---|
| ObjectFilter.Cast | lib/active_interaction/filters/object_filter.rb:24-35 | At most two resolutions and two match tests, and at most one of each without `reconstantize`. The value is never transformed. `InvalidClassError` arises exactly when the name is missing from the namespace and either the cache was empty or a retry was needed; it carries the attempted name and leaves the cache as it was. No match test happens exactly when the cache was empty and resolution failed. Otherwise the cache is filled with the class that last judged the value, and it only ever changes to what the namespace currently holds. |
| ObjectFilter.Klass | lib/active_interaction/filters/object_filter.rb:42-47 | Resolution succeeds exactly when the camelized name is in the namespace, and yields the class stored there. A failure is `InvalidClassError` carrying that name. |
| ObjectFilterProperties.ExplicitClassOptionWins | lib/active_interaction/filters/object_filter.rb:43 | `KlassName` (through `SelectedName`) models `options.fetch(:class, name).to_s.camelize`. With a `:class` option, the resolved name is the camelized option and does not depend on the attribute name. |
| ObjectFilterProperties.AttributeNameFallback | lib/active_interaction/filters/object_filter.rb:43 | Without a `:class` option, the camelized attribute name is resolved. |
| ObjectFilterProperties.ExplicitNilIsNotAbsent | lib/active_interaction/filters/object_filter.rb:43 | `class: nil` counts as present: `fetch` returns it and the empty string is camelized, not the attribute name. |
| ObjectFilterProperties.MatchingValueReturned | lib/active_interaction/filters/object_filter.rb:25-28 | A value the first consulted class matches is returned unchanged, with no error, one match test, and that class cached. A resolution happens only if the cache was empty. |
| ObjectFilterProperties.CustomMembershipAdmits | lib/active_interaction/filters/object_filter.rb:52-55 | `Matches`, the model of `matches?`, is the disjunction of `===` and `is_a?`: a value the class's `===` accepts is admitted even when `is_a?` rejects it. |
| ObjectFilterProperties.InstanceAdmits | lib/active_interaction/filters/object_filter.rb:52-55 | A value that `is_a?` the class is admitted whatever `===` says. |
| ObjectFilterProperties.ReturnedExactly | lib/active_interaction/filters/object_filter.rb:24-35 | A cast returns the value if and only if the first consulted class matches it, or a retry is allowed and the class now in the namespace matches it. |
| ObjectFilterProperties.MissingClassFailsBeforeMatch | lib/active_interaction/filters/object_filter.rb:42-46 | With an empty cache and the name missing, any cast raises `InvalidClassError` with that name after one resolution and no match test. The cache stays empty. |
| ObjectFilterProperties.FailedReResolutionKeepsCache | lib/active_interaction/filters/object_filter.rb:29-33 | If the re-resolution of the retry fails, the error propagates and the cache keeps its previous class. |
| ObjectFilterProperties.PopulatedCacheSkipsResolution | lib/active_interaction/filters/object_filter.rb:25-28 | With a populated cache, a matching value costs no resolution and one match test, and the cache is unchanged. |
| ObjectFilterProperties.NoRetryDelegates | lib/active_interaction/filters/object_filter.rb:30 | Without `reconstantize`, a value the first consulted class rejects goes to the parent cast after one match test. With a populated cache there is no resolution and the cache is unchanged. With an empty cache, line 25 resolves once and fills the cache before the hand-over. |
| ObjectFilterProperties.RetryRefreshesCache | lib/active_interaction/filters/object_filter.rb:32-33 | A rejected value with a retry allowed costs exactly one more resolution and two match tests in all. The cache then holds the freshly resolved class. |
| ObjectFilterProperties.StaleCacheRecovers | lib/active_interaction/filters/object_filter.rb:29-33 | A value the stale cached class rejects but the current class accepts is returned after one resolution and two match tests. The cache is brought up to date. |
| ObjectFilterProperties.RetryWithFreshCacheDelegates | lib/active_interaction/filters/object_filter.rb:29-33 | With an empty or up-to-date cache, a value the current class rejects goes to the parent cast even after the retry. |
| ObjectFilterProperties.CastIdempotent | lib/active_interaction/filters/object_filter.rb:24-28 | Casting an admitted value again returns it again, with no resolution and the cache unchanged. |
| FilterRuns.CastEach | lib/active_interaction/filters/object_filter.rb:24-35 | A series of casts on one filter yields one outcome per value and spends at most two resolutions and two match tests per value. A filled cache is never emptied. |
| FilterRuns.RunWithFreshCache | lib/active_interaction/filters/object_filter.rb:24-35 | Start with an empty or up-to-date cache and a resolvable name. Each value is returned exactly when the current class matches it, and otherwise goes to the parent cast. Resolutions are one (if the cache was empty) plus one per rejected value. Match tests are one per value plus one per rejected value. |
| FilterRuns.RunWithMissingClass | lib/active_interaction/filters/object_filter.rb:42-46 | With an empty cache and the name missing, every cast of a series fails with `InvalidClassError` naming it: one resolution each, no match test, and the cache empty throughout. |
| FilterRuns.RunKeepsCacheCurrent | lib/active_interaction/filters/object_filter.rb:25-32 | Over any series of casts, the cache holds either its original class or the class the namespace now holds under the name. |
| Scenarios.AccountByAttributeName | lib/active_interaction/filters/object_filter.rb:15 | `object :account` with `Account` defined returns an account unchanged after one resolution. |
| Scenarios.AccountWithUserClass | lib/active_interaction/filters/object_filter.rb:17 | `object :account, class: User` resolves `User`, not `Account`: a user comes back unchanged and `User` is cached. |
| Scenarios.AccountMissing | lib/active_interaction/filters/object_filter.rb:42-46 | `object :account` with no `Account` fails with `InvalidClassError` naming "Account", for any value. |
| Scenarios.WidgetRejectsHash | lib/active_interaction/filters/object_filter.rb:29-33 | `object :widget, class: Gadget` given a plain hash does two resolutions and two match tests, then hands over to the parent cast. |

## Left out

- `register :object` (line 22) and the filter registry: their implementation is not part of this model.
- The parent `Filter#cast`, `options` and `name`: not part of this model. The parent cast is only the outcome `DelegatedToSuper(value)`; its errors and its handling of `nil` and defaults are not modelled.
- The `context` argument: the object filter only passes it on to the parent cast.
- `String#camelize` and `Object.const_get` are foreign calls. They are an arbitrary function and a map. Autoloading, malformed constant names and constants that are not classes are all just "in the map or not".
- The `TypeError` that `is_a?` would raise if the constant found is not a class or module: the membership predicates are total and abstract.
- The short-circuit inside `matches?` (`is_a?` is not evaluated when `===` holds): both predicates are pure, so only the disjunction is modelled.
- The wording of the error message (`inspect` quoting): only the attempted name is carried.
- A change of the namespace in the middle of one call: both resolutions of one call see the same namespace. The cache may come from an earlier call made against a different namespace.
- Concurrent casts sharing one filter's `@klass` cache: calls are sequential here.
- The documentation block (lines 4-18), except as the worked examples in `Scenarios`.
