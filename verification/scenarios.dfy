/** Concrete declarations in the spirit of the usage examples `object :account`
    and `object :account, class: User`, with a small namespace and a camelize
    that only knows the names used here. */
module Scenarios {
  import opened Wrappers
  import opened ObjectFilter

  /** A few sample values: instances of the sample classes and a plain hash. */
  datatype Sample = AccountInstance | UserInstance | PlainHash

  const AccountClass := Descriptor("Account", 0)
  const UserClass := Descriptor("User", 0)
  const GadgetClass := Descriptor("Gadget", 0)

  /** Camelize for the names used here; any other string is left as it is. */
  function SampleCamelize(s: string): string {
    if s == "account" then "Account"
    else if s == "widget" then "Widget"
    else s
  }

  /** The plain instance-of test; none of the sample classes redefines `===`
      beyond it. */
  predicate SampleIsA(d: Descriptor, v: Sample) {
    match v
    case AccountInstance => d == AccountClass
    case UserInstance => d == UserClass
    case PlainHash => false
  }

  const SampleMembership := Membership((d: Descriptor, v: Sample) => SampleIsA(d, v), (d: Descriptor, v: Sample) => SampleIsA(d, v))

  function SampleResolver(namespace: map<string, Descriptor>): Resolver {
    Resolver(namespace, SampleCamelize)
  }

  /** `object :account` with `Account` defined: an account comes back
      unchanged after one resolution. */
  lemma AccountByAttributeName()
    ensures Cast(Filter("account", Options(None)), SampleResolver(map["Account" := AccountClass]),
                 SampleMembership, Unresolved, AccountInstance, true) ==
            CastResult(Returned(AccountInstance), FilterState(Some(AccountClass)), 1, 1)
  {
  }

  /** `object :account, class: User`: the option, not the attribute name,
      picks the class, and a user comes back unchanged with `User` cached. */
  lemma AccountWithUserClass()
    ensures var r := Cast(Filter("account", Options(Some(ClassHandle("User")))),
                          SampleResolver(map["Account" := AccountClass, "User" := UserClass]),
                          SampleMembership, Unresolved, UserInstance, true);
            r.outcome == Returned(UserInstance) && r.state == FilterState(Some(UserClass))
  {
  }

  /** `object :account` with no `Account` defined: `InvalidClassError` naming
      "Account", whatever the value. */
  lemma AccountMissing(v: Sample)
    ensures Cast(Filter("account", Options(None)), SampleResolver(map["User" := UserClass]),
                 SampleMembership, Unresolved, v, true) ==
            CastResult(InvalidClass("Account"), Unresolved, 1, 0)
  {
  }

  /** `object :widget, class: Gadget` given a plain hash: two resolutions and
      two match tests, then the parent cast takes over. */
  lemma WidgetRejectsHash()
    ensures Cast(Filter("widget", Options(Some(ClassHandle("Gadget")))),
                 SampleResolver(map["Gadget" := GadgetClass]),
                 SampleMembership, Unresolved, PlainHash, true) ==
            CastResult(DelegatedToSuper(PlainHash), FilterState(Some(GadgetClass)), 2, 2)
  {
  }
}
