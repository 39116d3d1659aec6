/** What the model takes as given from the JavaScript platform and from
    libraries whose internals are not modelled. */
module Runtime {
  import opened Wrappers

  /** The platform oracles:
      - `parseDate(s)` is `new Date(s).getTime()`, `None` for an Invalid Date (NaN);
      - `toLower(s)` is `s.toLowerCase()`;
      - `isDateString(s)` is class-validator's ISO 8601 check behind `@IsDateString()`. */
  datatype Platform = Platform(
    parseDate: string -> Option<int>,
    toLower: string -> string,
    isDateString: string -> bool)

  /** JavaScript's `<`, `<=`, `>`, `>=` on two `Date`s: numeric comparison of
      their time values, false whenever either is NaN. */
  predicate DateLt(a: Option<int>, b: Option<int>) {
    a.Some? && b.Some? && a.value < b.value
  }

  predicate DateLe(a: Option<int>, b: Option<int>) {
    a.Some? && b.Some? && a.value <= b.value
  }

  predicate DateGt(a: Option<int>, b: Option<int>) {
    DateLt(b, a)
  }

  predicate DateGe(a: Option<int>, b: Option<int>) {
    DateLe(b, a)
  }

  /** A JavaScript string is truthy exactly when it is present and non-empty. */
  predicate Truthy(s: Option<string>) {
    s.Some? && s.value != ""
  }
}
