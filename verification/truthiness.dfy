/** JavaScript truthiness of the optional values the middleware tests with `!`. */
module Truthiness {
  import opened Wrappers

  /** An optional string is truthy when present and not "". */
  predicate TruthyString(s: Option<string>) {
    s.Some? && s.value != ""
  }

  /** An optional number is truthy when present and not 0. */
  predicate TruthyNumber(n: Option<int>) {
    n.Some? && n.value != 0
  }
}
