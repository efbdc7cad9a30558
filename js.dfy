/**
 * The JavaScript truthiness tests the handlers and the users model apply to
 * optional request fields before using them.
 */
module Js {
  import opened Wrappers

  /** `if (s)` on an optional string: given and not empty. */
  predicate Truthy(s: Option<string>)
  {
    s.Some? && s.value != ""
  }

  /** `if (n)` on an optional number: given and not zero. An id that fails
      this test is missing for the handlers (`!userId`, `!houseId`, ...). */
  predicate Present(n: Option<int>)
  {
    n.Some? && n.value != 0
  }
}
