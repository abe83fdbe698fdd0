/** JavaScript's "value or undefined", as an option datatype. */
module Options {

  datatype Option<+T> = None | Some(value: T) {

    /** The `value || fallback` idiom for values that are never falsy themselves. */
    function GetOr(fallback: T): T {
      if Some? then value else fallback
    }
  }

  /** An optional string: `null` and `undefined` are both None. */
  type OptString = Option<string>

  /** `s || ""` */
  function OrEmpty(s: OptString): string {
    s.GetOr("")
  }

  /** `!!s`: neither missing nor empty. */
  predicate Truthy(s: OptString) {
    s.Some? && s.value != ""
  }

  /** `s || undefined` */
  function NonEmpty(s: OptString): OptString {
    if Truthy(s) then s else None
  }
}
