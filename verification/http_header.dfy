/** The HTTP header map of Go's `net/http`, as far as the modelled code reads and writes it. */
module HTTPHeaders {

  /** An HTTP header map: the values of each canonical header name. */
  class Header {
    var fields: map<string, seq<string>>

    constructor (fields: map<string, seq<string>>)
      ensures this.fields == fields
    {
      this.fields := fields;
    }

    /** `Header.Get`: the first value of the header, or "" when it has none. */
    function Get(key: string): (v: string)
      reads this
      ensures key in fields && |fields[key]| > 0 ==> v == fields[key][0]
      ensures key !in fields || |fields[key]| == 0 ==> v == ""
    {
      if key in fields && |fields[key]| > 0 then fields[key][0] else ""
    }

    /** `Header.Set`: the header's values become `value` alone. */
    method Set(key: string, value: string)
      modifies this
      ensures fields == old(fields)[key := [value]]
      ensures Get(key) == value
    {
      fields := fields[key := [value]];
    }
  }
}
