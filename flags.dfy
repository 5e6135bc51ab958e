/**
 * The boolean flag rule: an unset or empty variable is off, the literals `false`
 * and `0` are off, a recognised `true` or `1` is on, and any other text is on.
 */
module Flags {
  import opened Wrappers

  /** The literals read as a boolean; every other text is not recognised. */
  function ParseBool(s: string): (r: Option<bool>)
    ensures r == Some(true) <==> s == "true" || s == "1"
    ensures r == Some(false) <==> s == "false" || s == "0"
  {
    if s == "true" || s == "1" then Some(true)
    else if s == "false" || s == "0" then Some(false)
    else None
  }

  /** The value of a flag whose variable holds `s`: off for exactly three texts. */
  function BoolValue(s: string): (b: bool)
    ensures !b <==> s == "" || s == "false" || s == "0"
    ensures s != "" && ParseBool(s).Some? ==> b == ParseBool(s).value
    ensures s != "" && ParseBool(s).None? ==> b
  {
    if s == "" then false
    else match ParseBool(s)
      case Some(v) => v
      case None => true
  }
}
