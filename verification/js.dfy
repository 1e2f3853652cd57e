/** Values and operators of JavaScript that the rest of the model needs.

    `undefined`, `null` and `NaN` are all represented by `None`: the program
    never distinguishes between them, it only asks whether a value is falsy. */
module Js {

  datatype Option<+T> = None | Some(value: T) {
    function GetOr(default: T): T {
      match this
      case Some(v) => v
      case None => default
    }
  }

  /** A number is falsy when it is missing, `NaN` or zero. */
  predicate FalsyNumber(v: Option<int>) {
    v.None? || v.value == 0
  }

  /** A string is falsy when it is missing or empty. */
  predicate FalsyString(v: Option<string>) {
    v.None? || v.value == ""
  }

  /** `v || d` for a number `v`: the default replaces every falsy value,
      and only those. */
  function OrNumber(v: Option<int>, d: int): (r: int)
    ensures !FalsyNumber(v) ==> r == v.value
    ensures FalsyNumber(v) ==> r == d
    ensures d != 0 ==> r != 0
  {
    if FalsyNumber(v) then d else v.value
  }

  /** `v || d` for a string `v`. */
  function OrString(v: Option<string>, d: string): (r: string)
    ensures !FalsyString(v) ==> r == v.value
    ensures FalsyString(v) ==> r == d
    ensures d != "" ==> r != ""
  {
    if FalsyString(v) then d else v.value
  }

  /** With an empty default, `v || ""` is the value or the empty string. */
  lemma OrEmptyString(v: Option<string>)
    ensures OrString(v, "") == v.GetOr("")
  {
  }
}
