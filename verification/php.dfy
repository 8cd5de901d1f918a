/** The PHP values the plugins inspect, PHP's truthiness rule, and `strpos`. */
module Php {
  import opened Wrappers

  /** A PHP value. Arrays are string-keyed ordered arrays (see PhpArray);
      an object is represented only by its class name. Floats and
      resources are not modelled. */
  datatype Value =
    | Null
    | Bool(b: bool)
    | Int(i: int)
    | Str(s: string)
    | Arr(entries: seq<(string, Value)>)
    | Obj(className: string)

  /** A PHP array of values. */
  type Array = seq<(string, Value)>

  /** PHP's conversion to boolean: null, false, 0, "", "0" and the empty
      array are false; every other value, every object included, is true. */
  predicate Truthy(v: Value) {
    match v
    case Null => false
    case Bool(b) => b
    case Int(i) => i != 0
    case Str(s) => s != "" && s != "0"
    case Arr(entries) => |entries| > 0
    case Obj(_) => true
  }

  /** `needle` occurs in `hay` starting at position `j`. */
  predicate OccursAt(hay: string, needle: string, j: nat) {
    j + |needle| <= |hay| && hay[j..j + |needle|] == needle
  }

  /** `strpos(hay, needle, from)`: the first position at or after `from`
      where `needle` occurs, or None where PHP returns false. */
  function StrPosFrom(hay: string, needle: string, from: nat): (r: Option<nat>)
    requires from <= |hay|
    ensures r.Some? ==> from <= r.value && OccursAt(hay, needle, r.value)
    ensures r.Some? ==> forall j :: from <= j < r.value ==> !OccursAt(hay, needle, j)
    ensures r.None? ==> forall j :: from <= j <= |hay| ==> !OccursAt(hay, needle, j)
    decreases |hay| - from
  {
    if OccursAt(hay, needle, from) then Some(from)
    else if from == |hay| then None
    else StrPosFrom(hay, needle, from + 1)
  }

  /** `strpos(hay, needle)`: the position of the first occurrence of `needle`. */
  function StrPos(hay: string, needle: string): (r: Option<nat>)
    ensures r.Some? ==> OccursAt(hay, needle, r.value)
    ensures r.Some? ==> forall j :: 0 <= j < r.value ==> !OccursAt(hay, needle, j)
    ensures r.None? <==> forall j :: 0 <= j <= |hay| ==> !OccursAt(hay, needle, j)
  {
    StrPosFrom(hay, needle, 0)
  }
}
