/**
 * `fmt.Sprint` applied to one decoded value. Strings print as themselves,
 * booleans as `true`/`false`, nil as `<nil>` and slices as their elements
 * separated by spaces in brackets. The shortest-form float64 rendering and
 * the sorted `map[k:v ...]` rendering are supplied by a `Printer`.
 */
module GoFmt {
  import opened Values
  import opened GoStrings

  datatype Printer = Printer(number: real -> string, mapping: map<string, Value> -> string)

  function Sprint(v: Value, pr: Printer): (r: string)
    ensures v.Str? ==> r == v.s
    ensures v.Bool? ==> r == (if v.b then "true" else "false")
    ensures v.Num? ==> r == pr.number(v.n)
    ensures v.Null? ==> r == "<nil>"
    ensures v.Arr? ==> |r| >= 2 && r[0] == '[' && r[|r| - 1] == ']'
    ensures v.Arr? ==> r == "[" + Join(seq(|v.elems|, i requires 0 <= i < |v.elems| => Sprint(v.elems[i], pr)), " ") + "]"
  {
    match v
    case Str(s) => s
    case Num(n) => pr.number(n)
    case Bool(b) => if b then "true" else "false"
    case Null => "<nil>"
    case Arr(a) => "[" + Join(seq(|a|, i requires 0 <= i < |a| => Sprint(a[i], pr)), " ") + "]"
    case Obj(m) => pr.mapping(m)
  }
}
