/**
 * The decoded configuration tree. The loose-JSON decoder produces Go
 * `interface{}` values of six dynamic kinds; `Null` stands for Go's nil
 * interface, which is what a JSON `null` decodes to.
 */
module Values {

  datatype Value =
    | Str(s: string)
    | Num(n: real)                        // float64, modelled as an exact real
    | Bool(b: bool)
    | Null
    | Arr(elems: seq<Value>)              // []interface{}
    | Obj(fields: map<string, Value>)     // map[string]interface{}
}
