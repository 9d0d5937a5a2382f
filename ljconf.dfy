/**
 * The key-path resolver and the typed accessors of `Conf` (ljconf.go).
 *
 * A key is split on `.`; each segment is looked up in the current map,
 * trying the exact key first and then the form `name[i][j]...`, which
 * indexes into arrays. Any mismatch yields Go's nil, modelled as `Null`
 * inside the walk and as `None` in the result of `Lookup`. Every accessor
 * is a total case analysis on the value found, with a caller default.
 */
module LjConf {
  import opened Wrappers
  import opened Values
  import opened GoStrings
  import opened GoStrconv
  import opened GoFmt

  /** Applies the bracketed indexes of a segment one after another; `Null` when any fails. */
  function Indexes(v: Value, indexes: seq<string>): (r: Value)
    ensures indexes == [] ==> r == v
    ensures indexes != [] && (!v.Arr? || !ParseInt(indexes[0]).Parsed?) ==> r == Null
    decreases |indexes|
  {
    if indexes == [] then v
    else match ParseInt(indexes[0])
      case Parsed(n) =>
        if v.Arr? && 0 <= n < |v.elems| then Indexes(v.elems[n], indexes[1..]) else Null
      case _ => Null
  }

  /** One pass of the segment loop of `get`: the value reached from `v` through segment `p`. */
  function Segment(v: Value, p: string): (r: Value)
    ensures !v.Obj? ==> r == Null
    ensures v.Obj? && p in v.fields ==> r == v.fields[p]
    ensures v.Obj? && p !in v.fields && (!HasSuffix(p, "]") || Index(p, "[") <= 0) ==> r == Null
  {
    if !v.Obj? then Null
    else if p in v.fields then v.fields[p]
    else if HasSuffix(p, "]") && Index(p, "[") > 0 then
      var i := Index(p, "[");
      assert p[i..i + 1][0] == p[i] == '[';
      assert p[|p| - 1..][0] == p[|p| - 1] == ']';
      var name := p[..i];
      if name in v.fields then Indexes(v.fields[name], Split(p[i + 1..|p| - 1], "][")) else Null
    else Null
  }

  /** Follows the segments in order; once nil, always nil. */
  function Walk(v: Value, parts: seq<string>): (r: Value)
    ensures parts == [] ==> r == v
    ensures v.Null? ==> r == Null
    decreases |parts|
  {
    if parts == [] then v else Walk(Segment(v, parts[0]), parts[1..])
  }

  /** Go's nil interface becomes "absent". */
  function Present(v: Value): (r: Option<Value>)
    ensures r.None? <==> v.Null?
    ensures r.Some? ==> r.value == v
  {
    if v.Null? then None else Some(v)
  }

  /**
   * What `get(key)` returns on the tree `db`. A JSON null that is found is
   * reported exactly like a missing key.
   */
  function Lookup(db: map<string, Value>, key: string): (r: Option<Value>)
    ensures r.Some? ==> !r.value.Null?
  {
    if key == "" then Some(Obj(db)) else Present(Walk(Obj(db), Split(key, ".")))
  }

  /** One step of `Walk`, from the `i`-th segment on. */
  lemma WalkStep(v: Value, parts: seq<string>, i: nat)
    requires i < |parts|
    ensures Walk(v, parts[i..]) == Walk(Segment(v, parts[i]), parts[i + 1..])
  {
    assert parts[i..][1..] == parts[i + 1..];
  }

  /**
   * `floatToInt`: the nearest integer, halves rounded away from zero.
   * Go adds or subtracts 0.5 and truncates toward zero.
   */
  function FloatToInt(f: real): (r: int)
    ensures f >= 0.0 ==> f - 0.5 < r as real <= f + 0.5
    ensures f < 0.0 ==> f - 0.5 <= r as real < f + 0.5
  {
    if f < 0.0 then TruncateToInt(f - 0.5) else TruncateToInt(f + 0.5)
  }

  /** Go's float-to-int conversion: the fraction is discarded (rounding toward zero). */
  function TruncateToInt(x: real): (r: int)
    ensures x >= 0.0 ==> r as real <= x < r as real + 1.0
    ensures x < 0.0 ==> r as real - 1.0 < x <= r as real
  {
    if x < 0.0 then -((-x).Floor) else x.Floor
  }

  /** `Interface`: the value found, or `def`. */
  function InterfaceOf(vl: Option<Value>, def: Value): (r: Value)
    ensures vl.None? || vl.value.Null? ==> r == def
    ensures vl.Some? && !vl.value.Null? ==> r == vl.value
  {
    if vl.None? || vl.value.Null? then def else vl.value
  }

  /** `String`: strings, numbers and booleans are rendered with `fmt.Sprint`; any other kind gives `def`. */
  function StringOf(vl: Option<Value>, def: string, pr: Printer): (r: string)
    ensures vl.Some? && vl.value.Str? ==> r == vl.value.s
    ensures vl.Some? && vl.value.Bool? ==> r == (if vl.value.b then "true" else "false")
    ensures vl.Some? && vl.value.Num? ==> r == pr.number(vl.value.n)
    ensures vl.None? || vl.value.Null? || vl.value.Arr? || vl.value.Obj? ==> r == def
  {
    if vl.Some? && (vl.value.Str? || vl.value.Num? || vl.value.Bool?) then Sprint(vl.value, pr) else def
  }

  /** `Bool`: a boolean as is, a string through `ParseBool`; anything else, or an unparsable string, gives `def`. */
  function BoolOf(vl: Option<Value>, def: bool): (r: bool)
    ensures vl.Some? && vl.value.Bool? ==> r == vl.value.b
    ensures vl.Some? && vl.value.Str? && vl.value.s in TrueWords ==> r
    ensures vl.Some? && vl.value.Str? && vl.value.s in FalseWords ==> !r
    ensures vl.None? || !(vl.value.Bool? || (vl.value.Str? && ParseBool(vl.value.s).Some?)) ==> r == def
  {
    if vl.None? then def
    else match vl.value
      case Bool(b) => b
      case Str(s) => (match ParseBool(s) case Some(b) => b case None => def)
      case _ => def
  }

  /** `Int`: a number rounded by `FloatToInt`, a string through `ParseInt`; anything else, or a string `ParseInt` rejects, gives `def`. */
  function IntOf(vl: Option<Value>, def: int): (r: int)
    ensures vl.Some? && vl.value.Num? ==> r == FloatToInt(vl.value.n)
    ensures vl.Some? && vl.value.Str? && ParseInt(vl.value.s).Parsed? ==> r == ParseInt(vl.value.s).value
    ensures vl.None? || !(vl.value.Num? || (vl.value.Str? && ParseInt(vl.value.s).Parsed?)) ==> r == def
  {
    if vl.None? then def
    else match vl.value
      case Num(f) => FloatToInt(f)
      case Str(s) => (match ParseInt(s) case Parsed(i) => i case _ => def)
      case _ => def
  }

  /** `Object`: the map if an object was found, else `def`. */
  function ObjectOf(vl: Option<Value>, def: map<string, Value>): (r: map<string, Value>)
    ensures vl.Some? && vl.value.Obj? ==> r == vl.value.fields
    ensures !(vl.Some? && vl.value.Obj?) ==> r == def
  {
    if vl.Some? && vl.value.Obj? then vl.value.fields else def
  }

  /** `List`: the elements if an array was found, else `def`. */
  function ListOf(vl: Option<Value>, def: seq<Value>): (r: seq<Value>)
    ensures vl.Some? && vl.value.Arr? ==> r == vl.value.elems
    ensures !(vl.Some? && vl.value.Arr?) ==> r == def
  {
    if vl.Some? && vl.value.Arr? then vl.value.elems else def
  }

  /**
   * One element of `IntList`: numbers rounded, strings through `ParseInt`
   * with its error ignored (0 on a syntax error, the clamped int64 on a
   * range error), true as 1 and false as 0, every other kind 0.
   */
  function ElementInt(e: Value): (r: int)
    ensures e.Num? ==> r == FloatToInt(e.n)
    ensures e.Bool? ==> r == (if e.b then 1 else 0)
    ensures e.Str? && ParseInt(e.s).Parsed? ==> r == ParseInt(e.s).value
    ensures e.Str? && ParseInt(e.s).RangeError? ==> r == ParseInt(e.s).clamped
    ensures e.Null? || e.Arr? || e.Obj? || (e.Str? && ParseInt(e.s).SyntaxError?) ==> r == 0
  {
    match e
    case Num(f) => FloatToInt(f)
    case Str(s) =>
      (match ParseInt(s) case Parsed(i) => i case RangeError(c) => c case SyntaxError => 0)
    case Bool(b) => if b then 1 else 0
    case _ => 0
  }

  /** The outcome of `Section`: a view, the "empty section" error, or the failed type assertion. */
  datatype SectionResult = Found(conf: Conf) | EmptySection(message: string) | Panic

  /** A configuration handle: the path it was loaded from and its tree. */
  class Conf {
    var path: string
    var db: map<string, Value>

    constructor (path: string, db: map<string, Value>)
      ensures this.path == path && this.db == db
    {
      this.path := path;
      this.db := db;
    }

    /** `get`: walks the tree segment by segment, and index by index inside a segment. */
    method Get(key: string) returns (r: Option<Value>)
      ensures r == Lookup(db, key)
      ensures key == "" ==> r == Some(Obj(db))
    {
      if key == "" {
        return Some(Obj(db));
      }
      var parts := Split(key, ".");
      var vl := Obj(db);
      var i := 0;
      while i < |parts|
        invariant 0 <= i <= |parts|
        invariant Walk(vl, parts[i..]) == Walk(Obj(db), parts)
      {
        var p := parts[i];
        WalkStep(vl, parts, i);
        ghost var next := Segment(vl, p);
        i := i + 1;
        if !vl.Obj? {
          return None;
        }
        var mp := vl.fields;
        if p in mp {
          vl := mp[p];
          continue;
        }
        vl := Null;
        if HasSuffix(p, "]") {
          var idx := Index(p, "[");
          if idx > 0 {
            assert p[idx..idx + 1][0] == p[idx] == '[';
            assert p[|p| - 1..][0] == p[|p| - 1] == ']';
            var indexes := Split(p[idx + 1..|p| - 1], "][");
            var name := p[..idx];
            if name !in mp {
              return None;
            }
            vl := mp[name];
            assert next == Indexes(vl, indexes);
            var j := 0;
            while j < |indexes|
              invariant 0 <= j <= |indexes|
              invariant Indexes(vl, indexes[j..]) == next
            {
              assert indexes[j..][1..] == indexes[j + 1..];
              var n := ParseInt(indexes[j]);
              if !n.Parsed? || !vl.Arr? || n.value < 0 || n.value >= |vl.elems| {
                return None;
              }
              vl := vl.elems[n.value];
              j := j + 1;
            }
            assert indexes[j..] == [];
          }
        }
      }
      return Present(vl);
    }

    /** `Section`: a handle on the object at `key` that keeps this handle's path. */
    method Section(key: string) returns (r: SectionResult)
      ensures Lookup(db, key).None? ==> r == EmptySection("empty section: " + key)
      ensures Lookup(db, key).Some? && Lookup(db, key).value.Obj? ==>
        r.Found? && fresh(r.conf) && r.conf.path == path && r.conf.db == Lookup(db, key).value.fields
      ensures Lookup(db, key).Some? && !Lookup(db, key).value.Obj? ==> r == Panic
    {
      var sec := Get(key);
      if sec.None? {
        return EmptySection("empty section: " + key);
      }
      if !sec.value.Obj? {
        return Panic;
      }
      var conf := new Conf(path, sec.value.fields);
      return Found(conf);
    }

    method Interface(key: string, def: Value) returns (r: Value)
      ensures r == InterfaceOf(Lookup(db, key), def)
    {
      var vl := Get(key);
      r := InterfaceOf(vl, def);
    }

    method String(key: string, def: string, pr: Printer) returns (r: string)
      ensures r == StringOf(Lookup(db, key), def, pr)
    {
      var vl := Get(key);
      r := StringOf(vl, def, pr);
    }

    method Bool(key: string, def: bool) returns (r: bool)
      ensures r == BoolOf(Lookup(db, key), def)
    {
      var vl := Get(key);
      r := BoolOf(vl, def);
    }

    method Int(key: string, def: int) returns (r: int)
      ensures r == IntOf(Lookup(db, key), def)
    {
      var vl := Get(key);
      r := IntOf(vl, def);
    }

    method Object(key: string, def: map<string, Value>) returns (r: map<string, Value>)
      ensures r == ObjectOf(Lookup(db, key), def)
    {
      var vl := Get(key);
      r := ObjectOf(vl, def);
    }

    method List(key: string, def: seq<Value>) returns (r: seq<Value>)
      ensures r == ListOf(Lookup(db, key), def)
    {
      var vl := Get(key);
      r := ListOf(vl, def);
    }

    /** `StringList`: every element of an array rendered with `fmt.Sprint`, in order; `def` for anything else. */
    method StringList(key: string, def: seq<string>, pr: Printer) returns (r: seq<string>)
      ensures var vl := Lookup(db, key);
        vl.Some? && vl.value.Arr? ==>
          |r| == |vl.value.elems| &&
          forall i :: 0 <= i < |r| ==> r[i] == Sprint(vl.value.elems[i], pr)
      ensures var vl := Lookup(db, key); !(vl.Some? && vl.value.Arr?) ==> r == def
    {
      var vl := Get(key);
      if vl.None? || !vl.value.Arr? {
        return def;
      }
      var v := vl.value.elems;
      r := [];
      for i := 0 to |v|
        invariant |r| == i
        invariant forall k :: 0 <= k < i ==> r[k] == Sprint(v[k], pr)
      {
        r := r + [Sprint(v[i], pr)];
      }
    }

    /** `IntList`: every element of an array converted by `ElementInt`, in order; `def` for anything else. */
    method IntList(key: string, def: seq<int>) returns (r: seq<int>)
      ensures var vl := Lookup(db, key);
        vl.Some? && vl.value.Arr? ==>
          |r| == |vl.value.elems| &&
          forall i :: 0 <= i < |r| ==> r[i] == ElementInt(vl.value.elems[i])
      ensures var vl := Lookup(db, key); !(vl.Some? && vl.value.Arr?) ==> r == def
    {
      var vl := Get(key);
      if vl.None? || !vl.value.Arr? {
        return def;
      }
      var v := vl.value.elems;
      r := [];
      for i := 0 to |v|
        invariant |r| == i
        invariant forall k :: 0 <= k < i ==> r[k] == ElementInt(v[k])
      {
        var e := 0;
        match v[i] {
          case Num(f) => e := FloatToInt(f);
          case Str(s) =>
            var parsed := ParseInt(s);
            e := match parsed case Parsed(n) => n case RangeError(c) => c case SyntaxError => 0;
          case Bool(b) => e := if b then 1 else 0;
          case _ =>
        }
        r := r + [e];
      }
    }
  }
}
