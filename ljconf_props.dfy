/**
 * Properties of the key-path resolver and the typed accessors, stated
 * against independent descriptions: plain array indexing by naturals,
 * segment-by-segment lookup, and the decimal rendering of indexes.
 */
module LjConfProperties {
  import opened Wrappers
  import opened Values
  import opened GoStrings
  import opened GoStrconv
  import opened GoFmt
  import opened LjConf

  /** Reference meaning of `[i][j]...`: successive array indexing, `Null` on a non-array or an index out of range. */
  function IndexPath(v: Value, ixs: seq<nat>): Value
    decreases |ixs|
  {
    if ixs == [] then v
    else if v.Arr? && ixs[0] < |v.elems| then IndexPath(v.elems[ixs[0]], ixs[1..])
    else Null
  }

  function Decimals(ixs: seq<nat>): (r: seq<string>)
    ensures |r| == |ixs|
    ensures forall k :: 0 <= k < |ixs| ==> r[k] == Decimal(ixs[k])
  {
    seq(|ixs|, k requires 0 <= k < |ixs| => Decimal(ixs[k]))
  }

  /** The bracket suffix `[i][j]...` written in decimal. */
  function Brackets(ixs: seq<nat>): string {
    "[" + Join(Decimals(ixs), "][") + "]"
  }

  lemma {:induction false} JoinAvoids(parts: seq<string>, sep: string, c: char)
    requires c !in sep
    requires forall k :: 0 <= k < |parts| ==> c !in parts[k]
    ensures c !in Join(parts, sep)
    decreases |parts|
  {
    if |parts| > 1 {
      JoinAvoids(parts[1..], sep, c);
    }
  }

  lemma DecimalAvoids(n: nat, c: char)
    requires !('0' <= c <= '9')
    ensures c !in Decimal(n)
  {
  }

  lemma BracketsAvoid(ixs: seq<nat>, c: char)
    requires c != '[' && c != ']' && !('0' <= c <= '9')
    ensures c !in Brackets(ixs)
  {
    forall k | 0 <= k < |ixs|
      ensures c !in Decimals(ixs)[k]
    {
      DecimalAvoids(ixs[k], c);
    }
    JoinAvoids(Decimals(ixs), "][", c);
  }

  /** Parsing the decimal indexes and indexing is the same as indexing by the naturals. */
  lemma {:induction false} IndexesDecimal(v: Value, ixs: seq<nat>)
    requires forall k :: 0 <= k < |ixs| ==> ixs[k] < Int64Cutoff
    ensures Indexes(v, Decimals(ixs)) == IndexPath(v, ixs)
    decreases |ixs|
  {
    if ixs != [] {
      ParseIntDecimal(ixs[0]);
      assert Decimals(ixs)[1..] == Decimals(ixs[1..]);
      if v.Arr? && ixs[0] < |v.elems| {
        IndexesDecimal(v.elems[ixs[0]], ixs[1..]);
      }
    }
  }

  /** A key without dots is a single segment. */
  lemma SingleSegment(db: map<string, Value>, p: string)
    requires p != "" && '.' !in p
    ensures Lookup(db, p) == Present(Segment(Obj(db), p))
  {
    SplitWithoutSeparator(p, ".");
    assert Walk(Obj(db), [p]) == Walk(Segment(Obj(db), p), [p][1..]);
    assert [p][1..] == [];
  }

  /** The bracket form: `name[inner]`, not itself a key, looks up `name` and applies the pieces of `inner` as indexes. */
  lemma BracketSegment(db: map<string, Value>, name: string, inner: string)
    requires name != "" && '[' !in name
    requires name + "[" + inner + "]" !in db
    ensures Segment(Obj(db), name + "[" + inner + "]") ==
      if name in db then Indexes(db[name], Split(inner, "][")) else Null
  {
    var p := name + "[" + inner + "]";
    assert HasSuffix(p, "]") by {
      assert p[|p| - 1..] == "]";
    }
    assert OccursAt(p, "[", |name|) by {
      assert p[|name|..|name| + 1] == "[";
    }
    forall j | 0 <= j < |name|
      ensures !OccursAt(p, "[", j)
    {
      assert name[j] in name;
      assert p[j..j + 1][0] == p[j] == name[j];
    }
    assert Index(p, "[") == |name|;
    assert p[..|name|] == name;
    assert p[|name| + 1..|p| - 1] == inner;
  }

  /**
   * A dotted key is resolved one segment at a time: the first segment must
   * give an object, and the rest of the key is looked up inside it. Anything
   * else found for the first segment makes the whole key absent; there is
   * no partial result.
   */
  lemma LookupDotted(db: map<string, Value>, a: string, b: string)
    requires a != "" && b != "" && '.' !in a
    ensures Lookup(db, a + "." + b) ==
      match Lookup(db, a)
      case Some(Obj(m)) => Lookup(m, b)
      case _ => None
  {
    var s := a + "." + b;
    assert OccursAt(s, ".", |a|) by {
      assert s[|a|..|a| + 1] == ".";
    }
    forall j | 0 <= j < |a|
      ensures !OccursAt(s, ".", j)
    {
      assert a[j] in a;
      assert s[j..j + 1][0] == s[j] == a[j];
    }
    assert Index(s, ".") == |a|;
    assert s[..|a|] == a && s[|a| + 1..] == b;
    var rest := Split(b, ".");
    assert Split(s, ".") == [a] + rest;
    SingleSegment(db, a);
    var x := Segment(Obj(db), a);
    assert ([a] + rest)[1..] == rest;
    assert Walk(Obj(db), [a] + rest) == Walk(x, rest);
    if !x.Null? && !x.Obj? {
      assert Walk(x, rest) == Walk(Null, rest[1..]);
    }
  }

  /** An exact key is found as is, even when it looks like `name[i]`. */
  lemma ExactKeyWins(db: map<string, Value>, p: string)
    requires p != "" && '.' !in p && p in db
    ensures Lookup(db, p) == Present(db[p])
  {
    SingleSegment(db, p);
  }

  /**
   * `name[i][j]...` (a key not itself present) indexes into `name`'s value
   * one natural at a time; it is absent when `name` is missing, a node is
   * not an array or an index is out of range.
   */
  lemma IndexedSegment(db: map<string, Value>, name: string, ixs: seq<nat>)
    requires name != "" && '.' !in name && '[' !in name
    requires |ixs| >= 1 && forall k :: 0 <= k < |ixs| ==> ixs[k] < Int64Cutoff
    requires name + Brackets(ixs) !in db
    ensures Lookup(db, name + Brackets(ixs)) ==
      if name in db then Present(IndexPath(db[name], ixs)) else None
  {
    var inner := Join(Decimals(ixs), "][");
    var p := name + Brackets(ixs);
    BracketKey(name, ixs);
    SingleSegment(db, p);
    BracketSegment(db, name, inner);
    SplitBrackets(ixs);
    if name in db {
      IndexesDecimal(db[name], ixs);
    }
  }

  lemma BracketKey(name: string, ixs: seq<nat>)
    requires '.' !in name
    ensures name + Brackets(ixs) == name + "[" + Join(Decimals(ixs), "][") + "]"
    ensures '.' !in name + Brackets(ixs)
  {
    BracketsAvoid(ixs, '.');
  }

  lemma SplitBrackets(ixs: seq<nat>)
    requires |ixs| >= 1
    ensures Split(Join(Decimals(ixs), "]["), "][") == Decimals(ixs)
  {
    forall k | 0 <= k < |ixs|
      ensures ']' !in Decimals(ixs)[k]
    {
      DecimalAvoids(ixs[k], ']');
    }
    SplitOfJoin(Decimals(ixs), "][");
  }

  /** A negative index `name[-n]` is always absent. */
  lemma NegativeIndexIsAbsent(db: map<string, Value>, name: string, n: nat)
    requires name != "" && '.' !in name && '[' !in name
    requires 0 < n <= Int64Cutoff
    requires name + "[-" + Decimal(n) + "]" !in db
    ensures Lookup(db, name + "[-" + Decimal(n) + "]") == None
  {
    var inner := "-" + Decimal(n);
    var p := name + "[" + inner + "]";
    assert p == name + "[-" + Decimal(n) + "]";
    DecimalAvoids(n, '.');
    DecimalAvoids(n, ']');
    assert '.' !in p;
    SingleSegment(db, p);
    BracketSegment(db, name, inner);
    SplitWithoutSeparator(inner, "][");
    ParseIntNegativeDecimal(n);
  }

  /**
   * Every piece of an index suffix must parse as an int64: one piece that
   * does not (a non-number, an empty piece, a value beyond int64) makes the
   * whole index path absent, wherever it stands.
   */
  lemma {:induction false} UnparsableIndexIsAbsent(v: Value, pieces: seq<string>, j: nat)
    requires j < |pieces| && !ParseInt(pieces[j]).Parsed?
    ensures Indexes(v, pieces) == Null
    decreases j
  {
    if j > 0 && v.Arr? {
      var n := ParseInt(pieces[0]);
      if n.Parsed? && 0 <= n.value < |v.elems| {
        assert pieces[1..][j - 1] == pieces[j];
        UnparsableIndexIsAbsent(v.elems[n.value], pieces[1..], j - 1);
      }
    }
  }

  /** `name[inner]`, not itself a key, is absent when any piece of `inner` between `][` does not parse. */
  lemma UnparsableSegmentIsAbsent(db: map<string, Value>, name: string, inner: string, j: nat)
    requires name != "" && '.' !in name && '[' !in name && '.' !in inner
    requires name + "[" + inner + "]" !in db
    requires j < |Split(inner, "][")| && !ParseInt(Split(inner, "][")[j]).Parsed?
    ensures Lookup(db, name + "[" + inner + "]") == None
  {
    var p := name + "[" + inner + "]";
    BracketFormAvoids(name, inner, '.');
    SingleSegment(db, p);
    BracketSegment(db, name, inner);
    if name in db {
      UnparsableIndexIsAbsent(db[name], Split(inner, "]["), j);
    }
  }

  lemma BracketFormAvoids(name: string, inner: string, c: char)
    requires c !in name && c !in inner && c != '[' && c != ']'
    ensures c !in name + "[" + inner + "]"
  {
    var p := name + "[" + inner + "]";
    forall i | 0 <= i < |p|
      ensures p[i] != c
    {
      if i < |name| {
        assert p[i] == name[i];
      } else if |name| < i < |p| - 1 {
        assert p[i] == inner[i - |name| - 1];
      }
    }
  }

  /**
   * A piece that parses to a negative number makes the whole index path
   * nil, wherever it stands: `a[0][-1]` as much as `a[-1]`.
   */
  lemma {:induction false} NegativeIndexAnywhere(v: Value, pieces: seq<string>, j: nat)
    requires j < |pieces| && ParseInt(pieces[j]).Parsed? && ParseInt(pieces[j]).value < 0
    ensures Indexes(v, pieces) == Null
    decreases j
  {
    if j > 0 && v.Arr? {
      var n := ParseInt(pieces[0]);
      if n.Parsed? && 0 <= n.value < |v.elems| {
        assert pieces[1..][j - 1] == pieces[j];
        NegativeIndexAnywhere(v.elems[n.value], pieces[1..], j - 1);
      }
    }
  }

  /** `name[inner]`, not itself a key, is absent when any `][`-separated piece of `inner` is negative. */
  lemma NegativeSegmentIsAbsent(db: map<string, Value>, name: string, inner: string, j: nat)
    requires name != "" && '.' !in name && '[' !in name && '.' !in inner
    requires name + "[" + inner + "]" !in db
    requires j < |Split(inner, "][")|
    requires ParseInt(Split(inner, "][")[j]).Parsed? && ParseInt(Split(inner, "][")[j]).value < 0
    ensures Lookup(db, name + "[" + inner + "]") == None
  {
    var p := name + "[" + inner + "]";
    BracketFormAvoids(name, inner, '.');
    SingleSegment(db, p);
    BracketSegment(db, name, inner);
    if name in db {
      NegativeIndexAnywhere(db[name], Split(inner, "]["), j);
    }
  }

  /** The naturals that index pieces, each of which parses to a non-negative number. */
  function ParsedIndexes(pieces: seq<string>): (ixs: seq<nat>)
    requires forall k :: 0 <= k < |pieces| ==> ParseInt(pieces[k]).Parsed? && ParseInt(pieces[k]).value >= 0
    ensures |ixs| == |pieces|
    ensures forall k :: 0 <= k < |pieces| ==> ixs[k] == ParseInt(pieces[k]).value
  {
    seq(|pieces|, k requires 0 <= k < |pieces| => ParseInt(pieces[k]).value as nat)
  }

  /**
   * Whatever their spelling (`0x1f`, `0o7`, `010`, `+3`, `1_000`), pieces
   * that parse to naturals index exactly like those naturals.
   */
  lemma {:induction false} IndexesParsed(v: Value, pieces: seq<string>)
    requires forall k :: 0 <= k < |pieces| ==> ParseInt(pieces[k]).Parsed? && ParseInt(pieces[k]).value >= 0
    ensures Indexes(v, pieces) == IndexPath(v, ParsedIndexes(pieces))
    decreases |pieces|
  {
    if pieces != [] {
      var ixs := ParsedIndexes(pieces);
      assert ixs[1..] == ParsedIndexes(pieces[1..]);
      if v.Arr? && ixs[0] < |v.elems| {
        IndexesParsed(v.elems[ixs[0]], pieces[1..]);
      }
    }
  }

  /**
   * A single segment that is neither a present key nor of the form
   * `name[...]` with a non-empty name (a `[` at position 0 included) is absent.
   */
  lemma MalformedSegmentIsAbsent(db: map<string, Value>, p: string)
    requires p != "" && '.' !in p && p !in db
    requires !HasSuffix(p, "]") || Index(p, "[") <= 0
    ensures Lookup(db, p) == None
  {
    SingleSegment(db, p);
  }

  /** The worked example: `a.b[2].c` reaches 5 and `a.b[5]` is out of range. */
  lemma DottedIndexedExample(db: map<string, Value>, hit: string, miss: string)
    requires db == map["a" := Obj(map["b" := Arr([Num(10.0), Num(20.0), Obj(map["c" := Num(5.0)])])])]
    requires hit == "a.b[2].c" && miss == "a.b[5]"
    ensures Lookup(db, hit) == Some(Num(5.0))
    ensures Lookup(db, miss) == None
  {
    assert hit == "a" + "." + "b[2].c";
    assert miss == "a" + "." + "b[5]";
    var m1 := db["a"].fields;
    ExampleInner(m1, map["c" := Num(5.0)], "b[2].c");
    ExampleOuter(db, m1, "b[2].c", Some(Num(5.0)));
    ExampleOutOfRange(m1, "b[5]");
    ExampleOuter(db, m1, "b[5]", None);
  }

  lemma ExampleOuter(db: map<string, Value>, m1: map<string, Value>, rest: string, found: Option<Value>)
    requires db == map["a" := Obj(m1)] && rest != "" && Lookup(m1, rest) == found
    ensures Lookup(db, "a" + "." + rest) == found
  {
    ExactKeyWins(db, "a");
    LookupDotted(db, "a", rest);
  }

  lemma ExampleInner(m1: map<string, Value>, m2: map<string, Value>, key: string)
    requires m2 == map["c" := Num(5.0)]
    requires m1 == map["b" := Arr([Num(10.0), Num(20.0), Obj(m2)])]
    requires key == "b[2].c"
    ensures Lookup(m1, key) == Some(Num(5.0))
  {
    SmallBrackets(2);
    assert "b" + Brackets([2]) == "b[2]";
    IndexedSegment(m1, "b", [2]);
    assert IndexPath(m1["b"], [2]) == IndexPath(Obj(m2), []);
    ExactKeyWins(m2, "c");
    assert key == "b[2]" + "." + "c";
    LookupDotted(m1, "b[2]", "c");
  }

  lemma ExampleOutOfRange(m1: map<string, Value>, key: string)
    requires m1.Keys == {"b"} && m1["b"].Arr? && |m1["b"].elems| == 3
    requires key == "b[5]"
    ensures Lookup(m1, key) == None
  {
    SmallBrackets(5);
    assert "b" + Brackets([5]) == "b[5]";
    IndexedSegment(m1, "b", [5]);
  }

  lemma SmallBrackets(d: nat)
    requires d < 10
    ensures Brackets([d]) == "[" + [('0' as int + d) as char] + "]"
  {
    assert Decimals([d]) == [[DigitChar(d)]];
  }

  /** An integral number converts to itself. */
  lemma IntOfIntegralNumber(n: int, def: int)
    ensures IntOf(Some(Num(n as real)), def) == n
  {
  }

  /** Rounding examples: 2.6 gives 3, -2.6 gives -3, halves go away from zero. */
  lemma FloatToIntExamples()
    ensures FloatToInt(2.6) == 3 && FloatToInt(-2.6) == -3
    ensures FloatToInt(2.5) == 3 && FloatToInt(-2.5) == -3
    ensures FloatToInt(2.4) == 2 && FloatToInt(-2.4) == -2
  {
  }

  /** `Int` reads back a decimal string of any int64-sized natural. */
  lemma IntOfDecimalString(n: nat, def: int)
    requires n < Int64Cutoff
    ensures IntOf(Some(Str(Decimal(n))), def) == n
  {
    ParseIntDecimal(n);
  }

  /**
   * A decimal string beyond int64 gives `Int` its default but gives
   * `IntList` the largest int64: one checks the parse error, the other
   * ignores it.
   */
  lemma OutOfRangeDecimalString(n: nat, def: int)
    requires n >= Int64Cutoff
    ensures IntOf(Some(Str(Decimal(n))), def) == def
    ensures ElementInt(Str(Decimal(n))) == Int64Cutoff - 1
  {
    ParseIntDecimalRange(n);
  }

  /** A boolean rendered by `String` is read back by `Bool`. */
  lemma BoolOfStringOfBool(b: bool, d: string, def: bool, pr: Printer)
    ensures BoolOf(Some(Str(StringOf(Some(Bool(b)), d, pr))), def) == b
  {
  }

  /** Defaults: a missing flag and an unparsable string both give the default. */
  lemma BoolDefaults()
    ensures BoolOf(None, true) && BoolOf(Some(Str("notabool")), true)
  {
  }
}
