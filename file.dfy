/**
 * Include resolution (file.go).
 *
 * After a configuration file has been decoded, every object in its tree is
 * scanned for the directive key `#include#`. A string value names one file
 * and an array value names several, relative to the directory of the file
 * being loaded; the top-level entries of every file that loads are merged
 * over the object, later files winning, and the directive is deleted. A
 * single file that fails to load leaves the object, directive included, as
 * it was. Every other object or array in the tree is processed the same
 * way, recursively.
 *
 * Loading an included file is the oracle `files`: the joined path maps to
 * the tree that loading that file returns without error (its own includes
 * already resolved); a path that is absent fails to load.
 */
module ConfFile {
  import opened Wrappers
  import opened Values
  import opened LjConf

  /** `INCLUDE_KEY_TAG`. */
  const IncludeKey: string := "#include#"

  /** Joined path of an included file |-> the tree it loads to; absent when loading fails. */
  type Files = map<string, map<string, Value>>

  /** The position of the last `/` in `s`, or -1. */
  function LastSlash(s: string): (i: int)
    ensures -1 <= i < |s|
    ensures i >= 0 ==> s[i] == '/'
    ensures forall j :: i < j < |s| ==> s[j] != '/'
    decreases |s|
  {
    if s == [] then -1
    else if s[|s| - 1] == '/' then |s| - 1
    else LastSlash(s[..|s| - 1])
  }

  /** The directory of a path: everything before the last `/`, `/` for a top-level file, `.` for a bare name. */
  function Dir(path: string): (d: string)
    ensures LastSlash(path) < 0 ==> d == "."
    ensures LastSlash(path) == 0 ==> d == "/"
    ensures LastSlash(path) > 0 ==> d == path[..LastSlash(path)]
  {
    var i := LastSlash(path);
    if i < 0 then "." else if i == 0 then "/" else path[..i]
  }

  /** `dir.Join(p)`: a file name relative to a directory. */
  function JoinPath(dir: string, p: string): (r: string)
    ensures |r| == |dir| + 1 + |p|
    ensures r[..|dir|] == dir && r[|dir|] == '/' && r[|dir| + 1..] == p
  {
    dir + "/" + p
  }

  /** What loading the included file `p` gives: its tree, or `None` when it fails. */
  function Included(files: Files, dir: string, p: string): (r: Option<map<string, Value>>)
    ensures r.Some? <==> JoinPath(dir, p) in files
    ensures r.Some? ==> r.value == files[JoinPath(dir, p)]
  {
    var path := JoinPath(dir, p);
    if path in files then Some(files[path]) else None
  }

  /** A directive value is acted upon: a single path or an array of paths. */
  predicate IsDirective(v: Value) {
    v.Str? || v.Arr?
  }

  /** The tree after `loadInclude` / `loadArrayInclude`: objects and arrays are processed, everything else is kept. */
  function ResolveValue(v: Value, dir: string, files: Files): (r: Value)
    ensures r.Obj? <==> v.Obj?
    ensures r.Arr? <==> v.Arr?
    ensures r.Arr? ==> |r.elems| == |v.elems|
    ensures !v.Obj? && !v.Arr? ==> r == v
    decreases v, 2
  {
    match v
    case Obj(m) => Obj(ResolveEntries(m, dir, files))
    case Arr(a) => Arr(ResolveList(a, dir, files))
    case _ => v
  }

  /** `loadArrayInclude`: every element processed where it stands. */
  function ResolveList(a: seq<Value>, dir: string, files: Files): (r: seq<Value>)
    ensures |r| == |a|
    ensures forall i :: 0 <= i < |a| && !a[i].Obj? && !a[i].Arr? ==> r[i] == a[i]
    decreases Arr(a), 0
  {
    seq(|a|, i requires 0 <= i < |a| => ResolveValue(a[i], dir, files))
  }

  /** The object once every entry other than an include directive has been processed. */
  function Base(m: map<string, Value>, dir: string, files: Files): (r: map<string, Value>)
    ensures r.Keys == m.Keys
    ensures IncludeKey in m && IsDirective(m[IncludeKey]) ==> r[IncludeKey] == m[IncludeKey]
    decreases Obj(m), 0
  {
    map k | k in m :: if k == IncludeKey && IsDirective(m[k]) then m[k] else ResolveValue(m[k], dir, files)
  }

  /** The trees of the string entries of `paths` that load, merged over `acc` in order. */
  function MergePaths(acc: map<string, Value>, paths: seq<Value>, dir: string, files: Files): (r: map<string, Value>)
    ensures acc.Keys <= r.Keys
    ensures (forall i :: 0 <= i < |paths| ==> !paths[i].Str?) ==> r == acc
    decreases |paths|
  {
    if paths == [] then acc
    else
      var prefix := MergePaths(acc, paths[..|paths| - 1], dir, files);
      var last := paths[|paths| - 1];
      if last.Str? && Included(files, dir, last.s).Some? then prefix + Included(files, dir, last.s).value
      else prefix
  }

  /**
   * The include directive `v` carried out on `base`: a single path merges
   * its tree and drops the directive, or changes nothing when it fails to
   * load; an array of paths merges every tree that loads and always drops
   * the directive.
   */
  function Directive(base: map<string, Value>, v: Value, dir: string, files: Files): (r: map<string, Value>)
    requires IsDirective(v)
    ensures v.Arr? ==> IncludeKey !in r
    ensures v.Str? && Included(files, dir, v.s).None? ==> r == base
    ensures forall k :: k in base && k != IncludeKey ==> k in r
  {
    if v.Str? then
      match Included(files, dir, v.s)
      case Some(sub) => (base + sub) - {IncludeKey}
      case None => base
    else MergePaths(base, v.elems, dir, files) - {IncludeKey}
  }

  /**
   * `loadInclude`: the object with its entries processed and its include
   * directive carried out; the directive is visited after every other key.
   */
  function ResolveEntries(m: map<string, Value>, dir: string, files: Files): (r: map<string, Value>)
    ensures forall k :: k in m && k != IncludeKey ==> k in r
    ensures (IncludeKey !in m || !IsDirective(m[IncludeKey])) ==> r.Keys == m.Keys
    decreases Obj(m), 1
  {
    if IncludeKey in m && IsDirective(m[IncludeKey]) then Directive(Base(m, dir, files), m[IncludeKey], dir, files)
    else Base(m, dir, files)
  }

  /** The merge loop of `loadInclude`: every entry of `sub` written over `db`. */
  method MergeInto(db: map<string, Value>, sub: map<string, Value>) returns (r: map<string, Value>)
    ensures r == db + sub
  {
    r := db;
    var todo := sub.Keys;
    while todo != {}
      invariant todo <= sub.Keys
      invariant r.Keys == db.Keys + (sub.Keys - todo)
      invariant forall k :: k in r ==> r[k] == if k in sub && k !in todo then sub[k] else db[k]
      decreases |todo|
    {
      var k :| k in todo;
      r := r[k := sub[k]];
      todo := todo - {k};
    }
  }

  /** The array branch of `loadInclude`: each string path that loads is merged, in order; other elements are skipped. */
  method IncludePaths(db: map<string, Value>, paths: seq<Value>, dir: string, files: Files)
    returns (r: map<string, Value>)
    ensures r == MergePaths(db, paths, dir, files)
  {
    r := db;
    for i := 0 to |paths|
      invariant r == MergePaths(db, paths[..i], dir, files)
    {
      assert paths[..i + 1][..i] == paths[..i];
      if paths[i].Str? {
        var sub := Included(files, dir, paths[i].s);
        if sub.Some? {
          r := MergeInto(r, sub.value);
        }
      }
    }
    assert paths[..|paths|] == paths;
  }

  /** The type switch of `loadInclude` and `loadArrayInclude`: objects and arrays are processed, anything else is kept. */
  method ProcessValue(v: Value, dir: string, files: Files) returns (w: Value)
    ensures w == ResolveValue(v, dir, files)
    decreases v, 2
  {
    w := v;
    match v {
      case Obj(m) =>
        var m' := LoadInclude(m, dir, files);
        w := Obj(m');
      case Arr(a) =>
        var a' := LoadArrayInclude(a, dir, files);
        w := Arr(a');
      case _ =>
    }
  }

  /** `loadArrayInclude`: every element processed, in order. */
  method LoadArrayInclude(arr: seq<Value>, dir: string, files: Files) returns (r: seq<Value>)
    ensures r == ResolveList(arr, dir, files)
    decreases Arr(arr), 0
  {
    r := [];
    for i := 0 to |arr|
      invariant |r| == i
      invariant forall j :: 0 <= j < i ==> r[j] == ResolveValue(arr[j], dir, files)
    {
      var el := ProcessValue(arr[i], dir, files);
      r := r + [el];
    }
  }

  /** The directive branch of `loadInclude`: the include carried out on `db`, whose other entries are done. */
  method IncludeDirective(db: map<string, Value>, v: Value, dir: string, files: Files) returns (r: map<string, Value>)
    requires IsDirective(v)
    ensures r == Directive(db, v, dir, files)
  {
    r := db;
    if v.Str? {
      var sub := Included(files, dir, v.s);
      if sub.Some? {
        r := MergeInto(r, sub.value);
        r := r - {IncludeKey};
      }
    } else {
      r := IncludePaths(r, v.elems, dir, files);
      r := r - {IncludeKey};
    }
  }

  /** The object part way through `loadInclude`: the keys in `todo` are still untouched. */
  ghost function Partial(db: map<string, Value>, todo: set<string>, dir: string, files: Files): map<string, Value> {
    map k | k in db :: if k in todo then db[k] else Base(db, dir, files)[k]
  }

  /** Taking one more key `k` out of `todo` writes its processed value. */
  lemma PartialStep(db: map<string, Value>, todo: set<string>, k: string, dir: string, files: Files)
    requires k in todo && todo <= db.Keys
    ensures Partial(db, todo, dir, files)[k := Base(db, dir, files)[k]] == Partial(db, todo - {k}, dir, files)
  {
  }

  /** Before the pass the object is untouched; after it, it is `Base`. */
  lemma PartialEnds(db: map<string, Value>, dir: string, files: Files)
    ensures Partial(db, db.Keys, dir, files) == db
    ensures Partial(db, {}, dir, files) == Base(db, dir, files)
  {
  }

  /**
   * `loadInclude`: one pass over the keys of `db`. The include directive,
   * when it is a string or an array, is taken last; every other entry is
   * processed in place.
   */
  method LoadInclude(db: map<string, Value>, dir: string, files: Files) returns (r: map<string, Value>)
    ensures r == ResolveEntries(db, dir, files)
    decreases Obj(db), 1
  {
    r := db;
    var todo := db.Keys;
    ghost var done := false;
    PartialEnds(db, dir, files);
    while todo != {}
      invariant todo <= db.Keys
      invariant done ==> todo == {} && r == ResolveEntries(db, dir, files)
      invariant !done ==> r == Partial(db, todo, dir, files)
      invariant !done && IncludeKey in db && IsDirective(db[IncludeKey]) ==> IncludeKey in todo
      decreases |todo|
    {
      var k;
      if todo - {IncludeKey} != {} {
        k :| k in todo - {IncludeKey};
      } else {
        k := IncludeKey;
      }
      var v := db[k];
      PartialStep(db, todo, k, dir, files);
      todo := todo - {k};
      if k == IncludeKey && IsDirective(v) {
        assert r == Base(db, dir, files) by {
          PartialEnds(db, dir, files);
          assert Base(db, dir, files)[k] == v;
          assert r[k := v] == r;
        }
        r := IncludeDirective(r, v, dir, files);
        done := true;
        continue;
      }
      var w := ProcessValue(v, dir, files);
      r := r[k := w];
    }
  }

  /** What reading the configuration file yields, as seen by `loadFromFile`. */
  datatype FileState =
    | Missing                                   // `os.Stat` fails
    | Unopenable(notExist: bool)                // opening fails; `notExist` as `os.IsNotExist` reports
    | Undecodable(partial: map<string, Value>)  // the decoder stops with an error after filling `partial`
    | Decoded(tree: map<string, Value>)         // the decoder succeeds

  datatype LoadError = StatError | OpenError | DecodeError

  /**
   * `loadFromFile`: no handle when the file cannot be stat'ed; an empty
   * handle when it cannot be opened (with no error if it does not exist);
   * the partly decoded tree and the error when decoding fails; and only
   * after a successful decode the tree with its includes resolved against
   * the file's own directory.
   */
  method LoadFromFile(path: string, state: FileState, files: Files) returns (conf: Conf?, err: Option<LoadError>)
    ensures conf == null <==> state.Missing?
    ensures state.Missing? ==> err == Some(StatError)
    ensures conf != null ==> fresh(conf) && conf.path == path
    ensures state.Unopenable? ==> conf != null && conf.db == map[] && err == (if state.notExist then None else Some(OpenError))
    ensures state.Undecodable? ==> conf != null && conf.db == state.partial && err == Some(DecodeError)
    ensures state.Decoded? ==> conf != null && conf.db == ResolveEntries(state.tree, Dir(path), files) && err == None
  {
    if state.Missing? {
      return null, Some(StatError);
    }
    conf := new Conf(path, map[]);
    match state {
      case Unopenable(notExist) =>
        err := if notExist then None else Some(OpenError);
        return;
      case Undecodable(partial) =>
        conf.db := partial;
        return conf, Some(DecodeError);
      case Decoded(tree) =>
        conf.db := tree;
    }
    var resolved := LoadInclude(conf.db, Dir(path), files);
    conf.db := resolved;
    err := None;
  }
}
