/**
 * Properties of include resolution: what a string directive, an array
 * directive and any other value under `#include#` do to an object, which
 * file wins a merge, that resolution keeps the shape of arrays and changes
 * nothing in a tree without directives, and that no directive survives
 * when every include succeeds.
 */
module ConfFileProperties {
  import opened Wrappers
  import opened Values
  import opened ConfFile

  /** A single-path include that loads: the file's keys win, the directive is gone, every other key is processed. */
  lemma StringIncludeMerged(m: map<string, Value>, dir: string, files: Files, p: string, sub: map<string, Value>)
    requires IncludeKey in m && m[IncludeKey] == Str(p)
    requires Included(files, dir, p) == Some(sub)
    ensures var r := ResolveEntries(m, dir, files);
      r.Keys == (m.Keys + sub.Keys) - {IncludeKey} &&
      (forall k :: k in sub && k != IncludeKey ==> r[k] == sub[k]) &&
      (forall k :: k in m && k !in sub && k != IncludeKey ==> r[k] == ResolveValue(m[k], dir, files))
  {
  }

  /** A single-path include that fails: no key is gained and the directive stays as it was. */
  lemma StringIncludeFailed(m: map<string, Value>, dir: string, files: Files, p: string)
    requires IncludeKey in m && m[IncludeKey] == Str(p)
    requires Included(files, dir, p).None?
    ensures var r := ResolveEntries(m, dir, files);
      r.Keys == m.Keys && r[IncludeKey] == Str(p) &&
      forall k :: k in m && k != IncludeKey ==> r[k] == ResolveValue(m[k], dir, files)
  {
  }

  /** An array of paths: the directive is deleted whether or not anything loaded, and no other key is lost. */
  lemma ArrayIncludeDropsDirective(m: map<string, Value>, dir: string, files: Files)
    requires IncludeKey in m && m[IncludeKey].Arr?
    ensures var r := ResolveEntries(m, dir, files);
      IncludeKey !in r && m.Keys - {IncludeKey} <= r.Keys
  {
  }

  /** Any other value under `#include#` is an ordinary entry: kept, and processed if it is an object. */
  lemma OtherDirectiveKept(m: map<string, Value>, dir: string, files: Files)
    requires IncludeKey in m && !IsDirective(m[IncludeKey])
    ensures var r := ResolveEntries(m, dir, files);
      r.Keys == m.Keys && forall k :: k in m ==> r[k] == ResolveValue(m[k], dir, files)
  {
  }

  /** The `j`-th path of an array directive is a string naming a file that loads and has key `k`. */
  predicate Provides(paths: seq<Value>, j: int, k: string, dir: string, files: Files) {
    0 <= j < |paths| && paths[j].Str? && Included(files, dir, paths[j].s).Some? &&
    k in Included(files, dir, paths[j].s).value
  }

  lemma DropLastProvides(paths: seq<Value>, k: string, dir: string, files: Files)
    requires paths != []
    ensures forall j :: 0 <= j < |paths| - 1 ==>
      (Provides(paths[..|paths| - 1], j, k, dir, files) <==> Provides(paths, j, k, dir, files))
  {
  }

  /** A key is in the merge exactly when it was there before or some loaded file has it. */
  lemma {:induction false} MergePathsKeys(acc: map<string, Value>, paths: seq<Value>, dir: string, files: Files, k: string)
    ensures k in MergePaths(acc, paths, dir, files) <==>
      k in acc || exists j :: Provides(paths, j, k, dir, files)
    decreases |paths|
  {
    if paths != [] {
      var n := |paths| - 1;
      var prefix := MergePaths(acc, paths[..n], dir, files);
      MergePathsKeys(acc, paths[..n], dir, files, k);
      DropLastProvides(paths, k, dir, files);
      if exists j :: Provides(paths, j, k, dir, files) {
        var j :| Provides(paths, j, k, dir, files);
        if j < n {
          assert Provides(paths[..n], j, k, dir, files);
        }
      }
      if k in prefix && k !in acc {
        var j :| Provides(paths[..n], j, k, dir, files);
        assert Provides(paths, j, k, dir, files);
      }
      if k !in prefix && k in MergePaths(acc, paths, dir, files) {
        assert Provides(paths, n, k, dir, files);
      }
    }
  }

  /** For a colliding key the last file in the array that loads and has it wins. */
  lemma {:induction false} MergePathsLastWins(acc: map<string, Value>, paths: seq<Value>, dir: string, files: Files,
                                               k: string, j: int)
    requires Provides(paths, j, k, dir, files)
    requires forall i :: j < i < |paths| ==> !Provides(paths, i, k, dir, files)
    ensures k in MergePaths(acc, paths, dir, files)
    ensures MergePaths(acc, paths, dir, files)[k] == Included(files, dir, paths[j].s).value[k]
    decreases |paths|
  {
    var n := |paths| - 1;
    if j < n {
      DropLastProvides(paths, k, dir, files);
      assert !Provides(paths, n, k, dir, files);
      forall i | j < i < n
        ensures !Provides(paths[..n], i, k, dir, files)
      {
        assert !Provides(paths, i, k, dir, files);
      }
      MergePathsLastWins(acc, paths[..n], dir, files, k, j);
    }
  }

  /** A key that no loaded file has keeps the value it had before the merge. */
  lemma {:induction false} MergePathsUnprovided(acc: map<string, Value>, paths: seq<Value>, dir: string, files: Files,
                                                 k: string)
    requires k in acc
    requires forall i :: !Provides(paths, i, k, dir, files)
    ensures k in MergePaths(acc, paths, dir, files) && MergePaths(acc, paths, dir, files)[k] == acc[k]
    decreases |paths|
  {
    if paths != [] {
      var n := |paths| - 1;
      DropLastProvides(paths, k, dir, files);
      assert !Provides(paths, n, k, dir, files);
      forall i
        ensures !Provides(paths[..n], i, k, dir, files)
      {
        if 0 <= i < n {
          assert !Provides(paths, i, k, dir, files);
        }
      }
      MergePathsUnprovided(acc, paths[..n], dir, files, k);
    }
  }

  /** `loadArrayInclude` keeps the length and order of an array and leaves its scalar elements untouched. */
  lemma ArrayShape(a: seq<Value>, dir: string, files: Files)
    ensures var r := ResolveList(a, dir, files);
      |r| == |a| &&
      forall i :: 0 <= i < |a| ==>
        (a[i].Obj? <==> r[i].Obj?) && (a[i].Arr? <==> r[i].Arr?) &&
        (!a[i].Obj? && !a[i].Arr? ==> r[i] == a[i]) &&
        (a[i].Arr? ==> |r[i].elems| == |a[i].elems|)
  {
    var r := ResolveList(a, dir, files);
    forall i | 0 <= i < |a|
      ensures (a[i].Obj? <==> r[i].Obj?) && (a[i].Arr? <==> r[i].Arr?)
      ensures !a[i].Obj? && !a[i].Arr? ==> r[i] == a[i]
      ensures a[i].Arr? ==> |r[i].elems| == |a[i].elems|
    {
      assert r[i] == ResolveValue(a[i], dir, files);
      if a[i].Arr? {
        assert r[i].elems == ResolveList(a[i].elems, dir, files);
      }
    }
  }

  /** No `#include#` key anywhere in the tree. */
  predicate NoDirective(v: Value)
    decreases v, 1
  {
    match v
    case Obj(m) => NoDirectiveMap(m)
    case Arr(a) => forall i :: 0 <= i < |a| ==> NoDirective(a[i])
    case _ => true
  }

  predicate NoDirectiveMap(m: map<string, Value>)
    decreases Obj(m), 0
  {
    IncludeKey !in m && forall k :: k in m ==> NoDirective(m[k])
  }

  /** Resolving a tree without directives changes nothing. */
  lemma {:induction false} ResolveWithoutDirectives(v: Value, dir: string, files: Files)
    requires NoDirective(v)
    ensures ResolveValue(v, dir, files) == v
    decreases v, 1
  {
    match v
    case Obj(m) => EntriesWithoutDirectives(m, dir, files);
    case Arr(a) =>
      forall i | 0 <= i < |a|
        ensures ResolveList(a, dir, files)[i] == a[i]
      {
        ResolveWithoutDirectives(a[i], dir, files);
      }
    case _ =>
  }

  lemma {:induction false} EntriesWithoutDirectives(m: map<string, Value>, dir: string, files: Files)
    requires NoDirectiveMap(m)
    ensures ResolveEntries(m, dir, files) == m
    decreases Obj(m), 0
  {
    forall k | k in m
      ensures Base(m, dir, files)[k] == m[k]
    {
      ResolveWithoutDirectives(m[k], dir, files);
    }
  }

  /** Every `#include#` in the tree is an array, or a string naming a file that loads. */
  predicate Loadable(v: Value, dir: string, files: Files)
    decreases v, 1
  {
    match v
    case Obj(m) => LoadableMap(m, dir, files)
    case Arr(a) => forall i :: 0 <= i < |a| ==> Loadable(a[i], dir, files)
    case _ => true
  }

  predicate LoadableMap(m: map<string, Value>, dir: string, files: Files)
    decreases Obj(m), 0
  {
    (IncludeKey in m ==> m[IncludeKey].Arr? || (m[IncludeKey].Str? && Included(files, dir, m[IncludeKey].s).Some?)) &&
    forall k :: k in m && k != IncludeKey ==> Loadable(m[k], dir, files)
  }

  /** Every file loads to a tree without directives. */
  predicate CleanFiles(files: Files) {
    forall path :: path in files ==> NoDirectiveMap(files[path])
  }

  /** Merging clean files over entries without directives adds none, apart from the one under `#include#`. */
  lemma {:induction false} MergePathsClean(acc: map<string, Value>, paths: seq<Value>, dir: string, files: Files)
    requires CleanFiles(files)
    requires forall k :: k in acc && k != IncludeKey ==> NoDirective(acc[k])
    ensures forall k :: k in MergePaths(acc, paths, dir, files) && k != IncludeKey ==>
      NoDirective(MergePaths(acc, paths, dir, files)[k])
    decreases |paths|
  {
    if paths != [] {
      var n := |paths| - 1;
      var prefix := MergePaths(acc, paths[..n], dir, files);
      MergePathsClean(acc, paths[..n], dir, files);
      if paths[n].Str? && Included(files, dir, paths[n].s).Some? {
        var sub := Included(files, dir, paths[n].s).value;
        assert NoDirectiveMap(sub) by {
          assert JoinPath(dir, paths[n].s) in files;
        }
        forall k | k in prefix + sub && k != IncludeKey
          ensures NoDirective((prefix + sub)[k])
        {
          if k in sub {
            assert (prefix + sub)[k] == sub[k];
            assert NoDirective(sub[k]);
          } else {
            assert (prefix + sub)[k] == prefix[k];
            assert NoDirective(prefix[k]);
          }
        }
      }
    }
  }

  /** When every include succeeds and the included files are clean, no directive survives anywhere. */
  lemma {:induction false} NoDirectiveSurvives(v: Value, dir: string, files: Files)
    requires CleanFiles(files) && Loadable(v, dir, files)
    ensures NoDirective(ResolveValue(v, dir, files))
    decreases v, 1
  {
    match v
    case Obj(m) => NoDirectiveSurvivesMap(m, dir, files);
    case Arr(a) =>
      forall i | 0 <= i < |a|
        ensures NoDirective(ResolveList(a, dir, files)[i])
      {
        NoDirectiveSurvives(a[i], dir, files);
      }
    case _ =>
  }

  lemma {:induction false} NoDirectiveSurvivesMap(m: map<string, Value>, dir: string, files: Files)
    requires CleanFiles(files) && LoadableMap(m, dir, files)
    ensures NoDirectiveMap(ResolveEntries(m, dir, files))
    decreases Obj(m), 0
  {
    var base := Base(m, dir, files);
    forall k | k in base && k != IncludeKey
      ensures NoDirective(base[k])
    {
      NoDirectiveSurvives(m[k], dir, files);
    }
    var r := ResolveEntries(m, dir, files);
    if IncludeKey in m && m[IncludeKey].Arr? {
      var merged := MergePaths(base, m[IncludeKey].elems, dir, files);
      MergePathsClean(base, m[IncludeKey].elems, dir, files);
      assert r == merged - {IncludeKey};
      forall k | k in r
        ensures NoDirective(r[k])
      {
        assert r[k] == merged[k];
      }
    } else if IncludeKey in m {
      var sub := Included(files, dir, m[IncludeKey].s).value;
      assert NoDirectiveMap(sub) by {
        assert JoinPath(dir, m[IncludeKey].s) in files;
      }
      assert r == (base + sub) - {IncludeKey};
      forall k | k in r
        ensures NoDirective(r[k])
      {
        if k in sub {
          assert r[k] == sub[k];
        } else {
          assert r[k] == base[k];
        }
      }
    }
  }

  /** An included file's own relative includes are resolved from the directory it was found in. */
  lemma DirOfJoin(dir: string, p: string)
    requires dir != "" && '/' !in p
    ensures Dir(JoinPath(dir, p)) == dir
  {
    var s := JoinPath(dir, p);
    var i := LastSlash(s);
    assert s[|dir|] == '/';
    assert i == |dir|;
    assert s[..i] == dir;
  }

  /**
   * A file `dir/app.json` holding `{"x": 1, "#include#": "child.json"}`, next
   * to a `child.json` holding `{"x": 2, "y": 3}`, loads as the child's tree.
   */
  lemma IncludeExample(path: string, dir: string, parent: map<string, Value>, child: map<string, Value>, files: Files)
    requires dir != "" && path == JoinPath(dir, "app.json")
    requires parent == map["x" := Num(1.0), IncludeKey := Str("child.json")]
    requires child == map["x" := Num(2.0), "y" := Num(3.0)]
    requires files == map[JoinPath(dir, "child.json") := child]
    ensures ResolveEntries(parent, Dir(path), files) == child
  {
    DirOfJoin(dir, "app.json");
    assert "x" != IncludeKey && "y" != IncludeKey;
    StringIncludeMerged(parent, dir, files, "child.json", child);
  }
}
