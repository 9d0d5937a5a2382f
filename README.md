# go-ljson-conf: key-path resolver, typed accessors and include resolution in Dafny

This project models the core of `ljconf`, a Go configuration package. The
package reads a loose-JSON file into a tree of nested maps and slices. It
resolves `#include#` directives against the file's directory. It then
answers dotted, array-indexed key paths such as `http.ports[1]` through
typed accessors, each of which falls back to a caller default.

The decoded tree is the datatype `Values.Value`. Its constructors are `Str`,
`Num` (a `real`, for Go's `float64`), `Bool`, `Null`, `Arr` and `Obj`.
`Null` is Go's `nil` interface, and also stands for JSON `null`.

- `ljconf.dfy` (module `LjConf`) holds the key-path resolver and the accessors.
  - The resolver `get` has a specification built from `Segment`, `Indexes`, `Walk` and `Lookup`.
  - The imperative `Conf.Get` keeps the source's nested loops and is proved equal to `Lookup`.
  - Each accessor is a pure case analysis (`StringOf`, `BoolOf`, `IntOf`, and so on). A `Conf` method looks the key up and applies it.
  - `StringList` and `IntList` build their results in loops.
- `gostrings.dfy`, `gostrconv.dfy` and `gofmt.dfy` model the parts of Go's library that the core calls:
  - `strings.Index`, `strings.HasSuffix` and `strings.Split`;
  - `strconv.ParseInt(s, 0, 0)` on a 64-bit platform, with its base prefixes, underscores, range errors and clamping;
  - `strconv.ParseBool`;
  - `fmt.Sprint` on a decoded value.
- `file.dfy` (module `ConfFile`) holds include resolution.
  - `ResolveEntries`, `ResolveList` and `ResolveValue` specify `loadInclude` and `loadArrayInclude`. `MergePaths` and `Directive` specify what the `#include#` directive does.
  - The methods `LoadInclude`, `LoadArrayInclude` and `IncludePaths` follow the source's loops and are proved equal to those functions. `MergeInto`, the copy loop of a merge, is proved equal to `db + sub`.
  - `LoadFromFile` resolves includes only after a successful decode, against the directory of the file being loaded.
  - Loading an included file is the oracle `Files`. It maps a joined path to the tree the file loads to, with that file's own includes already resolved. A path the oracle lacks counts as a load failure. The constant `IncludeKey` is `INCLUDE_KEY_TAG` (file.go:11).
- `ljconf_props.dfy` and `file_props.dfy` state the properties.
  - Resolver lemmas:
    - A dotted key is looked up one segment at a time.
    - An exact key wins over bracket parsing.
    - `name[i][j]` means successive array indexing by naturals.
    - Index pieces in any spelling `ParseInt` accepts (`0x1f`, `010`, `+3`, `1_000`) index like the naturals they parse to.
    - A negative index, a piece that does not parse, or a malformed segment makes the key absent, at any position in `[i][j]...`.
  - Accessor lemmas cover round trips through `Int` and `Bool`.
  - Include lemmas:
    - Each kind of directive has a lemma.
    - Among merged files, the last one wins.
    - Resolution keeps the shape of arrays.
    - Resolution is the identity on a tree without directives.
    - No directive survives when every `#include#` is an array or a single path that loads, and the included trees hold none.

Three edge cases of the code, as the model states them:

- `#include#` stays in the tree when a single-path include fails to load (file.go:67-76). It also stays when its value is neither a string nor an array (file.go:64, 95-100). `StringIncludeFailed` and `OtherDirectiveKept` state this.
- `Section` on a key that holds something other than an object panics in the type assertion at ljconf.go:130. The model returns `Panic` for that case.
- A configuration file that fails `os.Stat` gives no handle and the error (file.go:16-18). A file that passes `Stat` but then fails to open as not-existing gives an empty tree with no error (file.go:26-30).

## Model

| member | source | states |
|---|---|---|
| LjConf.Conf.constructor | ljconf.go:42-45 | a handle holds exactly the given path and tree |
| LjConf.Lookup | ljconf.go:138-187 | the value `get` finds is never nil: a JSON null found at the key is reported as absent |
| LjConf.Conf.Get | ljconf.go:138-187 | the segment loop and its inner index loop compute exactly `Lookup`; the empty key returns the whole tree |
| LjConf.Indexes | ljconf.go:166-181 | no index leaves the value as it is; a first index that does not parse, or a value that is not an array, gives nil |
| LjConf.Segment | ljconf.go:144-183 | a non-object gives nil; a present key gives its value, even when nil; a missing key that is not `name[...]` with a non-empty name gives nil |
| LjConf.Walk | ljconf.go:144-184 | no segment leaves the value as it is; once nil, every later segment leaves the walk at nil |
| LjConf.FloatToInt | ljconf.go:244-249 | the result is within one half of `f`; a non-negative half rounds up and a negative half rounds down, i.e. away from zero |
| LjConf.TruncateToInt | ljconf.go:246-248 | Go's float-to-int conversion drops the fraction toward zero |
| LjConf.InterfaceOf | ljconf.go:191-198 | the found value, or `def` when absent or nil |
| LjConf.StringOf | ljconf.go:203-215 | a string as is, a bool as `true`/`false`, a number as `fmt.Sprint` prints it; absent, nil, array or object give `def` |
| LjConf.BoolOf | ljconf.go:224-241 | a bool as is, a string in one of `ParseBool`'s six true or false spellings as that truth value; anything else gives `def` |
| LjConf.IntOf | ljconf.go:255-272 | a number rounded by `FloatToInt`, a string that `ParseInt` accepts as its value; anything else, including a range error, gives `def` |
| LjConf.ObjectOf | ljconf.go:298-310 | the map exactly when an object is found, else `def` |
| LjConf.ListOf | ljconf.go:333-345 | the elements exactly when an array is found, else `def` |
| LjConf.ElementInt | ljconf.go:380-395 | an `IntList` element: number rounded, true 1, false 0, string parsed with the error ignored (0 on bad syntax, the clamped int64 out of range), any other kind 0 |
| LjConf.Conf.Section | ljconf.go:121-134 | absent gives the "empty section: key" error; an object gives a new handle with the parent's path and that object's map; any other value is the failed type assertion |
| LjConf.Conf.Interface | ljconf.go:191-198 | `InterfaceOf` applied to what `get` finds |
| LjConf.Conf.String | ljconf.go:203-215 | `StringOf` applied to what `get` finds |
| LjConf.Conf.Bool | ljconf.go:224-241 | `BoolOf` applied to what `get` finds |
| LjConf.Conf.Int | ljconf.go:255-272 | `IntOf` applied to what `get` finds |
| LjConf.Conf.Object | ljconf.go:298-310 | `ObjectOf` applied to what `get` finds |
| LjConf.Conf.List | ljconf.go:333-345 | `ListOf` applied to what `get` finds |
| LjConf.Conf.StringList | ljconf.go:350-366 | for an array, a list of the same length whose i-th string is `fmt.Sprint` of the i-th element; otherwise `def` |
| LjConf.Conf.IntList | ljconf.go:371-401 | for an array, a list of the same length whose i-th entry is `ElementInt` of the i-th element; otherwise `def` |
| GoStrings.Index | ljconf.go:157 | `strings.Index`: an occurrence at the result and none earlier, or -1 when there is none |
| GoStrings.HasSuffix | ljconf.go:155 | `strings.HasSuffix`: the string is some prefix followed by the suffix |
| GoStrings.Split | ljconf.go:142 | `strings.Split`: at least one piece, and the pieces joined with the separator give the input back |
| GoStrings.SplitWithoutSeparator | ljconf.go:142 | a key without a dot is one segment |
| GoStrings.SplitOfJoin | ljconf.go:159 | splitting pieces joined by the separator gives the pieces back when none contains the separator's first character |
| GoStrconv.Accumulate | ljconf.go:167 | the digit loop of `ParseUint` yields a uint64 value, or the range error carrying the largest uint64 |
| GoStrconv.UnderscoreOK | ljconf.go:167 | the underscore rule of base-0 parsing: a string without `_` passes; a leading `_` fails |
| GoStrconv.UnderscoreScan | ljconf.go:167 | the scan behind it: no `_` and no pending `_` passes; an accepted `_` follows a digit or a base prefix |
| GoStrconv.ParseUint | ljconf.go:167 | the unsigned parse yields a uint64 value or the clamped range error |
| GoStrconv.ParseInt | ljconf.go:167 | the empty string is a syntax error; a parsed value lies within int64, and is not positive after `-` and not negative otherwise; a range error carries the smallest int64 after `-` and the largest int64 otherwise |
| GoStrconv.ParseBool | ljconf.go:234 | true exactly for `1 t T TRUE true True`, false exactly for `0 f F FALSE false False` |
| GoStrconv.AccumulateDecimal | ljconf.go:265 | feeding the decimal digits of `m` to the digit loop adds exactly the value `m` |
| GoStrconv.ParseIntDecimal | ljconf.go:265 | `ParseInt` reads every int64-sized natural back from its decimal rendering |
| GoStrconv.ParseIntNegativeDecimal | ljconf.go:167 | a `-` in front of a decimal gives the negated value, down to the smallest int64 |
| GoStrconv.AccumulateDecimalOverflow | ljconf.go:265 | decimal digits worth more than uint64 holds make the digit loop report a range error |
| GoStrconv.ParseIntDecimalRange | ljconf.go:265 | a decimal beyond int64 is a range error carrying the largest int64 |
| GoStrconv.ParseIntNegativeDecimalRange | ljconf.go:167 | `-` in front of a decimal beyond the smallest int64 is a range error carrying the smallest int64 |
| GoStrconv.ParseIntPlusDecimal | ljconf.go:167 | a `+` in front of an int64-sized decimal changes nothing |
| GoFmt.Sprint | ljconf.go:211 | strings print as themselves, booleans as `true`/`false`, nil as `<nil>`, numbers through the float printer, arrays as their elements' renderings separated by spaces in brackets |
| LjConfProperties.IndexesDecimal | ljconf.go:166-181 | parsing decimal indexes and indexing equals indexing by the naturals, absent as soon as a node is not an array or an index is too large |
| LjConfProperties.SingleSegment | ljconf.go:142-153 | a key without dots is found by one pass of the segment loop |
| LjConfProperties.BracketSegment | ljconf.go:155-165 | a segment `name[inner]` that is not itself a key looks up `name` and applies the `][`-separated pieces of `inner` as indexes |
| LjConfProperties.LookupDotted | ljconf.go:142-148 | `a.b` is `b` looked up inside the object at `a`; if `a` holds anything but an object the whole key is absent |
| LjConfProperties.ExactKeyWins | ljconf.go:150-153 | a present key is returned as is, even one shaped like `name[0]` |
| LjConfProperties.IndexedSegment | ljconf.go:155-181 | `name[i][j]...` is absent when `name` is missing, else `name`'s value indexed successively by the naturals |
| LjConfProperties.NegativeIndexIsAbsent | ljconf.go:177-179 | `name[-n]` is always absent |
| LjConfProperties.UnparsableIndexIsAbsent | ljconf.go:166-170 | one index piece that `ParseInt` rejects, anywhere in the list, makes the whole index path nil |
| LjConfProperties.UnparsableSegmentIsAbsent | ljconf.go:155-170 | a key `name[inner]`, not itself present, is absent when any `][`-separated piece of `inner` does not parse |
| LjConfProperties.NegativeIndexAnywhere | ljconf.go:166-181 | one index piece that parses to a negative number, anywhere in the list, makes the whole index path nil |
| LjConfProperties.NegativeSegmentIsAbsent | ljconf.go:155-181 | a key `name[inner]`, not itself present, is absent when any `][`-separated piece of `inner` is negative |
| LjConfProperties.IndexesParsed | ljconf.go:166-181 | pieces that all parse to naturals, in any spelling `ParseInt` accepts, index exactly like those naturals through `IndexPath` |
| LjConfProperties.MalformedSegmentIsAbsent | ljconf.go:155-158 | a segment that is not a present key and is not `name[...]` with a non-empty name is absent, `[` at position 0 included |
| LjConfProperties.DottedIndexedExample | ljconf.go:138-187 | in `{"a": {"b": [10, 20, {"c": 5}]}}`, `a.b[2].c` is 5 and `a.b[5]` is absent |
| LjConfProperties.ExampleInner | ljconf.go:155-181 | in `{"b": [10, 20, {"c": 5}]}`, `b[2].c` is 5 |
| LjConfProperties.ExampleOutOfRange | ljconf.go:177-179 | an index past the end of a 3-element array is absent |
| LjConfProperties.IntOfIntegralNumber | ljconf.go:262-263 | `Int` of an integral number is that number |
| LjConfProperties.FloatToIntExamples | ljconf.go:244-249 | 2.6 gives 3, -2.6 gives -3, 2.5 gives 3, -2.5 gives -3, 2.4 gives 2, -2.4 gives -2 |
| LjConfProperties.IntOfDecimalString | ljconf.go:264-268 | `Int` reads any int64-sized natural back from its decimal string |
| LjConfProperties.OutOfRangeDecimalString | ljconf.go:386-387 | a decimal beyond int64 gives `Int` its default but gives `IntList` the largest int64 |
| LjConfProperties.BoolOfStringOfBool | ljconf.go:209-211 | a boolean rendered by `String` is read back by `Bool` |
| LjConfProperties.BoolDefaults | ljconf.go:224-241 | a missing key and an unparsable string both give `Bool`'s default |
| ConfFile.LastSlash | file.go:45 | the last `/` of the path, with none after it, or -1 |
| ConfFile.Dir | file.go:45 | the directory of the loaded file: the text before the last `/`, `/` for a top-level file, `.` for a bare name |
| ConfFile.JoinPath | file.go:67 | the included path is the directory, one `/`, then the name as written |
| ConfFile.Included | file.go:67-68 | an include loads exactly when the oracle knows its joined path, and gives that path's tree |
| ConfFile.ResolveValue | file.go:95-100 | processing keeps the kind of every value and the length of an array, and leaves scalars as they are |
| ConfFile.ResolveList | file.go:50-59 | processing an array keeps its length and leaves its scalars as they are |
| ConfFile.Base | file.go:61-102 | processing the entries keeps the key set, and leaves a string or array directive untouched for the directive step |
| ConfFile.MergePaths | file.go:78-88 | merging included trees never loses a key; an array with no string path changes nothing |
| ConfFile.Directive | file.go:63-92 | an array directive is always deleted; a single path that fails changes nothing; no other key is lost |
| ConfFile.ResolveEntries | file.go:61-102 | no key other than the directive is lost; without a string or array directive the key set is unchanged |
| ConfFile.MergeInto | file.go:70-72 | the merge loop writes every entry of the included tree over the map: the result is `db + sub` |
| ConfFile.IncludePaths | file.go:78-88 | the array branch merges, in order, the tree of every string path that loads and skips every other element |
| ConfFile.IncludeDirective | file.go:63-92 | the directive branch: a string path merges its tree and deletes the directive only on success; an array deletes it always |
| ConfFile.ProcessValue | file.go:95-100 | the type switch recurses into objects and arrays and leaves every other value as it is |
| ConfFile.LoadArrayInclude | file.go:50-59 | every element is processed in order, in place |
| ConfFile.LoadInclude | file.go:61-102 | the pass over the keys computes `ResolveEntries`: every non-directive entry processed, then the directive carried out |
| ConfFile.LoadFromFile | file.go:15-48 | stat failure gives no handle; open failure gives an empty tree, without error if the file does not exist; decode failure gives the partial tree unresolved; success gives the tree with includes resolved against `Dir(path)` |
| ConfFileProperties.StringIncludeMerged | file.go:67-75 | a single path that loads: every key of the included tree overrides, other keys keep their processed values, and the directive is gone |
| ConfFileProperties.StringIncludeFailed | file.go:67-76 | a single path that fails: no key is gained and the directive stays with its path |
| ConfFileProperties.ArrayIncludeDropsDirective | file.go:77-91 | an array directive is deleted whether or not anything loaded, and no other key is lost |
| ConfFileProperties.OtherDirectiveKept | file.go:62-100 | any other value under `#include#` is an ordinary entry: kept, and resolved if it is an object |
| ConfFileProperties.MergePathsKeys | file.go:78-88 | a key is in the merge exactly when it was there before or some loaded file in the array has it |
| ConfFileProperties.MergePathsLastWins | file.go:78-88 | for a colliding key the last file in the array that loads and has it wins |
| ConfFileProperties.MergePathsUnprovided | file.go:78-88 | a key no loaded file has keeps its value |
| ConfFileProperties.ArrayShape | file.go:50-59 | processing an array keeps its length, order, element kinds and the length of nested arrays; scalars are untouched |
| ConfFileProperties.ResolveWithoutDirectives | file.go:61-102 | resolving a tree that holds no `#include#` anywhere changes nothing |
| ConfFileProperties.EntriesWithoutDirectives | file.go:61-102 | the same for an object and its entries |
| ConfFileProperties.MergePathsClean | file.go:78-88 | merging trees without directives adds no directive below the top level |
| ConfFileProperties.NoDirectiveSurvives | file.go:61-102 | when every `#include#` is an array or a single path that loads, and the included trees hold none, the resolved tree holds none |
| ConfFileProperties.NoDirectiveSurvivesMap | file.go:61-102 | the same for an object |
| ConfFileProperties.DirOfJoin | file.go:67 | a file included by name from a directory has that directory as its own, so its includes are resolved from there |
| ConfFileProperties.IncludeExample | file.go:61-76 | `{"x": 1, "#include#": "child.json"}` next to `child.json` holding `{"x": 2, "y": 3}` resolves to `{"x": 2, "y": 3}` |

## Left out

- `Conf.Watch` and `watchZk` (ljconf.go:57-119) are left out. They work with timers, channels, polling and ZooKeeper.
- zk.go, loader.go and option.go are not part of this model. They hold the ZooKeeper client and the global backend choice.
- `findPath` (file.go:104-128) is not modelled. It depends on the filesystem, `os.Args` and the user's home directory. `LoadFromFile` takes the path as already found.
- `LoadFromFile` does not model reading or decoding. `FileState` gives the outcome of `os.Stat`, opening and the loose-JSON decoder (with `newRcReader`), including the partial tree a failed decode leaves.
- `LoadFromFile` for an included file: the oracle `Files` stands for the nested call. The oracle is not tied back to a `FileState` per path. Include cycles, on which the Go code recurses without end, therefore do not arise in the model.
- `JoinPath` and `Dir` do not model `filepath.Clean`. The model does not remove `..`, repeated or trailing slashes, and leaves a doubled `/` in front of an include path that starts with `/`.
- `LoadInclude` visits keys in one fixed order: every key other than the directive, then the directive. Go's map iteration order is random.
  - The model also never visits keys that the merge adds during the pass. Go may visit them, and would then process trees that are already resolved once more.
  - The model does not cover how a different order could change the result when a merged tree still holds a directive that failed.
- The model does not capture in-place update and sharing. `loadInclude`, `loadArrayInclude` and `Section` work on shared Go maps. The model works on values: a section gets a copy of the sub-map, and resolution returns new trees.
- `Float`, `Duration`, `Time`, `Decode`, `Path`, `Content` and `ConfPath` are left out. They cover float and duration parsing, `time` parsing, JSON re-encoding and a foreign path type.
- `FloatToInt`: numbers are `real`, so IEEE rounding is not modelled, and neither is the `int64` overflow of the conversion. One example is `0.49999999999999994 + 0.5`, which rounds up to 1 in float64.
- `GoFmt.Sprint`: float64 and map rendering are supplied by a `Printer` and are not modelled. These are Go's shortest-representation formatting and its sorted `map[k:v]` output.
- `GoStrconv.ParseInt`: values are proved only for decimal strings with an optional sign. The `0b`, `0o`, `0x` and leading-`0` prefixes and the underscores are modelled, but no lemma states the value they parse to; `IndexesParsed` states how such pieces index once parsed.
- `GoStrconv.ParseInt`: strings are sequences of characters, while Go parses bytes. Both reject every non-ASCII character, so the difference only matters for the error text, which is not modelled.
- `LjConf.IntOf` and `LjConf.ElementInt`: `int(i)` is taken at 64 bits, so the model does not cover 32-bit platforms.
