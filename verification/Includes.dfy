/**
Recursive loading of configuration files with includes.  Every file may be loaded once; what an
included file defines is merged into the file that includes it.
*/
module Includes {
  import opened Wrappers
  import opened Sequences

  /** Canonical paths; includes are listed as the globs expand. */
  type Path = nat
  type Key = string

  datatype Value = Array(items: seq<int>) | Hash(fields: map<int, int>) | Scalar(scalar: int)

  type Fields = map<Key, Value>

  /** A readable file, with its `include` entry taken out of the hash; or one that is not a hash. */
  datatype File = HashFile(fields: Fields, includes: seq<Path>) | OtherFile(scalar: int) | Unreadable

  type Files = map<Path, File>

  datatype Yaml = HashYaml(fields: Fields) | OtherYaml(scalar: int)

  // ---------------------------------------------------------------------------------------------
  // Merging

  function MergeValue(old': Value, new': Value): Value {
    match (old', new')
    case (Array(a), Array(b)) => Array(a + b)
    case (Hash(a), Hash(b)) => Hash(a + b)
    case (_, _) => new'
  }

  function Merge(into: Fields, from: Fields): Fields {
    map k | k in into.Keys + from.Keys ::
      if k !in from then into[k] else if k in into then MergeValue(into[k], from[k]) else from[k]
  }

  /** The loop over the entries of the included hash, in any order. */
  method MergeInto(into: Fields, from: Fields) returns (merged: Fields)
    ensures merged == Merge(into, from)
  {
    merged := into;
    var keys := from.Keys;
    while keys != {}
      invariant keys <= from.Keys
      invariant merged.Keys == into.Keys + (from.Keys - keys)
      invariant forall k :: k in merged ==> merged[k] == if k in from && k !in keys then Merge(into, from)[k] else into[k]
      decreases keys
    {
      var k :| k in keys;
      keys := keys - {k};
      var value := from[k];
      if k in merged {
        match (merged[k], from[k]) {
          case (Array(a), Array(b)) => value := Array(a + b);
          case (Hash(a), Hash(b)) => value := Hash(a + b);
          case _ =>
        }
      }
      merged := merged[k := value];
    }
  }

  // ---------------------------------------------------------------------------------------------
  // Loading

  datatype Loaded = Loaded(yaml: Yaml, paths: set<Path>)

  function Load(fs: Files, path: Path, loaded: set<Path>): (r: Option<Loaded>)
    ensures r.Some? ==> loaded <= r.value.paths
    decreases fs.Keys - loaded, 0, 0
  {
    if path in loaded then None
    else if path !in fs then None
    else
      match fs[path]
      case Unreadable => None
      case OtherFile(x) => Some(Loaded(OtherYaml(x), loaded + {path}))
      case HashFile(fields, includes) => LoadList(fs, includes, fields, loaded + {path})
  }

  /** Merges the included files, in order, into what is there. */
  function LoadList(fs: Files, files: seq<Path>, fields: Fields, loaded: set<Path>): (r: Option<Loaded>)
    ensures r.Some? ==> loaded <= r.value.paths && r.value.yaml.HashYaml?
    decreases fs.Keys - loaded, 1, |files|
  {
    if files == [] then Some(Loaded(HashYaml(fields), loaded))
    else
      var first := Load(fs, files[0], loaded);
      if first.None? then None
      else LoadList(fs, files[1..], MergeYaml(fields, first.value.yaml), first.value.paths)
  }

  function MergeYaml(fields: Fields, yaml: Yaml): Fields {
    if yaml.HashYaml? then Merge(fields, yaml.fields) else fields
  }

  method LoadConfigInner(fs: Files, path: Path, loaded: set<Path>) returns (r: Option<Loaded>)
    ensures r == Load(fs, path, loaded)
    decreases fs.Keys - loaded
  {
    if path in loaded {
      return None;
    }
    var paths := loaded + {path};
    if path !in fs || fs[path].Unreadable? {
      return None;
    }
    if fs[path].OtherFile? {
      return Some(Loaded(OtherYaml(fs[path].scalar), paths));
    }
    var fields, includes := fs[path].fields, fs[path].includes;
    for i := 0 to |includes|
      invariant loaded + {path} <= paths
      invariant LoadList(fs, includes[i..], fields, paths) == Load(fs, path, loaded)
    {
      var one := LoadConfigInner(fs, includes[i], paths);
      assert includes[i..][0] == includes[i] && includes[i..][1..] == includes[i + 1..];
      if one.None? {
        return None;
      }
      paths := one.value.paths;
      if one.value.yaml.HashYaml? {
        fields := MergeInto(fields, one.value.yaml.fields);
      }
    }
    return Some(Loaded(HashYaml(fields), paths));
  }

  // ---------------------------------------------------------------------------------------------
  // The include graph, unfolded depth first

  ghost predicate Readable(fs: Files, path: Path) {
    path in fs && !fs[path].Unreadable?
  }

  ghost function IncludesOf(fs: Files, path: Path): seq<Path> {
    if path in fs && fs[path].HashFile? then fs[path].includes else []
  }

  /** Every file met from `path` on, in depth-first preorder, as often as it is met, down to a depth. */
  ghost function Unfold(fs: Files, path: Path, depth: nat): seq<Path>
    decreases depth, 0, 0
  {
    if depth == 0 then [] else [path] + UnfoldList(fs, IncludesOf(fs, path), depth - 1)
  }

  ghost function UnfoldList(fs: Files, files: seq<Path>, depth: nat): seq<Path>
    decreases depth, 1, |files|
  {
    if files == [] then [] else Unfold(fs, files[0], depth) + UnfoldList(fs, files[1..], depth)
  }

  ghost function SetOf(ps: seq<Path>): set<Path> {
    if ps == [] then {} else {ps[0]} + SetOf(ps[1..])
  }

  /** These files can be loaded one by one after `loaded`: each is readable and not loaded before. */
  ghost predicate Loadable(fs: Files, ps: seq<Path>, loaded: set<Path>)
    decreases |ps|
  {
    if ps == [] then true
    else Readable(fs, ps[0]) && ps[0] !in loaded && Loadable(fs, ps[1..], loaded + {ps[0]})
  }

  lemma {:induction false} LoadableConcat(fs: Files, a: seq<Path>, b: seq<Path>, loaded: set<Path>)
    ensures Loadable(fs, a + b, loaded) <==> Loadable(fs, a, loaded) && Loadable(fs, b, loaded + SetOf(a))
    ensures SetOf(a + b) == SetOf(a) + SetOf(b)
    decreases |a|
  {
    if a == [] {
      assert a + b == b && loaded + {} == loaded;
    } else {
      assert (a + b)[1..] == a[1..] + b;
      LoadableConcat(fs, a[1..], b, loaded + {a[0]});
      assert loaded + {a[0]} + SetOf(a[1..]) == loaded + SetOf(a);
    }
  }

  /** In other words: all readable, no two the same, none loaded before. */
  lemma {:induction false} LoadableMeans(fs: Files, ps: seq<Path>, loaded: set<Path>)
    ensures Loadable(fs, ps, loaded)
            <==> Distinct(ps) && forall i :: 0 <= i < |ps| ==> Readable(fs, ps[i]) && ps[i] !in loaded
    decreases |ps|
  {
    if ps != [] {
      LoadableMeans(fs, ps[1..], loaded + {ps[0]});
      assert ps == [ps[0]] + ps[1..];
      if Loadable(fs, ps, loaded) {
        forall i, j | 0 <= i < j < |ps| ensures ps[i] != ps[j] {
          assert ps[j] == ps[1..][j - 1];
          assert i > 0 ==> ps[i] == ps[1..][i - 1];
        }
        forall i | 0 <= i < |ps| ensures Readable(fs, ps[i]) && ps[i] !in loaded {
          assert i > 0 ==> ps[i] == ps[1..][i - 1];
        }
      }
    }
  }

  lemma {:induction false} RoomShrinks(fs: Files, path: Path, loaded: set<Path>)
    requires path in fs && path !in loaded
    ensures |fs.Keys - (loaded + {path})| == |fs.Keys - loaded| - 1
  {
    assert fs.Keys - loaded == (fs.Keys - (loaded + {path})) + {path};
  }

  lemma {:induction false} RoomMonotone(fs: Files, loaded: set<Path>, more: set<Path>)
    requires loaded <= more
    ensures |fs.Keys - more| <= |fs.Keys - loaded|
  {
    assert fs.Keys - loaded == (fs.Keys - more) + ((fs.Keys - loaded) * more);
  }

  /** A successful load has loaded exactly the unfolded files, each of them once. */
  lemma {:induction false} LoadVisits(fs: Files, path: Path, loaded: set<Path>, depth: nat)
    requires Load(fs, path, loaded).Some? && depth >= |fs.Keys - loaded|
    ensures Loadable(fs, Unfold(fs, path, depth), loaded)
    ensures Load(fs, path, loaded).value.paths == loaded + SetOf(Unfold(fs, path, depth))
    decreases depth, 0, 0
  {
    RoomShrinks(fs, path, loaded);
    var rest := UnfoldList(fs, IncludesOf(fs, path), depth - 1);
    if fs[path].HashFile? {
      LoadListVisits(fs, fs[path].includes, fs[path].fields, loaded + {path}, depth - 1);
    } else {
      assert rest == [] && loaded + {path} + SetOf([]) == loaded + {path};
    }
    ConsVisits(fs, path, rest, loaded);
  }

  lemma {:induction false} ConsVisits(fs: Files, path: Path, rest: seq<Path>, loaded: set<Path>)
    requires Readable(fs, path) && path !in loaded && Loadable(fs, rest, loaded + {path})
    ensures Loadable(fs, [path] + rest, loaded)
    ensures loaded + {path} + SetOf(rest) == loaded + SetOf([path] + rest)
  {
    assert ([path] + rest)[1..] == rest;
    UnionAssoc(loaded, {path}, SetOf(rest));
  }

  lemma UnionAssoc(a: set<Path>, b: set<Path>, c: set<Path>)
    ensures a + b + c == a + (b + c)
  {
  }

  lemma {:induction false} LoadListVisits(fs: Files, files: seq<Path>, fields: Fields, loaded: set<Path>, depth: nat)
    requires LoadList(fs, files, fields, loaded).Some? && depth >= |fs.Keys - loaded|
    ensures Loadable(fs, UnfoldList(fs, files, depth), loaded)
    ensures LoadList(fs, files, fields, loaded).value.paths == loaded + SetOf(UnfoldList(fs, files, depth))
    decreases depth, 1, |files|
  {
    if files != [] {
      var first := Load(fs, files[0], loaded).value;
      LoadVisits(fs, files[0], loaded, depth);
      RoomMonotone(fs, loaded, first.paths);
      LoadListVisits(fs, files[1..], MergeYaml(fields, first.yaml), first.paths, depth);
      ConcatVisits(fs, Unfold(fs, files[0], depth), UnfoldList(fs, files[1..], depth), loaded);
    }
  }

  lemma {:induction false} ConcatVisits(fs: Files, a: seq<Path>, b: seq<Path>, loaded: set<Path>)
    requires Loadable(fs, a, loaded) && Loadable(fs, b, loaded + SetOf(a))
    ensures Loadable(fs, a + b, loaded)
    ensures loaded + SetOf(a) + SetOf(b) == loaded + SetOf(a + b)
  {
    LoadableConcat(fs, a, b, loaded);
    UnionAssoc(loaded, SetOf(a), SetOf(b));
  }

  /** Files that can be loaded are loaded. */
  lemma {:induction false} LoadSucceeds(fs: Files, path: Path, loaded: set<Path>, depth: nat)
    requires Loadable(fs, Unfold(fs, path, depth), loaded) && depth > |fs.Keys - loaded|
    ensures Load(fs, path, loaded).Some?
    decreases depth, 0, 0
  {
    var rest := UnfoldList(fs, IncludesOf(fs, path), depth - 1);
    assert Unfold(fs, path, depth) == [path] + rest && ([path] + rest)[1..] == rest;
    RoomShrinks(fs, path, loaded);
    if fs[path].HashFile? {
      LoadListSucceeds(fs, fs[path].includes, fs[path].fields, loaded + {path}, depth - 1);
    }
  }

  lemma {:induction false} LoadListSucceeds(fs: Files, files: seq<Path>, fields: Fields, loaded: set<Path>, depth: nat)
    requires Loadable(fs, UnfoldList(fs, files, depth), loaded) && depth > |fs.Keys - loaded|
    ensures LoadList(fs, files, fields, loaded).Some?
    decreases depth, 1, |files|
  {
    if files != [] {
      LoadableConcat(fs, Unfold(fs, files[0], depth), UnfoldList(fs, files[1..], depth), loaded);
      LoadSucceeds(fs, files[0], loaded, depth);
      LoadVisits(fs, files[0], loaded, depth);
      var first := Load(fs, files[0], loaded).value;
      RoomMonotone(fs, loaded, first.paths);
      LoadListSucceeds(fs, files[1..], MergeYaml(fields, first.yaml), first.paths, depth);
    }
  }

  /** Loading succeeds exactly when the unfolded files are readable and no two are the same. */
  lemma {:induction false} LoadUnfoldsIff(fs: Files, path: Path)
    ensures var met := Unfold(fs, path, |fs.Keys| + 1);
            Load(fs, path, {}).Some? <==> Distinct(met) && forall i :: 0 <= i < |met| ==> Readable(fs, met[i])
  {
    assert fs.Keys - {} == fs.Keys;
    LoadableMeans(fs, Unfold(fs, path, |fs.Keys| + 1), {});
    if Load(fs, path, {}).Some? {
      LoadVisits(fs, path, {}, |fs.Keys| + 1);
    } else if Loadable(fs, Unfold(fs, path, |fs.Keys| + 1), {}) {
      LoadSucceeds(fs, path, {}, |fs.Keys| + 1);
    }
  }

  // ---------------------------------------------------------------------------------------------
  // The same without a depth: the ways to a file

  /** At each step, which entry of the include list is followed. */
  type Way = seq<nat>

  /** The file that a way from `path` leads to. */
  ghost function Follow(fs: Files, path: Path, way: Way): Option<Path>
    decreases |way|, 1
  {
    if way == [] then Some(path) else FollowList(fs, IncludesOf(fs, path), way)
  }

  ghost function FollowList(fs: Files, files: seq<Path>, way: Way): Option<Path>
    requires way != []
    decreases |way|, 0
  {
    if way[0] < |files| then Follow(fs, files[way[0]], way[1..]) else None
  }

  /** `p` is reached by fewer than `depth` steps. */
  ghost predicate Reached(fs: Files, path: Path, depth: nat, p: Path) {
    exists way: Way :: |way| < depth && Follow(fs, path, way) == Some(p)
  }

  ghost predicate ReachedList(fs: Files, files: seq<Path>, depth: nat, p: Path) {
    exists way: Way :: 0 < |way| <= depth && FollowList(fs, files, way) == Some(p)
  }

  /** Both ways, of fewer than `depth` steps, lead to the same file. */
  ghost predicate Meet(fs: Files, path: Path, depth: nat, a: Way, b: Way) {
    |a| < depth && |b| < depth && Follow(fs, path, a).Some? && Follow(fs, path, a) == Follow(fs, path, b)
  }

  ghost predicate MeetList(fs: Files, files: seq<Path>, depth: nat, a: Way, b: Way) {
    0 < |a| <= depth && 0 < |b| <= depth && FollowList(fs, files, a).Some? && FollowList(fs, files, a) == FollowList(fs, files, b)
  }

  ghost predicate Once(fs: Files, path: Path, depth: nat) {
    forall a: Way, b: Way :: Meet(fs, path, depth, a, b) ==> a == b
  }

  ghost predicate OnceList(fs: Files, files: seq<Path>, depth: nat) {
    forall a: Way, b: Way :: MeetList(fs, files, depth, a, b) ==> a == b
  }

  lemma FollowFirst(fs: Files, files: seq<Path>, way: Way)
    requires files != []
    ensures FollowList(fs, files, [0] + way) == Follow(fs, files[0], way)
  {
    assert ([0] + way)[1..] == way;
  }

  lemma FollowLater(fs: Files, files: seq<Path>, way: Way)
    requires files != [] && way != []
    ensures FollowList(fs, files, [way[0] + 1] + way[1..]) == FollowList(fs, files[1..], way)
  {
    assert ([way[0] + 1] + way[1..])[1..] == way[1..];
  }

  /** A way into a list starts at its first file or at a later one. */
  lemma WayForms(fs: Files, files: seq<Path>, way: Way)
    requires files != [] && way != []
    ensures way[0] == 0 ==> way == [0] + way[1..] && FollowList(fs, files, way) == Follow(fs, files[0], way[1..])
    ensures way[0] > 0 ==> var later := [way[0] - 1] + way[1..];
                           && way == [later[0] + 1] + later[1..]
                           && FollowList(fs, files, way) == FollowList(fs, files[1..], later)
  {
    if way[0] > 0 {
      FollowLater(fs, files, [way[0] - 1] + way[1..]);
    }
  }

  lemma {:induction false} ReachedListCons(fs: Files, files: seq<Path>, depth: nat, p: Path)
    requires files != []
    ensures ReachedList(fs, files, depth, p) <==> Reached(fs, files[0], depth, p) || ReachedList(fs, files[1..], depth, p)
  {
    if way: Way :| 0 < |way| <= depth && FollowList(fs, files, way) == Some(p) {
      WayForms(fs, files, way);
      if way[0] == 0 {
        assert |way[1..]| < depth;
      } else {
        assert 0 < |[way[0] - 1] + way[1..]| <= depth;
      }
    }
    if way: Way :| |way| < depth && Follow(fs, files[0], way) == Some(p) {
      FollowFirst(fs, files, way);
      assert 0 < |[0] + way| <= depth;
    }
    if way: Way :| 0 < |way| <= depth && FollowList(fs, files[1..], way) == Some(p) {
      FollowLater(fs, files, way);
      assert 0 < |[way[0] + 1] + way[1..]| <= depth;
    }
  }

  lemma ReachedCons(fs: Files, path: Path, depth: nat, p: Path)
    requires depth > 0
    ensures Reached(fs, path, depth, p) <==> p == path || ReachedList(fs, IncludesOf(fs, path), depth - 1, p)
  {
    assert Follow(fs, path, []) == Some(path);
    if way: Way :| 0 < |way| <= depth - 1 && FollowList(fs, IncludesOf(fs, path), way) == Some(p) {
      assert Follow(fs, path, way) == Some(p);
    }
  }

  lemma {:induction false} UnfoldReached(fs: Files, path: Path, depth: nat, p: Path)
    ensures p in Unfold(fs, path, depth) <==> Reached(fs, path, depth, p)
    decreases depth, 0, 0
  {
    if depth > 0 {
      UnfoldListReached(fs, IncludesOf(fs, path), depth - 1, p);
      ReachedCons(fs, path, depth, p);
    }
  }

  lemma {:induction false} UnfoldListReached(fs: Files, files: seq<Path>, depth: nat, p: Path)
    ensures p in UnfoldList(fs, files, depth) <==> ReachedList(fs, files, depth, p)
    decreases depth, 1, |files|
  {
    if files != [] {
      UnfoldReached(fs, files[0], depth, p);
      UnfoldListReached(fs, files[1..], depth, p);
      ReachedListCons(fs, files, depth, p);
    }
  }

  ghost predicate Unrepeated(ps: seq<Path>) {
    ps == [] || (ps[0] !in ps[1..] && Unrepeated(ps[1..]))
  }

  ghost predicate Apart(a: seq<Path>, b: seq<Path>) {
    forall p :: p in a ==> p !in b
  }

  lemma {:induction false} UnrepeatedConcat(a: seq<Path>, b: seq<Path>)
    ensures Unrepeated(a + b) <==> Unrepeated(a) && Unrepeated(b) && Apart(a, b)
  {
    if a == [] {
      assert a + b == b;
    } else {
      assert (a + b)[1..] == a[1..] + b;
      UnrepeatedConcat(a[1..], b);
      assert a == [a[0]] + a[1..];
    }
  }

  lemma {:induction false} UnrepeatedMeans(ps: seq<Path>)
    ensures Unrepeated(ps) <==> Distinct(ps)
  {
    if ps != [] {
      UnrepeatedMeans(ps[1..]);
      DistinctFirst(ps[0], ps[1..]);
      assert ps == [ps[0]] + ps[1..];
    }
  }

  lemma DistinctFirst(p: Path, rest: seq<Path>)
    ensures Distinct([p] + rest) <==> Distinct(rest) && p !in rest
  {
    var all := [p] + rest;
    assert all[1..] == rest;
    assert p in rest ==> exists i :: 0 < i < |all| && all[i] == all[0];
  }

  lemma {:induction false} OnceCons(fs: Files, path: Path, depth: nat)
    requires depth > 0
    ensures Once(fs, path, depth)
            <==> OnceList(fs, IncludesOf(fs, path), depth - 1) && !ReachedList(fs, IncludesOf(fs, path), depth - 1, path)
  {
    var files, less := IncludesOf(fs, path), depth - 1;
    if Once(fs, path, depth) {
      forall a: Way, b: Way | MeetList(fs, files, less, a, b) ensures a == b {
        assert Meet(fs, path, depth, a, b);
      }
      if way: Way :| 0 < |way| <= depth - 1 && FollowList(fs, files, way) == Some(path) {
        assert Meet(fs, path, depth, way, []);
      }
    } else {
      var a: Way, b: Way :| Meet(fs, path, depth, a, b) && a != b;
      if a != [] && b != [] {
        assert MeetList(fs, files, depth - 1, a, b);
      }
    }
  }

  lemma Crossing(fs: Files, files: seq<Path>, depth: nat, a: Way, b: Way)
    requires files != [] && MeetList(fs, files, depth, a, b) && a[0] == 0 && b[0] > 0
    ensures exists p: Path :: Reached(fs, files[0], depth, p) && ReachedList(fs, files[1..], depth, p)
  {
    WayForms(fs, files, a);
    WayForms(fs, files, b);
    var p := FollowList(fs, files, a).value;
    assert |a[1..]| < depth && Reached(fs, files[0], depth, p);
    assert 0 < |[b[0] - 1] + b[1..]| <= depth && ReachedList(fs, files[1..], depth, p);
  }

  lemma {:induction false} OnceListCons(fs: Files, files: seq<Path>, depth: nat)
    requires files != []
    requires Once(fs, files[0], depth) && OnceList(fs, files[1..], depth)
    requires forall p: Path :: !(Reached(fs, files[0], depth, p) && ReachedList(fs, files[1..], depth, p))
    ensures OnceList(fs, files, depth)
  {
    forall a: Way, b: Way | MeetList(fs, files, depth, a, b) ensures a == b {
      WayForms(fs, files, a);
      WayForms(fs, files, b);
      if a[0] == 0 && b[0] == 0 {
        assert Meet(fs, files[0], depth, a[1..], b[1..]);
      } else if a[0] > 0 && b[0] > 0 {
        assert MeetList(fs, files[1..], depth, [a[0] - 1] + a[1..], [b[0] - 1] + b[1..]);
      } else if a[0] == 0 {
        Crossing(fs, files, depth, a, b);
      } else {
        Crossing(fs, files, depth, b, a);
      }
    }
  }

  lemma {:induction false} OnceListFirst(fs: Files, files: seq<Path>, depth: nat)
    requires files != [] && OnceList(fs, files, depth)
    ensures Once(fs, files[0], depth)
  {
    forall a: Way, b: Way | Meet(fs, files[0], depth, a, b) ensures a == b {
      FollowFirst(fs, files, a);
      FollowFirst(fs, files, b);
      assert MeetList(fs, files, depth, [0] + a, [0] + b);
      assert ([0] + a)[1..] == a && ([0] + b)[1..] == b;
    }
  }

  lemma {:induction false} OnceListRest(fs: Files, files: seq<Path>, depth: nat)
    requires files != [] && OnceList(fs, files, depth)
    ensures OnceList(fs, files[1..], depth)
  {
    forall a: Way, b: Way | MeetList(fs, files[1..], depth, a, b) ensures a == b {
      FollowLater(fs, files, a);
      FollowLater(fs, files, b);
      SameLater(a, b);
      assert MeetList(fs, files, depth, [a[0] + 1] + a[1..], [b[0] + 1] + b[1..]);
    }
  }

  lemma SameLater(a: Way, b: Way)
    requires a != [] && b != []
    ensures [a[0] + 1] + a[1..] == [b[0] + 1] + b[1..] ==> a == b
    ensures |[a[0] + 1] + a[1..]| == |a| && |[b[0] + 1] + b[1..]| == |b|
  {
    var a', b' := [a[0] + 1] + a[1..], [b[0] + 1] + b[1..];
    assert a'[0] == a[0] + 1 && b'[0] == b[0] + 1;
    assert a'[1..] == a[1..] && b'[1..] == b[1..];
    assert a == [a[0]] + a[1..] && b == [b[0]] + b[1..];
  }

  lemma TwoWays(fs: Files, files: seq<Path>, depth: nat, p: Path)
    requires files != [] && Reached(fs, files[0], depth, p) && ReachedList(fs, files[1..], depth, p)
    ensures !OnceList(fs, files, depth)
  {
    var a: Way :| |a| < depth && Follow(fs, files[0], a) == Some(p);
    var b: Way :| 0 < |b| <= depth && FollowList(fs, files[1..], b) == Some(p);
    FollowFirst(fs, files, a);
    FollowLater(fs, files, b);
    var first, later := [0] + a, [b[0] + 1] + b[1..];
    assert MeetList(fs, files, depth, first, later) && first[0] != later[0];
  }

  /** How the unfolding `all` of a file follows from the unfolding `rest` of its includes. */
  lemma OnceFrom(fs: Files, path: Path, depth: nat, all: seq<Path>, rest: seq<Path>)
    requires depth > 0 && all == [path] + rest
    requires Unrepeated(rest) <==> OnceList(fs, IncludesOf(fs, path), depth - 1)
    requires path in rest <==> ReachedList(fs, IncludesOf(fs, path), depth - 1, path)
    ensures Unrepeated(all) <==> Once(fs, path, depth)
  {
    OnceCons(fs, path, depth);
    assert all[1..] == rest;
  }

  lemma {:induction false} UnfoldOnce(fs: Files, path: Path, depth: nat)
    ensures Unrepeated(Unfold(fs, path, depth)) <==> Once(fs, path, depth)
    decreases depth, 0, 1
  {
    if depth > 0 { UnfoldOnceDeeper(fs, path, depth); }
  }

  lemma {:induction false} UnfoldOnceDeeper(fs: Files, path: Path, depth: nat)
    requires depth > 0
    ensures Unrepeated(Unfold(fs, path, depth)) <==> Once(fs, path, depth)
    decreases depth, 0, 0
  {
    var files := IncludesOf(fs, path);
    UnfoldListOnce(fs, files, depth - 1);
    UnfoldListReached(fs, files, depth - 1, path);
    OnceFrom(fs, path, depth, Unfold(fs, path, depth), UnfoldList(fs, files, depth - 1));
  }

  lemma {:induction false} UnfoldListOnce(fs: Files, files: seq<Path>, depth: nat)
    ensures Unrepeated(UnfoldList(fs, files, depth)) <==> OnceList(fs, files, depth)
    decreases depth, 1, |files|
  {
    if files != [] {
      UnfoldOnce(fs, files[0], depth);
      UnfoldListOnce(fs, files[1..], depth);
      UnrepeatedConcat(Unfold(fs, files[0], depth), UnfoldList(fs, files[1..], depth));
      forall p: Path
        ensures p in Unfold(fs, files[0], depth) <==> Reached(fs, files[0], depth, p)
        ensures p in UnfoldList(fs, files[1..], depth) <==> ReachedList(fs, files[1..], depth, p)
      {
        UnfoldReached(fs, files[0], depth, p);
        UnfoldListReached(fs, files[1..], depth, p);
      }
      if OnceList(fs, files, depth) {
        OnceListFirst(fs, files, depth);
        OnceListRest(fs, files, depth);
        forall p: Path ensures !(Reached(fs, files[0], depth, p) && ReachedList(fs, files[1..], depth, p)) {
          if Reached(fs, files[0], depth, p) && ReachedList(fs, files[1..], depth, p) {
            TwoWays(fs, files, depth, p);
          }
        }
      } else if Unrepeated(UnfoldList(fs, files, depth)) {
        OnceListCons(fs, files, depth);
      }
    }
  }

  /**
  Loading ends on every file graph, cyclic or not, and succeeds exactly when every way along the
  includes leads to a readable file and no two ways lead to the same file.
  */
  lemma {:induction false} LoadSucceedsIff(fs: Files, path: Path)
    ensures Load(fs, path, {}).Some? <==> WaysAreReadable(fs, path) && WaysAreUnique(fs, path)
  {
    var n := |fs.Keys| + 1;
    if Load(fs, path, {}).Some? {
      forall way: Way, p: Path | Follow(fs, path, way) == Some(p) ensures Readable(fs, p) {
        LoadedUnfolding(fs, path, |way| + n);
        UnfoldReached(fs, path, |way| + n, p);
      }
      forall a: Way, b: Way | Follow(fs, path, a).Some? && Follow(fs, path, a) == Follow(fs, path, b) ensures a == b {
        LoadedUnfolding(fs, path, |a| + |b| + n);
        UnrepeatedMeans(Unfold(fs, path, |a| + |b| + n));
        UnfoldOnce(fs, path, |a| + |b| + n);
        assert Meet(fs, path, |a| + |b| + n, a, b);
      }
    } else if WaysAreReadable(fs, path) && WaysAreUnique(fs, path) {
      UnrepeatedMeans(Unfold(fs, path, n));
      UnfoldOnce(fs, path, n);
      assert Once(fs, path, n);
      UnfoldReadable(fs, path, n);
      LoadUnfoldsIff(fs, path);
    }
  }

  ghost predicate WaysAreReadable(fs: Files, path: Path) {
    forall way: Way, p: Path :: Follow(fs, path, way) == Some(p) ==> Readable(fs, p)
  }

  ghost predicate WaysAreUnique(fs: Files, path: Path) {
    forall a: Way, b: Way :: Follow(fs, path, a).Some? && Follow(fs, path, a) == Follow(fs, path, b) ==> a == b
  }

  lemma UnfoldReadable(fs: Files, path: Path, depth: nat)
    requires WaysAreReadable(fs, path)
    ensures forall i :: 0 <= i < |Unfold(fs, path, depth)| ==> Readable(fs, Unfold(fs, path, depth)[i])
  {
    var met := Unfold(fs, path, depth);
    forall i | 0 <= i < |met| ensures Readable(fs, met[i]) {
      UnfoldReached(fs, path, depth, met[i]);
    }
  }

  /** A successful load has a distinct and readable unfolding, however deep. */
  lemma LoadedUnfolding(fs: Files, path: Path, depth: nat)
    requires Load(fs, path, {}).Some? && depth > |fs.Keys|
    ensures Distinct(Unfold(fs, path, depth))
    ensures forall p: Path :: p in Unfold(fs, path, depth) ==> Readable(fs, p)
  {
    assert fs.Keys - {} == fs.Keys;
    LoadVisits(fs, path, {}, depth);
    LoadableMeans(fs, Unfold(fs, path, depth), {});
  }

  /** A successful load has loaded exactly the files that some way leads to, and the unfolding holds no others. */
  lemma {:induction false} LoadedAreReached(fs: Files, path: Path, p: Path)
    requires Load(fs, path, {}).Some?
    ensures p in Load(fs, path, {}).value.paths <==> exists way: Way :: Follow(fs, path, way) == Some(p)
    ensures p in Unfold(fs, path, |fs.Keys| + 1) <==> exists way: Way :: Follow(fs, path, way) == Some(p)
  {
    LoadedAtDepth(fs, path, p, |fs.Keys| + 1);
    UnfoldReached(fs, path, |fs.Keys| + 1, p);
    assert p in Unfold(fs, path, |fs.Keys| + 1) ==> exists way: Way :: Follow(fs, path, way) == Some(p);
    if way: Way :| Follow(fs, path, way) == Some(p) {
      var deep := |fs.Keys| + 1 + |way|;
      LoadedAtDepth(fs, path, p, deep);
      UnfoldReached(fs, path, deep, p);
    }
  }

  lemma {:induction false} LoadedAtDepth(fs: Files, path: Path, p: Path, depth: nat)
    requires Load(fs, path, {}).Some? && depth > |fs.Keys|
    ensures p in Load(fs, path, {}).value.paths <==> p in Unfold(fs, path, depth)
  {
    assert fs.Keys - {} == fs.Keys;
    LoadVisits(fs, path, {}, depth);
    SetOfMeans(Unfold(fs, path, depth), p);
  }

  lemma {:induction false} SetOfMeans(ps: seq<Path>, p: Path)
    ensures p in SetOf(ps) <==> p in ps
  {
    if ps != [] { SetOfMeans(ps[1..], p); }
  }

  // ---------------------------------------------------------------------------------------------
  // What a key ends up as

  ghost function Get(fields: Fields, k: Key): Option<Value> {
    if k in fields then Some(fields[k]) else None
  }

  ghost function MergeOption(a: Option<Value>, b: Option<Value>): Option<Value> {
    if b.None? then a else if a.None? then b else Some(MergeValue(a.value, b.value))
  }

  lemma MergeGet(into: Fields, from: Fields, k: Key)
    ensures Get(Merge(into, from), k) == MergeOption(Get(into, k), Get(from, k))
  {
  }

  datatype Kind = Arrays | Hashes | Scalars

  ghost predicate OfKind(v: Option<Value>, kind: Kind) {
    v.Some? ==> match kind case Arrays => v.value.Array? case Hashes => v.value.Hash? case Scalars => v.value.Scalar?
  }

  lemma MergeAssociative(a: Option<Value>, b: Option<Value>, c: Option<Value>, kind: Kind)
    requires OfKind(a, kind) && OfKind(b, kind) && OfKind(c, kind)
    ensures OfKind(MergeOption(a, b), kind)
    ensures MergeOption(MergeOption(a, b), c) == MergeOption(a, MergeOption(b, c))
  {
    if a.Some? && b.Some? && c.Some? {
      match kind
      case Arrays => assert a.value.items + b.value.items + c.value.items == a.value.items + (b.value.items + c.value.items);
      case Hashes => assert a.value.fields + b.value.fields + c.value.fields == a.value.fields + (b.value.fields + c.value.fields);
      case Scalars =>
    }
  }

  /** What a file itself says about a key. */
  ghost function Own(fs: Files, path: Path, k: Key): Option<Value> {
    if path in fs && fs[path].HashFile? then Get(fs[path].fields, k) else None
  }

  /** The key merged over a list of files, first to last. */
  ghost function FoldKey(fs: Files, ps: seq<Path>, k: Key): Option<Value> {
    if ps == [] then None else MergeOption(Own(fs, ps[0], k), FoldKey(fs, ps[1..], k))
  }

  /** The key has the same kind in every file that has it. */
  ghost predicate Uniform(fs: Files, k: Key, kind: Kind) {
    forall p :: OfKind(Own(fs, p, k), kind)
  }

  lemma {:induction false} FoldConcat(fs: Files, a: seq<Path>, b: seq<Path>, k: Key, kind: Kind)
    requires Uniform(fs, k, kind)
    ensures OfKind(FoldKey(fs, a, k), kind) && OfKind(FoldKey(fs, b, k), kind)
    ensures FoldKey(fs, a + b, k) == MergeOption(FoldKey(fs, a, k), FoldKey(fs, b, k))
    decreases |a|
  {
    FoldKind(fs, a, k, kind);
    FoldKind(fs, b, k, kind);
    if a == [] {
      assert a + b == b;
    } else {
      assert (a + b)[1..] == a[1..] + b;
      FoldConcat(fs, a[1..], b, k, kind);
      MergeAssociative(Own(fs, a[0], k), FoldKey(fs, a[1..], k), FoldKey(fs, b, k), kind);
    }
  }

  lemma {:induction false} FoldKind(fs: Files, ps: seq<Path>, k: Key, kind: Kind)
    requires Uniform(fs, k, kind)
    ensures OfKind(FoldKey(fs, ps, k), kind)
  {
    if ps != [] {
      FoldKind(fs, ps[1..], k, kind);
      MergeAssociative(Own(fs, ps[0], k), FoldKey(fs, ps[1..], k), None, kind);
    }
  }

  ghost function YamlGet(y: Yaml, k: Key): Option<Value> {
    if y.HashYaml? then Get(y.fields, k) else None
  }

  lemma {:induction false} LoadKey(fs: Files, path: Path, loaded: set<Path>, depth: nat, k: Key, kind: Kind)
    requires Load(fs, path, loaded).Some? && depth >= |fs.Keys - loaded| && Uniform(fs, k, kind)
    ensures YamlGet(Load(fs, path, loaded).value.yaml, k) == FoldKey(fs, Unfold(fs, path, depth), k)
    decreases depth, 0, 0
  {
    RoomShrinks(fs, path, loaded);
    var rest := UnfoldList(fs, IncludesOf(fs, path), depth - 1);
    assert Unfold(fs, path, depth) == [path] + rest && ([path] + rest)[1..] == rest;
    if fs[path].HashFile? {
      assert OfKind(Own(fs, path, k), kind);
      LoadListKey(fs, fs[path].includes, fs[path].fields, loaded + {path}, depth - 1, k, kind);
    }
  }

  lemma {:induction false} LoadListKey(fs: Files, files: seq<Path>, fields: Fields, loaded: set<Path>, depth: nat, k: Key, kind: Kind)
    requires LoadList(fs, files, fields, loaded).Some? && depth >= |fs.Keys - loaded|
    requires Uniform(fs, k, kind) && OfKind(Get(fields, k), kind)
    ensures YamlGet(LoadList(fs, files, fields, loaded).value.yaml, k)
         == MergeOption(Get(fields, k), FoldKey(fs, UnfoldList(fs, files, depth), k))
    decreases depth, 1, |files|
  {
    if files != [] {
      var first := Load(fs, files[0], loaded).value;
      var a, b := Unfold(fs, files[0], depth), UnfoldList(fs, files[1..], depth);
      LoadKey(fs, files[0], loaded, depth, k, kind);
      RoomMonotone(fs, loaded, first.paths);
      FoldConcat(fs, a, b, k, kind);
      MergeAssociative(Get(fields, k), FoldKey(fs, a, k), FoldKey(fs, b, k), kind);
      if first.yaml.HashYaml? { MergeGet(fields, first.yaml.fields, k); }
      LoadListKey(fs, files[1..], MergeYaml(fields, first.yaml), first.paths, depth, k, kind);
    }
  }

  /** The arrays under a key, one file after another. */
  ghost function ConcatArrays(fs: Files, ps: seq<Path>, k: Key): seq<int> {
    if ps == [] then []
    else
      var own := Own(fs, ps[0], k);
      (if own.Some? && own.value.Array? then own.value.items else []) + ConcatArrays(fs, ps[1..], k)
  }

  /** Some file has the key. */
  ghost predicate Present(fs: Files, ps: seq<Path>, k: Key) {
    exists i :: 0 <= i < |ps| && Own(fs, ps[i], k).Some?
  }

  lemma PresentCons(fs: Files, ps: seq<Path>, k: Key)
    requires ps != []
    ensures Present(fs, ps, k) <==> Own(fs, ps[0], k).Some? || Present(fs, ps[1..], k)
  {
    assert forall i :: 1 <= i < |ps| ==> ps[i] == ps[1..][i - 1];
    if Present(fs, ps[1..], k) {
      var i :| 0 <= i < |ps[1..]| && Own(fs, ps[1..][i], k).Some?;
      assert Own(fs, ps[i + 1], k).Some?;
    }
  }

  lemma {:induction false} FoldArrays(fs: Files, ps: seq<Path>, k: Key)
    requires Uniform(fs, k, Arrays)
    ensures FoldKey(fs, ps, k) == if Present(fs, ps, k) then Some(Array(ConcatArrays(fs, ps, k))) else None
    ensures !Present(fs, ps, k) ==> ConcatArrays(fs, ps, k) == []
  {
    if ps != [] {
      FoldArrays(fs, ps[1..], k);
      PresentCons(fs, ps, k);
      var own, rest := Own(fs, ps[0], k), ConcatArrays(fs, ps[1..], k);
      assert OfKind(own, Arrays);
      assert [] + rest == rest;
      if own.Some? && rest == [] {
        assert own.value.items + rest == own.value.items;
      }
    }
  }

  /** A key that is an array wherever it occurs ends up as the depth-first preorder concatenation of all its arrays. */
  lemma {:induction false} ArraysAreConcatenated(fs: Files, path: Path, k: Key)
    requires Load(fs, path, {}).Some? && Uniform(fs, k, Arrays)
    ensures var met := Unfold(fs, path, |fs.Keys| + 1);
            YamlGet(Load(fs, path, {}).value.yaml, k)
            == if Present(fs, met, k) then Some(Array(ConcatArrays(fs, met, k))) else None
  {
    assert fs.Keys - {} == fs.Keys;
    LoadKey(fs, path, {}, |fs.Keys| + 1, k, Arrays);
    FoldArrays(fs, Unfold(fs, path, |fs.Keys| + 1), k);
  }

  /** The last file, in order, that has the key. */
  ghost function LastOwn(fs: Files, ps: seq<Path>, k: Key): Option<Value> {
    if ps == [] then None
    else
      var own := Own(fs, ps[|ps| - 1], k);
      if own.Some? then own else LastOwn(fs, ps[..|ps| - 1], k)
  }

  lemma {:induction false} FoldSnoc(fs: Files, ps: seq<Path>, k: Key, kind: Kind)
    requires ps != [] && Uniform(fs, k, kind)
    ensures FoldKey(fs, ps, k) == MergeOption(FoldKey(fs, ps[..|ps| - 1], k), Own(fs, ps[|ps| - 1], k))
    ensures OfKind(FoldKey(fs, ps[..|ps| - 1], k), kind)
  {
    var n := |ps| - 1;
    assert ps == ps[..n] + [ps[n]] && [ps[n]][1..] == [];
    FoldConcat(fs, ps[..n], [ps[n]], k, kind);
  }

  lemma {:induction false} FoldScalars(fs: Files, ps: seq<Path>, k: Key)
    requires Uniform(fs, k, Scalars)
    ensures FoldKey(fs, ps, k) == LastOwn(fs, ps, k)
  {
    if ps != [] {
      FoldScalars(fs, ps[..|ps| - 1], k);
      FoldSnoc(fs, ps, k, Scalars);
      assert OfKind(Own(fs, ps[|ps| - 1], k), Scalars);
    }
  }

  /** A key that is a scalar wherever it occurs ends up as the file last in depth-first preorder has it. */
  lemma {:induction false} LastScalarWins(fs: Files, path: Path, k: Key)
    requires Load(fs, path, {}).Some? && Uniform(fs, k, Scalars)
    ensures YamlGet(Load(fs, path, {}).value.yaml, k) == LastOwn(fs, Unfold(fs, path, |fs.Keys| + 1), k)
  {
    assert fs.Keys - {} == fs.Keys;
    LoadKey(fs, path, {}, |fs.Keys| + 1, k, Scalars);
    FoldScalars(fs, Unfold(fs, path, |fs.Keys| + 1), k);
  }

  ghost function FieldOf(v: Option<Value>, field: int): Option<int> {
    if v.Some? && v.value.Hash? && field in v.value.fields then Some(v.value.fields[field]) else None
  }

  /** The last file, in order, whose hash under the key has the field. */
  ghost function LastField(fs: Files, ps: seq<Path>, k: Key, field: int): Option<int> {
    if ps == [] then None
    else
      var own := FieldOf(Own(fs, ps[|ps| - 1], k), field);
      if own.Some? then own else LastField(fs, ps[..|ps| - 1], k, field)
  }

  lemma {:induction false} FoldHashes(fs: Files, ps: seq<Path>, k: Key, field: int)
    requires Uniform(fs, k, Hashes)
    ensures FieldOf(FoldKey(fs, ps, k), field) == LastField(fs, ps, k, field)
  {
    if ps != [] {
      FoldHashes(fs, ps[..|ps| - 1], k, field);
      FoldSnoc(fs, ps, k, Hashes);
      assert OfKind(Own(fs, ps[|ps| - 1], k), Hashes);
    }
  }

  /** In a key that is a hash wherever it occurs, the last file in depth-first preorder decides each field. */
  lemma {:induction false} LastFieldWins(fs: Files, path: Path, k: Key, field: int)
    requires Load(fs, path, {}).Some? && Uniform(fs, k, Hashes)
    ensures FieldOf(YamlGet(Load(fs, path, {}).value.yaml, k), field)
         == LastField(fs, Unfold(fs, path, |fs.Keys| + 1), k, field)
  {
    assert fs.Keys - {} == fs.Keys;
    LoadKey(fs, path, {}, |fs.Keys| + 1, k, Hashes);
    FoldHashes(fs, Unfold(fs, path, |fs.Keys| + 1), k, field);
  }
}
