/**
When the nesting of the includes shows in what a key ends up as.  Loading merges the values that the
files give a key in depth-first preorder, but how the merges are bracketed depends on which file
includes which.
*/
module Nestings {
  import opened Wrappers
  import opened Sequences
  import opened Includes

  ghost predicate SameKind(a: Value, b: Value) {
    (a.Array? <==> b.Array?) && (a.Hash? <==> b.Hash?)
  }

  lemma MergeKind(a: Value, b: Value)
    ensures SameKind(MergeValue(a, b), b)
    ensures !SameKind(a, b) ==> MergeValue(a, b) == b
  {
  }

  /** `a` and `c` would be joined, but for `b` between them, and `a` would contribute something. */
  ghost predicate Interrupts(a: Value, b: Value, c: Value) {
    || (a.Array? && !b.Array? && c.Array? && a.items != [])
    || (a.Hash? && !b.Hash? && c.Hash? && a.fields + c.fields != c.fields)
  }

  /** The exact law of three merges. */
  lemma MergeAssociativeIff(a: Value, b: Value, c: Value)
    ensures MergeValue(MergeValue(a, b), c) == MergeValue(a, MergeValue(b, c)) <==> !Interrupts(a, b, c)
  {
    if a.Array? && b.Array? && c.Array? {
      Assoc(a.items, b.items, c.items);
    } else if a.Hash? && b.Hash? && c.Hash? {
      assert a.fields + b.fields + c.fields == a.fields + (b.fields + c.fields);
    } else if a.Array? && c.Array? {
      assert |a.items + c.items| == |a.items| + |c.items|;
      assert a.items == [] ==> a.items + c.items == c.items;
    }
  }

  // ---------------------------------------------------------------------------------------------
  // Bracketings

  /** A bracketing of merges. */
  datatype Nesting = One(value: Value) | Then(first: Nesting, second: Nesting)

  ghost function Flatten(t: Nesting): (vs: seq<Value>)
    ensures vs != []
  {
    match t
    case One(v) => [v]
    case Then(a, b) => Flatten(a) + Flatten(b)
  }

  ghost function Result(t: Nesting): Value {
    match t
    case One(v) => v
    case Then(a, b) => MergeValue(Result(a), Result(b))
  }

  lemma {:induction false} ResultKind(t: Nesting)
    ensures var vs := Flatten(t); SameKind(Result(t), vs[|vs| - 1]) && (Result(t).Scalar? ==> Result(t) == vs[|vs| - 1])
  {
    if t.Then? {
      ResultKind(t.second);
      var b := Flatten(t.second);
      assert Flatten(t)[|Flatten(t)| - 1] == b[|b| - 1];
      MergeKind(Result(t.first), Result(t.second));
    }
  }

  /** The values merged, last to first, into what comes behind them. */
  ghost function FoldInto(vs: seq<Value>, behind: Value): (r: Value)
    ensures SameKind(r, behind)
  {
    if vs == [] then behind else MergeValue(vs[0], FoldInto(vs[1..], behind))
  }

  lemma {:induction false} FoldIntoConcat(a: seq<Value>, b: seq<Value>, behind: Value)
    ensures FoldInto(a + b, behind) == FoldInto(a, FoldInto(b, behind))
    decreases |a|
  {
    if a == [] {
      assert a + b == b;
    } else {
      assert (a + b)[1..] == a[1..] + b;
      FoldIntoConcat(a[1..], b, behind);
    }
  }

  /** `r` already has what every one of the values would contribute. */
  ghost predicate Absorbs(r: Value, vs: seq<Value>) {
    forall i :: 0 <= i < |vs| ==> MergeValue(vs[i], r) == r
  }

  ghost predicate AllOfKind(vs: seq<Value>, r: Value) {
    forall i :: 0 <= i < |vs| ==> SameKind(vs[i], r)
  }

  lemma AbsorbsParts(r: Value, a: seq<Value>, b: seq<Value>)
    requires Absorbs(r, a + b)
    ensures Absorbs(r, a) && Absorbs(r, b)
  {
    forall i | 0 <= i < |a| ensures MergeValue(a[i], r) == r {
      assert (a + b)[i] == a[i];
    }
    forall i | 0 <= i < |b| ensures MergeValue(b[i], r) == r {
      assert (a + b)[|a| + i] == b[i];
    }
  }

  lemma {:induction false} AbsorbsResult(t: Nesting, r: Value)
    requires Absorbs(r, Flatten(t))
    ensures MergeValue(Result(t), r) == r
  {
    match t
    case One(v) => assert Flatten(t)[0] == v;
    case Then(a, b) =>
      AbsorbsParts(r, Flatten(a), Flatten(b));
      AbsorbsResult(a, r);
      AbsorbsResult(b, r);
      MergeKind(Result(a), Result(b));
      MergeAssociativeIff(Result(a), Result(b), r);
  }

  /** The last `|vs| - n` values are of the kind of `r`, and absorb the others once merged into `r`. */
  ghost predicate SettlesFrom(vs: seq<Value>, n: nat, r: Value) {
    && n <= |vs|
    && AllOfKind(vs[n..], r)
    && (n > 0 ==> !SameKind(vs[n - 1], r))
    && Absorbs(FoldInto(vs[n..], r), vs[..n])
  }

  /** Then every bracketing gives, before `r`, what the last values alone give. */
  lemma {:induction false} Settles(t: Nesting, n: nat, r: Value)
    requires SettlesFrom(Flatten(t), n, r)
    ensures MergeValue(Result(t), r) == FoldInto(Flatten(t)[n..], r)
    decreases t
  {
    var vs := Flatten(t);
    ResultKind(t);
    if n == |vs| {
      MergeKind(Result(t), r);
    } else if t.One? {
      assert n == 0 && vs[0..] == [t.value] && [t.value][1..] == [];
    } else {
      SettlesThen(t.first, t.second, n, r);
    }
  }

  lemma {:induction false} SettlesThen(a: Nesting, b: Nesting, n: nat, r: Value)
    requires SettlesFrom(Flatten(Then(a, b)), n, r) && n < |Flatten(Then(a, b))|
    ensures MergeValue(Result(Then(a, b)), r) == FoldInto(Flatten(Then(a, b))[n..], r)
    decreases Then(a, b), 0
  {
    var va, vb := Flatten(a), Flatten(b);
    LastOfRun(va, vb, n, r);
    ResultKind(b);
    if n < |va| {
      SplitInRun(va, vb, n, r);
      Settles(b, 0, r);
      Settles(a, n, FoldInto(vb, r));
      JoinInRun(Result(a), Result(b), r, va[n..], vb);
    } else {
      SplitBeforeRun(va, vb, n, r);
      Settles(b, n - |va|, r);
      AbsorbsResult(a, FoldInto(vb[n - |va|..], r));
      MergeAssociativeIff(Result(a), Result(b), r);
    }
  }

  lemma LastOfRun(va: seq<Value>, vb: seq<Value>, n: nat, r: Value)
    requires SettlesFrom(va + vb, n, r) && n < |va + vb| && vb != []
    ensures SameKind(vb[|vb| - 1], r)
  {
    var vs := va + vb;
    assert vs[n..][|vs| - 1 - n] == vb[|vb| - 1];
  }

  lemma {:induction false} JoinInRun(a: Value, b: Value, r: Value, va: seq<Value>, vb: seq<Value>)
    requires SameKind(b, r) && MergeValue(b, r) == FoldInto(vb, r)
    requires MergeValue(a, FoldInto(vb, r)) == FoldInto(va, FoldInto(vb, r))
    ensures MergeValue(MergeValue(a, b), r) == FoldInto(va + vb, r)
  {
    MergeAssociativeIff(a, b, r);
    FoldIntoConcat(va, vb, r);
  }

  lemma SplitInRun(va: seq<Value>, vb: seq<Value>, n: nat, r: Value)
    requires SettlesFrom(va + vb, n, r) && n < |va|
    ensures (va + vb)[n..] == va[n..] + vb
    ensures vb[0..] == vb && SettlesFrom(vb, 0, r) && SettlesFrom(va, n, FoldInto(vb, r))
  {
    assert (va + vb)[n..] == va[n..] + vb && (va + vb)[..n] == va[..n];
    FoldIntoConcat(va[n..], vb, r);
    KindParts(va[n..], vb, r, FoldInto(vb, r));
    assert vb[0..] == vb;
  }

  lemma KindParts(a: seq<Value>, b: seq<Value>, r: Value, r': Value)
    requires AllOfKind(a + b, r) && SameKind(r', r)
    ensures AllOfKind(a, r') && AllOfKind(b, r)
  {
    forall i | 0 <= i < |a| ensures SameKind(a[i], r') {
      assert (a + b)[i] == a[i];
    }
    forall i | 0 <= i < |b| ensures SameKind(b[i], r) {
      assert (a + b)[|a| + i] == b[i];
    }
  }

  lemma SplitBeforeRun(va: seq<Value>, vb: seq<Value>, n: nat, r: Value)
    requires SettlesFrom(va + vb, n, r) && |va| <= n < |va| + |vb|
    ensures (va + vb)[n..] == vb[n - |va|..]
    ensures SettlesFrom(vb, n - |va|, r) && Absorbs(FoldInto((va + vb)[n..], r), va)
  {
    var vs := va + vb;
    assert vs[n..] == vb[n - |va|..] && vs[..n] == va + vb[..n - |va|];
    AbsorbsParts(FoldInto(vs[n..], r), va, vb[..n - |va|]);
  }

  // ---------------------------------------------------------------------------------------------
  // The condition

  ghost function Fold(vs: seq<Value>): Value
    requires vs != []
  {
    FoldInto(vs[..|vs| - 1], vs[|vs| - 1])
  }

  lemma FoldFirst(vs: seq<Value>)
    requires |vs| > 1
    ensures Fold(vs) == MergeValue(vs[0], Fold(vs[1..]))
  {
    var n := |vs| - 1;
    assert vs[..n][1..] == vs[1..][..n - 1];
  }

  /** Where the last run of values of one kind begins. */
  ghost function RunStart(vs: seq<Value>): (n: nat)
    requires vs != []
    ensures n < |vs|
  {
    var n := |vs| - 1;
    if n == 0 || !SameKind(vs[n - 1], vs[n]) then n else RunStart(vs[..n])
  }

  ghost function LastRun(vs: seq<Value>): (run: seq<Value>)
    requires vs != []
    ensures run != []
  {
    vs[RunStart(vs)..]
  }

  /** The last values of one kind have, together, all that earlier values of that kind would contribute. */
  ghost predicate Settled(vs: seq<Value>) {
    vs != [] ==> Absorbs(Fold(LastRun(vs)), vs[..RunStart(vs)])
  }

  lemma {:induction false} RunStartMeans(vs: seq<Value>)
    requires vs != []
    ensures AllOfKind(LastRun(vs), vs[|vs| - 1])
    ensures RunStart(vs) > 0 ==> !SameKind(vs[RunStart(vs) - 1], vs[|vs| - 1])
  {
    var n := |vs| - 1;
    if n > 0 && SameKind(vs[n - 1], vs[n]) {
      RunStartMeans(vs[..n]);
      var run := LastRun(vs);
      forall i | 0 <= i < |run| ensures SameKind(run[i], vs[n]) {
        if i < |run| - 1 { assert run[i] == LastRun(vs[..n])[i]; }
      }
    }
  }

  /** A value that contributes nothing behind one of its kind. */
  ghost function Neutral(v: Value): Value
    requires !v.Scalar?
  {
    if v.Array? then Array([]) else Hash(map[])
  }

  lemma NeutralMerge(v: Value)
    requires !v.Scalar?
    ensures MergeValue(v, Neutral(v)) == v
  {
    if v.Hash? { assert v.fields + map[] == v.fields; }
  }

  lemma {:induction false} FoldNeutral(vs: seq<Value>)
    requires vs != [] && !vs[|vs| - 1].Scalar?
    ensures FoldInto(vs, Neutral(vs[|vs| - 1])) == Fold(vs)
  {
    var n := |vs| - 1;
    assert vs == vs[..n] + [vs[n]] && [vs[n]][1..] == [];
    FoldIntoConcat(vs[..n], [vs[n]], Neutral(vs[n]));
    NeutralMerge(vs[n]);
    var zero := Neutral(vs[n]);
    assert FoldInto([], zero) == zero;
    assert FoldInto([vs[n]], zero) == vs[n];
  }

  lemma {:induction false} FoldIntoScalar(vs: seq<Value>, behind: Value)
    requires behind.Scalar?
    ensures FoldInto(vs, behind) == behind
  {
    if vs != [] { FoldIntoScalar(vs[1..], behind); }
  }

  lemma {:induction false} SettlesRun(vs: seq<Value>)
    requires vs != [] && Settled(vs) && !vs[|vs| - 1].Scalar?
    ensures var zero := Neutral(vs[|vs| - 1]);
            SettlesFrom(vs, RunStart(vs), zero) && FoldInto(LastRun(vs), zero) == Fold(LastRun(vs))
  {
    var run := LastRun(vs);
    assert run[|run| - 1] == vs[|vs| - 1];
    RunStartMeans(vs);
    FoldNeutral(run);
  }

  lemma {:induction false} ScalarRun(vs: seq<Value>)
    requires vs != [] && vs[|vs| - 1].Scalar?
    ensures Fold(LastRun(vs)) == vs[|vs| - 1]
  {
    var run := LastRun(vs);
    assert run[|run| - 1] == vs[|vs| - 1];
    FoldIntoScalar(run[..|run| - 1], run[|run| - 1]);
  }

  /** Under the condition every bracketing gives what the last run gives. */
  lemma {:induction false} SettledResult(t: Nesting)
    requires Settled(Flatten(t))
    ensures Result(t) == Fold(LastRun(Flatten(t)))
  {
    var vs := Flatten(t);
    var last := vs[|vs| - 1];
    ResultKind(t);
    if last.Scalar? {
      ScalarRun(vs);
    } else {
      SettlesRun(vs);
      Settles(t, RunStart(vs), Neutral(last));
      NeutralMerge(Result(t));
    }
  }

  ghost function RightComb(vs: seq<Value>): Nesting
    requires vs != []
  {
    if |vs| == 1 then One(vs[0]) else Then(One(vs[0]), RightComb(vs[1..]))
  }

  lemma OneThen(v: Value, t: Nesting)
    ensures Flatten(Then(One(v), t)) == [v] + Flatten(t) && Result(Then(One(v), t)) == MergeValue(v, Result(t))
  {
  }

  lemma FoldOne(v: Value)
    ensures Fold([v]) == v
  {
  }

  lemma {:induction false} RightCombFolds(vs: seq<Value>)
    requires vs != []
    ensures Flatten(RightComb(vs)) == vs && Result(RightComb(vs)) == Fold(vs)
  {
    if |vs| == 1 {
      FoldOne(vs[0]);
      assert vs == [vs[0]];
    } else {
      RightCombFolds(vs[1..]);
      OneThen(vs[0], RightComb(vs[1..]));
      FoldFirst(vs);
      assert vs == [vs[0]] + vs[1..];
    }
  }

  /** `v` adds to `r` in front of it, and changes nothing of it. */
  ghost predicate Extends(v: Value, r: Value) {
    match r
    case Array(items) => v.Array? && |items| <= |v.items| && v.items[|v.items| - |items|..] == items
    case Hash(fields) => v.Hash? && fields.Keys <= v.fields.Keys && forall f :: f in fields ==> v.fields[f] == fields[f]
    case Scalar(_) => v == r
  }

  lemma MergeExtends(x: Value, v: Value, r: Value)
    requires Extends(v, r)
    ensures Extends(MergeValue(x, v), r)
    ensures MergeValue(x, v) == r ==> v == r
  {
    if x.Array? && v.Array? {
      var n := |v.items| - |r.items|;
      assert (x.items + v.items)[|x.items| + n..] == v.items[n..];
      if x.items + v.items == r.items {
        assert v.items[0..] == v.items && n == 0;
      }
    } else if x.Hash? && v.Hash? {
      if x.fields + v.fields == r.fields {
        assert v.fields.Keys <= (x.fields + v.fields).Keys;
        assert v.fields == r.fields;
      }
    }
  }

  lemma {:induction false} FoldExtends(vs: seq<Value>, r: Value)
    ensures Extends(FoldInto(vs, r), r)
  {
    if vs != [] {
      FoldExtends(vs[1..], r);
      MergeExtends(vs[0], FoldInto(vs[1..], r), r);
    }
  }

  lemma AbsorbsCons(r: Value, v: Value, vs: seq<Value>)
    requires MergeValue(v, r) == r && Absorbs(r, vs)
    ensures Absorbs(r, [v] + vs)
  {
  }

  lemma {:induction false} FoldAbsorbs(vs: seq<Value>, r: Value)
    requires FoldInto(vs, r) == r
    ensures Absorbs(r, vs)
  {
    if vs != [] {
      FoldExtends(vs[1..], r);
      MergeExtends(vs[0], FoldInto(vs[1..], r), r);
      FoldAbsorbs(vs[1..], r);
      AbsorbsCons(r, vs[0], vs[1..]);
      assert vs == [vs[0]] + vs[1..];
    }
  }

  /** The condition holds exactly when merging last to first gives no more than the last run. */
  lemma {:induction false} SettledIff(vs: seq<Value>)
    requires vs != []
    ensures Settled(vs) <==> Fold(vs) == Fold(LastRun(vs))
  {
    if Settled(vs) {
      RightCombFolds(vs);
      SettledResult(RightComb(vs));
    } else if Fold(vs) == Fold(LastRun(vs)) {
      FoldSplit(vs, RunStart(vs));
      FoldAbsorbs(vs[..RunStart(vs)], Fold(LastRun(vs)));
    }
  }

  lemma {:induction false} FoldSplit(vs: seq<Value>, n: nat)
    requires n < |vs|
    ensures Fold(vs) == FoldInto(vs[..n], Fold(vs[n..]))
  {
    var m := |vs| - 1;
    assert vs[..m] == vs[..n] + vs[n..m] && vs[n..][..m - n] == vs[n..m];
    FoldIntoConcat(vs[..n], vs[n..m], vs[m]);
  }

  /** The values merged first to last. */
  ghost function FoldLeft(vs: seq<Value>): Value
    requires vs != []
  {
    var n := |vs| - 1;
    if n == 0 then vs[0] else MergeValue(FoldLeft(vs[..n]), vs[n])
  }

  lemma {:induction false} FoldLeftIsLastRun(vs: seq<Value>)
    requires vs != []
    ensures FoldLeft(vs) == Fold(LastRun(vs))
  {
    var n := |vs| - 1;
    if n > 0 {
      FoldLeftIsLastRun(vs[..n]);
      LastRunSnoc(vs);
    }
  }

  lemma {:induction false} LastRunSnoc(vs: seq<Value>)
    requires |vs| > 1
    ensures Fold(LastRun(vs)) == MergeValue(Fold(LastRun(vs[..|vs| - 1])), vs[|vs| - 1])
  {
    var n := |vs| - 1;
    LastRunGrows(vs);
    RunSnoc(LastRun(vs[..n]), vs[n], LastRun(vs));
  }

  lemma {:induction false} LastRunGrows(vs: seq<Value>)
    requires |vs| > 1
    ensures var n := |vs| - 1; var run := LastRun(vs[..n]);
            && AllOfKind(run, run[|run| - 1])
            && LastRun(vs) == if SameKind(run[|run| - 1], vs[n]) then run + [vs[n]] else [vs[n]]
  {
    var n, k := |vs| - 1, RunStart(vs[..|vs| - 1]);
    RunStartMeans(vs[..n]);
    LastOfTail(vs[..n], k);
    RunGoesOn(vs, k);
    TailSnoc(vs, k);
  }

  lemma {:induction false} RunGoesOn(vs: seq<Value>, k: nat)
    requires |vs| > 1 && k == RunStart(vs[..|vs| - 1])
    ensures LastRun(vs) == if SameKind(vs[|vs| - 2], vs[|vs| - 1]) then vs[k..] else [vs[|vs| - 1]]
  {
    assert vs[|vs| - 1..] == [vs[|vs| - 1]];
  }

  lemma LastOfTail(vs: seq<Value>, k: nat)
    requires k < |vs|
    ensures vs[k..][|vs| - k - 1] == vs[|vs| - 1]
  {
  }

  lemma TailSnoc(vs: seq<Value>, k: nat)
    requires k < |vs|
    ensures vs[k..] == vs[..|vs| - 1][k..] + [vs[|vs| - 1]]
  {
  }

  lemma {:induction false} RunSnoc(run: seq<Value>, x: Value, run': seq<Value>)
    requires run != [] && AllOfKind(run, run[|run| - 1]) && run' != []
    requires run' == if SameKind(run[|run| - 1], x) then run + [x] else [x]
    ensures Fold(run') == MergeValue(Fold(run), x)
  {
    if SameKind(run[|run| - 1], x) {
      SnocRun(run, x);
      FoldEnd(run, x);
    } else {
      assert run' == [] + [x];
      FoldEnd([], x);
    }
  }

  lemma FoldEnd(vs: seq<Value>, x: Value)
    ensures Fold(vs + [x]) == FoldInto(vs, x)
  {
    assert (vs + [x])[..|vs|] == vs;
  }

  lemma {:induction false} SnocRun(vs: seq<Value>, x: Value)
    requires vs != [] && AllOfKind(vs, x)
    ensures MergeValue(Fold(vs), x) == FoldInto(vs, x)
  {
    var n := |vs| - 1;
    if n > 0 {
      SnocRun(vs[1..], x);
      assert vs[1..][..n - 1] == vs[..n][1..];
      MergeAssociativeIff(vs[0], Fold(vs[1..]), x);
    }
  }

  // ---------------------------------------------------------------------------------------------
  // Loading

  /** What the files say about a key, one value for each file that has it. */
  ghost function Values(fs: Files, ps: seq<Path>, k: Key): seq<Value> {
    FlatMap(OwnValue(fs, k), ps)
  }

  ghost function OwnValue(fs: Files, k: Key): Path -> seq<Value> {
    (p: Path) => if Own(fs, p, k).Some? then [Own(fs, p, k).value] else []
  }

  /** `v` is what some bracketing of the values gives. */
  ghost predicate Nests(v: Option<Value>, vs: seq<Value>) {
    if vs == [] then v.None? else v.Some? && exists t :: Flatten(t) == vs && Result(t) == v.value
  }

  lemma {:induction false} NestsMerge(v: Option<Value>, vs: seq<Value>, w: Option<Value>, ws: seq<Value>)
    requires Nests(v, vs) && Nests(w, ws)
    ensures Nests(MergeOption(v, w), vs + ws)
  {
    if vs == [] {
      assert vs + ws == ws;
    } else if ws == [] {
      assert vs + ws == vs;
    } else {
      var t :| Flatten(t) == vs && Result(t) == v.value;
      var u :| Flatten(u) == ws && Result(u) == w.value;
      assert Flatten(Then(t, u)) == vs + ws && Result(Then(t, u)) == MergeValue(v.value, w.value);
    }
  }

  lemma NestsOwn(fs: Files, path: Path, k: Key)
    ensures Nests(Own(fs, path, k), OwnValue(fs, k)(path))
  {
    var own := Own(fs, path, k);
    if own.Some? {
      assert Flatten(One(own.value)) == [own.value] && Result(One(own.value)) == own.value;
    }
  }

  /** Whatever the includes, a key ends up as some bracketing of its values in depth-first preorder. */
  lemma {:induction false} LoadNests(fs: Files, path: Path, loaded: set<Path>, depth: nat, k: Key)
    requires Load(fs, path, loaded).Some? && depth >= |fs.Keys - loaded|
    ensures Nests(YamlGet(Load(fs, path, loaded).value.yaml, k), Values(fs, Unfold(fs, path, depth), k))
    decreases depth, 0, 1
  {
    RoomShrinks(fs, path, loaded);
    var r := Load(fs, path, loaded).value;
    if fs[path].HashFile? {
      LoadHashNests(fs, path, loaded, depth, k, r);
    } else {
      var own := OwnValue(fs, k)(path);
      NestsFile(fs, path, depth, k, r.yaml, own, []);
    }
  }

  lemma {:induction false} LoadHashNests(fs: Files, path: Path, loaded: set<Path>, depth: nat, k: Key, r: Loaded)
    requires path in fs && path !in loaded && fs[path].HashFile? && depth > |fs.Keys - (loaded + {path})|
    requires LoadList(fs, fs[path].includes, fs[path].fields, loaded + {path}) == Some(r)
    ensures Nests(YamlGet(r.yaml, k), Values(fs, Unfold(fs, path, depth), k))
    decreases depth, 0, 0
  {
    var own := OwnValue(fs, k)(path);
    NestsOwn(fs, path, k);
    LoadListNests(fs, fs[path].includes, fs[path].fields, loaded + {path}, depth - 1, k, own);
    NestsFile(fs, path, depth, k, r.yaml, own, UnfoldList(fs, fs[path].includes, depth - 1));
  }

  lemma NestsFile(fs: Files, path: Path, depth: nat, k: Key, yaml: Yaml, own: seq<Value>, rest: seq<Path>)
    requires depth > 0 && rest == UnfoldList(fs, IncludesOf(fs, path), depth - 1) && own == OwnValue(fs, k)(path)
    requires Nests(YamlGet(yaml, k), own + Values(fs, rest, k))
    ensures Nests(YamlGet(yaml, k), Values(fs, Unfold(fs, path, depth), k))
  {
    FlatMapConcat(OwnValue(fs, k), [path], rest);
    FlatMapOne(OwnValue(fs, k), path);
  }

  lemma {:induction false} LoadListNests(fs: Files, files: seq<Path>, fields: Fields, loaded: set<Path>, depth: nat, k: Key, vs: seq<Value>)
    requires LoadList(fs, files, fields, loaded).Some? && depth >= |fs.Keys - loaded| && Nests(Get(fields, k), vs)
    ensures Nests(YamlGet(LoadList(fs, files, fields, loaded).value.yaml, k), vs + Values(fs, UnfoldList(fs, files, depth), k))
    decreases depth, 1, |files|
  {
    if files == [] {
      assert vs + Values(fs, [], k) == vs;
    } else {
      var first := Load(fs, files[0], loaded).value;
      var a, b := Unfold(fs, files[0], depth), UnfoldList(fs, files[1..], depth);
      LoadNests(fs, files[0], loaded, depth, k);
      RoomMonotone(fs, loaded, first.paths);
      NestsMerge(Get(fields, k), vs, YamlGet(first.yaml, k), Values(fs, a, k));
      if first.yaml.HashYaml? { MergeGet(fields, first.yaml.fields, k); }
      LoadListNests(fs, files[1..], MergeYaml(fields, first.yaml), first.paths, depth, k, vs + Values(fs, a, k));
      FlatMapConcat(OwnValue(fs, k), a, b);
      Assoc(vs, Values(fs, a, k), Values(fs, b, k));
    }
  }

  /** Under the condition the nesting of the includes does not show: only the order of the files does. */
  lemma {:induction false} SettledIgnoresNesting(fs: Files, path: Path, k: Key)
    requires Load(fs, path, {}).Some?
    requires Settled(Values(fs, Unfold(fs, path, |fs.Keys| + 1), k))
    ensures var vs := Values(fs, Unfold(fs, path, |fs.Keys| + 1), k);
            YamlGet(Load(fs, path, {}).value.yaml, k) == if vs == [] then None else Some(Fold(LastRun(vs)))
  {
    assert fs.Keys - {} == fs.Keys;
    LoadNests(fs, path, {}, |fs.Keys| + 1, k);
    var vs := Values(fs, Unfold(fs, path, |fs.Keys| + 1), k);
    if vs != [] {
      var t :| Flatten(t) == vs && Some(Result(t)) == YamlGet(Load(fs, path, {}).value.yaml, k);
      SettledResult(t);
    }
  }

  // ---------------------------------------------------------------------------------------------
  // Without the condition it shows: files 0, 1, 2 and so on, with the same values and the same preorder

  ghost function Range(lo: nat, hi: nat): (ps: seq<Path>)
    requires lo <= hi
    ensures |ps| == hi - lo
    decreases hi - lo
  {
    if lo == hi then [] else [lo] + Range(lo + 1, hi)
  }

  /** Every file includes the next. */
  ghost function Chained(k: Key, vs: seq<Value>): Files {
    map i: Path | i < |vs| :: HashFile(map[k := vs[i]], if i + 1 < |vs| then [i + 1] else [])
  }

  /** File 0 includes all the others. */
  ghost function Flat(k: Key, vs: seq<Value>): Files {
    map i: Path | i < |vs| :: HashFile(map[k := vs[i]], if i == 0 then Range(1, |vs|) else [])
  }

  ghost predicate NoneFrom(i: nat, loaded: set<Path>) {
    forall j :: j in loaded ==> j < i
  }

  /** Loading a file with one include. */
  lemma {:induction false} LoadsNext(fs: Files, path: Path, next: Path, loaded: set<Path>, own: Fields, k: Key)
    requires path in fs && path !in loaded && fs[path] == HashFile(own, [next])
    requires Load(fs, next, loaded + {path}).Some?
    ensures var r := Load(fs, path, loaded);
            && r.Some?
            && YamlGet(r.value.yaml, k) == MergeOption(Get(own, k), YamlGet(Load(fs, next, loaded + {path}).value.yaml, k))
  {
    var first := Load(fs, next, loaded + {path}).value;
    if first.yaml.HashYaml? { MergeGet(own, first.yaml.fields, k); }
    var merged := MergeYaml(own, first.yaml);
    assert [next][1..] == [];
    assert LoadList(fs, [], merged, first.paths) == Some(Loaded(HashYaml(merged), first.paths));
    assert LoadList(fs, [next], own, loaded + {path}) == LoadList(fs, [], merged, first.paths);
  }

  lemma {:induction false} ChainedLoads(k: Key, vs: seq<Value>, i: nat, loaded: set<Path>)
    requires i < |vs| && NoneFrom(i, loaded)
    ensures var r := Load(Chained(k, vs), i, loaded); r.Some? && YamlGet(r.value.yaml, k) == Some(Fold(vs[i..]))
    decreases |vs| - i
  {
    var fs := Chained(k, vs);
    var own := map[k := vs[i]];
    if i + 1 < |vs| {
      ChainedLoads(k, vs, i + 1, loaded + {i});
      LoadsNext(fs, i, i + 1, loaded, own, k);
      FoldFirst(vs[i..]);
      assert vs[i..][1..] == vs[i + 1..];
    }
  }

  lemma {:induction false} FlatLoads(k: Key, vs: seq<Value>, i: nat, fields: Fields, loaded: set<Path>)
    requires 1 <= i <= |vs| && NoneFrom(i, loaded) && Get(fields, k) == Some(FoldLeft(vs[..i]))
    ensures var r := LoadList(Flat(k, vs), Range(i, |vs|), fields, loaded);
            r.Some? && YamlGet(r.value.yaml, k) == Some(FoldLeft(vs))
    decreases |vs| - i
  {
    if i == |vs| {
      assert vs[..i] == vs;
    } else {
      var own := map[k := vs[i]];
      assert Load(Flat(k, vs), i, loaded) == Some(Loaded(HashYaml(own), loaded + {i}));
      MergeGet(fields, own, k);
      assert vs[..i + 1][..i] == vs[..i];
      FlatLoads(k, vs, i + 1, Merge(fields, own), loaded + {i});
    }
  }

  lemma {:induction false} ChainedUnfolds(k: Key, vs: seq<Value>, i: nat, depth: nat)
    requires i < |vs| && depth >= |vs| - i
    ensures Unfold(Chained(k, vs), i, depth) == Range(i, |vs|)
    decreases |vs| - i
  {
    var fs := Chained(k, vs);
    if i + 1 < |vs| {
      ChainedUnfolds(k, vs, i + 1, depth - 1);
      assert [i + 1][1..] == [] && UnfoldList(fs, [], depth - 1) == [];
      assert UnfoldList(fs, [i + 1], depth - 1) == Range(i + 1, |vs|) + [];
    } else {
      assert Range(i + 1, |vs|) == [];
    }
  }

  lemma {:induction false} FlatUnfolds(k: Key, vs: seq<Value>, i: nat, depth: nat)
    requires 1 <= i <= |vs| && depth > 0
    ensures UnfoldList(Flat(k, vs), Range(i, |vs|), depth) == Range(i, |vs|)
    decreases |vs| - i
  {
    if i < |vs| {
      FlatUnfolds(k, vs, i + 1, depth);
      assert Unfold(Flat(k, vs), i, depth) == [i];
    }
  }

  /** Both sets of files load, meet the same files in the same order, and have the same values in them. */
  ghost predicate Alike(k: Key, vs: seq<Value>) {
    var flat, chained := Flat(k, vs), Chained(k, vs);
    && Load(flat, 0, {}).Some? && Load(chained, 0, {}).Some?
    && Unfold(flat, 0, |vs| + 1) == Range(0, |vs|) == Unfold(chained, 0, |vs| + 1)
    && forall i :: 0 <= i < |vs| ==> Own(flat, i, k) == Some(vs[i]) == Own(chained, i, k)
  }

  lemma {:induction false} BothLoad(k: Key, vs: seq<Value>)
    requires vs != []
    ensures Alike(k, vs)
    ensures YamlGet(Load(Flat(k, vs), 0, {}).value.yaml, k) == Some(FoldLeft(vs))
    ensures YamlGet(Load(Chained(k, vs), 0, {}).value.yaml, k) == Some(Fold(vs))
  {
    ChainedLoad(k, vs);
    FlatLoad(k, vs);
    OwnsAre(k, vs);
  }

  lemma OwnsAre(k: Key, vs: seq<Value>)
    ensures forall i :: 0 <= i < |vs| ==> Own(Flat(k, vs), i, k) == Some(vs[i]) == Own(Chained(k, vs), i, k)
  {
  }

  lemma {:induction false} ChainedLoad(k: Key, vs: seq<Value>)
    requires vs != []
    ensures Load(Chained(k, vs), 0, {}).Some? && Unfold(Chained(k, vs), 0, |vs| + 1) == Range(0, |vs|)
    ensures YamlGet(Load(Chained(k, vs), 0, {}).value.yaml, k) == Some(Fold(vs))
  {
    assert vs[0..] == vs;
    ChainedLoads(k, vs, 0, {});
    ChainedUnfolds(k, vs, 0, |vs| + 1);
  }

  lemma {:induction false} FlatLoad(k: Key, vs: seq<Value>)
    requires vs != []
    ensures Load(Flat(k, vs), 0, {}).Some? && Unfold(Flat(k, vs), 0, |vs| + 1) == Range(0, |vs|)
    ensures YamlGet(Load(Flat(k, vs), 0, {}).value.yaml, k) == Some(FoldLeft(vs))
  {
    assert {} + {0} == {0};
    FlatLoads(k, vs, 1, map[k := vs[0]], {0});
    FlatUnfolds(k, vs, 1, |vs|);
  }

  /** For every list of values: the two nestings give the key the same value exactly under the condition. */
  lemma {:induction false} NestingShowsIff(k: Key, vs: seq<Value>)
    requires vs != []
    ensures Alike(k, vs)
    ensures YamlGet(Load(Flat(k, vs), 0, {}).value.yaml, k) == YamlGet(Load(Chained(k, vs), 0, {}).value.yaml, k)
            <==> Settled(vs)
  {
    BothLoad(k, vs);
    FoldLeftIsLastRun(vs);
    SettledIff(vs);
  }

  /** In particular it shows for three files exactly when the second interrupts the others. */
  lemma {:induction false} MixedKindsDependOnNesting(k: Key, a: Value, b: Value, c: Value)
    ensures var vs := [a, b, c];
            && Alike(k, vs)
            && (YamlGet(Load(Flat(k, vs), 0, {}).value.yaml, k) != YamlGet(Load(Chained(k, vs), 0, {}).value.yaml, k)
                <==> Interrupts(a, b, c))
  {
    var vs := [a, b, c];
    BothLoad(k, vs);
    MergeAssociativeIff(a, b, c);
    assert vs[..2] == [a, b] && [a, b][..1] == [a] && [a, b][1..] == [b] && [b][1..] == [];
    assert FoldLeft([a]) == a && FoldLeft([a, b]) == MergeValue(a, b);
    assert FoldInto([], c) == c && FoldInto([b], c) == MergeValue(b, c);
  }
}
