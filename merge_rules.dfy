/**
 * The per-kind rules of deepMerge, stated as lemmas about the engine: what a merge step leaves at
 * the destination's place, what it leaves elsewhere, and when it fails.
 */
module MergeRules {
  import opened Common
  import opened Values
  import opened NamedSets
  import opened MergeConfig
  import opened MergeEngine

  /** deepMerge gets past its prologue to the switch on the destination's kind: the destination
      is not skipped as empty, is not a place already visited, and no transformer is installed. */
  predicate Reaches(vis: set<VisitKey>, cfg: Config, ds: Slot, d: Value)
  {
    !(IsEmpty(d) && cfg.skipEmptyFields) && cfg.transformers.None?
    && (ds.place.Some? ==> VisitKey(ds.place.value, d.ty) !in vis)
  }

  /** The visited table once the destination has been recorded in it. */
  function Marked(vis: set<VisitKey>, ds: Slot, d: Value): set<VisitKey>
  {
    if ds.place.Some? then vis + {VisitKey(ds.place.value, d.ty)} else vis
  }

  lemma ReachesDispatch(h: Heap, vis: set<VisitKey>, cfg: Config, ds: Slot, d: Value, ss: Slot, s: Value)
    requires Reaches(vis, cfg, ds, d)
    ensures DeepMerge(h, vis, cfg, ds, d, ss, s) == Dispatch(h, Marked(vis, ds, d), cfg, ds, d, ss, s)
  {
    ReachesTransform(h, vis, cfg, ds, d, ss, s);
    NoTransformer(h, Marked(vis, ds, d), cfg, ds, d, ss, s);
  }

  /** Past the skip-empty and visited tests, deepMerge records dst and goes on to the transformer
      test. */
  lemma ReachesTransform(h: Heap, vis: set<VisitKey>, cfg: Config, ds: Slot, d: Value, ss: Slot, s: Value)
    requires !(IsEmpty(d) && cfg.skipEmptyFields)
    requires ds.place.Some? ==> VisitKey(ds.place.value, d.ty) !in vis
    ensures DeepMerge(h, vis, cfg, ds, d, ss, s) == Transform(h, Marked(vis, ds, d), cfg, ds, d, ss, s)
  {
  }

  /** Without transformers, the transformer test falls through to the kind switch. */
  lemma NoTransformer(h: Heap, vis: set<VisitKey>, cfg: Config, ds: Slot, d: Value, ss: Slot, s: Value)
    requires cfg.transformers.None?
    ensures Transform(h, vis, cfg, ds, d, ss, s) == Dispatch(h, vis, cfg, ds, d, ss, s)
  {
  }

  /** Writing v at a place p: p then holds v, and every place disjoint from p is unchanged. */
  ghost predicate WrittenAt(h: Heap, h': Heap, p: Place, v: Value)
  {
    ValueAt(h', p) == Some(v) && forall q :: Disjoint(p, q) ==> ValueAt(h', q) == ValueAt(h, q)
  }

  lemma SetAtWrites(h: Heap, p: Place, v: Value)
    requires ValueAt(h, p).Some?
    ensures WrittenAt(h, SetAt(h, p, v), p, v)
  {
    ValueAtSetAt(h, p, p, v);
    forall q | Disjoint(p, q)
      ensures ValueAt(SetAt(h, p, v), q) == ValueAt(h, q)
    {
      ValueAtSetAt(h, p, q, v);
    }
  }

  /** With SkipEmptyFields, an empty destination is left as it is, and so is everything beneath
      it: nothing at all is written. */
  lemma SkipEmptyLeavesAll(h: Heap, vis: set<VisitKey>, cfg: Config, ds: Slot, d: Value, ss: Slot, s: Value)
    requires cfg.skipEmptyFields && IsEmpty(d)
    ensures DeepMerge(h, vis, cfg, ds, d, ss, s) == Res(h, vis, None)
  {
  }

  /** A place already visited at the same type is not merged again. */
  lemma RevisitIsNoOp(h: Heap, vis: set<VisitKey>, cfg: Config, p: Place, ro: bool, d: Value, ss: Slot, s: Value)
    requires VisitKey(p, d.ty) in vis
    ensures DeepMerge(h, vis, cfg, Slot(Some(p), ro), d, ss, s) == Res(h, vis, None)
  {
  }

  /** A pointer cell already visited at its type is not merged again. */
  lemma RevisitCellIsNoOp(h: Heap, vis: set<VisitKey>, cfg: Config, a: Addr, ro: bool, ss: Slot, s: Value)
    requires a in h && VisitKey(Place(a, []), h[a].ty) in vis
    ensures RootMerge(h, vis, cfg, a, ro, ss, s) == Res(h, vis, None)
  {
  }

  /** Scalars, and structs with no exported field: the destination becomes the source exactly
      when it is settable, the source is non-empty, and Override is set or the destination is
      empty. An empty source never clears the destination. */
  lemma CopyRuleHolds(h: Heap, vis: set<VisitKey>, cfg: Config, ds: Slot, d: Value, ss: Slot, s: Value)
    requires d.Scalar? || (d.Record? && !HasVisibleField(d))
    requires Reaches(vis, cfg, ds, d)
    ensures DeepMerge(h, vis, cfg, ds, d, ss, s).err.None?
    ensures !CanSet(ds) || IsEmpty(s) || !(cfg.override || IsEmpty(d)) ==>
              DeepMerge(h, vis, cfg, ds, d, ss, s).heap == h
    ensures CanSet(ds) && ValueAt(h, ds.place.value) == Some(d) ==>
              WrittenAt(h, DeepMerge(h, vis, cfg, ds, d, ss, s).heap, ds.place.value,
                        if !IsEmpty(s) && (cfg.override || IsEmpty(d)) then s else d)
  {
    ReachesDispatch(h, vis, cfg, ds, d, ss, s);
    if CanSet(ds) && ValueAt(h, ds.place.value) == Some(d) {
      var p := ds.place.value;
      if !IsEmpty(s) && (cfg.override || IsEmpty(d)) {
        SetAtWrites(h, p, s);
      } else {
        assert ValueAt(h, p) == Some(d);
      }
    }
  }

  /** A slice under Overwrite: a settable destination is set to the source even when the source
      is empty; a destination that is not settable is left unchanged. */
  lemma SliceOverwriteRule(h: Heap, vis: set<VisitKey>, cfg: Config, ds: Slot, d: Value, ss: Slot, s: Value)
    requires d.Slice? && cfg.strategy == Overwrite && Reaches(vis, cfg, ds, d)
    ensures DeepMerge(h, vis, cfg, ds, d, ss, s).err.None?
    ensures !CanSet(ds) ==> DeepMerge(h, vis, cfg, ds, d, ss, s).heap == h
    ensures CanSet(ds) && ValueAt(h, ds.place.value).Some? ==>
              WrittenAt(h, DeepMerge(h, vis, cfg, ds, d, ss, s).heap, ds.place.value, s)
  {
    ReachesDispatch(h, vis, cfg, ds, d, ss, s);
    if CanSet(ds) && ValueAt(h, ds.place.value).Some? {
      SetAtWrites(h, ds.place.value, s);
    }
  }

  /** AppendAdditive: the destination becomes dst ++ src, duplicates kept and order preserved,
      and because the result is first stored through the source, the source slot receives the
      same concatenation. */
  lemma AppendAliasesSource(h: Heap, vis: set<VisitKey>, cfg: Config, p: Place, d: Value, q: Place, s: Value)
    requires d.Slice? && s.Slice? && cfg.strategy == AppendAdditive
    requires Reaches(vis, cfg, Slot(Some(p), false), d)
    requires ValueAt(h, p) == Some(d) && ValueAt(h, q) == Some(s) && Disjoint(p, q)
    ensures var r := DeepMerge(h, vis, cfg, Slot(Some(p), false), d, Slot(Some(q), false), s);
            r.err.None?
            && ValueAt(r.heap, p) == Some(Slice(d.ty, d.isNil && s.elems == [], d.elems + s.elems))
            && ValueAt(r.heap, q) == Some(Slice(d.ty, d.isNil && s.elems == [], d.elems + s.elems))
  {
    var ds := Slot(Some(p), false);
    var ss := Slot(Some(q), false);
    ReachesDispatch(h, vis, cfg, ds, d, ss, s);
    var joined := Appended(d, s);
    var h1 := SetAt(h, q, joined);
    ValueAtSetAt(h, q, q, joined);
    ValueAtSetAt(h, q, p, joined);
    DisjointSymmetric(p, q);
    ValueAtSetAt(h1, p, q, joined);
  }

  lemma DisjointSymmetric(p: Place, q: Place)
    requires Disjoint(p, q)
    ensures Disjoint(q, p)
  {
    if p.cell == q.cell {
      var i :| 0 <= i < |p.path| && i < |q.path| && p.path[i] != q.path[i] && p.path[..i] == q.path[..i];
      assert q.path[..i] == p.path[..i];
    }
  }

  /** AppendAdditive through a source that cannot be set (a non-addressable or unexported value)
      panics before the destination is written. */
  lemma AppendNeedsSettableSource(h: Heap, vis: set<VisitKey>, cfg: Config, ds: Slot, d: Value, ss: Slot, s: Value)
    requires d.Slice? && s.Slice? && cfg.strategy == AppendAdditive
    requires Reaches(vis, cfg, ds, d) && CanSet(ds) && !CanSet(ss)
    ensures DeepMerge(h, vis, cfg, ds, d, ss, s).err == Some(Panic)
    ensures DeepMerge(h, vis, cfg, ds, d, ss, s).heap == h
  {
    ReachesDispatch(h, vis, cfg, ds, d, ss, s);
  }

  /** The result of a unique strategy over the scan `all` (dst's elements, then src's): one
      element per name, strictly ascending by name, each the earliest (first) or latest element
      of the scan with its name; every name of the scan appears; unnamed elements and elements
      with an empty name are dropped. */
  ghost predicate UniqueByName(h: Heap, all: seq<Value>, xs: seq<Value>, first: bool)
  {
    NamedFrom(h, all, xs) && KeptIn(h, all, xs, first) && Ascending(h, xs)
    && CoversKeys(h, all, xs) && |xs| == |KeysOf(h, all)|
  }

  /** Every element of xs has a name, and the name occurs in the scan. */
  ghost predicate NamedFrom(h: Heap, all: seq<Value>, xs: seq<Value>)
  {
    forall i :: 0 <= i < |xs| ==> HasKey(h, xs[i]) && Key(h, xs[i]) in KeysOf(h, all)
  }

  /** Every element of xs is the element the strategy keeps for its name. */
  ghost predicate KeptIn(h: Heap, all: seq<Value>, xs: seq<Value>, first: bool)
    requires forall i :: 0 <= i < |xs| ==> HasKey(h, xs[i])
  {
    forall i :: 0 <= i < |xs| ==> exists j :: KeptFor(h, all, Key(h, xs[i]), j, first) && all[j] == xs[i]
  }

  /** The names of xs strictly ascend. */
  ghost predicate Ascending(h: Heap, xs: seq<Value>)
    requires forall i :: 0 <= i < |xs| ==> HasKey(h, xs[i])
  {
    forall i, j :: 0 <= i < j < |xs| ==> Less(Key(h, xs[i]), Key(h, xs[j]))
  }

  /** The element a unique strategy keeps for key k: the earliest (first seen) or the latest
      element of the scan with that key. */
  ghost predicate KeptFor(h: Heap, all: seq<Value>, k: string, j: int, first: bool)
  {
    if first then EarliestWith(h, all, k, j) else LatestWith(h, all, k, j)
  }

  /** What the filled set guarantees: its keys are the scan's names, each element is filed under
      its own name, and each is the element the strategy keeps for that name. */
  ghost predicate FilledFrom(h: Heap, all: seq<Value>, m: map<string, Value>, first: bool)
  {
    m.Keys == KeysOf(h, all)
    && (forall k :: k in m ==> HasKey(h, m[k]) && Key(h, m[k]) == k)
    && (forall k :: k in m ==> exists j :: KeptFor(h, all, k, j, first) && m[k] == all[j])
  }

  /** What the sorted read-back guarantees about xs, for the set m. */
  ghost predicate ReadBack(h: Heap, m: map<string, Value>, xs: seq<Value>)
  {
    |xs| == |m|
    && (forall i :: 0 <= i < |xs| ==> HasKey(h, xs[i]) && Key(h, xs[i]) in m && m[Key(h, xs[i])] == xs[i])
    && Ascending(h, xs)
  }

  /** Every element held in m is listed in xs. */
  ghost predicate Lists(m: map<string, Value>, xs: seq<Value>)
  {
    forall k :: k in m ==> m[k] in xs
  }

  /** Every name of the scan is the name of some element of xs. */
  ghost predicate CoversKeys(h: Heap, all: seq<Value>, xs: seq<Value>)
  {
    forall k :: k in KeysOf(h, all) ==> exists i :: 0 <= i < |xs| && HasKey(h, xs[i]) && Key(h, xs[i]) == k
  }

  lemma ReadBackOfSorted(h: Heap, m: map<string, Value>)
    requires forall k :: k in m ==> HasKey(h, m[k]) && Key(h, m[k]) == k
    ensures ReadBack(h, m, SortedValues(m)) && Lists(m, SortedValues(m))
  {
    SortedValuesOrdered(h, m);
  }

  lemma ReadBackKept(h: Heap, all: seq<Value>, m: map<string, Value>, xs: seq<Value>, first: bool)
    requires FilledFrom(h, all, m, first) && ReadBack(h, m, xs)
    ensures KeptIn(h, all, xs, first)
  {
    forall i | 0 <= i < |xs|
      ensures exists j :: KeptFor(h, all, Key(h, xs[i]), j, first) && all[j] == xs[i]
    {
      var k := Key(h, xs[i]);
      assert k in m && m[k] == xs[i];
      var j :| KeptFor(h, all, k, j, first) && m[k] == all[j];
    }
  }

  lemma ReadBackNamed(h: Heap, all: seq<Value>, m: map<string, Value>, xs: seq<Value>, first: bool)
    requires FilledFrom(h, all, m, first) && ReadBack(h, m, xs)
    ensures NamedFrom(h, all, xs)
  {
  }

  lemma ReadBackCovers(h: Heap, all: seq<Value>, m: map<string, Value>, xs: seq<Value>, first: bool)
    requires FilledFrom(h, all, m, first) && Lists(m, xs)
    ensures CoversKeys(h, all, xs)
  {
    forall k | k in KeysOf(h, all)
      ensures exists i :: 0 <= i < |xs| && HasKey(h, xs[i]) && Key(h, xs[i]) == k
    {
      assert k in m && m[k] in xs;
      var i :| 0 <= i < |xs| && xs[i] == m[k];
    }
  }

  lemma ReadBackCount(h: Heap, all: seq<Value>, m: map<string, Value>, xs: seq<Value>, first: bool)
    requires FilledFrom(h, all, m, first) && ReadBack(h, m, xs)
    ensures |xs| == |KeysOf(h, all)|
  {
    assert |m| == |m.Keys|;
  }

  lemma AddAllFilled(h: Heap, all: seq<Value>)
    ensures FilledFrom(h, all, AddAll(h, map[], all), true)
  {
    AddAllKeyed(h, all);
    AddAllKeys(h, all);
    AddAllKeepsFirst(h, all);
    FilledFromScan(h, all, AddAll(h, map[], all), true);
  }

  lemma UpsertAllFilled(h: Heap, all: seq<Value>)
    ensures FilledFrom(h, all, UpsertAll(h, map[], all), false)
  {
    UpsertAllKeyed(h, all);
    UpsertAllKeys(h, all);
    UpsertAllKeepsLast(h, all);
    FilledFromScan(h, all, UpsertAll(h, map[], all), false);
  }

  lemma FilledFromScan(h: Heap, all: seq<Value>, m: map<string, Value>, first: bool)
    requires m.Keys == KeysOf(h, all)
    requires forall k :: k in m ==> HasKey(h, m[k]) && Key(h, m[k]) == k
    requires first ==> forall k :: k in m ==> exists j :: EarliestWith(h, all, k, j) && m[k] == all[j]
    requires !first ==> forall k :: k in m ==> exists j :: LatestWith(h, all, k, j) && m[k] == all[j]
    ensures FilledFrom(h, all, m, first)
  {
    forall k | k in m ensures exists j :: KeptFor(h, all, k, j, first) && m[k] == all[j] {
      var j :| (if first then EarliestWith(h, all, k, j) else LatestWith(h, all, k, j)) && m[k] == all[j];
      assert KeptFor(h, all, k, j, first);
    }
  }

  /** A filled set read back in order is a unique-by-name result of the scan. */
  lemma UniqueOfSorted(h: Heap, all: seq<Value>, m: map<string, Value>, xs: seq<Value>, first: bool)
    requires FilledFrom(h, all, m, first) && ReadBack(h, m, xs) && Lists(m, xs)
    ensures UniqueByName(h, all, xs, first)
  {
    ReadBackCovers(h, all, m, xs, first);
    ReadBackNamed(h, all, m, xs, first);
    ReadBackKept(h, all, m, xs, first);
    ReadBackCount(h, all, m, xs, first);
  }

  lemma FirstSeenIsUnique(h: Heap, all: seq<Value>)
    ensures UniqueByName(h, all, SortedValues(AddAll(h, map[], all)), true)
  {
    var m := AddAll(h, map[], all);
    AddAllFilled(h, all);
    ReadBackOfSorted(h, m);
    UniqueOfSorted(h, all, m, SortedValues(m), true);
  }

  lemma LastSeenIsUnique(h: Heap, all: seq<Value>)
    ensures UniqueByName(h, all, SortedValues(UpsertAll(h, map[], all)), false)
  {
    var m := UpsertAll(h, map[], all);
    UpsertAllFilled(h, all);
    ReadBackOfSorted(h, m);
    UniqueOfSorted(h, all, m, SortedValues(m), false);
  }
  /** Either unique strategy's scan, read back in name order, is unique by name. */
  lemma FillIsUnique(h: Heap, all: seq<Value>, first: bool)
    ensures UniqueByName(h, all, SortedValues(Fill(h, map[], all, first)), first)
  {
    if first { FirstSeenIsUnique(h, all); } else { LastSeenIsUnique(h, all); }
  }


  /** UniqueFirstSeen and UniqueLastSeen on a settable slice: the destination is replaced by the
      de-duplicated, name-sorted merge of its own elements followed by the source's. */
  lemma UniqueRule(h: Heap, vis: set<VisitKey>, cfg: Config, p: Place, d: Value, ss: Slot, s: Value)
    requires d.Slice? && s.Slice? && cfg.strategy in {UniqueFirstSeen, UniqueLastSeen}
    requires Reaches(vis, cfg, Slot(Some(p), false), d) && ValueAt(h, p).Some?
    ensures var r := DeepMerge(h, vis, cfg, Slot(Some(p), false), d, ss, s);
            r.err.None?
            && exists xs :: WrittenAt(h, r.heap, p, Slice(d.ty, false, xs))
                            && UniqueByName(h, d.elems + s.elems, xs, cfg.strategy == UniqueFirstSeen)
  {
    var ds := Slot(Some(p), false);
    ReachesDispatch(h, vis, cfg, ds, d, ss, s);
    var all := d.elems + s.elems;
    var xs := SortedValues(Fill(h, map[], all, cfg.strategy == UniqueFirstSeen));
    FillIsUnique(h, all, cfg.strategy == UniqueFirstSeen);
    SetAtWrites(h, p, Slice(d.ty, false, xs));
  }

  /** A nil source pointer or interface changes nothing. */
  lemma NilSourceIsNoOp(h: Heap, vis: set<VisitKey>, cfg: Config, ds: Slot, d: Value, ss: Slot, s: Value)
    requires (d.Ptr? || d.Iface?) && Nillable(s) && IsNil(s) && Reaches(vis, cfg, ds, d)
    ensures DeepMerge(h, vis, cfg, ds, d, ss, s) == Res(h, Marked(vis, ds, d), None)
  {
    ReachesDispatch(h, vis, cfg, ds, d, ss, s);
  }

  /** A nil destination pointer or interface (or any, under Override) takes a non-nil source
      wholesale when it is settable, and is left alone otherwise. */
  lemma NilDestinationTakesSource(h: Heap, vis: set<VisitKey>, cfg: Config, ds: Slot, d: Value, ss: Slot, s: Value)
    requires (d.Ptr? || d.Iface?) && Nillable(s) && !IsNil(s) && (IsNil(d) || cfg.override)
    requires Reaches(vis, cfg, ds, d)
    ensures DeepMerge(h, vis, cfg, ds, d, ss, s).err.None?
    ensures !CanSet(ds) ==> DeepMerge(h, vis, cfg, ds, d, ss, s).heap == h
    ensures CanSet(ds) && ValueAt(h, ds.place.value).Some? ==>
              WrittenAt(h, DeepMerge(h, vis, cfg, ds, d, ss, s).heap, ds.place.value, s)
  {
    ReachesDispatch(h, vis, cfg, ds, d, ss, s);
    if CanSet(ds) && ValueAt(h, ds.place.value).Some? {
      SetAtWrites(h, ds.place.value, s);
    }
  }

  /** Two non-nil pointers, without Override, are merged through: the whole step is the merge of
      the cell src points to into the cell dst points to; dst itself is not set. A dangling dst
      pointer panics. */
  lemma PointersMergeTargets(h: Heap, vis: set<VisitKey>, cfg: Config, ds: Slot, d: Value, ss: Slot, s: Value)
    requires d.Ptr? && d.target.Some? && s.Ptr? && s.target.Some? && s.target.value in h
    requires !cfg.override && Reaches(vis, cfg, ds, d)
    ensures d.target.value in h ==>
              DeepMerge(h, vis, cfg, ds, d, ss, s)
              == RootMerge(h, Marked(vis, ds, d), cfg, d.target.value, ds.ro,
                           Slot(Some(Place(s.target.value, [])), ss.ro), h[s.target.value].val)
    ensures d.target.value !in h ==> DeepMerge(h, vis, cfg, ds, d, ss, s) == Res(h, Marked(vis, ds, d), Some(Panic))
  {
    var vis1 := Marked(vis, ds, d);
    var ss' := Slot(Some(Place(s.target.value, [])), ss.ro);
    ReachesDispatch(h, vis, cfg, ds, d, ss, s);
    assert SrcElem(h, ss, s) == Some((ss', h[s.target.value].val));
    assert Dispatch(h, vis1, cfg, ds, d, ss, s) == PointerRule(h, vis1, cfg, ds, d, ss, s)
        == MergeInto(h, vis1, cfg, ds, d, ss', h[s.target.value].val);
  }

  /** A non-nil destination pointer or interface whose element type differs from a non-pointer
      source's type is refused with ErrDifferentArgumentsTypes, and nothing is written. */
  lemma PointerTypeMismatch(h: Heap, vis: set<VisitKey>, cfg: Config, ds: Slot, d: Value, ss: Slot, s: Value)
    requires (d.Ptr? || d.Iface?) && !IsNil(d) && !cfg.override && Reaches(vis, cfg, ds, d)
    requires Nillable(s) && !IsNil(s) && !s.Ptr? && !s.Iface? && ElemType(h, d) != Some(s.ty)
    ensures DeepMerge(h, vis, cfg, ds, d, ss, s) == Res(h, Marked(vis, ds, d), Some(ErrDifferentArgumentsTypes))
  {
    ReachesDispatch(h, vis, cfg, ds, d, ss, s);
  }

  /** The struct walk stops at the first field whose merge fails: that error is returned and
      the writes made for the earlier fields stay in place. */
  lemma FieldErrorAborts(h: Heap, vis: set<VisitKey>, cfg: Config, ds: Slot, d: Value, ss: Slot, s: Value, i: nat)
    requires d.Record? && s.Record? && i < |d.fields| && i < |s.fields|
    requires DeepMerge(h, vis, cfg, FieldSlot(ds, i, d.fields[i]), d.fields[i].val,
                       FieldSlot(ss, i, s.fields[i]), s.fields[i].val).err.Some?
    ensures MergeFields(h, vis, cfg, ds, d, ss, s, i)
         == DeepMerge(h, vis, cfg, FieldSlot(ds, i, d.fields[i]), d.fields[i].val,
                      FieldSlot(ss, i, s.fields[i]), s.fields[i].val)
  {
  }
}
