/**
 * The deep-merge engine: deepMerge and mergeSlice walk a destination and a source value of the
 * same type and write into the destination, as the Config directs. Each reflect.Value the engine
 * handles is a Slot (where the value lives, if it is addressable, and whether it was reached
 * through an unexported field) together with the value read there. Writes go to the arena; the
 * visited table is a set of (place, type) keys.
 */
module MergeEngine {
  import opened Common
  import opened Values
  import opened NamedSets
  import opened MergeConfig

  datatype MergeError = ErrDifferentArgumentsTypes | Panic | TransformerError(msg: string)

  /** One entry of the visited table: an addressable place and the type it was visited at. */
  datatype VisitKey = VisitKey(place: Place, ty: TypeTag)

  /** The state after a merge step: the arena, the visited table, and the error, if any. */
  datatype Res = Res(heap: Heap, visited: set<VisitKey>, err: Option<MergeError>)

  /** Where a reflect.Value lives: its place when it is addressable, and whether it was obtained
      through an unexported field (read-only: it may be read but never set). */
  datatype Slot = Slot(place: Option<Place>, ro: bool)

  /** reflect.Value.CanSet: addressable and not read-only. */
  predicate CanSet(s: Slot)
  {
    s.place.Some? && !s.ro
  }

  /** The slot of field i of a struct in slot s (reflect.Value.Field). */
  function FieldSlot(s: Slot, i: nat, f: Field): Slot
  {
    Slot(if s.place.Some? then Some(Place(s.place.value.cell, s.place.value.path + [i])) else None,
         s.ro || !f.exported)
  }

  /** The kinds IsNil accepts. */
  predicate Nillable(v: Value)
  {
    v.Ptr? || v.Iface? || v.MapV? || v.Slice?
  }

  /** reflect.Value.IsNil: a non-nil empty slice or map is not nil. */
  predicate IsNil(v: Value)
    ensures IsNil(v) ==> v.Ptr? || v.Iface? || v.MapV? || v.Slice?
    ensures (v.Ptr? || v.Iface?) ==> (IsNil(v) <==> IsEmpty(v))
  {
    match v
    case Ptr(_, t) => t.None?
    case Iface(_, d) => d.None?
    case MapV(_, n, _) => n
    case Slice(_, n, _) => n
    case _ => false
  }

  /** hasExportedField, as a property: some field is exported, or is an embedded struct that
      has an exported field itself. */
  predicate HasVisibleField(v: Value)
    decreases v, 1
  {
    v.Record? && exists i :: 0 <= i < |v.fields| && Contributes(v.fields[i])
  }

  /** What one field contributes: an embedded struct its own exported fields, any other field
      whether it is exported. */
  predicate Contributes(f: Field)
    decreases f, 0
  {
    if f.embedded && f.val.Record? then HasVisibleField(f.val) else f.exported
  }

  /** hasExportedField: the loop over the fields, or-ing in each field's contribution. */
  method HasExportedField(dst: Value) returns (exported: bool)
    requires dst.Record?
    ensures exported == HasVisibleField(dst)
  {
    exported := false;
    var i := 0;
    var n := |dst.fields|;
    while i < n
      invariant 0 <= i <= n
      invariant exported <==> exists j :: 0 <= j < i && Contributes(dst.fields[j])
    {
      var field := dst.fields[i];
      if field.embedded && field.val.Record? {
        if !exported {
          exported := HasExportedField(field.val);
        }
      } else {
        exported := exported || field.exported;
      }
      i := i + 1;
    }
  }

  /** The position of a key among map entries (reflect.Value.MapIndex). */
  function Lookup(es: seq<Entry>, k: string): (r: Option<nat>)
    ensures r.Some? ==> r.value < |es| && es[r.value].key == k
    ensures r.None? ==> forall j :: 0 <= j < |es| ==> es[j].key != k
    ensures r.Some? ==> forall j :: 0 <= j < r.value ==> es[j].key != k
  {
    if es == [] then None
    else if es[0].key == k then Some(0)
    else match Lookup(es[1..], k)
      case None => None
      case Some(j) => Some(j + 1)
  }

  /** reflect.Value.SetMapIndex on the entries: replace the key's value, or add the key. */
  function Assign(es: seq<Entry>, k: string, v: Value): (r: seq<Entry>)
    ensures Lookup(r, k).Some? && r[Lookup(r, k).value] == Entry(k, v)
    ensures forall e :: e in es && e.key != k ==> e in r
    ensures forall e :: e in r ==> e in es || e == Entry(k, v)
  {
    match Lookup(es, k)
    case Some(j) =>
      LookupFirst(es[j := Entry(k, v)], k, j);
      UpdateKeeps(es, j, Entry(k, v));
      es[j := Entry(k, v)]
    case None =>
      LookupFirst(es + [Entry(k, v)], k, |es|);
      es + [Entry(k, v)]
  }

  lemma UpdateKeeps(es: seq<Entry>, j: nat, x: Entry)
    requires j < |es|
    ensures forall e :: e in es && e.key != es[j].key ==> e in es[j := x]
  {
    forall e | e in es && e.key != es[j].key
      ensures e in es[j := x]
    {
      var i :| 0 <= i < |es| && es[i] == e;
      assert es[j := x][i] == e;
    }
  }

  lemma {:induction false} LookupFirst(es: seq<Entry>, k: string, j: nat)
    requires j < |es| && es[j].key == k
    requires forall i :: 0 <= i < j ==> es[i].key != k
    ensures Lookup(es, k) == Some(j)
  {
    if j > 0 {
      LookupFirst(es[1..], k, j - 1);
    }
  }

  // ---------------------------------------------------------------------------------------------
  // Termination: every recursive step either adds an unvisited cell root to the visited table
  // or works on a strictly smaller part of the destination value it started from.

  function CellKeys(h: Heap): set<VisitKey>
  {
    set a | a in h :: VisitKey(Place(a, []), h[a].ty)
  }

  function Measure(h: Heap, vis: set<VisitKey>): nat
  {
    |CellKeys(h) - vis|
  }

  /** A merge step keeps every cell and its type, and only adds to the visited table. */
  ghost predicate Frame(h: Heap, vis: set<VisitKey>, r: Res)
  {
    r.heap.Keys == h.Keys && (forall a :: a in h ==> r.heap[a].ty == h[a].ty) && vis <= r.visited
  }

  /** Frames compose: two steps that each keep the cells and their types keep them together. */
  lemma FrameTrans(h1: Heap, v1: set<VisitKey>, h2: Heap, v2: set<VisitKey>, r: Res)
    requires Frame(h1, v1, Res(h2, v2, None)) && Frame(h2, v2, r)
    ensures Frame(h1, v1, r)
  {
  }

  lemma SubsetCard<T>(a: set<T>, b: set<T>)
    requires a <= b
    ensures |a| <= |b|
  {
    assert b == a + (b - a);
  }

  lemma MeasureMono(h: Heap, vis: set<VisitKey>, h': Heap, vis': set<VisitKey>)
    requires h'.Keys == h.Keys && (forall a :: a in h ==> h'[a].ty == h[a].ty) && vis <= vis'
    ensures Measure(h', vis') <= Measure(h, vis)
  {
    assert CellKeys(h') == CellKeys(h);
    SubsetCard(CellKeys(h) - vis', CellKeys(h) - vis);
  }

  lemma MeasureDrops(h: Heap, vis: set<VisitKey>, a: Addr)
    requires a in h && VisitKey(Place(a, []), h[a].ty) !in vis
    ensures Measure(h, vis + {VisitKey(Place(a, []), h[a].ty)}) < Measure(h, vis)
  {
    var k := VisitKey(Place(a, []), h[a].ty);
    assert CellKeys(h) - (vis + {k}) == (CellKeys(h) - vis) - {k};
  }

  // ---------------------------------------------------------------------------------------------
  // Writes

  function Done(h: Heap, vis: set<VisitKey>): Res
  {
    Res(h, vis, None)
  }

  /** reflect.Value.Set: a settable value is overwritten; any other one panics. */
  ghost function SetValue(h: Heap, vis: set<VisitKey>, s: Slot, v: Value): (r: Res)
    ensures Frame(h, vis, r) && r.visited == vis
    ensures r.err.None? <==> CanSet(s)
    ensures CanSet(s) ==> r.heap == SetAt(h, s.place.value, v)
  {
    if CanSet(s) then Res(SetAt(h, s.place.value, v), vis, None) else Res(h, vis, Some(Panic))
  }

  /** The rule for scalars and structs without exported fields: copy a non-empty source into a
      settable destination when overriding or when the destination is empty. */
  ghost function CopyRule(h: Heap, vis: set<VisitKey>, cfg: Config, ds: Slot, d: Value, s: Value): (r: Res)
    ensures Frame(h, vis, r) && r.visited == vis && r.err.None?
    ensures r.heap == (if CanSet(ds) && !IsEmpty(s) && (cfg.override || IsEmpty(d))
                       then SetAt(h, ds.place.value, s) else h)
  {
    if CanSet(ds) && !IsEmpty(s) && (cfg.override || IsEmpty(d)) then SetValue(h, vis, ds, s)
    else Done(h, vis)
  }

  /** The rule for a nil destination pointer or interface, or any pointer under Override: take
      the source wholesale when settable and (overriding or the destination is empty). */
  ghost function TakeRule(h: Heap, vis: set<VisitKey>, cfg: Config, ds: Slot, d: Value, s: Value): (r: Res)
    ensures Frame(h, vis, r) && r.visited == vis && r.err.None?
    ensures r.heap == (if CanSet(ds) && (cfg.override || IsEmpty(d)) then SetAt(h, ds.place.value, s) else h)
  {
    if CanSet(ds) && (cfg.override || IsEmpty(d)) then SetValue(h, vis, ds, s) else Done(h, vis)
  }

  /** mergeSlice: AppendAdditive writes dst ++ src into the source slot (new aliases src) and then
      into the destination; the unique strategies keep one element per name, sorted by name,
      scanning dst before src; any other strategy copies the source. */
  ghost function MergeSlice(h: Heap, vis: set<VisitKey>, cfg: Config, ds: Slot, d: Value, ss: Slot, s: Value): (r: Res)
    ensures Frame(h, vis, r) && r.visited == vis
  {
    if !d.Slice? || !s.Slice? then Res(h, vis, Some(Panic))
    else if cfg.strategy == AppendAdditive then
      var joined := Appended(d, s);
      var r1 := SetValue(h, vis, ss, joined);
      if r1.err.Some? then r1 else SetValue(r1.heap, vis, ds, joined)
    else if cfg.strategy == UniqueFirstSeen || cfg.strategy == UniqueLastSeen then
      var unique := Fill(h, map[], d.elems + s.elems, cfg.strategy == UniqueFirstSeen);
      SetValue(h, vis, ds, Slice(d.ty, false, SortedValues(unique)))
    else SetValue(h, vis, ds, s)
  }

  /** reflect.AppendSlice(dst, src): dst's elements then src's; appending nothing to a nil slice
      leaves it nil. */
  function Appended(d: Value, s: Value): (r: Value)
    requires d.Slice? && s.Slice?
    ensures r.Slice? && r.ty == d.ty && r.elems == d.elems + s.elems
    ensures r.isNil <==> d.isNil && s.elems == []
  {
    Slice(d.ty, d.isNil && s.elems == [], d.elems + s.elems)
  }

  /** The copy the map branch makes of a slice element under Overwrite (reflect.MakeSlice, then
      AppendSlice): a new, non-nil slice with the same elements, held as the element was held. */
  function SliceCopy(v: Value): (r: Value)
    requires DynamicKind(v) == KSlice
    ensures DynamicKind(r) == KSlice && r.ty == v.ty && !IsNil(r)
  {
    match v
    case Slice(t, _, xs) => Slice(t, false, xs)
    case Iface(t, Some(Slice(u, _, xs))) => Iface(t, Some(Slice(u, false, xs)))
  }

  /** The set after one scan: Add keeps the first element per name, Upsert the last. */
  function Fill(h: Heap, m: map<string, Value>, xs: seq<Value>, firstSeen: bool): (r: map<string, Value>)
    ensures m.Keys <= r.Keys
    ensures firstSeen ==> forall k :: k in m ==> r[k] == m[k]
    ensures forall k :: k in r ==> (k in m && r[k] == m[k]) || r[k] in xs
  {
    if firstSeen then AddAll(h, m, xs) else UpsertAll(h, m, xs)
  }

  /** Two scans in a row are one scan over the concatenation. */
  lemma {:induction false} FillAppend(h: Heap, m: map<string, Value>, xs: seq<Value>, ys: seq<Value>, firstSeen: bool)
    ensures Fill(h, Fill(h, m, xs, firstSeen), ys, firstSeen) == Fill(h, m, xs + ys, firstSeen)
    decreases |ys|
  {
    if ys != [] {
      var n := |ys| - 1;
      FillAppend(h, m, xs, ys[..n], firstSeen);
      assert (xs + ys)[..|xs| + n] == xs + ys[..n];
      assert (xs + ys)[|xs| + n] == ys[n];
    } else {
      assert xs + ys == xs;
    }
  }

  /** One of mergeSlice's loops: Add (or Upsert) every element, in order. */
  method FillSet(unique: NamedSet, h: Heap, xs: seq<Value>, firstSeen: bool)
    modifies unique
    ensures unique.items == Fill(h, old(unique.items), xs, firstSeen)
  {
    ghost var m0 := unique.items;
    var i := 0;
    while i < |xs|
      invariant 0 <= i <= |xs|
      invariant unique.items == Fill(h, m0, xs[..i], firstSeen)
    {
      assert xs[..i + 1][..i] == xs[..i];
      if firstSeen {
        var _ := unique.Add(h, xs[i]);
      } else {
        var _ := unique.Upsert(h, xs[i]);
      }
      i := i + 1;
    }
    assert xs[..i] == xs;
  }

  /** The unique cases of mergeSlice: a NamedSet filled from dst's elements and then src's, read
      back sorted by name into a fresh slice. */
  method UniqueMerge(h: Heap, dst: seq<Value>, src: seq<Value>, firstSeen: bool) returns (r: seq<Value>)
    ensures r == SortedValues(Fill(h, map[], dst + src, firstSeen))
  {
    var unique := new NamedSet();
    FillSet(unique, h, dst, firstSeen);
    FillSet(unique, h, src, firstSeen);
    FillAppend(h, map[], dst, src, firstSeen);
    var sorted := unique.ToSortedSlice();
    r := CopyInto(sorted);
  }

  /** `reflect.Append(sliceValue, v)` for each element in turn, into a fresh slice. */
  method CopyInto(xs: seq<Value>) returns (r: seq<Value>)
    ensures r == xs
  {
    r := [];
    var k := 0;
    while k < |xs|
      invariant 0 <= k <= |xs|
      invariant r == xs[..k]
    {
      r := r + [xs[k]];
      k := k + 1;
    }
  }

  /** SetMapIndex on the destination map: the map's new entries are stored at its place; a map
      reached through an unexported field panics. */
  ghost function StoreMap(h: Heap, vis: set<VisitKey>, ds: Slot, d: Value, cur: seq<Entry>): (r: Res)
    requires d.MapV?
    ensures Frame(h, vis, r) && r.visited == vis
  {
    if ds.ro then Res(h, vis, Some(Panic))
    else if ds.place.Some? then Res(SetAt(h, ds.place.value, MapV(d.ty, false, cur)), vis, None)
    else Done(h, vis)
  }

  /** The element a pointer or interface source refers to (reflect.Value.Elem). */
  function SrcElem(h: Heap, ss: Slot, s: Value): Option<(Slot, Value)>
  {
    match s
    case Ptr(_, Some(b)) => if b in h then Some((Slot(Some(Place(b, [])), ss.ro), h[b].val)) else None
    case Iface(_, Some(v)) => Some((Slot(None, ss.ro), v))
    case _ => None
  }

  /** The type of the element a non-nil pointer or interface destination refers to. */
  function ElemType(h: Heap, d: Value): Option<TypeTag>
  {
    match d
    case Ptr(_, Some(a)) => if a in h then Some(h[a].ty) else None
    case Iface(_, Some(v)) => Some(v.ty)
    case _ => None
  }

  // ---------------------------------------------------------------------------------------------
  // deepMerge, split along its steps

  /** deepMerge on the cell a destination pointer refers to. */
  ghost function RootMerge(h: Heap, vis: set<VisitKey>, cfg: Config, a: Addr, ro: bool, ss: Slot, s: Value): (r: Res)
    requires a in h
    ensures Frame(h, vis, r)
    decreases Measure(h, vis), 0, 0, 0, 0
  {
    var d := h[a].val;
    var key := VisitKey(Place(a, []), h[a].ty);
    if IsEmpty(d) && cfg.skipEmptyFields then Done(h, vis)
    else if key in vis then Done(h, vis)
    else
      MeasureDrops(h, vis, a);
      Transform(h, vis + {key}, cfg, Slot(Some(Place(a, [])), ro), d, ss, s)
  }

  /** deepMerge on a field of a struct, an element of a map, or the value inside an interface. */
  ghost function DeepMerge(h: Heap, vis: set<VisitKey>, cfg: Config, ds: Slot, d: Value, ss: Slot, s: Value): (r: Res)
    ensures Frame(h, vis, r)
    decreases Measure(h, vis), Size(d), 6, 0, 0
  {
    if IsEmpty(d) && cfg.skipEmptyFields then Done(h, vis)
    else if ds.place.None? then Transform(h, vis, cfg, ds, d, ss, s)
    else
      var key := VisitKey(ds.place.value, d.ty);
      if key in vis then Done(h, vis)
      else
        MeasureMono(h, vis, h, vis + {key});
        Transform(h, vis + {key}, cfg, ds, d, ss, s)
  }

  /** A transformer registered for the destination's type replaces the merge of a non-empty dst. */
  ghost function Transform(h: Heap, vis: set<VisitKey>, cfg: Config, ds: Slot, d: Value, ss: Slot, s: Value): (r: Res)
    ensures Frame(h, vis, r)
    decreases Measure(h, vis), Size(d), 5, 0, 0
  {
    if cfg.transformers.Some? && !IsEmpty(d) && cfg.transformers.value.lookup(d.ty).Some? then
      match cfg.transformers.value.lookup(d.ty).value(d, s)
      case Transformed(v) => if v == d then Done(h, vis) else SetValue(h, vis, ds, v)
      case TransformFailed(m) => Res(h, vis, Some(TransformerError(m)))
    else Dispatch(h, vis, cfg, ds, d, ss, s)
  }

  /** The switch on the destination's kind. */
  ghost function Dispatch(h: Heap, vis: set<VisitKey>, cfg: Config, ds: Slot, d: Value, ss: Slot, s: Value): (r: Res)
    ensures Frame(h, vis, r)
    decreases Measure(h, vis), Size(d), 4, 0, 0
  {
    match d
    case Record(_, _) =>
      if HasVisibleField(d) then MergeFields(h, vis, cfg, ds, d, ss, s, 0)
      else CopyRule(h, vis, cfg, ds, d, s)
    case MapV(_, _, _) => MergeMap(h, vis, cfg, ds, d, ss, s)
    case Slice(_, _, _) =>
      if !CanSet(ds) then Done(h, vis)
      else if cfg.strategy == Overwrite then SetValue(h, vis, ds, s)
      else MergeSlice(h, vis, cfg, ds, d, ss, s)
    case Ptr(_, _) => PointerRule(h, vis, cfg, ds, d, ss, s)
    case Iface(_, _) => PointerRule(h, vis, cfg, ds, d, ss, s)
    case Scalar(_, _) => CopyRule(h, vis, cfg, ds, d, s)
  }

  /** The struct walk: field by field, stopping at the first error. */
  ghost function MergeFields(h: Heap, vis: set<VisitKey>, cfg: Config, ds: Slot, d: Value, ss: Slot, s: Value, i: nat): (r: Res)
    requires d.Record? && i <= |d.fields|
    ensures Frame(h, vis, r)
    decreases Measure(h, vis), Size(d), 2, |d.fields| - i, 0
  {
    if i == |d.fields| then Done(h, vis)
    else if !s.Record? || i >= |s.fields| then Res(h, vis, Some(Panic))
    else
      FieldSmaller(d.fields, i);
      var r1 := DeepMerge(h, vis, cfg, FieldSlot(ds, i, d.fields[i]), d.fields[i].val,
                          FieldSlot(ss, i, s.fields[i]), s.fields[i].val);
      if r1.err.Some? then r1
      else
        MeasureMono(h, vis, r1.heap, r1.visited);
        MergeFields(r1.heap, r1.visited, cfg, ds, d, ss, s, i + 1)
  }

  /** The pointer and interface branch. */
  ghost function PointerRule(h: Heap, vis: set<VisitKey>, cfg: Config, ds: Slot, d: Value, ss: Slot, s: Value): (r: Res)
    requires d.Ptr? || d.Iface?
    ensures Frame(h, vis, r)
    decreases Measure(h, vis), Size(d), 3, 0, 0
  {
    if !Nillable(s) then Res(h, vis, Some(Panic))
    else if IsNil(s) then Done(h, vis)
    else if IsNil(d) || cfg.override then TakeRule(h, vis, cfg, ds, d, s)
    else if s.Iface? then
      MergeInto(h, vis, cfg, ds, d, Slot(None, ss.ro), s.dyn.value)
    else if s.Ptr? then
      match SrcElem(h, ss, s)
      case Some((ss', s')) => MergeInto(h, vis, cfg, ds, d, ss', s')
      case None => Res(h, vis, Some(Panic))
    else if ElemType(h, d) == Some(s.ty) then MergeInto(h, vis, cfg, ds, d, ss, s)
    else Res(h, vis, Some(ErrDifferentArgumentsTypes))
  }

  /** deepMerge(dst.Elem(), ...): into the cell a pointer names, or the value an interface holds
      (which is not addressable). */
  ghost function MergeInto(h: Heap, vis: set<VisitKey>, cfg: Config, ds: Slot, d: Value, ss: Slot, s: Value): (r: Res)
    requires (d.Ptr? && d.target.Some?) || (d.Iface? && d.dyn.Some?)
    ensures Frame(h, vis, r)
    decreases Measure(h, vis), Size(d), 2, 0, 0
  {
    if d.Ptr? then
      if d.target.value in h then RootMerge(h, vis, cfg, d.target.value, ds.ro, ss, s)
      else Res(h, vis, Some(Panic))
    else DeepMerge(h, vis, cfg, Slot(None, ds.ro), d.dyn.value, ss, s)
  }

  /** The map branch: make a nil destination map when the source is not nil, then go over the
      source's keys. */
  ghost function MergeMap(h: Heap, vis: set<VisitKey>, cfg: Config, ds: Slot, d: Value, ss: Slot, s: Value): (r: Res)
    requires d.MapV?
    ensures Frame(h, vis, r)
    decreases Measure(h, vis), Size(d), 3, 0, 0
  {
    if !s.MapV? then Res(h, vis, Some(Panic))
    else if d.isNil && !s.isNil then
      var r1 := SetValue(h, vis, ds, MapV(d.ty, false, []));
      if r1.err.Some? then r1
      else
        MeasureMono(h, vis, r1.heap, r1.visited);
        MergeEntries(r1.heap, vis, cfg, ds, d, [], ss, s, 0)
    else MergeEntries(h, vis, cfg, ds, d, d.entries, ss, s, 0)
  }

  /** One source key of the map branch, up to its recursive merge or slice copy. The destination
      element is read from the entries the map held on entry: keys being distinct, no earlier
      key of the loop has changed it. */
  ghost function MergeEntries(h: Heap, vis: set<VisitKey>, cfg: Config, ds: Slot, d: Value, cur: seq<Entry>,
                              ss: Slot, s: Value, i: nat): (r: Res)
    requires d.MapV? && s.MapV? && i <= |s.entries|
    ensures Frame(h, vis, r)
    decreases Measure(h, vis), Size(d), 2, |s.entries| - i, 1
  {
    if i == |s.entries| then Done(h, vis)
    else
      var e := s.entries[i];
      var present := Lookup(cur, e.key).Some?;
      if (e.val.MapV? || e.val.Iface? || e.val.Slice?) && IsNil(e.val) then
        MergeEntries(h, vis, cfg, ds, d, cur, ss, s, i + 1)
      else if ss.ro then
        MergeEntries(h, vis, cfg, ds, d, cur, ss, s, i + 1)
      else if DynamicKind(e.val) in {KStruct, KPtr, KMap} then
        match Lookup(d.entries, e.key)
        case None => AfterEntry(h, vis, cfg, ds, d, cur, present, ss, s, i)
        case Some(j) =>
          EntrySmaller(d.entries, j);
          var r1 := DeepMerge(h, vis, cfg, Slot(None, ds.ro), d.entries[j].val, Slot(None, ss.ro), e.val);
          if r1.err.Some? then r1
          else
            MeasureMono(h, vis, r1.heap, r1.visited);
            AfterEntry(r1.heap, r1.visited, cfg, ds, d, cur, present, ss, s, i)
      else if DynamicKind(e.val) == KSlice then
        if cfg.strategy != Overwrite then Res(h, vis, Some(Panic))
        else
          var cur1 := Assign(cur, e.key, SliceCopy(e.val));
          var r1 := StoreMap(h, vis, ds, d, cur1);
          if r1.err.Some? then r1
          else
            MeasureMono(h, vis, r1.heap, r1.visited);
            AfterEntry(r1.heap, r1.visited, cfg, ds, d, cur1, present, ss, s, i)
      else AfterEntry(h, vis, cfg, ds, d, cur, present, ss, s, i)
  }

  /** The rest of one source key: a nested map already present is left to the recursive merge;
      otherwise the source element is stored when overriding, when the key was absent, or when the
      whole destination map is empty. */
  ghost function AfterEntry(h: Heap, vis: set<VisitKey>, cfg: Config, ds: Slot, d: Value, cur: seq<Entry>,
                            present: bool, ss: Slot, s: Value, i: nat): (r: Res)
    requires d.MapV? && s.MapV? && i < |s.entries|
    ensures Frame(h, vis, r)
    decreases Measure(h, vis), Size(d), 2, |s.entries| - i, 0
  {
    var e := s.entries[i];
    if present && DynamicKind(e.val) == KMap then
      MergeEntries(h, vis, cfg, ds, d, cur, ss, s, i + 1)
    else if cfg.override || !present || |cur| == 0 then
      var cur1 := Assign(cur, e.key, e.val);
      var r1 := StoreMap(h, vis, ds, d, cur1);
      if r1.err.Some? then r1
      else
        MeasureMono(h, vis, r1.heap, r1.visited);
        MergeEntries(r1.heap, r1.visited, cfg, ds, d, cur1, ss, s, i + 1)
    else MergeEntries(h, vis, cfg, ds, d, cur, ss, s, i + 1)
  }

  /** merge(dst, src, opts...): dst and src are pointers to the cells dst and src; the options are
      applied in order to a zero Config, and values of different types are refused before any
      write. */
  ghost function MergeValues(h: Heap, dst: Addr, src: Addr, opts: seq<ConfigOption>): (r: Res)
    requires dst in h && src in h
    ensures Frame(h, {}, r)
    ensures h[dst].ty != h[src].ty ==> r == Res(h, {}, Some(ErrDifferentArgumentsTypes))
  {
    var cfg := ApplyOptions(Default, opts);
    if h[dst].ty != h[src].ty then Res(h, {}, Some(ErrDifferentArgumentsTypes))
    else RootMerge(h, {}, cfg, dst, false, Slot(Some(Place(src, [])), false), h[src].val)
  }
}
