/**
 * The rules of deepMerge's map branch, for a source map holding one key: whether the key's
 * element is stored into the destination map, merged in place, skipped, or refused with a panic.
 * The loop over a larger source applies the same step key after key.
 */
module MapRules {
  import opened Common
  import opened Values
  import opened MergeConfig
  import opened MergeEngine
  import opened MergeRules

  /** The setting of every rule below: a settable destination map at p that deepMerge reaches,
      and a non-nil source map with a single key. A nil destination map has no entries. */
  predicate OneKeyMerge(h: Heap, vis: set<VisitKey>, cfg: Config, p: Place, d: Value, ss: Slot, s: Value)
  {
    d.MapV? && s.MapV? && !s.isNil && |s.entries| == 1 && (d.isNil ==> d.entries == [])
    && ValueAt(h, p) == Some(d) && !ss.ro && Reaches(vis, cfg, Slot(Some(p), false), d)
  }

  /** The source element skipped by the nil test: a nil map, interface or slice. */
  predicate NilElement(v: Value)
  {
    (v.MapV? || v.Iface? || v.Slice?) && IsNil(v)
  }

  /** Two writes at the same place read as the second one. */
  lemma WrittenTwice(h: Heap, h1: Heap, h2: Heap, p: Place, v1: Value, v2: Value)
    requires WrittenAt(h, h1, p, v1) && WrittenAt(h1, h2, p, v2)
    ensures WrittenAt(h, h2, p, v2)
  {
  }

  /** Storing twice under one key leaves the second value. */
  lemma AssignTwice(es: seq<Entry>, k: string, a: Value, b: Value)
    ensures Assign(Assign(es, k, a), k, b) == Assign(es, k, b)
  {
    match Lookup(es, k)
    case Some(j) =>
      LookupFirst(es[j := Entry(k, a)], k, j);
      assert es[j := Entry(k, a)][j := Entry(k, b)] == es[j := Entry(k, b)];
    case None =>
      LookupFirst(es + [Entry(k, a)], k, |es|);
      assert (es + [Entry(k, a)])[|es| := Entry(k, b)] == es + [Entry(k, b)];
  }

  /** Storing under a key the entries do not hold appends the entry. */
  lemma AssignAbsent(es: seq<Entry>, k: string, v: Value)
    requires Lookup(es, k).None?
    ensures Assign(es, k, v) == es + [Entry(k, v)]
  {
  }

  /** The map branch up to its loop: a nil destination is first set to a new empty map. */
  lemma MapStart(h: Heap, vis: set<VisitKey>, cfg: Config, p: Place, d: Value, ss: Slot, s: Value)
    returns (h0: Heap)
    requires OneKeyMerge(h, vis, cfg, p, d, ss, s)
    ensures var ds := Slot(Some(p), false);
            DeepMerge(h, vis, cfg, ds, d, ss, s) == MergeEntries(h0, Marked(vis, ds, d), cfg, ds, d, d.entries, ss, s, 0)
    ensures WrittenAt(h, h0, p, if d.isNil then MapV(d.ty, false, []) else d)
    ensures !d.isNil ==> h0 == h
  {
    var ds := Slot(Some(p), false);
    ReachesDispatch(h, vis, cfg, ds, d, ss, s);
    if d.isNil {
      h0 := SetAt(h, p, MapV(d.ty, false, []));
      SetAtWrites(h, p, MapV(d.ty, false, []));
    } else {
      h0 := h;
    }
  }

  /** One stored entry at the end of the loop: the map is written with the new entries. */
  lemma StoreLast(h: Heap, vis: set<VisitKey>, cfg: Config, p: Place, d: Value, cur: seq<Entry>, ss: Slot, s: Value)
    requires d.MapV? && s.MapV? && |s.entries| == 1 && ValueAt(h, p).Some?
    ensures var ds := Slot(Some(p), false);
            var r := StoreMap(h, vis, ds, d, cur);
            r.err.None? && WrittenAt(h, r.heap, p, MapV(d.ty, false, cur))
            && MergeEntries(r.heap, r.visited, cfg, ds, d, cur, ss, s, 1) == Res(r.heap, vis, None)
  {
    SetAtWrites(h, p, MapV(d.ty, false, cur));
  }

  /** A key the destination does not hold is stored, whatever its element: the element itself
      ends up under the key (a slice element is first stored as a copy under Overwrite, then
      replaced by the element), unless it is a slice and the strategy is not Overwrite. A nil
      destination map is made first. */
  lemma MapEntryStored(h: Heap, vis: set<VisitKey>, cfg: Config, p: Place, d: Value, ss: Slot, s: Value)
    requires OneKeyMerge(h, vis, cfg, p, d, ss, s)
    requires Lookup(d.entries, s.entries[0].key).None? && !NilElement(s.entries[0].val)
    requires DynamicKind(s.entries[0].val) == KSlice ==> cfg.strategy == Overwrite
    ensures var r := DeepMerge(h, vis, cfg, Slot(Some(p), false), d, ss, s);
            r.err.None? && WrittenAt(h, r.heap, p, MapV(d.ty, false, d.entries + [s.entries[0]]))
  {
    var ds := Slot(Some(p), false);
    var vis1 := Marked(vis, ds, d);
    var e := s.entries[0];
    var cur := d.entries;
    var h0 := MapStart(h, vis, cfg, p, d, ss, s);
    var m0 := if d.isNil then MapV(d.ty, false, []) else d;
    AssignAbsent(cur, e.key, e.val);
    if DynamicKind(e.val) == KSlice {
      var cur1 := Assign(cur, e.key, SliceCopy(e.val));
      AssignAbsent(cur, e.key, SliceCopy(e.val));
      StoreLast(h0, vis1, cfg, p, d, cur1, ss, s);
      var h1 := SetAt(h0, p, MapV(d.ty, false, cur1));
      WrittenTwice(h, h0, h1, p, m0, MapV(d.ty, false, cur1));
      AssignTwice(cur, e.key, SliceCopy(e.val), e.val);
      StoreLast(h1, vis1, cfg, p, d, Assign(cur1, e.key, e.val), ss, s);
      WrittenTwice(h, h1, SetAt(h1, p, MapV(d.ty, false, cur + [e])), p, MapV(d.ty, false, cur1),
                   MapV(d.ty, false, cur + [e]));
    } else {
      StoreLast(h0, vis1, cfg, p, d, cur + [e], ss, s);
      WrittenTwice(h, h0, SetAt(h0, p, MapV(d.ty, false, cur + [e])), p, m0, MapV(d.ty, false, cur + [e]));
    }
  }

  /** A key the destination already holds, with a string, number or boolean element: replaced
      under Override, and otherwise kept, even when the element held is empty, because the
      emptiness test looks at the whole destination map, which holds the key. */
  lemma MapPresentScalar(h: Heap, vis: set<VisitKey>, cfg: Config, p: Place, d: Value, ss: Slot, s: Value)
    requires OneKeyMerge(h, vis, cfg, p, d, ss, s)
    requires Lookup(d.entries, s.entries[0].key).Some?
    requires DynamicKind(s.entries[0].val) in {KString, KInt, KBool}
    ensures var r := DeepMerge(h, vis, cfg, Slot(Some(p), false), d, ss, s);
            r.err.None?
            && (cfg.override ==> WrittenAt(h, r.heap, p, MapV(d.ty, false, Assign(d.entries, s.entries[0].key, s.entries[0].val))))
            && (!cfg.override ==> r.heap == h)
  {
    var ds := Slot(Some(p), false);
    var vis1 := Marked(vis, ds, d);
    var e := s.entries[0];
    var h0 := MapStart(h, vis, cfg, p, d, ss, s);
    assert !NilElement(e.val) && DynamicKind(e.val) !in {KStruct, KPtr, KMap, KSlice};
    assert MergeEntries(h, vis1, cfg, ds, d, d.entries, ss, s, 0)
        == AfterEntry(h, vis1, cfg, ds, d, d.entries, true, ss, s, 0);
    if cfg.override {
      var cur1 := Assign(d.entries, e.key, e.val);
      StoreLast(h, vis1, cfg, p, d, cur1, ss, s);
      var r1 := StoreMap(h, vis1, ds, d, cur1);
      assert AfterEntry(h, vis1, cfg, ds, d, d.entries, true, ss, s, 0)
          == MergeEntries(r1.heap, r1.visited, cfg, ds, d, cur1, ss, s, 1);
    } else {
      assert AfterEntry(h, vis1, cfg, ds, d, d.entries, true, ss, s, 0)
          == MergeEntries(h, vis1, cfg, ds, d, d.entries, ss, s, 1);
    }
  }

  /** A key whose source element is a non-nil map and which the destination holds: the two
      nested maps are merged, and the outer loop stores nothing for that key. */
  lemma MapNestedMapSkipped(h: Heap, vis: set<VisitKey>, cfg: Config, p: Place, d: Value, ss: Slot, s: Value)
    requires OneKeyMerge(h, vis, cfg, p, d, ss, s)
    requires Lookup(d.entries, s.entries[0].key).Some? && !NilElement(s.entries[0].val)
    requires DynamicKind(s.entries[0].val) == KMap
    ensures var j := Lookup(d.entries, s.entries[0].key).value;
            var ds := Slot(Some(p), false);
            DeepMerge(h, vis, cfg, ds, d, ss, s)
            == DeepMerge(h, Marked(vis, ds, d), cfg, Slot(None, false), d.entries[j].val, Slot(None, false), s.entries[0].val)
  {
    var ds := Slot(Some(p), false);
    var vis1 := Marked(vis, ds, d);
    var e := s.entries[0];
    var j := Lookup(d.entries, e.key).value;
    var h0 := MapStart(h, vis, cfg, p, d, ss, s);
    var r1 := DeepMerge(h, vis1, cfg, Slot(None, false), d.entries[j].val, Slot(None, false), e.val);
    if r1.err.None? {
      assert AfterEntry(r1.heap, r1.visited, cfg, ds, d, d.entries, true, ss, s, 0)
          == MergeEntries(r1.heap, r1.visited, cfg, ds, d, d.entries, ss, s, 1);
    }
  }

  /** A key whose source element is a non-nil slice: any strategy but Overwrite panics. Under
      Overwrite the key ends up holding the element itself when overriding or when the key is
      new; otherwise it holds a fresh non-nil copy of the element, so a non-empty slice is
      replaced by an empty one. */
  lemma MapSliceEntry(h: Heap, vis: set<VisitKey>, cfg: Config, p: Place, d: Value, ss: Slot, s: Value)
    requires OneKeyMerge(h, vis, cfg, p, d, ss, s)
    requires DynamicKind(s.entries[0].val) == KSlice && !NilElement(s.entries[0].val)
    ensures var r := DeepMerge(h, vis, cfg, Slot(Some(p), false), d, ss, s);
            var e := s.entries[0];
            (cfg.strategy != Overwrite ==> r.err == Some(Panic) && (!d.isNil ==> r.heap == h))
            && (cfg.strategy == Overwrite ==>
                  r.err.None?
                  && WrittenAt(h, r.heap, p, MapV(d.ty, false,
                                 if cfg.override || Lookup(d.entries, e.key).None? then Assign(d.entries, e.key, e.val)
                                 else Assign(d.entries, e.key, SliceCopy(e.val)))))
  {
    var ds := Slot(Some(p), false);
    var vis1 := Marked(vis, ds, d);
    var e := s.entries[0];
    var cur := d.entries;
    var h0 := MapStart(h, vis, cfg, p, d, ss, s);
    var m0 := if d.isNil then MapV(d.ty, false, []) else d;
    if cfg.strategy == Overwrite {
      var cur1 := Assign(cur, e.key, SliceCopy(e.val));
      StoreLast(h0, vis1, cfg, p, d, cur1, ss, s);
      var h1 := SetAt(h0, p, MapV(d.ty, false, cur1));
      WrittenTwice(h, h0, h1, p, m0, MapV(d.ty, false, cur1));
      if cfg.override || Lookup(cur, e.key).None? {
        AssignTwice(cur, e.key, SliceCopy(e.val), e.val);
        var cur2 := Assign(cur1, e.key, e.val);
        StoreLast(h1, vis1, cfg, p, d, cur2, ss, s);
        WrittenTwice(h, h1, SetAt(h1, p, MapV(d.ty, false, cur2)), p, MapV(d.ty, false, cur1), MapV(d.ty, false, cur2));
      }
    }
  }

  /** A nil map, interface or slice in the source is skipped: nothing is stored for its key. */
  lemma MapNilEntrySkipped(h: Heap, vis: set<VisitKey>, cfg: Config, p: Place, d: Value, ss: Slot, s: Value)
    requires OneKeyMerge(h, vis, cfg, p, d, ss, s) && NilElement(s.entries[0].val)
    ensures var r := DeepMerge(h, vis, cfg, Slot(Some(p), false), d, ss, s);
            r.err.None? && WrittenAt(h, r.heap, p, if d.isNil then MapV(d.ty, false, []) else d)
  {
    var h0 := MapStart(h, vis, cfg, p, d, ss, s);
  }
}
