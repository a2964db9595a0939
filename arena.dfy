/**
 * deepMerge as the source runs it: methods that write into the arena in place and record visited
 * places in a table that lives as long as one merge call. Each method is proved to leave exactly
 * the arena, visited table and error that the matching function of MergeEngine describes.
 */
module Arenas {
  import opened Common
  import opened Values
  import opened NamedSets
  import opened MergeConfig
  import opened MergeEngine
  import opened Docs

  class Arena {
    var heap: Heap
    var visited: set<VisitKey>

    constructor (h: Heap)
      ensures heap == h && visited == {}
    {
      heap := h;
      visited := {};
    }

    /** new(T): a fresh cell holding v; every existing cell is left as it was. */
    method Alloc(ty: TypeTag, v: Value) returns (a: Addr)
      modifies this
      ensures a == NextAddr(old(heap)) && heap == old(heap)[a := Cell(ty, v)]
      ensures visited == old(visited)
    {
      var keys := heap.Keys;
      a := 0;
      while keys != {}
        invariant keys <= heap.Keys
        invariant forall b :: b in heap && b !in keys ==> b < a
        invariant a == 0 || (a - 1 in heap && a - 1 !in keys)
        decreases |keys|
      {
        var b :| b in keys;
        if b >= a {
          a := b + 1;
        }
        keys := keys - {b};
      }
      assert IsNext(heap, a);
      heap := heap[a := Cell(ty, v)];
    }

    /** json.Unmarshal of a document into fresh memory. */
    method Decode(d: Doc) returns (v: Value)
      requires NoCut(d)
      modifies this
      ensures (heap, v) == LoadF(old(heap), d) && visited == old(visited)
      decreases d, 1
    {
      match d
      case DScalar(t, l) =>
        v := Scalar(t, l);
      case DRecord(t, fs) =>
        var vs := DecodeFields(fs);
        v := Record(t, vs);
      case DSlice(t, xs) =>
        var vs := DecodeElems(xs);
        v := Slice(t, xs == [], vs);
      case DMap(t, es) =>
        var vs := DecodeEntries(es);
        v := MapV(t, es == [], vs);
      case DPtr(t, None) =>
        v := Ptr(t, None);
      case DPtr(t, Some(e)) =>
        var x := Decode(e);
        var a := Alloc(e.ty, x);
        v := Ptr(t, Some(a));
      case DIface(t, None) =>
        v := Iface(t, None);
      case DIface(t, Some(e)) =>
        var x := Decode(e);
        v := Iface(t, Some(x));
    }

    method DecodeFields(fs: seq<DocField>) returns (vs: seq<Field>)
      requires forall i :: 0 <= i < |fs| ==> NoCut(fs[i].val)
      modifies this
      ensures (heap, vs) == LoadFields(old(heap), fs) && visited == old(visited)
      decreases fs, 0
    {
      vs := [];
      var i := 0;
      while i < |fs|
        invariant 0 <= i <= |fs| && visited == old(visited)
        invariant (heap, vs) == LoadFields(old(heap), fs[..i])
      {
        assert fs[..i + 1][..i] == fs[..i];
        var f := fs[i];
        var v := Decode(f.val);
        vs := vs + [Field(f.name, f.exported, f.embedded, v)];
        i := i + 1;
      }
      assert fs[..i] == fs;
    }

    method DecodeElems(xs: seq<Doc>) returns (vs: seq<Value>)
      requires forall i :: 0 <= i < |xs| ==> NoCut(xs[i])
      modifies this
      ensures (heap, vs) == LoadElems(old(heap), xs) && visited == old(visited)
      decreases xs, 0
    {
      vs := [];
      var i := 0;
      while i < |xs|
        invariant 0 <= i <= |xs| && visited == old(visited)
        invariant (heap, vs) == LoadElems(old(heap), xs[..i])
      {
        assert xs[..i + 1][..i] == xs[..i];
        var v := Decode(xs[i]);
        vs := vs + [v];
        i := i + 1;
      }
      assert xs[..i] == xs;
    }

    method DecodeEntries(es: seq<DocEntry>) returns (vs: seq<Entry>)
      requires forall i :: 0 <= i < |es| ==> NoCut(es[i].val)
      modifies this
      ensures (heap, vs) == LoadEntries(old(heap), es) && visited == old(visited)
      decreases es, 0
    {
      vs := [];
      var i := 0;
      while i < |es|
        invariant 0 <= i <= |es| && visited == old(visited)
        invariant (heap, vs) == LoadEntries(old(heap), es[..i])
      {
        assert es[..i + 1][..i] == es[..i];
        var v := Decode(es[i].val);
        vs := vs + [Entry(es[i].key, v)];
        i := i + 1;
      }
      assert es[..i] == es;
    }

    /** merge(dst, src, opts...) on pointers to the cells dst and src: configure, refuse values
        of different types, then deepMerge with an empty visited table. */
    method Merge(dst: Addr, src: Addr, opts: seq<ConfigOption>) returns (err: Option<MergeError>)
      requires dst in heap && src in heap
      modifies this
      ensures Res(heap, visited, err) == MergeValues(old(heap), dst, src, opts)
    {
      var cfg := Configure(opts);
      visited := {};
      if heap[dst].ty != heap[src].ty {
        return Some(ErrDifferentArgumentsTypes);
      }
      err := RootMerge(cfg, dst, false, Slot(Some(Place(src, [])), false), heap[src].val);
    }

    /** reflect.Value.Set. */
    method SetValue(ds: Slot, v: Value) returns (err: Option<MergeError>)
      modifies this
      ensures Res(heap, visited, err) == MergeEngine.SetValue(old(heap), old(visited), ds, v)
    {
      if CanSet(ds) {
        heap := SetAt(heap, ds.place.value, v);
        err := None;
      } else {
        err := Some(Panic);
      }
    }

    /** The default branch (and the struct branch without exported fields). */
    method CopyRule(cfg: Config, ds: Slot, d: Value, s: Value) returns (err: Option<MergeError>)
      modifies this
      ensures Res(heap, visited, err) == MergeEngine.CopyRule(old(heap), old(visited), cfg, ds, d, s)
    {
      err := None;
      if CanSet(ds) && !IsEmpty(s) && (cfg.override || IsEmpty(d)) {
        err := SetValue(ds, s);
      }
    }

    /** The `dst.IsNil() || override` arm of the pointer and interface branch. */
    method TakeRule(cfg: Config, ds: Slot, d: Value, s: Value) returns (err: Option<MergeError>)
      modifies this
      ensures Res(heap, visited, err) == MergeEngine.TakeRule(old(heap), old(visited), cfg, ds, d, s)
    {
      err := None;
      if CanSet(ds) && (cfg.override || IsEmpty(d)) {
        err := SetValue(ds, s);
      }
    }

    /** mergeSlice: `new := src`, then the strategy's result is stored through new (that is,
        into the source for AppendAdditive) and finally into dst. */
    method MergeSlice(cfg: Config, ds: Slot, d: Value, ss: Slot, s: Value) returns (err: Option<MergeError>)
      modifies this
      ensures Res(heap, visited, err) == MergeEngine.MergeSlice(old(heap), old(visited), cfg, ds, d, ss, s)
    {
      if !d.Slice? || !s.Slice? {
        return Some(Panic);
      }
      if cfg.strategy == AppendAdditive {
        var joined := Appended(d, s);
        err := SetValue(ss, joined);
        if err.None? {
          err := SetValue(ds, joined);
        }
      } else if cfg.strategy == UniqueFirstSeen || cfg.strategy == UniqueLastSeen {
        var xs := UniqueMerge(heap, d.elems, s.elems, cfg.strategy == UniqueFirstSeen);
        err := SetValue(ds, Slice(d.ty, false, xs));
      } else {
        err := SetValue(ds, s);
      }
    }

    /** dst.SetMapIndex: store the map's new entries where the map lives. */
    method StoreMap(ds: Slot, d: Value, cur: seq<Entry>) returns (err: Option<MergeError>)
      requires d.MapV?
      modifies this
      ensures Res(heap, visited, err) == MergeEngine.StoreMap(old(heap), old(visited), ds, d, cur)
    {
      if ds.ro {
        return Some(Panic);
      }
      if ds.place.Some? {
        heap := SetAt(heap, ds.place.value, MapV(d.ty, false, cur));
      }
      err := None;
    }

    /** deepMerge on the cell a destination pointer refers to. */
    method RootMerge(cfg: Config, a: Addr, ro: bool, ss: Slot, s: Value) returns (err: Option<MergeError>)
      requires a in heap
      modifies this
      ensures Res(heap, visited, err) == MergeEngine.RootMerge(old(heap), old(visited), cfg, a, ro, ss, s)
      decreases Measure(heap, visited), 0, 0, 0, 0
    {
      var d := heap[a].val;
      var key := VisitKey(Place(a, []), heap[a].ty);
      if IsEmpty(d) && cfg.skipEmptyFields {
        return None;
      }
      if key in visited {
        return None;
      }
      MeasureDrops(heap, visited, a);
      visited := visited + {key};
      err := Transform(cfg, Slot(Some(Place(a, [])), ro), d, ss, s);
    }

    /** deepMerge on a field, a map element or an interface's dynamic value. */
    method DeepMerge(cfg: Config, ds: Slot, d: Value, ss: Slot, s: Value) returns (err: Option<MergeError>)
      modifies this
      ensures Res(heap, visited, err) == MergeEngine.DeepMerge(old(heap), old(visited), cfg, ds, d, ss, s)
      decreases Measure(heap, visited), Size(d), 6, 0, 0
    {
      if IsEmpty(d) && cfg.skipEmptyFields {
        return None;
      }
      ghost var goal := MergeEngine.DeepMerge(heap, visited, cfg, ds, d, ss, s);
      if ds.place.Some? {
        var key := VisitKey(ds.place.value, d.ty);
        if key in visited {
          return None;
        }
        MeasureMono(heap, visited, heap, visited + {key});
        visited := visited + {key};
      }
      assert goal == MergeEngine.Transform(heap, visited, cfg, ds, d, ss, s);
      err := Transform(cfg, ds, d, ss, s);
    }

    method Transform(cfg: Config, ds: Slot, d: Value, ss: Slot, s: Value) returns (err: Option<MergeError>)
      modifies this
      ensures Res(heap, visited, err) == MergeEngine.Transform(old(heap), old(visited), cfg, ds, d, ss, s)
      decreases Measure(heap, visited), Size(d), 5, 0, 0
    {
      if cfg.transformers.Some? && !IsEmpty(d) {
        var fn := cfg.transformers.value.lookup(d.ty);
        if fn.Some? {
          match fn.value(d, s) {
            case Transformed(v) =>
              err := None;
              if v != d {
                err := SetValue(ds, v);
              }
            case TransformFailed(m) =>
              err := Some(TransformerError(m));
          }
          return;
        }
      }
      err := Dispatch(cfg, ds, d, ss, s);
    }

    /** The switch on the destination's kind. */
    method Dispatch(cfg: Config, ds: Slot, d: Value, ss: Slot, s: Value) returns (err: Option<MergeError>)
      modifies this
      ensures Res(heap, visited, err) == MergeEngine.Dispatch(old(heap), old(visited), cfg, ds, d, ss, s)
      decreases Measure(heap, visited), Size(d), 4, 0, 0
    {
      match d
      case Record(_, _) =>
        var exported := HasExportedField(d);
        if exported {
          err := MergeFields(cfg, ds, d, ss, s);
        } else {
          err := CopyRule(cfg, ds, d, s);
        }
      case MapV(_, _, _) =>
        err := MergeMap(cfg, ds, d, ss, s);
      case Slice(_, _, _) =>
        err := None;
        if CanSet(ds) {
          if cfg.strategy == Overwrite {
            err := SetValue(ds, s);
          } else {
            err := MergeSlice(cfg, ds, d, ss, s);
          }
        }
      case Ptr(_, _) =>
        err := PointerRule(cfg, ds, d, ss, s);
      case Iface(_, _) =>
        err := PointerRule(cfg, ds, d, ss, s);
      case Scalar(_, _) =>
        err := CopyRule(cfg, ds, d, s);
    }

    /** The struct branch: every field in turn, returning at the first error. */
    method MergeFields(cfg: Config, ds: Slot, d: Value, ss: Slot, s: Value) returns (err: Option<MergeError>)
      requires d.Record?
      modifies this
      ensures Res(heap, visited, err) == MergeEngine.MergeFields(old(heap), old(visited), cfg, ds, d, ss, s, 0)
      decreases Measure(heap, visited), Size(d), 2, 0, 0
    {
      var i := 0;
      while i < |d.fields|
        invariant 0 <= i <= |d.fields|
        invariant MergeEngine.MergeFields(old(heap), old(visited), cfg, ds, d, ss, s, 0)
               == MergeEngine.MergeFields(heap, visited, cfg, ds, d, ss, s, i)
        invariant Frame(old(heap), old(visited), Res(heap, visited, None))
      {
        if !s.Record? || i >= |s.fields| {
          return Some(Panic);
        }
        FieldSmaller(d.fields, i);
        MeasureMono(old(heap), old(visited), heap, visited);
        ghost var h0, v0 := heap, visited;
        err := DeepMerge(cfg, FieldSlot(ds, i, d.fields[i]), d.fields[i].val, FieldSlot(ss, i, s.fields[i]), s.fields[i].val);
        if err.Some? {
          return;
        }
        FrameTrans(old(heap), old(visited), h0, v0, Res(heap, visited, None));
        i := i + 1;
      }
      err := None;
    }

    /** The pointer and interface branch. */
    method PointerRule(cfg: Config, ds: Slot, d: Value, ss: Slot, s: Value) returns (err: Option<MergeError>)
      requires d.Ptr? || d.Iface?
      modifies this
      ensures Res(heap, visited, err) == MergeEngine.PointerRule(old(heap), old(visited), cfg, ds, d, ss, s)
      decreases Measure(heap, visited), Size(d), 3, 0, 0
    {
      if !Nillable(s) {
        return Some(Panic);
      }
      if IsNil(s) {
        return None;
      }
      if IsNil(d) || cfg.override {
        err := TakeRule(cfg, ds, d, s);
      } else if s.Iface? {
        err := MergeInto(cfg, ds, d, Slot(None, ss.ro), s.dyn.value);
      } else if s.Ptr? {
        match SrcElem(heap, ss, s)
        case Some((ss', s')) =>
          err := MergeInto(cfg, ds, d, ss', s');
        case None =>
          err := Some(Panic);
      } else if ElemType(heap, d) == Some(s.ty) {
        err := MergeInto(cfg, ds, d, ss, s);
      } else {
        err := Some(ErrDifferentArgumentsTypes);
      }
    }

    /** deepMerge(dst.Elem(), ...). */
    method MergeInto(cfg: Config, ds: Slot, d: Value, ss: Slot, s: Value) returns (err: Option<MergeError>)
      requires (d.Ptr? && d.target.Some?) || (d.Iface? && d.dyn.Some?)
      modifies this
      ensures Res(heap, visited, err) == MergeEngine.MergeInto(old(heap), old(visited), cfg, ds, d, ss, s)
      decreases Measure(heap, visited), Size(d), 2, 0, 0
    {
      if d.Ptr? {
        if d.target.value in heap {
          err := RootMerge(cfg, d.target.value, ds.ro, ss, s);
        } else {
          err := Some(Panic);
        }
      } else {
        err := DeepMerge(cfg, Slot(None, ds.ro), d.dyn.value, ss, s);
      }
    }

    /** The map branch: make the map if needed, then one pass over the source's keys. */
    method MergeMap(cfg: Config, ds: Slot, d: Value, ss: Slot, s: Value) returns (err: Option<MergeError>)
      requires d.MapV?
      modifies this
      ensures Res(heap, visited, err) == MergeEngine.MergeMap(old(heap), old(visited), cfg, ds, d, ss, s)
      decreases Measure(heap, visited), Size(d), 3, 0, 0
    {
      if !s.MapV? {
        return Some(Panic);
      }
      var cur := d.entries;
      if d.isNil && !s.isNil {
        err := SetValue(ds, MapV(d.ty, false, []));
        if err.Some? {
          return;
        }
        cur := [];
      }
      var i := 0;
      while i < |s.entries|
        invariant 0 <= i <= |s.entries|
        invariant MergeEngine.MergeMap(old(heap), old(visited), cfg, ds, d, ss, s)
               == MergeEngine.MergeEntries(heap, visited, cfg, ds, d, cur, ss, s, i)
        invariant Frame(old(heap), old(visited), Res(heap, visited, None))
      {
        MeasureMono(old(heap), old(visited), heap, visited);
        err, cur := MergeEntry(cfg, ds, d, cur, ss, s, i);
        if err.Some? {
          return;
        }
        i := i + 1;
      }
      err := None;
    }

    /** One source key of the map branch, up to its recursive merge or slice copy; next is the
        destination map's entries afterwards. */
    method MergeEntry(cfg: Config, ds: Slot, d: Value, cur: seq<Entry>, ss: Slot, s: Value, i: nat)
      returns (err: Option<MergeError>, next: seq<Entry>)
      requires d.MapV? && s.MapV? && i < |s.entries|
      modifies this
      ensures var r := MergeEngine.MergeEntries(old(heap), old(visited), cfg, ds, d, cur, ss, s, i);
              if err.Some? then Res(heap, visited, err) == r
              else r == MergeEngine.MergeEntries(heap, visited, cfg, ds, d, next, ss, s, i + 1)
                   && Frame(old(heap), old(visited), Res(heap, visited, None))
      decreases Measure(heap, visited), Size(d), 2, 1, 0
    {
      var e := s.entries[i];
      var present := Lookup(cur, e.key).Some?;
      next := cur;
      if ((e.val.MapV? || e.val.Iface? || e.val.Slice?) && IsNil(e.val)) || ss.ro {
        return None, cur;
      }
      var kind := DynamicKind(e.val);
      if kind in {KStruct, KPtr, KMap} {
        var j := Lookup(d.entries, e.key);
        if j.Some? {
          EntrySmaller(d.entries, j.value);
          err := DeepMerge(cfg, Slot(None, ds.ro), d.entries[j.value].val, Slot(None, ss.ro), e.val);
          if err.Some? {
            return;
          }
        }
      } else if kind == KSlice {
        if cfg.strategy != Overwrite {
          return Some(Panic), cur;
        }
        next := Assign(cur, e.key, SliceCopy(e.val));
        err := StoreMap(ds, d, next);
        if err.Some? {
          return;
        }
      }
      err, next := AfterEntry(cfg, ds, d, next, present, ss, s, i);
    }

    /** The rest of one source key: store the source element unless a nested map is already
        present, or the key is present and neither overriding nor the map empty. */
    method AfterEntry(cfg: Config, ds: Slot, d: Value, cur: seq<Entry>, present: bool, ss: Slot, s: Value, i: nat)
      returns (err: Option<MergeError>, next: seq<Entry>)
      requires d.MapV? && s.MapV? && i < |s.entries|
      modifies this
      ensures var r := MergeEngine.AfterEntry(old(heap), old(visited), cfg, ds, d, cur, present, ss, s, i);
              if err.Some? then Res(heap, visited, err) == r
              else r == MergeEngine.MergeEntries(heap, visited, cfg, ds, d, next, ss, s, i + 1)
                   && Frame(old(heap), old(visited), Res(heap, visited, None))
    {
      var e := s.entries[i];
      next := cur;
      err := None;
      if present && DynamicKind(e.val) == KMap {
        return;
      }
      if cfg.override || !present || |cur| == 0 {
        next := Assign(cur, e.key, e.val);
        err := StoreMap(ds, d, next);
      }
    }
  }
}
