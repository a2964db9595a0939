/**
 * Documents: pointer-free trees that stand for the JSON a device sends and receives, and for what
 * go-cmp compares. Snapshot reads a value through the arena, inlining every pointer's target and
 * cutting a pointer cycle; Load decodes a document into the arena, allocating one fresh cell per
 * pointer. Snapshot forgets whether a slice or map is nil, as go-cmp's EquateEmpty does; maps are
 * compared entry by entry in insertion order, and a cycle only up to the point where it closes.
 */
module Docs {
  import opened Common
  import opened Values

  datatype Doc =
    | DScalar(ty: TypeTag, lit: Lit)
    | DRecord(ty: TypeTag, fields: seq<DocField>)
    | DSlice(ty: TypeTag, elems: seq<Doc>)
    | DMap(ty: TypeTag, entries: seq<DocEntry>)
    | DPtr(ty: TypeTag, target: Option<Doc>)
    | DIface(ty: TypeTag, dyn: Option<Doc>)
    | DCut   // a dangling pointer, or a pointer back into the path that led to it

  datatype DocField = DocField(name: string, exported: bool, embedded: bool, val: Doc)

  datatype DocEntry = DocEntry(key: string, val: Doc)

  // ---------------------------------------------------------------------------------------------
  // Reading values out of the arena

  /** The document a value reads as; seen holds the cells on the path from the root. */
  function Snapshot(h: Heap, v: Value, seen: set<Addr>): Doc
    decreases |h.Keys - seen|, v
  {
    match v
    case Scalar(t, l) => DScalar(t, l)
    case Record(t, fs) => DRecord(t, SnapFields(h, fs, seen))
    case Slice(t, _, xs) => DSlice(t, SnapElems(h, xs, seen))
    case MapV(t, _, es) => DMap(t, SnapEntries(h, es, seen))
    case Ptr(t, None) => DPtr(t, None)
    case Ptr(t, Some(a)) =>
      if a in h && a !in seen then
        assert h.Keys - (seen + {a}) == (h.Keys - seen) - {a};
        DPtr(t, Some(Snapshot(h, h[a].val, seen + {a})))
      else DCut
    case Iface(t, None) => DIface(t, None)
    case Iface(t, Some(d)) => DIface(t, Some(Snapshot(h, d, seen)))
  }

  function SnapFields(h: Heap, fs: seq<Field>, seen: set<Addr>): (r: seq<DocField>)
    ensures |r| == |fs|
    decreases |h.Keys - seen|, fs
  {
    if fs == [] then []
    else
      var f := fs[|fs| - 1];
      SnapFields(h, fs[..|fs| - 1], seen) + [DocField(f.name, f.exported, f.embedded, Snapshot(h, f.val, seen))]
  }

  function SnapElems(h: Heap, xs: seq<Value>, seen: set<Addr>): (r: seq<Doc>)
    ensures |r| == |xs|
    decreases |h.Keys - seen|, xs
  {
    if xs == [] then [] else SnapElems(h, xs[..|xs| - 1], seen) + [Snapshot(h, xs[|xs| - 1], seen)]
  }

  function SnapEntries(h: Heap, es: seq<Entry>, seen: set<Addr>): (r: seq<DocEntry>)
    ensures |r| == |es|
    decreases |h.Keys - seen|, es
  {
    if es == [] then []
    else
      var e := es[|es| - 1];
      SnapEntries(h, es[..|es| - 1], seen) + [DocEntry(e.key, Snapshot(h, e.val, seen))]
  }

  /** The document of the record a pointer refers to. */
  function Pointee(h: Heap, a: Addr): Doc
    requires a in h
  {
    Snapshot(h, h[a].val, {a})
  }

  /** cmp.Equal(x, y, cmpopts.EquateEmpty()) on two pointers into the arena. */
  predicate EquateEmpty(h: Heap, x: Addr, y: Addr)
    requires x in h && y in h
  {
    x == y || Pointee(h, x) == Pointee(h, y)
  }

  /** A document without cuts: one a decoder can produce. */
  predicate NoCut(d: Doc)
  {
    match d
    case DScalar(_, _) => true
    case DRecord(_, fs) => forall i :: 0 <= i < |fs| ==> NoCut(fs[i].val)
    case DSlice(_, xs) => forall i :: 0 <= i < |xs| ==> NoCut(xs[i])
    case DMap(_, es) => forall i :: 0 <= i < |es| ==> NoCut(es[i].val)
    case DPtr(_, t) => t.None? || NoCut(t.value)
    case DIface(_, t) => t.None? || NoCut(t.value)
    case DCut => false
  }

  /** h2 keeps every cell of h1 as it was. */
  ghost predicate Extends(h1: Heap, h2: Heap)
  {
    forall a :: a in h1 ==> a in h2 && h2[a] == h1[a]
  }

  /** Growing the arena does not change what a value reads as, once it read without cuts. */
  lemma {:induction false} SnapshotExtends(h1: Heap, h2: Heap, v: Value, seen: set<Addr>)
    requires Extends(h1, h2) && NoCut(Snapshot(h1, v, seen))
    ensures Snapshot(h2, v, seen) == Snapshot(h1, v, seen)
    decreases |h1.Keys - seen|, v
  {
    match v
    case Scalar(_, _) =>
    case Record(_, fs) => SnapFieldsExtends(h1, h2, fs, seen);
    case Slice(_, _, xs) => SnapElemsExtends(h1, h2, xs, seen);
    case MapV(_, _, es) => SnapEntriesExtends(h1, h2, es, seen);
    case Ptr(_, None) =>
    case Ptr(_, Some(a)) =>
      assert h1.Keys - (seen + {a}) == (h1.Keys - seen) - {a};
      SnapshotExtends(h1, h2, h1[a].val, seen + {a});
    case Iface(_, None) =>
    case Iface(_, Some(d)) => SnapshotExtends(h1, h2, d, seen);
  }

  lemma {:induction false} SnapFieldsExtends(h1: Heap, h2: Heap, fs: seq<Field>, seen: set<Addr>)
    requires Extends(h1, h2)
    requires forall i :: 0 <= i < |fs| ==> NoCut(SnapFields(h1, fs, seen)[i].val)
    ensures SnapFields(h2, fs, seen) == SnapFields(h1, fs, seen)
    decreases |h1.Keys - seen|, fs
  {
    if fs != [] {
      var n := |fs| - 1;
      assert forall i :: 0 <= i < n ==> SnapFields(h1, fs[..n], seen)[i] == SnapFields(h1, fs, seen)[i];
      SnapFieldsExtends(h1, h2, fs[..n], seen);
      assert SnapFields(h1, fs, seen)[n].val == Snapshot(h1, fs[n].val, seen);
      SnapshotExtends(h1, h2, fs[n].val, seen);
    }
  }

  lemma {:induction false} SnapElemsExtends(h1: Heap, h2: Heap, xs: seq<Value>, seen: set<Addr>)
    requires Extends(h1, h2)
    requires forall i :: 0 <= i < |xs| ==> NoCut(SnapElems(h1, xs, seen)[i])
    ensures SnapElems(h2, xs, seen) == SnapElems(h1, xs, seen)
    decreases |h1.Keys - seen|, xs
  {
    if xs != [] {
      var n := |xs| - 1;
      assert forall i :: 0 <= i < n ==> SnapElems(h1, xs[..n], seen)[i] == SnapElems(h1, xs, seen)[i];
      SnapElemsExtends(h1, h2, xs[..n], seen);
      assert SnapElems(h1, xs, seen)[n] == Snapshot(h1, xs[n], seen);
      SnapshotExtends(h1, h2, xs[n], seen);
    }
  }

  lemma {:induction false} SnapEntriesExtends(h1: Heap, h2: Heap, es: seq<Entry>, seen: set<Addr>)
    requires Extends(h1, h2)
    requires forall i :: 0 <= i < |es| ==> NoCut(SnapEntries(h1, es, seen)[i].val)
    ensures SnapEntries(h2, es, seen) == SnapEntries(h1, es, seen)
    decreases |h1.Keys - seen|, es
  {
    if es != [] {
      var n := |es| - 1;
      assert forall i :: 0 <= i < n ==> SnapEntries(h1, es[..n], seen)[i] == SnapEntries(h1, es, seen)[i];
      SnapEntriesExtends(h1, h2, es[..n], seen);
      assert SnapEntries(h1, es, seen)[n].val == Snapshot(h1, es[n].val, seen);
      SnapshotExtends(h1, h2, es[n].val, seen);
    }
  }

  /** h1 and h2 hold the same cells, and differ at most in the contents of cells in seen. */
  ghost predicate AgreeOutside(h1: Heap, h2: Heap, seen: set<Addr>)
  {
    h1.Keys == h2.Keys && forall a :: a in h1 && a !in seen ==> h2[a] == h1[a]
  }

  /** A reader never looks into a cell it has already passed: rewriting such a cell does not
      change what a value reads as. */
  lemma {:induction false} SnapshotAgrees(h1: Heap, h2: Heap, v: Value, seen: set<Addr>)
    requires AgreeOutside(h1, h2, seen)
    ensures Snapshot(h2, v, seen) == Snapshot(h1, v, seen)
    decreases |h1.Keys - seen|, v
  {
    match v
    case Scalar(_, _) =>
    case Record(_, fs) => SnapFieldsAgree(h1, h2, fs, seen);
    case Slice(_, _, xs) => SnapElemsAgree(h1, h2, xs, seen);
    case MapV(_, _, es) => SnapEntriesAgree(h1, h2, es, seen);
    case Ptr(_, None) =>
    case Ptr(_, Some(a)) =>
      if a in h1 && a !in seen {
        assert h1.Keys - (seen + {a}) == (h1.Keys - seen) - {a};
        SnapshotAgrees(h1, h2, h1[a].val, seen + {a});
      }
    case Iface(_, None) =>
    case Iface(_, Some(d)) => SnapshotAgrees(h1, h2, d, seen);
  }

  lemma {:induction false} SnapFieldsAgree(h1: Heap, h2: Heap, fs: seq<Field>, seen: set<Addr>)
    requires AgreeOutside(h1, h2, seen)
    ensures SnapFields(h2, fs, seen) == SnapFields(h1, fs, seen)
    decreases |h1.Keys - seen|, fs
  {
    if fs != [] {
      SnapFieldsAgree(h1, h2, fs[..|fs| - 1], seen);
      SnapshotAgrees(h1, h2, fs[|fs| - 1].val, seen);
    }
  }

  lemma {:induction false} SnapElemsAgree(h1: Heap, h2: Heap, xs: seq<Value>, seen: set<Addr>)
    requires AgreeOutside(h1, h2, seen)
    ensures SnapElems(h2, xs, seen) == SnapElems(h1, xs, seen)
    decreases |h1.Keys - seen|, xs
  {
    if xs != [] {
      SnapElemsAgree(h1, h2, xs[..|xs| - 1], seen);
      SnapshotAgrees(h1, h2, xs[|xs| - 1], seen);
    }
  }

  lemma {:induction false} SnapEntriesAgree(h1: Heap, h2: Heap, es: seq<Entry>, seen: set<Addr>)
    requires AgreeOutside(h1, h2, seen)
    ensures SnapEntries(h2, es, seen) == SnapEntries(h1, es, seen)
    decreases |h1.Keys - seen|, es
  {
    if es != [] {
      SnapEntriesAgree(h1, h2, es[..|es| - 1], seen);
      SnapshotAgrees(h1, h2, es[|es| - 1].val, seen);
    }
  }

  // ---------------------------------------------------------------------------------------------
  // Allocation and decoding

  /** n is the least address above every cell of the arena. */
  ghost predicate IsNext(h: Heap, n: Addr)
  {
    (forall b :: b in h ==> b < n) && (n == 0 || n - 1 in h)
  }

  lemma {:induction false} NextExists(h: Heap)
    ensures exists n: Addr :: IsNext(h, n)
    decreases |h|
  {
    if h == map[] {
      assert IsNext(h, 0);
    } else {
      var y :| y in h;
      var h' := h - {y};
      NextExists(h');
      var n: Addr :| IsNext(h', n);
      var m: Addr := if n > y then n else y + 1;
      forall b | b in h
        ensures b < m
      {
        if b != y { assert b in h'; }
      }
      if n > y {
        assert n - 1 in h';
      }
      assert IsNext(h, m);
    }
  }

  /** The address new(T) takes: the next one after every cell in use. */
  ghost function NextAddr(h: Heap): (a: Addr)
    ensures a !in h && IsNext(h, a)
    ensures forall n: Addr :: IsNext(h, n) ==> n == a
  {
    NextExists(h);
    var n: Addr :| IsNext(h, n);
    n
  }

  /** json.Unmarshal of a document into a fresh value: pointers get fresh cells, in document order. */
  ghost function LoadF(h: Heap, d: Doc): (r: (Heap, Value))
    requires NoCut(d)
    ensures Extends(h, r.0)
    decreases d, 1
  {
    match d
    case DScalar(t, l) => (h, Scalar(t, l))
    case DRecord(t, fs) => var (h1, vs) := LoadFields(h, fs); (h1, Record(t, vs))
    case DSlice(t, xs) => var (h1, vs) := LoadElems(h, xs); (h1, Slice(t, xs == [], vs))
    case DMap(t, es) => var (h1, vs) := LoadEntries(h, es); (h1, MapV(t, es == [], vs))
    case DPtr(t, None) => (h, Ptr(t, None))
    case DPtr(t, Some(e)) =>
      var (h1, v) := LoadF(h, e);
      var a := NextAddr(h1);
      (h1[a := Cell(e.ty, v)], Ptr(t, Some(a)))
    case DIface(t, None) => (h, Iface(t, None))
    case DIface(t, Some(e)) => var (h1, v) := LoadF(h, e); (h1, Iface(t, Some(v)))
  }

  ghost function LoadFields(h: Heap, fs: seq<DocField>): (r: (Heap, seq<Field>))
    requires forall i :: 0 <= i < |fs| ==> NoCut(fs[i].val)
    ensures Extends(h, r.0) && |r.1| == |fs|
    decreases fs, 0
  {
    if fs == [] then (h, [])
    else
      var f := fs[|fs| - 1];
      var (h1, vs) := LoadFields(h, fs[..|fs| - 1]);
      var (h2, v) := LoadF(h1, f.val);
      (h2, vs + [Field(f.name, f.exported, f.embedded, v)])
  }

  ghost function LoadElems(h: Heap, xs: seq<Doc>): (r: (Heap, seq<Value>))
    requires forall i :: 0 <= i < |xs| ==> NoCut(xs[i])
    ensures Extends(h, r.0) && |r.1| == |xs|
    decreases xs, 0
  {
    if xs == [] then (h, [])
    else
      var (h1, vs) := LoadElems(h, xs[..|xs| - 1]);
      var (h2, v) := LoadF(h1, xs[|xs| - 1]);
      (h2, vs + [v])
  }

  ghost function LoadEntries(h: Heap, es: seq<DocEntry>): (r: (Heap, seq<Entry>))
    requires forall i :: 0 <= i < |es| ==> NoCut(es[i].val)
    ensures Extends(h, r.0) && |r.1| == |es|
    decreases es, 0
  {
    if es == [] then (h, [])
    else
      var e := es[|es| - 1];
      var (h1, vs) := LoadEntries(h, es[..|es| - 1]);
      var (h2, v) := LoadF(h1, e.val);
      (h2, vs + [Entry(e.key, v)])
  }

  /** Decoding then reading back gives the document again, whatever cells the reader has already
      passed, as long as none of them is one the decoder allocated. */
  lemma {:induction false} LoadRoundTrip(h: Heap, d: Doc, seen: set<Addr>)
    requires NoCut(d) && seen !! (LoadF(h, d).0.Keys - h.Keys)
    ensures Snapshot(LoadF(h, d).0, LoadF(h, d).1, seen) == d
    decreases d, 1
  {
    var (h', v) := LoadF(h, d);
    match d
    case DScalar(_, _) =>
    case DRecord(t, fs) => LoadFieldsRoundTrip(h, fs, seen);
    case DSlice(t, xs) => LoadElemsRoundTrip(h, xs, seen);
    case DMap(t, es) => LoadEntriesRoundTrip(h, es, seen);
    case DPtr(_, None) =>
    case DPtr(t, Some(e)) =>
      var (h1, v1) := LoadF(h, e);
      var a := NextAddr(h1);
      assert a in h'.Keys - h.Keys;
      LoadRoundTrip(h, e, seen + {a});
      SnapshotExtends(h1, h', v1, seen + {a});
    case DIface(_, None) =>
    case DIface(t, Some(e)) => LoadRoundTrip(h, e, seen);
    case DCut =>
  }

  lemma {:induction false} LoadFieldsRoundTrip(h: Heap, fs: seq<DocField>, seen: set<Addr>)
    requires forall i :: 0 <= i < |fs| ==> NoCut(fs[i].val)
    requires seen !! (LoadFields(h, fs).0.Keys - h.Keys)
    ensures SnapFields(LoadFields(h, fs).0, LoadFields(h, fs).1, seen) == fs
    decreases fs, 0
  {
    if fs != [] {
      var n := |fs| - 1;
      var (h1, vs) := LoadFields(h, fs[..n]);
      var (h2, v) := LoadF(h1, fs[n].val);
      LoadFieldsRoundTrip(h, fs[..n], seen);
      LoadRoundTrip(h1, fs[n].val, seen);
      SnapFieldsExtends(h1, h2, vs, seen);
      var f := fs[n];
      assert (vs + [Field(f.name, f.exported, f.embedded, v)])[..n] == vs;
      assert fs[..n] + [fs[n]] == fs;
    }
  }

  lemma {:induction false} LoadElemsRoundTrip(h: Heap, xs: seq<Doc>, seen: set<Addr>)
    requires forall i :: 0 <= i < |xs| ==> NoCut(xs[i])
    requires seen !! (LoadElems(h, xs).0.Keys - h.Keys)
    ensures SnapElems(LoadElems(h, xs).0, LoadElems(h, xs).1, seen) == xs
    decreases xs, 0
  {
    if xs != [] {
      var n := |xs| - 1;
      var (h1, vs) := LoadElems(h, xs[..n]);
      var (h2, v) := LoadF(h1, xs[n]);
      LoadElemsRoundTrip(h, xs[..n], seen);
      LoadRoundTrip(h1, xs[n], seen);
      SnapElemsExtends(h1, h2, vs, seen);
      assert (vs + [v])[..n] == vs;
      assert xs[..n] + [xs[n]] == xs;
    }
  }

  lemma {:induction false} LoadEntriesRoundTrip(h: Heap, es: seq<DocEntry>, seen: set<Addr>)
    requires forall i :: 0 <= i < |es| ==> NoCut(es[i].val)
    requires seen !! (LoadEntries(h, es).0.Keys - h.Keys)
    ensures SnapEntries(LoadEntries(h, es).0, LoadEntries(h, es).1, seen) == es
    decreases es, 0
  {
    if es != [] {
      var n := |es| - 1;
      var (h1, vs) := LoadEntries(h, es[..n]);
      var (h2, v) := LoadF(h1, es[n].val);
      LoadEntriesRoundTrip(h, es[..n], seen);
      LoadRoundTrip(h1, es[n].val, seen);
      SnapEntriesExtends(h1, h2, vs, seen);
      assert (vs + [Entry(es[n].key, v)])[..n] == vs;
      assert es[..n] + [es[n]] == es;
    }
  }
}
