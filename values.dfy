/**
 * The structural value model that stands in for Go reflection: a value is a scalar, a record
 * (struct) with named fields, a slice, a map, a pointer into the arena, or an interface holding
 * a dynamic value. Every value carries the name of its static type. Memory is an arena of typed
 * cells; a pointer names a cell, and an addressable value is a place: a cell and a path of field
 * indices inside it.
 */
module Values {
  import opened Common

  type Addr = nat
  type TypeTag = string

  datatype Lit = LStr(s: string) | LInt(i: int) | LBool(b: bool)

  /** A struct field: its name, whether it is exported, whether it is embedded (anonymous). */
  datatype Field = Field(name: string, exported: bool, embedded: bool, val: Value)

  /** A map entry; Go maps are association lists here, one entry per key. */
  datatype Entry = Entry(key: string, val: Value)

  datatype Value =
    | Scalar(ty: TypeTag, lit: Lit)
    | Record(ty: TypeTag, fields: seq<Field>)
    | Slice(ty: TypeTag, isNil: bool, elems: seq<Value>)  // a nil slice has no elements
    | MapV(ty: TypeTag, isNil: bool, entries: seq<Entry>)   // a nil map has no entries
    | Ptr(ty: TypeTag, target: Option<Addr>)            // None is a nil pointer
    | Iface(ty: TypeTag, dyn: Option<Value>)            // None is a nil interface

  /** Go's reflect.Kind, as far as the merge engine distinguishes it. */
  datatype Kind = KString | KInt | KBool | KStruct | KSlice | KMap | KPtr | KInterface

  function KindOf(v: Value): Kind
  {
    match v
    case Scalar(_, LStr(_)) => KString
    case Scalar(_, LInt(_)) => KInt
    case Scalar(_, LBool(_)) => KBool
    case Record(_, _) => KStruct
    case Slice(_, _, _) => KSlice
    case MapV(_, _, _) => KMap
    case Ptr(_, _) => KPtr
    case Iface(_, _) => KInterface
  }

  /** The kind of the value an interface holds, or the kind of the value itself. */
  function DynamicKind(v: Value): Kind
  {
    match v
    case Iface(_, Some(d)) => KindOf(d)
    case _ => KindOf(v)
  }

  /** A cell of the arena: its declared type never changes, its value does. */
  datatype Cell = Cell(ty: TypeTag, val: Value)
  type Heap = map<Addr, Cell>

  datatype Place = Place(cell: Addr, path: seq<nat>)

  function Size(v: Value): nat
  {
    match v
    case Scalar(_, _) => 1
    case Record(_, fs) => 1 + FieldsSize(fs)
    case Slice(_, _, _) => 1
    case MapV(_, _, es) => 1 + EntriesSize(es)
    case Ptr(_, _) => 1
    case Iface(_, None) => 1
    case Iface(_, Some(d)) => 1 + Size(d)
  }

  function FieldsSize(fs: seq<Field>): nat
  {
    if fs == [] then 0 else Size(fs[0].val) + FieldsSize(fs[1..])
  }

  function EntriesSize(es: seq<Entry>): nat
  {
    if es == [] then 0 else Size(es[0].val) + EntriesSize(es[1..])
  }

  lemma {:induction false} FieldSmaller(fs: seq<Field>, i: nat)
    requires i < |fs|
    ensures Size(fs[i].val) <= FieldsSize(fs)
  {
    if i > 0 { FieldSmaller(fs[1..], i - 1); }
  }

  lemma {:induction false} EntrySmaller(es: seq<Entry>, i: nat)
    requires i < |es|
    ensures Size(es[i].val) <= EntriesSize(es)
  {
    if i > 0 { EntrySmaller(es[1..], i - 1); }
  }

  /** Go's isEmptyValue: the zero number, false, "", a zero-length slice or map, a nil pointer or
      interface. A struct is never empty. */
  predicate IsEmpty(v: Value)
  {
    match v
    case Scalar(_, LStr(s)) => s == ""
    case Scalar(_, LInt(i)) => i == 0
    case Scalar(_, LBool(b)) => !b
    case Record(_, _) => false
    case Slice(_, _, xs) => |xs| == 0
    case MapV(_, _, es) => |es| == 0
    case Ptr(_, t) => t == None
    case Iface(_, d) => d == None
  }

  /** The zero value of v's type (Go's reflect.Zero(TypeOf(v))). */
  function Zero(v: Value): (z: Value)
    ensures z.ty == v.ty && KindOf(z) == KindOf(v)
    ensures KindOf(v) != KStruct ==> IsEmpty(z)
    ensures z.Slice? ==> z.isNil && z.elems == []
    ensures z.MapV? ==> z.isNil && z.entries == []
    ensures z.Ptr? ==> z.target.None?
    ensures z.Record? ==> |z.fields| == |v.fields| && forall i :: 0 <= i < |v.fields| ==> z.fields[i].val == Zero(v.fields[i].val)
  {
    match v
    case Scalar(t, LStr(_)) => Scalar(t, LStr(""))
    case Scalar(t, LInt(_)) => Scalar(t, LInt(0))
    case Scalar(t, LBool(_)) => Scalar(t, LBool(false))
    case Record(t, fs) => Record(t, ZeroFields(fs))
    case Slice(t, _, _) => Slice(t, true, [])
    case MapV(t, _, _) => MapV(t, true, [])
    case Ptr(t, _) => Ptr(t, None)
    case Iface(t, _) => Iface(t, None)
  }

  function ZeroFields(fs: seq<Field>): (r: seq<Field>)
    ensures |r| == |fs|
    ensures forall i :: 0 <= i < |fs| ==>
              r[i].name == fs[i].name && r[i].exported == fs[i].exported && r[i].embedded == fs[i].embedded
    ensures forall i :: 0 <= i < |fs| ==> r[i].val == Zero(fs[i].val)
  {
    if fs == [] then [] else [fs[0].(val := Zero(fs[0].val))] + ZeroFields(fs[1..])
  }

  /** The value stored at a place, if the path leads through records of that cell. */
  function ValueAt(h: Heap, p: Place): Option<Value>
  {
    if p.cell in h then Walk(h[p.cell].val, p.path) else None
  }

  function Walk(v: Value, path: seq<nat>): Option<Value>
  {
    if path == [] then Some(v)
    else match v
      case Record(_, fs) => if path[0] < |fs| then Walk(fs[path[0]].val, path[1..]) else None
      case _ => None
  }

  /** Go's Value.Set on an addressable value: replace what is stored at a place. */
  function SetAt(h: Heap, p: Place, v: Value): (h': Heap)
    ensures h'.Keys == h.Keys
    ensures forall a :: a in h ==> h'[a].ty == h[a].ty
  {
    if p.cell in h then h[p.cell := Cell(h[p.cell].ty, Replace(h[p.cell].val, p.path, v))] else h
  }

  function Replace(cur: Value, path: seq<nat>, v: Value): Value
  {
    if path == [] then v
    else match cur
      case Record(t, fs) =>
        if path[0] < |fs| then Record(t, fs[path[0] := fs[path[0]].(val := Replace(fs[path[0]].val, path[1..], v))])
        else cur
      case _ => cur
  }

  /** The places of two distinct fields of a record, or their descendants, never overlap. */
  predicate Disjoint(p: Place, q: Place)
  {
    p.cell != q.cell || Diverge(p.path, q.path)
  }

  predicate Diverge(a: seq<nat>, b: seq<nat>)
  {
    exists i :: 0 <= i < |a| && i < |b| && a[i] != b[i] && a[..i] == b[..i]
  }

  lemma {:induction false} WalkReplace(cur: Value, path: seq<nat>, v: Value)
    requires Walk(cur, path).Some?
    ensures Walk(Replace(cur, path, v), path) == Some(v)
    decreases |path|
  {
    if path != [] {
      WalkReplace(cur.fields[path[0]].val, path[1..], v);
    }
  }

  lemma {:induction false} WalkReplaceOther(cur: Value, path: seq<nat>, other: seq<nat>, v: Value)
    requires Diverge(path, other)
    ensures Walk(Replace(cur, path, v), other) == Walk(cur, other)
    decreases |path|
  {
    var i :| 0 <= i < |path| && i < |other| && path[i] != other[i] && path[..i] == other[..i];
    if i > 0 && cur.Record? && path[0] < |cur.fields| {
      assert path[0] == other[0] by { assert path[..i][0] == other[..i][0]; }
      assert path[1..][..i-1] == other[1..][..i-1];
      WalkReplaceOther(cur.fields[path[0]].val, path[1..], other[1..], v);
    }
  }

  /** Writing a place leaves it holding the written value, and no disjoint place changes. */
  lemma ValueAtSetAt(h: Heap, p: Place, q: Place, v: Value)
    requires ValueAt(h, p).Some?
    ensures ValueAt(SetAt(h, p, v), p) == Some(v)
    ensures Disjoint(p, q) ==> ValueAt(SetAt(h, p, v), q) == ValueAt(h, q)
  {
    WalkReplace(h[p.cell].val, p.path, v);
    if p.cell == q.cell && Diverge(p.path, q.path) {
      WalkReplaceOther(h[p.cell].val, p.path, q.path, v);
    }
  }
}
