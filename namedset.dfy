/**
 * The named-key set behind the two de-duplicating slice strategies: a map from the name extracted
 * from each element to the element, with "first one kept" (Add) and "last one kept" (Upsert)
 * insertion, and a materialisation sorted by name.
 */
module NamedSets {
  import opened Common
  import opened Values

  /** What getName yields: a name, or the error for a value that is neither a string nor a
      struct with a Name field. */
  datatype NameResult = Named(name: string) | Unnamed

  /** Follow pointers until a non-pointer is reached. A nil pointer yields no value (reflect's
      invalid Value). The fuel bounds the walk; a chain longer than the arena is a pointer cycle. */
  function Deref(h: Heap, v: Value, fuel: nat): (r: Option<Value>)
    ensures !v.Ptr? ==> r == Some(v)
    ensures r.Some? ==> !r.value.Ptr?
    decreases fuel
  {
    match v
    case Ptr(_, None) => None
    case Ptr(_, Some(a)) => if fuel == 0 || a !in h then None else Deref(h, h[a].val, fuel - 1)
    case _ => Some(v)
  }

  /** The value of the first field called Name, if it is a string. */
  function NameField(fs: seq<Field>): NameResult
  {
    if fs == [] then Unnamed
    else if fs[0].name == "Name" then
      (match fs[0].val case Scalar(_, LStr(s)) => Named(s) case _ => Unnamed)
    else NameField(fs[1..])
  }

  /** getName: dereference every pointer level, then a string is its own name and a struct's
      name is its Name field; anything else has no name. */
  function GetName(h: Heap, v: Value): (r: NameResult)
    ensures v.Scalar? && v.lit.LStr? ==> r == Named(v.lit.s)
    ensures KindOf(v) !in {KString, KStruct, KPtr} ==> r == Unnamed
  {
    match Deref(h, v, |h|)
    case None => Unnamed
    case Some(Scalar(_, LStr(s))) => Named(s)
    case Some(Record(_, fs)) => NameField(fs)
    case Some(_) => Unnamed
  }

  /** More fuel reaches the same end of a pointer chain. */
  lemma {:induction false} DerefMore(h: Heap, v: Value, fuel: nat, more: nat)
    requires Deref(h, v, fuel).Some? && fuel <= more
    ensures Deref(h, v, more) == Deref(h, v, fuel)
    decreases fuel
  {
    if v.Ptr? && v.target.Some? {
      DerefMore(h, h[v.target.value].val, fuel - 1, more - 1);
    }
  }

  /** getName names a value by what its pointer chain ends at: a string, or a record's Name
      field, however many pointers lead to it. */
  lemma NameAtChainEnd(h: Heap, v: Value, w: Value)
    requires Deref(h, v, |h|) == Some(w)
    ensures GetName(h, v) == GetName(h, w)
    ensures w.Record? ==> GetName(h, v) == NameField(w.fields)
    ensures w.Scalar? && w.lit.LStr? ==> GetName(h, v) == Named(w.lit.s)
  {
  }

  /** A pointer has the name of the value it points to, when that value's chain ends within the
      arena: each pointer level is dereferenced in turn. */
  lemma NameThroughPointer(h: Heap, t: TypeTag, a: Addr)
    requires a in h && Deref(h, h[a].val, |h| - 1).Some?
    ensures GetName(h, Ptr(t, Some(a))) == GetName(h, h[a].val)
  {
    DerefMore(h, h[a].val, |h| - 1, |h|);
  }

  /** The key an element is stored under: its name, when it has a non-empty one. */
  predicate HasKey(h: Heap, v: Value)
  {
    GetName(h, v).Named? && GetName(h, v).name != ""
  }

  function Key(h: Heap, v: Value): string
    requires HasKey(h, v)
  {
    GetName(h, v).name
  }

  lemma NameOfRecord(h: Heap, t: TypeTag, fs: seq<Field>, i: nat)
    requires i < |fs| && fs[i].name == "Name" && fs[i].val.Scalar? && fs[i].val.lit.LStr?
    requires forall j :: 0 <= j < i ==> fs[j].name != "Name"
    ensures GetName(h, Record(t, fs)) == Named(fs[i].val.lit.s)
  {
    var k := i;
    var gs := fs;
    while k > 0
      invariant 0 <= k <= i && k <= |gs| && gs == fs[i - k..]
      invariant NameField(gs) == NameField(fs)
    {
      gs := gs[1..];
      k := k - 1;
    }
  }

  // ---------------------------------------------------------------------------------------
  // Specification of the set as a map, and of a whole scan of elements.

  /** One Add: an element with no usable key, or whose key is present, changes nothing. */
  function AddOne(h: Heap, m: map<string, Value>, x: Value): map<string, Value>
  {
    if HasKey(h, x) && Key(h, x) !in m then m[Key(h, x) := x] else m
  }

  /** One Upsert: an element with a usable key replaces whatever was stored under it. */
  function UpsertOne(h: Heap, m: map<string, Value>, x: Value): map<string, Value>
  {
    if HasKey(h, x) then m[Key(h, x) := x] else m
  }

  /** Add every element of xs, in order. */
  function AddAll(h: Heap, m: map<string, Value>, xs: seq<Value>): (r: map<string, Value>)
    ensures forall k :: k in m ==> k in r && r[k] == m[k]
    ensures forall k :: k in r && k !in m ==> r[k] in xs
  {
    if xs == [] then m else AddOne(h, AddAll(h, m, xs[..|xs| - 1]), xs[|xs| - 1])
  }

  /** Upsert every element of xs, in order. */
  function UpsertAll(h: Heap, m: map<string, Value>, xs: seq<Value>): (r: map<string, Value>)
    ensures m.Keys <= r.Keys
    ensures forall k :: k in r ==> (k in m && r[k] == m[k]) || r[k] in xs
  {
    if xs == [] then m else UpsertOne(h, UpsertAll(h, m, xs[..|xs| - 1]), xs[|xs| - 1])
  }

  /** The keys that the elements of xs provide. */
  ghost function KeysOf(h: Heap, xs: seq<Value>): set<string>
  {
    set i | 0 <= i < |xs| && HasKey(h, xs[i]) :: Key(h, xs[i])
  }

  /** xs[j] is the earliest element of xs whose key is k. */
  ghost predicate EarliestWith(h: Heap, xs: seq<Value>, k: string, j: int)
  {
    0 <= j < |xs| && HasKey(h, xs[j]) && Key(h, xs[j]) == k
    && forall i :: 0 <= i < j && HasKey(h, xs[i]) ==> Key(h, xs[i]) != k
  }

  /** xs[j] is the latest element of xs whose key is k. */
  ghost predicate LatestWith(h: Heap, xs: seq<Value>, k: string, j: int)
  {
    0 <= j < |xs| && HasKey(h, xs[j]) && Key(h, xs[j]) == k
    && forall i :: j < i < |xs| && HasKey(h, xs[i]) ==> Key(h, xs[i]) != k
  }

  lemma KeysOfSnoc(h: Heap, xs: seq<Value>)
    requires xs != []
    ensures KeysOf(h, xs) == KeysOf(h, xs[..|xs| - 1])
              + (if HasKey(h, xs[|xs| - 1]) then {Key(h, xs[|xs| - 1])} else {})
  {
    var n := |xs| - 1;
    var pre := xs[..n];
    forall k | k in KeysOf(h, xs) ensures k in KeysOf(h, pre) || (HasKey(h, xs[n]) && k == Key(h, xs[n])) {
      var i :| 0 <= i < |xs| && HasKey(h, xs[i]) && Key(h, xs[i]) == k;
      if i < n { assert pre[i] == xs[i]; }
    }
    forall k | k in KeysOf(h, pre) ensures k in KeysOf(h, xs) {
      var i :| 0 <= i < |pre| && HasKey(h, pre[i]) && Key(h, pre[i]) == k;
      assert xs[i] == pre[i];
    }
  }

  /** Adding a scan of elements to an empty set leaves exactly the keys of those elements. */
  lemma {:induction false} AddAllKeys(h: Heap, xs: seq<Value>)
    ensures AddAll(h, map[], xs).Keys == KeysOf(h, xs)
  {
    if xs != [] {
      var pre := xs[..|xs| - 1];
      AddAllKeys(h, pre);
      KeysStep(h, xs, AddAll(h, map[], pre), AddAll(h, map[], xs));
    }
  }

  /** One more element adds its key, if it has one, to the keys of the scan so far. */
  lemma KeysStep(h: Heap, xs: seq<Value>, m: map<string, Value>, r: map<string, Value>)
    requires xs != [] && m.Keys == KeysOf(h, xs[..|xs| - 1])
    requires r == AddOne(h, m, xs[|xs| - 1]) || r == UpsertOne(h, m, xs[|xs| - 1])
    ensures r.Keys == KeysOf(h, xs)
  {
    KeysOfSnoc(h, xs);
  }

  /** Upserting a scan of elements into an empty set leaves exactly the keys of those elements. */
  lemma {:induction false} UpsertAllKeys(h: Heap, xs: seq<Value>)
    ensures UpsertAll(h, map[], xs).Keys == KeysOf(h, xs)
  {
    if xs != [] {
      var pre := xs[..|xs| - 1];
      UpsertAllKeys(h, pre);
      KeysStep(h, xs, UpsertAll(h, map[], pre), UpsertAll(h, map[], xs));
    }
  }

  /** After adding a scan of elements, the element held under each key is the EARLIEST element
      of the scan with that key. */
  lemma {:induction false} AddAllKeepsFirst(h: Heap, xs: seq<Value>)
    ensures forall k :: k in AddAll(h, map[], xs) ==>
              exists j :: EarliestWith(h, xs, k, j) && AddAll(h, map[], xs)[k] == xs[j]
  {
    if xs != [] {
      var n := |xs| - 1;
      var pre := xs[..n];
      AddAllKeepsFirst(h, pre);
      AddAllKeys(h, pre);
      var m := AddAll(h, map[], pre);
      forall k | k in AddAll(h, map[], xs)
        ensures exists j :: EarliestWith(h, xs, k, j) && AddAll(h, map[], xs)[k] == xs[j]
      {
        if k in m {
          var j :| EarliestWith(h, pre, k, j) && m[k] == pre[j];
          EarliestExtends(h, xs, n, k, j);
        } else {
          EarliestAtEnd(h, xs, k);
        }
      }
    }
  }

  /** The earliest element with a key stays the earliest when elements are appended. */
  lemma EarliestExtends(h: Heap, xs: seq<Value>, n: nat, k: string, j: int)
    requires n <= |xs| && EarliestWith(h, xs[..n], k, j)
    ensures EarliestWith(h, xs, k, j) && xs[j] == xs[..n][j]
  {
    assert forall i :: 0 <= i <= j ==> xs[i] == xs[..n][i];
  }

  /** An element whose key no earlier element has is the earliest with that key. */
  lemma EarliestAtEnd(h: Heap, xs: seq<Value>, k: string)
    requires xs != [] && HasKey(h, xs[|xs| - 1]) && Key(h, xs[|xs| - 1]) == k
    requires k !in KeysOf(h, xs[..|xs| - 1])
    ensures EarliestWith(h, xs, k, |xs| - 1)
  {
    var pre := xs[..|xs| - 1];
    forall i | 0 <= i < |xs| - 1 && HasKey(h, xs[i]) ensures Key(h, xs[i]) != k {
      assert pre[i] == xs[i];
      assert Key(h, pre[i]) in KeysOf(h, pre);
    }
  }

  /** After upserting a scan of elements, the element held under each key is the LATEST element
      of the scan with that key. */
  lemma {:induction false} UpsertAllKeepsLast(h: Heap, xs: seq<Value>)
    ensures forall k :: k in UpsertAll(h, map[], xs) ==>
              exists j :: LatestWith(h, xs, k, j) && UpsertAll(h, map[], xs)[k] == xs[j]
  {
    if xs != [] {
      var pre := xs[..|xs| - 1];
      UpsertAllKeepsLast(h, pre);
      LatestStep(h, xs, pre, UpsertAll(h, map[], pre), UpsertAll(h, map[], xs));
    }
  }

  /** One more Upsert keeps every key holding the latest element with that key. */
  lemma LatestStep(h: Heap, xs: seq<Value>, pre: seq<Value>, m: map<string, Value>, r: map<string, Value>)
    requires xs != [] && pre == xs[..|xs| - 1] && r == UpsertOne(h, m, xs[|xs| - 1])
    requires forall k :: k in m ==> exists j :: LatestWith(h, pre, k, j) && m[k] == pre[j]
    ensures forall k :: k in r ==> exists j :: LatestWith(h, xs, k, j) && r[k] == xs[j]
  {
    var n := |xs| - 1;
    forall k | k in r
      ensures exists j :: LatestWith(h, xs, k, j) && r[k] == xs[j]
    {
      if HasKey(h, xs[n]) && Key(h, xs[n]) == k {
        assert LatestWith(h, xs, k, n);
      } else {
        var j :| LatestWith(h, pre, k, j) && m[k] == pre[j];
        assert xs[j] == pre[j];
        forall i | j < i < |xs| && HasKey(h, xs[i]) ensures Key(h, xs[i]) != k {
          if i < n { assert xs[i] == pre[i]; }
        }
        assert LatestWith(h, xs, k, j);
      }
    }
  }

  // ---------------------------------------------------------------------------------------
  // Sorted materialisation.

  ghost function Least(s: set<string>): (m: string)
    requires s != {}
    ensures IsLeast(m, s)
  {
    HasLeast(s);
    var m :| IsLeast(m, s); m
  }

  lemma LeastUnique(m: string, n: string, s: set<string>)
    requires IsLeast(m, s) && IsLeast(n, s)
    ensures m == n
  {
    if m != n { LessAsymmetric(m, n); }
  }

  /** The keys of s in ascending order. */
  ghost function SortedKeys(s: set<string>): seq<string>
    decreases |s|
  {
    if s == {} then [] else var m := Least(s); [m] + SortedKeys(s - {m})
  }

  /** SortedKeys lists every key of s exactly once, strictly ascending. */
  lemma {:induction false} SortedKeysSpec(s: set<string>)
    ensures StrictlyAscending(SortedKeys(s))
    ensures |SortedKeys(s)| == |s|
    ensures forall k :: k in s <==> k in SortedKeys(s)
    decreases |s|
  {
    if s != {} {
      var m := Least(s);
      SortedKeysSpec(s - {m});
      var rest := SortedKeys(s - {m});
      assert forall k :: k in rest ==> Less(m, k);
      assert SortedKeys(s) == [m] + rest;
    }
  }

  lemma SortedKeysStep(s: set<string>, k: string)
    requires IsLeast(k, s)
    ensures SortedKeys(s) == [k] + SortedKeys(s - {k})
  {
    LeastUnique(k, Least(s), s);
  }

  /** The held elements, one per key, in ascending order of key. */
  ghost function SortedValues(m: map<string, Value>): (r: seq<Value>)
    ensures |r| == |m|
  {
    SortedKeysSpec(m.Keys);
    var ks := SortedKeys(m.Keys);
    seq(|ks|, i requires 0 <= i < |ks| => m[ks[i]])
  }

  /** The i-th materialised element is the one held under the i-th smallest key. */
  lemma SortedValuesAt(m: map<string, Value>)
    ensures |SortedKeys(m.Keys)| == |SortedValues(m)|
    ensures forall i :: 0 <= i < |SortedValues(m)| ==>
              SortedKeys(m.Keys)[i] in m && SortedValues(m)[i] == m[SortedKeys(m.Keys)[i]]
  {
    SortedKeysSpec(m.Keys);
  }

  /** Every held element appears in the materialised set. */
  lemma SortedValuesListsAll(m: map<string, Value>)
    ensures forall k :: k in m ==> m[k] in SortedValues(m)
  {
    SortedKeysSpec(m.Keys);
    SortedValuesAt(m);
    var ks := SortedKeys(m.Keys);
    forall k | k in m ensures m[k] in SortedValues(m) {
      var i :| 0 <= i < |ks| && ks[i] == k;
      assert SortedValues(m)[i] == m[k];
    }
  }

  /** The materialised set lists each held element exactly once, strictly ascending by key, and
      every listed element is the one held under its key. */
  lemma SortedValuesOrdered(h: Heap, m: map<string, Value>)
    requires forall k :: k in m ==> HasKey(h, m[k]) && Key(h, m[k]) == k
    ensures |SortedValues(m)| == |m|
    ensures forall i :: 0 <= i < |SortedValues(m)| ==>
              HasKey(h, SortedValues(m)[i]) && Key(h, SortedValues(m)[i]) in m
              && m[Key(h, SortedValues(m)[i])] == SortedValues(m)[i]
    ensures forall i, j :: 0 <= i < j < |SortedValues(m)| ==>
              Less(Key(h, SortedValues(m)[i]), Key(h, SortedValues(m)[j]))
    ensures forall k :: k in m ==> m[k] in SortedValues(m)
  {
    SortedKeysSpec(m.Keys);
    SortedValuesAt(m);
    SortedValuesListsAll(m);
    OrderedListing(h, m, SortedKeys(m.Keys), SortedValues(m));
  }

  /** SortedValuesOrdered for any listing r of m along strictly ascending keys ks. */
  lemma OrderedListing(h: Heap, m: map<string, Value>, ks: seq<string>, r: seq<Value>)
    requires forall k :: k in m ==> HasKey(h, m[k]) && Key(h, m[k]) == k
    requires StrictlyAscending(ks) && |r| == |ks|
    requires forall i :: 0 <= i < |r| ==> ks[i] in m && r[i] == m[ks[i]]
    ensures forall i :: 0 <= i < |r| ==> HasKey(h, r[i]) && Key(h, r[i]) in m && m[Key(h, r[i])] == r[i]
    ensures forall i, j :: 0 <= i < j < |r| ==> Less(Key(h, r[i]), Key(h, r[j]))
  {
    assert forall i :: 0 <= i < |r| ==> HasKey(h, r[i]) && Key(h, r[i]) == ks[i];
  }

  /** A listing of the held elements in the order of the sorted keys is the materialised set. */
  lemma SortedValuesListing(m: map<string, Value>, ks: seq<string>, r: seq<Value>)
    requires SortedKeys(m.Keys) == ks + SortedKeys({})
    requires |r| == |ks| && forall i :: 0 <= i < |ks| ==> ks[i] in m && r[i] == m[ks[i]]
    ensures r == SortedValues(m)
  {
    assert ks + SortedKeys({}) == ks;
  }

  /** Every element the scans put in the set is held under its own key. */
  lemma {:induction false} AddAllKeyed(h: Heap, xs: seq<Value>)
    ensures forall k :: k in AddAll(h, map[], xs) ==>
              HasKey(h, AddAll(h, map[], xs)[k]) && Key(h, AddAll(h, map[], xs)[k]) == k
  {
    if xs != [] { AddAllKeyed(h, xs[..|xs| - 1]); }
  }

  lemma {:induction false} UpsertAllKeyed(h: Heap, xs: seq<Value>)
    ensures forall k :: k in UpsertAll(h, map[], xs) ==>
              HasKey(h, UpsertAll(h, map[], xs)[k]) && Key(h, UpsertAll(h, map[], xs)[k]) == k
  {
    if xs != [] { UpsertAllKeyed(h, xs[..|xs| - 1]); }
  }

  // ---------------------------------------------------------------------------------------
  // The set itself, updated in place.

  class NamedSet {
    var items: map<string, Value>

    /** newNamedSet / &NamedSet{}: an empty set. */
    constructor ()
      ensures items == map[]
    {
      items := map[];
    }

    /** The number of distinct keys held. */
    function Cardinality(): (n: nat)
      reads this
      ensures n == |items.Keys|
    {
      |items|
    }

    /** Add: store x under its name unless it has no usable name or the name is taken. */
    method Add(h: Heap, x: Value) returns (added: bool)
      modifies this
      ensures added <==> HasKey(h, x) && Key(h, x) !in old(items)
      ensures items == AddOne(h, old(items), x)
      ensures Cardinality() == old(Cardinality()) + (if added then 1 else 0)
    {
      var n := GetName(h, x);
      if n.Unnamed? || n.name == "" {
        return false;
      }
      if n.name in items {
        return false;
      }
      items := items[n.name := x];
      added := true;
    }

    /** Upsert: store x under its name, replacing an earlier element with the same name. */
    method Upsert(h: Heap, x: Value) returns (stored: bool)
      modifies this
      ensures stored <==> HasKey(h, x)
      ensures items == UpsertOne(h, old(items), x)
      ensures stored ==> items[Key(h, x)] == x
      ensures Cardinality() == old(Cardinality()) + (if stored && Key(h, x) !in old(items) then 1 else 0)
    {
      var n := GetName(h, x);
      if n.Unnamed? || n.name == "" {
        return false;
      }
      items := items[n.name := x];
      stored := true;
    }

    /** ToSortedSlice: every held element once, in ascending order of name. */
    method ToSortedSlice() returns (r: seq<Value>)
      ensures r == SortedValues(items)
      ensures |r| == Cardinality()
    {
      var remaining := items.Keys;
      ghost var ks: seq<string> := [];
      r := [];
      while remaining != {}
        invariant remaining <= items.Keys
        invariant SortedKeys(items.Keys) == ks + SortedKeys(remaining)
        invariant |r| == |ks|
        invariant forall i :: 0 <= i < |ks| ==> ks[i] in items && r[i] == items[ks[i]]
        decreases |remaining|
      {
        HasLeast(remaining);
        var k :| IsLeast(k, remaining);
        SortedKeysStep(remaining, k);
        assert ks + SortedKeys(remaining) == (ks + [k]) + SortedKeys(remaining - {k});
        r := r + [items[k]];
        ks := ks + [k];
        remaining := remaining - {k};
      }
      SortedValuesListing(items, ks, r);
    }
  }

  // ---------------------------------------------------------------------------------------

  /** The outcome of a Go expression that can panic. */
  datatype Outcome<T> = Returns(value: T) | Panics

  /** Whether `==` on interface values holding v can compare it without a run-time panic:
      slices and maps cannot be compared, nor can structs containing them. */
  predicate Comparable(v: Value)
  {
    match v
    case Slice(_, _, _) => false
    case MapV(_, _, _) => false
    case Record(_, fs) => forall i :: 0 <= i < |fs| ==> Comparable(fs[i].val)
    case _ => true
  }

  /** IsZeroOfUnderlyingType(x): x == reflect.Zero(reflect.TypeOf(x)).Interface(). A nil
      interface has no type, and reflect.Zero panics on it. */
  function IsZeroOfUnderlyingType(x: Option<Value>): (r: Outcome<bool>)
    ensures r.Panics? <==> x.None? || !Comparable(x.value)
    ensures r.Returns? ==> (r.value <==> x.value == Zero(x.value))
  {
    match x
    case None => Panics
    case Some(v) => if Comparable(v) then Returns(v == Zero(v)) else Panics
  }

  /** For the scalar and pointer kinds, being the zero value and being empty coincide; a struct
      is never empty even when it is its type's zero value. */
  lemma ZeroMeansEmpty(v: Value)
    requires v.Scalar? || v.Ptr? || v.Iface?
    ensures IsZeroOfUnderlyingType(Some(v)) == Returns(IsEmpty(v))
  {
  }
}
