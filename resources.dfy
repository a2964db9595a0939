/**
 * What the engine does to the f5 records the Patch* functions merge. LBMonitorHttp is all
 * scalars; LBServerSsl carries []string fields; LBClientSsl carries a slice of records named by
 * their Name field.
 */
module ResourceMerges {
  import opened Common
  import opened Values
  import opened NamedSets
  import opened MergeConfig
  import opened MergeEngine
  import opened MergeRules

  /** Exported, non-embedded scalar fields only, as in LBMonitorHttp. */
  predicate ScalarFields(fs: seq<Field>)
  {
    forall i :: 0 <= i < |fs| ==> fs[i].exported && !fs[i].embedded && fs[i].val.Scalar?
  }

  /** The per-field outcome of a merge on a scalar field: an empty destination skipped under
      SkipEmptyFields stays; otherwise a non-empty source is taken when overriding or when the
      destination is empty. */
  function Pick(cfg: Config, d: Value, s: Value): Value
  {
    if IsEmpty(d) && cfg.skipEmptyFields then d
    else if !IsEmpty(s) && (cfg.override || IsEmpty(d)) then s
    else d
  }

  /** The destination's fields once the first i have been merged with the source's. */
  function PickFields(cfg: Config, fs: seq<Field>, gs: seq<Field>, i: nat): (r: seq<Field>)
    requires i <= |fs| <= |gs|
    ensures |r| == |fs|
  {
    seq(|fs|, j requires 0 <= j < |fs| => if j < i then fs[j].(val := Pick(cfg, fs[j].val, gs[j].val)) else fs[j])
  }

  /** The struct walk over scalar fields, from field i on: every remaining field is merged by
      Pick, in place in the destination's cell, and nothing fails. */
  lemma {:induction false} MergeScalarFields(h0: Heap, a: Addr, t: TypeTag, fs: seq<Field>, cfg: Config,
                                             h: Heap, vis: set<VisitKey>, ss: Slot, s: Value, i: nat)
    requires a in h0 && ScalarFields(fs) && cfg.transformers.None?
    requires s.Record? && |s.fields| == |fs| && i <= |fs|
    requires h == h0[a := Cell(h0[a].ty, Record(t, PickFields(cfg, fs, s.fields, i)))]
    requires forall j :: i <= j < |fs| ==> VisitKey(Place(a, [j]), fs[j].val.ty) !in vis
    ensures var r := MergeFields(h, vis, cfg, Slot(Some(Place(a, [])), false), Record(t, fs), ss, s, i);
            r.err.None? && r.heap == h0[a := Cell(h0[a].ty, Record(t, PickFields(cfg, fs, s.fields, |fs|)))]
    decreases |fs| - i
  {
    if i < |fs| {
      var ds := Slot(Some(Place(a, [])), false);
      var d := Record(t, fs);
      var fd := FieldSlot(ds, i, fs[i]);
      assert [] + [i] == [i];
      var key := VisitKey(Place(a, [i]), fs[i].val.ty);
      var sd := FieldSlot(ss, i, s.fields[i]);
      var r1 := DeepMerge(h, vis, cfg, fd, fs[i].val, sd, s.fields[i].val);
      var ps := PickFields(cfg, fs, s.fields, i);
      var ps' := PickFields(cfg, fs, s.fields, i + 1);
      var v := Pick(cfg, fs[i].val, s.fields[i].val);
      assert ps' == ps[i := fs[i].(val := v)];
      if IsEmpty(fs[i].val) && cfg.skipEmptyFields {
        assert r1 == Res(h, vis, None);
        assert ps' == ps;
        assert r1.heap == h0[a := Cell(h0[a].ty, Record(t, ps'))];
      } else {
        ReachesDispatch(h, vis, cfg, fd, fs[i].val, sd, s.fields[i].val);
        assert r1 == CopyRule(h, vis + {key}, cfg, fd, fs[i].val, s.fields[i].val);
        if !(!IsEmpty(s.fields[i].val) && (cfg.override || IsEmpty(fs[i].val))) {
          assert ps' == ps;
          assert r1.heap == h;
          assert r1.heap == h0[a := Cell(h0[a].ty, Record(t, ps'))];
        } else {
          assert r1.heap == SetAt(h, Place(a, [i]), v);
          assert [i][1..] == [] && ps[i] == fs[i];
          assert Replace(Record(t, ps), [i], v) == Record(t, ps');
          assert r1.heap == h0[a := Cell(h0[a].ty, Record(t, ps'))];
        }
      }
      assert r1.err.None? && r1.heap == h0[a := Cell(h0[a].ty, Record(t, ps'))];
      assert r1.visited <= vis + {key};
      MergeScalarFields(h0, a, t, fs, cfg, r1.heap, r1.visited, ss, s, i + 1);
    }
  }

  /** merge(dst, src) on two records of the same all-scalar type: each field of dst becomes Pick
      of its own value and src's, no other cell changes, and no error is returned. */
  lemma ScalarRecordMerge(h: Heap, dst: Addr, src: Addr, opts: seq<ConfigOption>)
    requires dst in h && src in h && h[dst].ty == h[src].ty
    requires h[dst].val.Record? && |h[dst].val.fields| > 0 && ScalarFields(h[dst].val.fields)
    requires h[src].val.Record? && |h[src].val.fields| == |h[dst].val.fields|
    requires ApplyOptions(Default, opts).transformers.None?
    ensures var d := h[dst].val;
            var r := MergeValues(h, dst, src, opts);
            r.err.None?
            && r.heap == h[dst := Cell(h[dst].ty,
                                       Record(d.ty, PickFields(ApplyOptions(Default, opts), d.fields,
                                                               h[src].val.fields, |d.fields|)))]
  {
    var cfg := ApplyOptions(Default, opts);
    var d := h[dst].val;
    var ds := Slot(Some(Place(dst, [])), false);
    var ss := Slot(Some(Place(src, [])), false);
    var key := VisitKey(Place(dst, []), h[dst].ty);
    assert Contributes(d.fields[0]);
    assert HasVisibleField(d);
    assert MergeValues(h, dst, src, opts) == RootMerge(h, {}, cfg, dst, false, ss, h[src].val);
    assert {} + {key} == {key};
    assert RootMerge(h, {}, cfg, dst, false, ss, h[src].val) == Transform(h, {key}, cfg, ds, d, ss, h[src].val);
    assert Transform(h, {key}, cfg, ds, d, ss, h[src].val) == Dispatch(h, {key}, cfg, ds, d, ss, h[src].val);
    assert Dispatch(h, {key}, cfg, ds, d, ss, h[src].val) == MergeFields(h, {key}, cfg, ds, d, ss, h[src].val, 0);
    assert MergeValues(h, dst, src, opts) == MergeFields(h, {key}, cfg, ds, d, ss, h[src].val, 0);
    assert PickFields(cfg, d.fields, h[src].val.fields, 0) == d.fields;
    assert h == h[dst := Cell(h[dst].ty, Record(d.ty, d.fields))];
    MergeScalarFields(h, dst, d.ty, d.fields, cfg, h, {key}, ss, h[src].val, 0);
  }

  /** LBServerSsl's []string fields (TmOptions and the like) under UniqueFirstSeen or
      UniqueLastSeen: the result holds each distinct non-empty string of dst ++ src once, in
      strictly ascending order, and no empty string. */
  lemma UniqueStrings(h: Heap, all: seq<Value>, first: bool)
    requires forall i :: 0 <= i < |all| ==> all[i].Scalar? && all[i].lit.LStr?
    ensures var xs := SortedValues(Fill(h, map[], all, first));
            (forall i :: 0 <= i < |xs| ==> xs[i] in all && xs[i].lit.s != "")
            && (forall i, j :: 0 <= i < j < |xs| ==> Less(xs[i].lit.s, xs[j].lit.s))
            && (forall j :: 0 <= j < |all| && all[j].lit.s != "" ==>
                  exists i :: 0 <= i < |xs| && xs[i].lit.s == all[j].lit.s)
  {
    FillIsUnique(h, all, first);
    UniqueStringsOf(h, all, SortedValues(Fill(h, map[], all, first)), first);
  }

  lemma UniqueStringsOf(h: Heap, all: seq<Value>, xs: seq<Value>, first: bool)
    requires forall i :: 0 <= i < |all| ==> all[i].Scalar? && all[i].lit.LStr?
    requires UniqueByName(h, all, xs, first)
    ensures (forall i :: 0 <= i < |xs| ==> xs[i] in all && xs[i].lit.s != "")
            && (forall i, j :: 0 <= i < j < |xs| ==> Less(xs[i].lit.s, xs[j].lit.s))
            && (forall j :: 0 <= j < |all| && all[j].lit.s != "" ==>
                  exists i :: 0 <= i < |xs| && xs[i].lit.s == all[j].lit.s)
  {
    forall i | 0 <= i < |xs|
      ensures xs[i] in all && xs[i].lit.s != "" && Key(h, xs[i]) == xs[i].lit.s
    {
      var j :| KeptFor(h, all, Key(h, xs[i]), j, first) && all[j] == xs[i];
    }
    forall j | 0 <= j < |all| && all[j].lit.s != ""
      ensures exists i :: 0 <= i < |xs| && xs[i].lit.s == all[j].lit.s
    {
      assert HasKey(h, all[j]) && Key(h, all[j]) in KeysOf(h, all);
    }
  }

  /** A record whose first field is a string called Name, as LBCertKeyChain. */
  predicate NamedRecord(v: Value)
  {
    v.Record? && |v.fields| > 0 && v.fields[0].name == "Name" && v.fields[0].val.Scalar?
    && v.fields[0].val.lit.LStr?
  }

  function RecordName(v: Value): string
    requires NamedRecord(v)
  {
    v.fields[0].val.lit.s
  }

  lemma NamedRecordKey(h: Heap, v: Value)
    requires NamedRecord(v)
    ensures HasKey(h, v) <==> RecordName(v) != ""
    ensures HasKey(h, v) ==> Key(h, v) == RecordName(v)
  {
    NameOfRecord(h, v.ty, v.fields, 0);
  }

  /** Names and keys agree on a scan of named records. */
  lemma NamedKeys(h: Heap, all: seq<Value>)
    requires forall i :: 0 <= i < |all| ==> NamedRecord(all[i])
    ensures forall j :: 0 <= j < |all| ==> (HasKey(h, all[j]) <==> RecordName(all[j]) != "")
    ensures forall j :: 0 <= j < |all| && HasKey(h, all[j]) ==> Key(h, all[j]) == RecordName(all[j])
  {
    forall j | 0 <= j < |all|
      ensures HasKey(h, all[j]) <==> RecordName(all[j]) != ""
      ensures HasKey(h, all[j]) ==> Key(h, all[j]) == RecordName(all[j])
    {
      NamedRecordKey(h, all[j]);
    }
  }

  /** LBClientSsl's CertKeyChain under UniqueFirstSeen or UniqueLastSeen: one entry per non-empty
      Name, strictly ascending by Name, and every non-empty Name of dst ++ src is kept. */
  lemma UniqueCertKeyChains(h: Heap, all: seq<Value>, first: bool)
    requires forall i :: 0 <= i < |all| ==> NamedRecord(all[i])
    ensures var xs := SortedValues(Fill(h, map[], all, first));
            (forall i :: 0 <= i < |xs| ==> NamedRecord(xs[i]) && RecordName(xs[i]) != "")
            && (forall i, j :: 0 <= i < j < |xs| ==> Less(RecordName(xs[i]), RecordName(xs[j])))
            && (forall j :: 0 <= j < |all| && RecordName(all[j]) != "" ==>
                  exists i :: 0 <= i < |xs| && RecordName(xs[i]) == RecordName(all[j]))
  {
    FillIsUnique(h, all, first);
    UniqueCertKeyChainsOf(h, all, SortedValues(Fill(h, map[], all, first)), first);
  }

  lemma UniqueCertKeyChainsOf(h: Heap, all: seq<Value>, xs: seq<Value>, first: bool)
    requires forall i :: 0 <= i < |all| ==> NamedRecord(all[i])
    requires UniqueByName(h, all, xs, first)
    ensures (forall i :: 0 <= i < |xs| ==> NamedRecord(xs[i]) && RecordName(xs[i]) != "")
            && (forall i, j :: 0 <= i < j < |xs| ==> Less(RecordName(xs[i]), RecordName(xs[j])))
            && (forall j :: 0 <= j < |all| && RecordName(all[j]) != "" ==>
                  exists i :: 0 <= i < |xs| && RecordName(xs[i]) == RecordName(all[j]))
  {
    NamedKeys(h, all);
    forall i | 0 <= i < |xs|
      ensures NamedRecord(xs[i]) && Key(h, xs[i]) == RecordName(xs[i])
    {
      var k :| KeptFor(h, all, Key(h, xs[i]), k, first) && all[k] == xs[i];
    }
    forall j | 0 <= j < |all| && RecordName(all[j]) != ""
      ensures exists i :: 0 <= i < |xs| && RecordName(xs[i]) == RecordName(all[j])
    {
      assert Key(h, all[j]) in KeysOf(h, all);
    }
  }

  /** Each CertKeyChain entry kept is an element of dst ++ src taken whole, not merged with its
      namesakes: the first of its name under UniqueFirstSeen, the last under UniqueLastSeen. */
  lemma CertKeyChainKeptWhole(h: Heap, all: seq<Value>, first: bool)
    requires forall i :: 0 <= i < |all| ==> NamedRecord(all[i])
    ensures var xs := SortedValues(Fill(h, map[], all, first));
            forall i :: 0 <= i < |xs| ==>
              exists k :: 0 <= k < |all| && all[k] == xs[i] && KeptWhole(all, k, first)
  {
    FillIsUnique(h, all, first);
    var xs := SortedValues(Fill(h, map[], all, first));
    NamedKeys(h, all);
    forall i | 0 <= i < |xs|
      ensures exists k :: 0 <= k < |all| && all[k] == xs[i] && KeptWhole(all, k, first)
    {
      var k :| KeptFor(h, all, Key(h, xs[i]), k, first) && all[k] == xs[i];
      KeptForIsWhole(h, all, k, first);
    }
  }

  /** all[k] is the first (first) or the last (!first) named record of all with its Name. */
  predicate KeptWhole(all: seq<Value>, k: int, first: bool)
    requires 0 <= k < |all| && forall i :: 0 <= i < |all| ==> NamedRecord(all[i])
  {
    (first ==> forall j :: 0 <= j < k ==> RecordName(all[j]) != RecordName(all[k]))
    && (!first ==> forall j :: k < j < |all| ==> RecordName(all[j]) != RecordName(all[k]))
  }

  lemma KeptForIsWhole(h: Heap, all: seq<Value>, k: int, first: bool)
    requires forall i :: 0 <= i < |all| ==> NamedRecord(all[i])
    requires forall j :: 0 <= j < |all| ==> (HasKey(h, all[j]) <==> RecordName(all[j]) != "")
    requires forall j :: 0 <= j < |all| && HasKey(h, all[j]) ==> Key(h, all[j]) == RecordName(all[j])
    requires 0 <= k < |all| && HasKey(h, all[k]) && KeptFor(h, all, Key(h, all[k]), k, first)
    ensures KeptWhole(all, k, first)
  {
  }
}
