/**
 * What every Patch* call promises, proved once on PatchRun: which requests reach the device, in
 * what order and to which URL, and what the caller gets back.
 */
module PatchRules {
  import opened Common
  import opened Values
  import opened MergeConfig
  import opened MergeEngine
  import opened Docs
  import opened Devices
  import opened ResourceMerges

  /** Only the merging strategies read the object first: one GET, before anything else, at the
      Show* URL of the escaped name; under Overwrite every request sent is a PATCH. */
  lemma FetchOnlyWhenMerging(s: Settings, r: Resource, h: Heap, name: string, patch: Addr,
                             fetch: Reply, reply: Reply)
    requires patch in h && Decodable(fetch) && Decodable(reply)
    ensures var run := PatchRun(s, r, h, name, patch, fetch, reply);
            (s.strategy >= AppendAdditive ==>
               |run.sent| >= 1 && run.sent[0] == Request(GET, Url(s, r, Escape(name)) + r.query, None))
            && (forall i :: 0 < i < |run.sent| ==> run.sent[i].verb == PATCH)
            && (s.strategy < AppendAdditive ==> forall i :: 0 <= i < |run.sent| ==> run.sent[i].verb == PATCH)
  {
    StagedSent(s, r, h, name, patch, fetch);
    EscapeIdempotent(name);
    FinishOnlyPatches(s, r, name, patch, Staged(s, r, h, name, patch, fetch), reply);
  }

  /** FetchOnlyWhenMerging for any staging that sent what StagedSent says. */
  lemma FinishOnlyPatches(s: Settings, r: Resource, name: string, patch: Addr, st: Stage, reply: Reply)
    requires st.Ready? ==> patch in st.heap && st.created in st.heap && st.existing in st.heap
    requires Decodable(reply)
    requires st.sent == if s.strategy >= AppendAdditive then [Request(GET, Url(s, r, Escape(name)) + r.query, None)]
                        else []
    ensures var run := Finish(s, r, name, patch, st, reply);
            (s.strategy >= AppendAdditive ==>
               |run.sent| >= 1 && run.sent[0] == Request(GET, Url(s, r, Escape(name)) + r.query, None))
            && (forall i :: 0 < i < |run.sent| ==> run.sent[i].verb == PATCH)
            && (s.strategy < AppendAdditive ==> forall i :: 0 <= i < |run.sent| ==> run.sent[i].verb == PATCH)
  {
    FinishSent(s, r, name, patch, st, reply);
  }

  /** The staging sends the GET under a merging strategy and nothing otherwise. */
  lemma StagedSent(s: Settings, r: Resource, h: Heap, name: string, patch: Addr, fetch: Reply)
    requires patch in h && Decodable(fetch)
    ensures Staged(s, r, h, name, patch, fetch).sent
            == if s.strategy >= AppendAdditive then [Request(GET, Url(s, r, Escape(Escape(name))) + r.query, None)]
               else []
  {
  }

  /** The end of a call adds at most one request to those of the staging, and only a PATCH. */
  lemma FinishSent(s: Settings, r: Resource, name: string, patch: Addr, st: Stage, reply: Reply)
    requires st.Ready? ==> patch in st.heap && st.created in st.heap && st.existing in st.heap
    requires Decodable(reply)
    ensures var run := Finish(s, r, name, patch, st, reply);
            |st.sent| <= |run.sent| <= |st.sent| + 1 && run.sent[..|st.sent|] == st.sent
            && forall i :: |st.sent| <= i < |run.sent| ==> run.sent[i].verb == PATCH
  {
  }


  /** A failed fetch ends the call with its error: no PATCH, no result. */
  lemma FetchFailureAborts(s: Settings, r: Resource, h: Heap, name: string, patch: Addr,
                           fetch: Reply, reply: Reply)
    requires patch in h && Decodable(fetch) && Decodable(reply)
    requires s.strategy >= AppendAdditive && fetch.Failed?
    ensures var run := PatchRun(s, r, h, name, patch, fetch, reply);
            run.err == Some(fetch.msg) && run.result.None? && |run.sent| == 1 && run.sent[0].verb == GET
  {
  }

  /** A dry run never writes: unless a merge panicked, it hands back the (possibly merged) patch
      itself, and it sends no PATCH. */
  lemma DryRunReturnsPatch(s: Settings, r: Resource, h: Heap, name: string, patch: Addr,
                           fetch: Reply, reply: Reply)
    requires patch in h && Decodable(fetch) && Decodable(reply)
    requires s.dryRun && !(s.strategy >= AppendAdditive && fetch.Failed?)
    ensures var run := PatchRun(s, r, h, name, patch, fetch, reply);
            (run.crashed || (run.err.None? && run.result == Some(patch)))
            && forall i :: 0 <= i < |run.sent| ==> run.sent[i].verb == GET
  {
  }

  /** A merge that panics ends the call before the dry-run test: nothing is returned and no
      PATCH is sent, whatever the dry-run setting and the device's reply. */
  lemma CrashSendsNoPatch(s: Settings, r: Resource, h: Heap, name: string, patch: Addr,
                          fetch: Reply, reply: Reply)
    requires patch in h && Decodable(fetch) && Decodable(reply)
    ensures var st := Staged(s, r, h, name, patch, fetch);
            var run := PatchRun(s, r, h, name, patch, fetch, reply);
            run.crashed <==> st.Crashed?
    ensures var run := PatchRun(s, r, h, name, patch, fetch, reply);
            run.crashed ==> run.err.None? && run.result.None? && forall i :: 0 <= i < |run.sent| ==> run.sent[i].verb == GET
  {
    StagedSent(s, r, h, name, patch, fetch);
  }

  /** Past the dry-run test, a PATCH goes out exactly when the merged `new` differs from
      `existing` under EquateEmpty. Otherwise existing is returned as it is; if it does, it is the
      only PATCH, it carries the patch as merged, and the caller gets either the device's error or
      `existing` holding the device's answer. */
  lemma PatchSentIffChanged(s: Settings, r: Resource, h: Heap, name: string, patch: Addr,
                            fetch: Reply, reply: Reply)
    requires patch in h && Decodable(fetch) && Decodable(reply)
    requires !s.dryRun && Staged(s, r, h, name, patch, fetch).Ready?
    ensures var st := Staged(s, r, h, name, patch, fetch);
            var run := PatchRun(s, r, h, name, patch, fetch, reply);
            ((exists i :: 0 <= i < |run.sent| && run.sent[i].verb == PATCH)
               <==> !EquateEmpty(st.heap, st.created, st.existing))
            && (EquateEmpty(st.heap, st.created, st.existing) ==>
                  run.err.None? && run.result == Some(st.existing) && run.heap == st.heap)
            && (!EquateEmpty(st.heap, st.created, st.existing) ==>
                  run.sent == st.sent + [Request(PATCH, Url(s, r, Escape(name)), Some(Pointee(st.heap, patch)))]
                  && (reply.Failed? ==> run.err == Some(reply.msg) && run.result.None?)
                  && (reply.Answered? ==>
                        run.err.None? && run.result == Some(st.existing)
                        && st.existing in run.heap && Pointee(run.heap, st.existing) == reply.doc))
  {
    var st := Staged(s, r, h, name, patch, fetch);
    StagedSent(s, r, h, name, patch, fetch);
    assert forall i :: 0 <= i < |st.sent| ==> st.sent[i].verb == GET;
    FinishChanged(s, r, name, patch, st, reply);
    assert PatchRun(s, r, h, name, patch, fetch, reply) == Finish(s, r, name, patch, st, reply);
  }

  /** PatchSentIffChanged for any staging that sent only GETs. */
  lemma FinishChanged(s: Settings, r: Resource, name: string, patch: Addr, st: Stage, reply: Reply)
    requires st.Ready? && patch in st.heap && st.created in st.heap && st.existing in st.heap
    requires Decodable(reply) && !s.dryRun
    requires forall i :: 0 <= i < |st.sent| ==> st.sent[i].verb == GET
    ensures var run := Finish(s, r, name, patch, st, reply);
            ((exists i :: 0 <= i < |run.sent| && run.sent[i].verb == PATCH)
               <==> !EquateEmpty(st.heap, st.created, st.existing))
            && (EquateEmpty(st.heap, st.created, st.existing) ==>
                  run.err.None? && run.result == Some(st.existing) && run.heap == st.heap)
            && (!EquateEmpty(st.heap, st.created, st.existing) ==>
                  run.sent == st.sent + [Request(PATCH, Url(s, r, Escape(name)), Some(Pointee(st.heap, patch)))]
                  && (reply.Failed? ==> run.err == Some(reply.msg) && run.result.None?)
                  && (reply.Answered? ==>
                        run.err.None? && run.result == Some(st.existing)
                        && st.existing in run.heap && Pointee(run.heap, st.existing) == reply.doc))
  {
    var run := Finish(s, r, name, patch, st, reply);
    if !EquateEmpty(st.heap, st.created, st.existing) {
      assert run.sent[|run.sent| - 1].verb == PATCH;
      if reply.Answered? {
        var e := st.existing;
        var (h3, v) := LoadF(st.heap, reply.doc);
        LoadRoundTrip(st.heap, reply.doc, {e});
        SnapshotAgrees(h3, run.heap, v, {e});
      }
    }
  }


  /** A document field holding a scalar. */
  predicate ScalarDocs(dfs: seq<DocField>)
  {
    forall i :: 0 <= i < |dfs| ==> dfs[i].val.DScalar?
  }

  /** The record fields a scalar document decodes to. */
  function DecodedScalars(dfs: seq<DocField>): (fs: seq<Field>)
    requires ScalarDocs(dfs)
    ensures |fs| == |dfs|
  {
    seq(|dfs|, i requires 0 <= i < |dfs| =>
      Field(dfs[i].name, dfs[i].exported, dfs[i].embedded, Scalar(dfs[i].val.ty, dfs[i].val.lit)))
  }

  /** Decoding scalar fields allocates nothing. */
  lemma {:induction false} LoadScalarFields(h: Heap, dfs: seq<DocField>)
    requires ScalarDocs(dfs)
    ensures forall i :: 0 <= i < |dfs| ==> NoCut(dfs[i].val)
    ensures LoadFields(h, dfs) == (h, DecodedScalars(dfs))
    decreases |dfs|
  {
    if dfs != [] {
      var n := |dfs| - 1;
      assert ScalarDocs(dfs[..n]);
      LoadScalarFields(h, dfs[..n]);
      assert DecodedScalars(dfs) == DecodedScalars(dfs[..n]) + [DecodedScalars(dfs)[n]];
    }
  }

  /** The three merges a scalar field goes through, without Override: patch ← existing under the
      device's options, then blank ← patch and blank ← existing with empty fields kept. */
  lemma PickChain(cfg1: Config, cfg2: Config, p: Value, e: Value)
    requires p.Scalar? && cfg2 == cfg1.(skipEmptyFields := false) && !cfg1.override
    ensures Pick(cfg2, Pick(cfg2, Zero(p), Pick(cfg1, p, e)), e)
            == (if !IsEmpty(p) then p else if !IsEmpty(e) then e else Zero(p))
  {
  }

  /** Build on all-scalar records: `new` ends as the field-wise Pick of blank ← patch ← existing. */
  lemma BuildScalar(s: Settings, h: Heap, ty: TypeTag, blank: Value, patch: Addr, existing: Addr,
                    sent: seq<Request>) returns (v: Value)
    requires patch in h && existing in h && h[patch].ty == ty && h[existing].ty == ty
    requires blank.Record? && |blank.fields| > 0 && ScalarFields(blank.fields)
    requires h[patch].val.Record? && |h[patch].val.fields| == |blank.fields| && ScalarFields(h[patch].val.fields)
    requires h[existing].val.Record? && |h[existing].val.fields| == |blank.fields|
    requires ApplyOptions(Default, [s.option, KeepEmpty]).transformers.None?
    ensures var st := Build(s, h, ty, blank, patch, existing, sent);
            st.Ready? && st.heap[st.created].val == v
    ensures var cfg := ApplyOptions(Default, [s.option, KeepEmpty]);
            var n := |blank.fields|;
            v == Record(blank.ty, PickFields(cfg, PickFields(cfg, blank.fields, h[patch].val.fields, n),
                                             h[existing].val.fields, n))
  {
    var cfg := ApplyOptions(Default, [s.option, KeepEmpty]);
    var n := |blank.fields|;
    var nn := NextAddr(h);
    var h4 := h[nn := Cell(ty, blank)];
    ScalarRecordMerge(h4, nn, patch, [s.option, KeepEmpty]);
    var n1 := PickFields(cfg, blank.fields, h[patch].val.fields, n);
    var h5 := h4[nn := Cell(ty, Record(blank.ty, n1))];
    assert ScalarFields(n1);
    ScalarRecordMerge(h5, nn, existing, [s.option, KeepEmpty]);
    v := Record(blank.ty, PickFields(cfg, n1, h[existing].val.fields, n));
  }

  /** The comparison merges run with the device's options followed by `SkipEmptyFields = false`. */
  lemma KeepEmptyConfig(s: Settings)
    ensures ApplyOptions(Default, [s.option, KeepEmpty]) == ApplyOptions(Default, [s.option]).(skipEmptyFields := false)
  {
    assert [s.option, KeepEmpty][..1] == [s.option];
  }

  /** A merging strategy with a fetch that answered: the object decoded into a fresh cell is
      merged into patch, and `new` is built from the result. */
  lemma FetchedStage(s: Settings, r: Resource, h: Heap, name: string, patch: Addr, d: Doc)
    requires patch in h && NoCut(d) && s.strategy >= AppendAdditive
    ensures var ty := h[patch].ty;
            var h0 := h[NextAddr(h) := Cell(ty, Zero(h[patch].val))];
            var e := NextAddr(LoadF(h0, d).0);
            var h2 := LoadF(h0, d).0[e := Cell(ty, LoadF(h0, d).1)];
            var get := Request(GET, Url(s, r, Escape(Escape(name))) + r.query, None);
            var m := MergeValues(h2, patch, e, [s.option]);
            Staged(s, r, h, name, patch, Answered(d))
            == if m.err == Some(Panic) then Crashed(m.heap, [get])
               else Build(s, m.heap, ty, Zero(h[patch].val), patch, e, [get])
  {
  }

  /** The fetch-and-merge step on all-scalar records: patch's fields become the Pick of its own
      and the fetched object's, and the fetched object sits unchanged in a cell of its own. */
  lemma FetchedScalar(s: Settings, h: Heap, name: string, patch: Addr, d: Doc) returns (h3: Heap, e: Addr)
    requires patch in h && h[patch].val.Record? && |h[patch].val.fields| > 0 && ScalarFields(h[patch].val.fields)
    requires s.strategy >= AppendAdditive && d.DRecord?
    requires ScalarDocs(d.fields) && |d.fields| == |h[patch].val.fields|
    requires ApplyOptions(Default, [s.option]).transformers.None?
    ensures NoCut(d)
    ensures var p := h[patch].val;
            var get := Request(GET, Url(s, MonitorHttp, Escape(Escape(name))) + MonitorHttp.query, None);
            patch in h3 && e in h3
            && Staged(s, MonitorHttp, h, name, patch, Answered(d))
               == Build(s, h3, h[patch].ty, Zero(p), patch, e, [get])
            && h3[patch] == Cell(h[patch].ty, Record(p.ty, PickFields(ApplyOptions(Default, [s.option]), p.fields,
                                                                     DecodedScalars(d.fields), |p.fields|)))
            && h3[e] == Cell(h[patch].ty, Record(d.ty, DecodedScalars(d.fields)))
  {
    LoadScalarFields(h, d.fields);
    var ty := h[patch].ty;
    var h0 := h[NextAddr(h) := Cell(ty, Zero(h[patch].val))];
    var es := DecodedScalars(d.fields);
    LoadScalarFields(h0, d.fields);
    assert LoadF(h0, d) == (h0, Record(d.ty, es));
    e := NextAddr(h0);
    var h2 := h0[e := Cell(ty, Record(d.ty, es))];
    ScalarRecordMerge(h2, patch, e, [s.option]);
    h3 := MergeValues(h2, patch, e, [s.option]).heap;
    FetchedStage(s, MonitorHttp, h, name, patch, d);
  }

  /** What a scalar field of `new` holds without Override: patch's value where that is non-empty,
      else existing's where that is non-empty, else the field's zero value. */
  function Composed(p: Value, e: Value): Value
  {
    if !IsEmpty(p) then p else if !IsEmpty(e) then e else Zero(p)
  }

  /** The three field-wise merges over a whole all-scalar record. */
  lemma ComposedFields(cfg1: Config, cfg2: Config, ps: seq<Field>, es: seq<Field>)
    requires ScalarFields(ps) && |es| == |ps| && cfg2 == cfg1.(skipEmptyFields := false) && !cfg1.override
    ensures var n := |ps|;
            var r := PickFields(cfg2, PickFields(cfg2, ZeroFields(ps), PickFields(cfg1, ps, es, n), n), es, n);
            forall i :: 0 <= i < n ==> r[i].val == Composed(ps[i].val, es[i].val)
  {
    var n := |ps|;
    var p1 := PickFields(cfg1, ps, es, n);
    var n1 := PickFields(cfg2, ZeroFields(ps), p1, n);
    var r := PickFields(cfg2, n1, es, n);
    forall i | 0 <= i < n
      ensures r[i].val == Composed(ps[i].val, es[i].val)
    {
      assert p1[i].val == Pick(cfg1, ps[i].val, es[i].val);
      assert n1[i].val == Pick(cfg2, Zero(ps[i].val), p1[i].val);
      assert r[i].val == Pick(cfg2, n1[i].val, es[i].val);
      PickChain(cfg1, cfg2, ps[i].val, es[i].val);
    }
  }

  /** The record `new` ends as, built from a patch already merged with the fetched fields: field
      by field, Composed of the original patch and the fetched object. */
  lemma ComposedRecord(cfg1: Config, cfg2: Config, p: Value, es: seq<Field>, v: Value)
    requires p.Record? && ScalarFields(p.fields) && |es| == |p.fields|
    requires cfg2 == cfg1.(skipEmptyFields := false) && !cfg1.override
    requires var n := |p.fields|;
             v == Record(Zero(p).ty, PickFields(cfg2, PickFields(cfg2, Zero(p).fields, PickFields(cfg1, p.fields, es, n), n), es, n))
    ensures v.Record? && |v.fields| == |p.fields|
    ensures forall i :: 0 <= i < |p.fields| ==> v.fields[i].val == Composed(p.fields[i].val, es[i].val)
  {
    ComposedFields(cfg1, cfg2, p.fields, es);
  }

  /** Blank and picked records of scalar fields hold scalar fields. */
  lemma PickedScalars(cfg: Config, p: Value, es: seq<Field>)
    requires p.Record? && ScalarFields(p.fields) && |es| == |p.fields|
    requires forall i :: 0 <= i < |es| ==> es[i].val.Scalar?
    ensures ScalarFields(Zero(p).fields) && ScalarFields(PickFields(cfg, p.fields, es, |p.fields|))
  {
  }

  /** `new` built from a patch already merged with the fetched object: field by field, Composed
      of the original patch and the fetched object. */
  lemma BuildComposed(s: Settings, h3: Heap, ty: TypeTag, p: Value, patch: Addr, e: Addr, sent: seq<Request>,
                      et: TypeTag, es: seq<Field>)
    requires p.Record? && |p.fields| > 0 && ScalarFields(p.fields) && |es| == |p.fields|
    requires forall i :: 0 <= i < |es| ==> es[i].val.Scalar?
    requires !ApplyOptions(Default, [s.option]).override && ApplyOptions(Default, [s.option]).transformers.None?
    requires patch in h3 && e in h3 && h3[e] == Cell(ty, Record(et, es))
    requires h3[patch] == Cell(ty, Record(p.ty, PickFields(ApplyOptions(Default, [s.option]), p.fields, es, |p.fields|)))
    ensures var st := Build(s, h3, ty, Zero(p), patch, e, sent);
            st.Ready? && st.heap[st.created].val.Record? && |st.heap[st.created].val.fields| == |p.fields|
            && forall i :: 0 <= i < |p.fields| ==> st.heap[st.created].val.fields[i].val == Composed(p.fields[i].val, es[i].val)
  {
    var cfg1 := ApplyOptions(Default, [s.option]);
    KeepEmptyConfig(s);
    PickedScalars(cfg1, p, es);
    var v := BuildScalar(s, h3, ty, Zero(p), patch, e, sent);
    ComposedRecord(cfg1, ApplyOptions(Default, [s.option, KeepEmpty]), p, es, v);
  }

  /** PatchMonitorHttp without Override, once the fetch has answered with an all-scalar record:
      each field of `new` is patch's value where that is non-empty, else existing's where that is
      non-empty, else the field's zero value. */
  lemma MonitorHttpComposition(s: Settings, h: Heap, name: string, patch: Addr, fetch: Reply)
    requires patch in h && h[patch].val.Record? && |h[patch].val.fields| > 0 && ScalarFields(h[patch].val.fields)
    requires s.strategy >= AppendAdditive && fetch.Answered? && fetch.doc.DRecord?
    requires ScalarDocs(fetch.doc.fields) && |fetch.doc.fields| == |h[patch].val.fields|
    requires !ApplyOptions(Default, [s.option]).override && ApplyOptions(Default, [s.option]).transformers.None?
    ensures Decodable(fetch)
    ensures var st := Staged(s, MonitorHttp, h, name, patch, fetch);
            var ps := h[patch].val.fields;
            var es := DecodedScalars(fetch.doc.fields);
            st.Ready? && st.heap[st.created].val.Record? && |st.heap[st.created].val.fields| == |ps|
            && forall i :: 0 <= i < |ps| ==> st.heap[st.created].val.fields[i].val == Composed(ps[i].val, es[i].val)
  {
    var h3, e := FetchedScalar(s, h, name, patch, fetch.doc);
    var get := Request(GET, Url(s, MonitorHttp, Escape(Escape(name))) + MonitorHttp.query, None);
    BuildComposed(s, h3, h[patch].ty, h[patch].val, patch, e, [get], fetch.doc.ty, DecodedScalars(fetch.doc.fields));
  }

  /** PatchMonitorHttp under Overwrite: nothing is fetched, existing stays the blank record, and
      `new` ends as a field-by-field copy of patch, with or without Override. */
  lemma MonitorHttpOverwrite(s: Settings, h: Heap, name: string, patch: Addr, fetch: Reply)
    requires patch in h && h[patch].val.Record? && |h[patch].val.fields| > 0 && ScalarFields(h[patch].val.fields)
    requires s.strategy < AppendAdditive && Decodable(fetch)
    requires ApplyOptions(Default, [s.option]).transformers.None?
    ensures var st := Staged(s, MonitorHttp, h, name, patch, fetch);
            var ps := h[patch].val.fields;
            st.Ready? && st.sent == [] && st.heap[st.created].val.Record? && |st.heap[st.created].val.fields| == |ps|
            && forall i :: 0 <= i < |ps| ==> st.heap[st.created].val.fields[i].val == ps[i].val
  {
    var e0 := NextAddr(h);
    OverwriteStaged(s, MonitorHttp, h, name, patch, fetch);
    BlankBuild(s, h[e0 := Cell(h[patch].ty, Zero(h[patch].val))], h[patch].ty, h[patch].val, patch, e0);
  }

  /** `new` built from a patch of scalar fields and a blank existing is a copy of the patch. */
  lemma BlankBuild(s: Settings, h0: Heap, ty: TypeTag, p: Value, patch: Addr, e0: Addr)
    requires patch in h0 && e0 in h0 && h0[patch] == Cell(ty, p) && h0[e0] == Cell(ty, Zero(p))
    requires p.Record? && |p.fields| > 0 && ScalarFields(p.fields)
    requires ApplyOptions(Default, [s.option]).transformers.None?
    ensures var st := Build(s, h0, ty, Zero(p), patch, e0, []);
            st.Ready? && st.sent == [] && st.heap[st.created].val.Record? && |st.heap[st.created].val.fields| == |p.fields|
            && forall i :: 0 <= i < |p.fields| ==> st.heap[st.created].val.fields[i].val == p.fields[i].val
  {
    KeepEmptyConfig(s);
    var v := BuildScalar(s, h0, ty, Zero(p), patch, e0, []);
    CopiedFields(ApplyOptions(Default, [s.option, KeepEmpty]), p.fields);
  }

  /** Picking scalar fields into their zero values, then merging the zero values again, gives the
      fields back. */
  lemma CopiedFields(cfg: Config, ps: seq<Field>)
    requires ScalarFields(ps) && !cfg.skipEmptyFields
    ensures var n := |ps|;
            var r := PickFields(cfg, PickFields(cfg, ZeroFields(ps), ps, n), ZeroFields(ps), n);
            forall i :: 0 <= i < n ==> r[i].val == ps[i].val
  {
    var n := |ps|;
    var n1 := PickFields(cfg, ZeroFields(ps), ps, n);
    forall i | 0 <= i < n
      ensures PickFields(cfg, n1, ZeroFields(ps), n)[i].val == ps[i].val
    {
      assert n1[i].val == Pick(cfg, Zero(ps[i].val), ps[i].val);
      BlankThenCopy(cfg, ps[i].val);
    }
  }

  /** Without a merging strategy, `new` is built from patch and a blank existing, and nothing is
      sent. */
  lemma OverwriteStaged(s: Settings, r: Resource, h: Heap, name: string, patch: Addr, fetch: Reply)
    requires patch in h && s.strategy < AppendAdditive && Decodable(fetch)
    ensures var ty := h[patch].ty;
            var e0 := NextAddr(h);
            Staged(s, r, h, name, patch, fetch)
            == Build(s, h[e0 := Cell(ty, Zero(h[patch].val))], ty, Zero(h[patch].val), patch, e0, [])
  {
  }

  /** A scalar picked into its zero value, then merged with that zero value, is the scalar again. */
  lemma BlankThenCopy(cfg: Config, x: Value)
    requires x.Scalar? && !cfg.skipEmptyFields
    ensures Pick(cfg, Pick(cfg, Zero(x), x), Zero(x)) == x
  {
    assert IsEmpty(x) ==> Zero(x) == x;
  }
}
