/**
 * The f5 Patch* reconciliation: the same steps for every resource type, modelled once and
 * instantiated per endpoint. The device's transport is abstract: what a GET or a PATCH answers is
 * a parameter, and every request issued is appended to a ghost log.
 */
module Devices {
  import opened Common
  import opened Values
  import opened MergeConfig
  import opened MergeEngine
  import opened Docs
  import opened Arenas

  datatype Verb = GET | PATCH | PUT

  datatype Request = Request(verb: Verb, url: string, body: Option<Doc>)

  /** What sendRequest yields: an error, or the body it decoded into the result. */
  datatype Reply = Failed(msg: string) | Answered(doc: Doc)

  predicate Decodable(r: Reply)
  {
    r.Answered? ==> NoCut(r.doc)
  }

  /** The device settings the reconciliation reads (Device.MergeStrategy, MergeConfig, DryRun). */
  datatype Settings = Settings(proto: string, hostname: string, strategy: MergeStrategy,
                               option: ConfigOption, dryRun: bool)

  /** A resource type's collection under /mgmt/tm/, and the query its Show* call adds. */
  datatype Resource = Resource(path: string, query: string)

  const Pool := Resource("ltm/pool", "?expandSubcollections=true")
  const Virtual := Resource("ltm/virtual", "?expandSubcollections=true")
  const Policy := Resource("ltm/policy", "?expandSubcollections=true")
  const Node := Resource("ltm/node", "")
  const ServerSsl := Resource("ltm/profile/server-ssl", "")
  const ClientSsl := Resource("ltm/profile/client-ssl", "")
  const MonitorHttp := Resource("ltm/monitor/http", "?expandSubcollections=true")

  /** strings.Replace(name, "/", "~", -1). */
  function Escape(name: string): (r: string)
    ensures |r| == |name|
    ensures forall i :: 0 <= i < |r| ==> r[i] == (if name[i] == '/' then '~' else name[i])
  {
    if name == [] then [] else [if name[0] == '/' then '~' else name[0]] + Escape(name[1..])
  }

  /** An escaped name has no '/' left, so escaping it again changes nothing: the Show* call that
      escapes the already escaped name asks for the same object. */
  lemma EscapeIdempotent(name: string)
    ensures '/' !in Escape(name)
    ensures Escape(Escape(name)) == Escape(name)
  {
    var e := Escape(name);
    assert forall i :: 0 <= i < |e| ==> e[i] != '/';
    assert Escape(e) == e;
  }

  function Url(s: Settings, r: Resource, name: string): string
  {
    s.proto + "://" + s.hostname + "/mgmt/tm/" + r.path + "/" + name
  }

  /** The option every comparison merge adds: `func(c *Config) { c.SkipEmptyFields = false }`. */
  const KeepEmpty: ConfigOption := Custom((c: Config) => c.(skipEmptyFields := false))

  /** The state after a Patch* call: the arena, the requests sent, and the (error, result) pair;
      crashed when one of its merges panicked, which ends the program and returns nothing. */
  datatype Run = Run(heap: Heap, sent: seq<Request>, err: Option<string>, result: Option<Addr>, crashed: bool)

  /** Where a Patch* call stands when it reaches the dry-run test: aborted by a failed fetch, or
      holding `new` (created) and `existing`, or crashed by a merge that panicked. A merge's
      returned error is dropped; its panic is not. */
  datatype Stage =
    | Aborted(heap: Heap, sent: seq<Request>, msg: string)
    | Crashed(heap: Heap, sent: seq<Request>)
    | Ready(heap: Heap, sent: seq<Request>, created: Addr, existing: Addr)

  /** Up to the dry-run test: `existing := &T{}`; for a merging strategy, fetch the object and
      merge it into patch (the error is dropped); then new := blank ← patch ← existing. */
  ghost function Staged(s: Settings, r: Resource, h: Heap, name: string, patch: Addr, fetch: Reply): (st: Stage)
    requires patch in h && Decodable(fetch)
    ensures st.Ready? ==> patch in st.heap && st.created in st.heap && st.existing in st.heap
  {
    var ty := h[patch].ty;
    var blank := Zero(h[patch].val);
    var e0 := NextAddr(h);
    var h0 := h[e0 := Cell(ty, blank)];
    if s.strategy >= AppendAdditive then
      var get := Request(GET, Url(s, r, Escape(Escape(name))) + r.query, None);
      match fetch
      case Failed(m) => Aborted(h0, [get], m)
      case Answered(d) =>
        var (h1, v) := LoadF(h0, d);
        var e := NextAddr(h1);
        var h2 := h1[e := Cell(ty, v)];
        var m := MergeValues(h2, patch, e, [s.option]);
        if m.err == Some(Panic) then Crashed(m.heap, [get])
        else Build(s, m.heap, ty, blank, patch, e, [get])
    else Build(s, h0, ty, blank, patch, e0, [])
  }

  /** new := &T{}; new.Merge(patch, ...); new.Merge(existing, ...), both with empty fields kept. */
  ghost function Build(s: Settings, h: Heap, ty: TypeTag, blank: Value, patch: Addr, existing: Addr,
                       sent: seq<Request>): (st: Stage)
    requires patch in h && existing in h
    ensures (st.Ready? || st.Crashed?) && st.sent == sent
    ensures st.Ready? ==> patch in st.heap && st.created in st.heap && st.existing in st.heap
  {
    var n := NextAddr(h);
    var r1 := MergeValues(h[n := Cell(ty, blank)], n, patch, [s.option, KeepEmpty]);
    if r1.err == Some(Panic) then Crashed(r1.heap, sent)
    else
      var r2 := MergeValues(r1.heap, n, existing, [s.option, KeepEmpty]);
      if r2.err == Some(Panic) then Crashed(r2.heap, sent)
      else Ready(r2.heap, sent, n, existing)
  }

  /** Patch<Resource>(name, patch): dry run, "already applied", or one PATCH whose answer is
      decoded into existing. */
  ghost function PatchRun(s: Settings, r: Resource, h: Heap, name: string, patch: Addr,
                          fetch: Reply, reply: Reply): (run: Run)
    requires patch in h && Decodable(fetch) && Decodable(reply)
    ensures !(run.err.Some? && run.result.Some?) && (run.crashed ==> run.err.None? && run.result.None?)
    ensures run.err.Some? || run.result.Some? || run.crashed
  {
    Finish(s, r, name, patch, Staged(s, r, h, name, patch, fetch), reply)
  }

  /** From the dry-run test on: return patch, return existing unchanged, or send one PATCH. */
  ghost function Finish(s: Settings, r: Resource, name: string, patch: Addr, st: Stage, reply: Reply): (run: Run)
    requires st.Ready? ==> patch in st.heap && st.created in st.heap && st.existing in st.heap
    requires Decodable(reply)
    ensures run.crashed <==> st.Crashed?
    ensures !(run.err.Some? && run.result.Some?) && (run.crashed ==> run.err.None? && run.result.None?)
    ensures st.Aborted? ==> run.err == Some(st.msg) && run.sent == st.sent
  {
    match st
    case Aborted(h', sent, m) => Run(h', sent, Some(m), None, false)
    case Crashed(h', sent) => Run(h', sent, None, None, true)
    case Ready(h', sent, n, e) =>
      if s.dryRun then Run(h', sent, None, Some(patch), false)
      else if EquateEmpty(h', n, e) then Run(h', sent, None, Some(e), false)
      else
        var sent' := sent + [Request(PATCH, Url(s, r, Escape(name)), Some(Pointee(h', patch)))];
        match reply
        case Failed(m) => Run(h', sent', Some(m), None, false)
        case Answered(d) =>
          var (h3, v) := LoadF(h', d);
          Run(h3[e := Cell(h3[e].ty, v)], sent', None, Some(e), false)
  }

  /** The three member states the pool-member calls PUT. */
  datatype MemberAction = Enable | Disable | ForceOffline

  /** LBPoolMemberState's (State, Session) for each action. */
  function MemberState(a: MemberAction): (st: (string, string))
    ensures st.0 in {"user-up", "user-down"} && st.1 in {"user-enabled", "user-disabled"}
    ensures st.0 == "user-down" <==> a == ForceOffline
    ensures st.1 == "user-enabled" <==> a == Enable
  {
    match a
    case Enable => ("user-up", "user-enabled")
    case Disable => ("user-up", "user-disabled")
    case ForceOffline => ("user-down", "user-disabled")
  }

  function MemberStateDoc(a: MemberAction): Doc
  {
    var st := MemberState(a);
    DRecord("LBPoolMemberState", [DocField("State", true, false, DScalar("string", LStr(st.0))),
                                   DocField("Session", true, false, DScalar("string", LStr(st.1)))])
  }

  /** Distinct actions send distinct bodies. */
  lemma MemberStatesDistinct(a: MemberAction, b: MemberAction)
    requires a != b
    ensures MemberStateDoc(a) != MemberStateDoc(b)
  {
    assert MemberStateDoc(a).fields[0].val.lit.s == MemberState(a).0;
    assert MemberStateDoc(a).fields[1].val.lit.s == MemberState(a).1;
  }

  class Device {
    const settings: Settings
    const arena: Arena
    ghost var log: seq<Request>

    constructor (s: Settings, a: Arena)
      ensures settings == s && arena == a && log == []
    {
      settings := s;
      arena := a;
      log := [];
    }

    /** The shared body of the Patch* functions. */
    method Patch(r: Resource, name: string, patch: Addr, fetch: Reply, reply: Reply)
      returns (err: Option<string>, result: Option<Addr>, crashed: bool)
      requires patch in arena.heap && Decodable(fetch) && Decodable(reply)
      modifies this, arena
      ensures var run := PatchRun(settings, r, old(arena.heap), name, patch, fetch, reply);
              arena.heap == run.heap && log == old(log) + run.sent && err == run.err && result == run.result
              && crashed == run.crashed
    {
      ghost var st := Staged(settings, r, arena.heap, name, patch, fetch);
      ghost var before := log;
      var failed, nw, existing;
      failed, crashed, nw, existing := Prepare(r, name, patch, fetch);
      err, result := Complete(r, name, patch, st, before, failed, crashed, nw, existing, reply);
    }

    /** From the dry-run test on, given what Prepare left. */
    method Complete(r: Resource, name: string, patch: Addr, ghost st: Stage, ghost before: seq<Request>,
                    failed: Option<string>, crashed: bool, nw: Addr, existing: Addr, reply: Reply)
      returns (err: Option<string>, result: Option<Addr>)
      requires st.Ready? ==> patch in st.heap && st.created in st.heap && st.existing in st.heap
      requires Decodable(reply) && arena.heap == st.heap && log == before + st.sent
      requires crashed <==> st.Crashed?
      requires st.Aborted? ==> failed == Some(st.msg)
      requires st.Ready? ==> failed.None? && nw == st.created && existing == st.existing
      modifies this, arena
      ensures var run := Finish(settings, r, name, patch, st, reply);
              arena.heap == run.heap && log == before + run.sent && err == run.err && result == run.result
    {
      if crashed {
        return None, None;
      }
      if failed.Some? {
        return failed, None;
      }
      if settings.dryRun {
        return None, Some(patch);
      }
      if nw == existing || Pointee(arena.heap, nw) == Pointee(arena.heap, existing) {
        return None, Some(existing);
      }
      log := log + [Request(PATCH, Url(settings, r, Escape(name)), Some(Pointee(arena.heap, patch)))];
      match reply {
        case Failed(m) =>
          return Some(m), None;
        case Answered(d) =>
          var v := arena.Decode(d);
          var _ := arena.SetValue(Slot(Some(Place(existing, [])), false), v);
          return None, Some(existing);
      }
    }

    /** Up to the dry-run test. */
    method Prepare(r: Resource, name: string, patch: Addr, fetch: Reply)
      returns (failed: Option<string>, crashed: bool, nw: Addr, existing: Addr)
      requires patch in arena.heap && Decodable(fetch)
      modifies this, arena
      ensures var st := Staged(settings, r, old(arena.heap), name, patch, fetch);
              arena.heap == st.heap && log == old(log) + st.sent
              && (crashed <==> st.Crashed?)
              && (st.Aborted? ==> failed == Some(st.msg))
              && (st.Ready? ==> failed.None? && nw == st.created && existing == st.existing)
    {
      var n := Escape(name);
      var ty := arena.heap[patch].ty;
      var blank := Zero(arena.heap[patch].val);
      existing := arena.Alloc(ty, blank);
      failed, crashed, nw := None, false, existing;
      if settings.strategy >= AppendAdditive {
        var get := Request(GET, Url(settings, r, Escape(n)) + r.query, None);
        log := log + [get];
        match fetch {
          case Failed(m) =>
            failed := Some(m);
            return;
          case Answered(d) =>
            var v := arena.Decode(d);
            existing := arena.Alloc(ty, v);
            var e := arena.Merge(patch, existing, [settings.option]);
            if e == Some(Panic) {
              crashed := true;
              return;
            }
        }
      }
      nw := arena.Alloc(ty, blank);
      var e1 := arena.Merge(nw, patch, [settings.option, KeepEmpty]);
      if e1 == Some(Panic) {
        crashed := true;
        return;
      }
      var e2 := arena.Merge(nw, existing, [settings.option, KeepEmpty]);
      crashed := e2 == Some(Panic);
    }

    method PatchPool(name: string, patch: Addr, fetch: Reply, reply: Reply)
      returns (err: Option<string>, result: Option<Addr>, crashed: bool)
      requires patch in arena.heap && Decodable(fetch) && Decodable(reply)
      modifies this, arena
      ensures var run := PatchRun(settings, Pool, old(arena.heap), name, patch, fetch, reply);
              arena.heap == run.heap && log == old(log) + run.sent && err == run.err && result == run.result
              && crashed == run.crashed
    {
      err, result, crashed := Patch(Pool, name, patch, fetch, reply);
    }

    method PatchVirtual(name: string, patch: Addr, fetch: Reply, reply: Reply)
      returns (err: Option<string>, result: Option<Addr>, crashed: bool)
      requires patch in arena.heap && Decodable(fetch) && Decodable(reply)
      modifies this, arena
      ensures var run := PatchRun(settings, Virtual, old(arena.heap), name, patch, fetch, reply);
              arena.heap == run.heap && log == old(log) + run.sent && err == run.err && result == run.result
              && crashed == run.crashed
    {
      err, result, crashed := Patch(Virtual, name, patch, fetch, reply);
    }

    method PatchPolicy(name: string, patch: Addr, fetch: Reply, reply: Reply)
      returns (err: Option<string>, result: Option<Addr>, crashed: bool)
      requires patch in arena.heap && Decodable(fetch) && Decodable(reply)
      modifies this, arena
      ensures var run := PatchRun(settings, Policy, old(arena.heap), name, patch, fetch, reply);
              arena.heap == run.heap && log == old(log) + run.sent && err == run.err && result == run.result
              && crashed == run.crashed
    {
      err, result, crashed := Patch(Policy, name, patch, fetch, reply);
    }

    method PatchNode(name: string, patch: Addr, fetch: Reply, reply: Reply)
      returns (err: Option<string>, result: Option<Addr>, crashed: bool)
      requires patch in arena.heap && Decodable(fetch) && Decodable(reply)
      modifies this, arena
      ensures var run := PatchRun(settings, Node, old(arena.heap), name, patch, fetch, reply);
              arena.heap == run.heap && log == old(log) + run.sent && err == run.err && result == run.result
              && crashed == run.crashed
    {
      err, result, crashed := Patch(Node, name, patch, fetch, reply);
    }

    method PatchServerSsl(name: string, patch: Addr, fetch: Reply, reply: Reply)
      returns (err: Option<string>, result: Option<Addr>, crashed: bool)
      requires patch in arena.heap && Decodable(fetch) && Decodable(reply)
      modifies this, arena
      ensures var run := PatchRun(settings, ServerSsl, old(arena.heap), name, patch, fetch, reply);
              arena.heap == run.heap && log == old(log) + run.sent && err == run.err && result == run.result
              && crashed == run.crashed
    {
      err, result, crashed := Patch(ServerSsl, name, patch, fetch, reply);
    }

    method PatchClientSsl(name: string, patch: Addr, fetch: Reply, reply: Reply)
      returns (err: Option<string>, result: Option<Addr>, crashed: bool)
      requires patch in arena.heap && Decodable(fetch) && Decodable(reply)
      modifies this, arena
      ensures var run := PatchRun(settings, ClientSsl, old(arena.heap), name, patch, fetch, reply);
              arena.heap == run.heap && log == old(log) + run.sent && err == run.err && result == run.result
              && crashed == run.crashed
    {
      err, result, crashed := Patch(ClientSsl, name, patch, fetch, reply);
    }

    method PatchMonitorHttp(name: string, patch: Addr, fetch: Reply, reply: Reply)
      returns (err: Option<string>, result: Option<Addr>, crashed: bool)
      requires patch in arena.heap && Decodable(fetch) && Decodable(reply)
      modifies this, arena
      ensures var run := PatchRun(settings, MonitorHttp, old(arena.heap), name, patch, fetch, reply);
              arena.heap == run.heap && log == old(log) + run.sent && err == run.err && result == run.result
              && crashed == run.crashed
    {
      err, result, crashed := Patch(MonitorHttp, name, patch, fetch, reply);
    }

    /** OnlinePoolMember, OfflinePoolMember and OfflinePoolMemberForced: one PUT of the member's new
        state to the member's URL. */
    method SetPoolMemberState(pool: string, member: string, a: MemberAction, reply: Reply)
      returns (err: Option<string>)
      modifies this
      ensures log == old(log) + [Request(PUT, Url(settings, Pool, Escape(pool)) + "/members/" + Escape(member),
                                         Some(MemberStateDoc(a)))]
      ensures err.Some? <==> reply.Failed?
      ensures reply.Failed? ==> err == Some(reply.msg)
    {
      var u := Url(settings, Pool, Escape(pool)) + "/members/" + Escape(member);
      log := log + [Request(PUT, u, Some(MemberStateDoc(a)))];
      match reply {
        case Failed(m) => err := Some(m);
        case Answered(_) => err := None;
      }
    }
  }
}
