/**
 * The clean-up the f5 records' UnmarshalJSON methods run after json.Unmarshal: a collection can
 * arrive inline or under a `...Reference.items` wrapper (expandSubcollections), and the decoder
 * folds the second form into the first. Only this step is modelled; the JSON decoding before it
 * is not. Each function returns the lists as the target record holds them when UnmarshalJSON
 * returns, together with the error it returns, since a failing step leaves earlier steps' writes
 * in place.
 */
module Normalise {
  import opened Common

  /** One inline/reference pair: None when both are populated, else the list the record keeps. */
  function Fold<T>(inline: seq<T>, reference: seq<T>): (r: Option<seq<T>>)
    ensures r.None? <==> |inline| > 0 && |reference| > 0
    ensures r.Some? ==> r.value == inline || r.value == reference
    ensures r.Some? ==> (|r.value| > 0 <==> |inline| > 0 || |reference| > 0)
  {
    if |inline| > 0 && |reference| > 0 then None
    else if |reference| > 0 then Some(reference)
    else Some(inline)
  }

  /** A record that was folded once decodes to itself again: with the reference gone, the inline
      list is kept as it is. */
  lemma FoldIdempotent<T>(inline: seq<T>, reference: seq<T>)
    requires Fold(inline, reference).Some?
    ensures Fold(Fold(inline, reference).value, []) == Fold(inline, reference)
  {
  }

  /** Which list the record keeps does not depend on which of the two forms carried it. */
  lemma FoldEitherForm<T>(items: seq<T>)
    ensures Fold(items, []) == Fold([], items) == Some(items)
  {
  }

  datatype PoolLists<M> = PoolLists(members: seq<M>, err: Option<string>)

  /** LBPool.UnmarshalJSON: members versus membersReference. */
  function DecodePool<M>(name: string, members: seq<M>, reference: seq<M>): (r: PoolLists<M>)
    ensures r.err.Some? <==> |members| > 0 && |reference| > 0
    ensures r.err.Some? ==> r.members == members
    ensures r.err.Some? ==> r.err.value == "error: members and memberReference can not both be set for: " + name
    ensures r.err.None? ==> Some(r.members) == Fold(members, reference)
  {
    match Fold(members, reference)
    case None => PoolLists(members, Some("error: members and memberReference can not both be set for: " + name))
    case Some(xs) => PoolLists(xs, None)
  }

  datatype VirtualLists<P, R> = VirtualLists(policies: seq<P>, profiles: seq<R>, err: Option<string>)

  /** LBVirtual.UnmarshalJSON: policies first; profiles only once the policies step has passed, and
      a profiles conflict leaves the policies already folded. */
  function DecodeVirtual<P, R>(name: string, policies: seq<P>, policiesRef: seq<P>,
                               profiles: seq<R>, profilesRef: seq<R>): (r: VirtualLists<P, R>)
    ensures Fold(policies, policiesRef).None? ==>
              r == VirtualLists(policies, profiles,
                                Some("error: policies and policiesReference cannot both be set for: " + name))
    ensures Fold(policies, policiesRef).Some? ==>
              Some(r.policies) == Fold(policies, policiesRef)
              && (r.err.Some? <==> Fold(profiles, profilesRef).None?)
              && (r.err.Some? ==> r.profiles == profiles)
              && (r.err.Some? ==> r.err.value == "error: profiles and profilesReference cannot both be set for: " + name)
              && (r.err.None? ==> Some(r.profiles) == Fold(profiles, profilesRef))
  {
    match Fold(policies, policiesRef)
    case None =>
      VirtualLists(policies, profiles, Some("error: policies and policiesReference cannot both be set for: " + name))
    case Some(ps) =>
      match Fold(profiles, profilesRef)
      case None =>
        VirtualLists(ps, profiles, Some("error: profiles and profilesReference cannot both be set for: " + name))
      case Some(qs) => VirtualLists(ps, qs, None)
  }

  datatype RuleLists<A, C> = RuleLists(actions: seq<A>, conditions: seq<C>, err: Option<string>)

  /** LBPolicyRules.UnmarshalJSON: actions first, then conditions, in the same way. */
  function DecodeRule<A, C>(name: string, actions: seq<A>, actionsRef: seq<A>,
                            conditions: seq<C>, conditionsRef: seq<C>): (r: RuleLists<A, C>)
    ensures Fold(actions, actionsRef).None? ==>
              r == RuleLists(actions, conditions,
                             Some("error: actions and actionsReference can not both be set for: " + name))
    ensures Fold(actions, actionsRef).Some? ==>
              Some(r.actions) == Fold(actions, actionsRef)
              && (r.err.Some? <==> Fold(conditions, conditionsRef).None?)
              && (r.err.Some? ==> r.conditions == conditions)
              && (r.err.Some? ==> r.err.value == "error: conditions and conditionsReference can not both be set for: " + name)
              && (r.err.None? ==> Some(r.conditions) == Fold(conditions, conditionsRef))
  {
    match Fold(actions, actionsRef)
    case None =>
      RuleLists(actions, conditions, Some("error: actions and actionsReference can not both be set for: " + name))
    case Some(xs) =>
      match Fold(conditions, conditionsRef)
      case None =>
        RuleLists(xs, conditions, Some("error: conditions and conditionsReference can not both be set for: " + name))
      case Some(ys) => RuleLists(xs, ys, None)
  }

  datatype PolicyLists<U> = PolicyLists(rules: seq<U>, err: Option<string>)

  /** LBPolicy.UnmarshalJSON: rules versus rulesReference. */
  function DecodePolicy<U>(name: string, rules: seq<U>, reference: seq<U>): (r: PolicyLists<U>)
    ensures r.err.Some? <==> |rules| > 0 && |reference| > 0
    ensures r.err.Some? ==> r.rules == rules
    ensures r.err.Some? ==> r.err.value == "error: rules and rulesReference can not both be set for: " + name
    ensures r.err.None? ==> Some(r.rules) == Fold(rules, reference)
  {
    match Fold(rules, reference)
    case None => PolicyLists(rules, Some("error: rules and rulesReference can not both be set for: " + name))
    case Some(xs) => PolicyLists(xs, None)
  }

  /** With neither wrapper populated, a virtual server's inline lists come through untouched. */
  lemma VirtualWithoutReferences<P, R>(name: string, policies: seq<P>, profiles: seq<R>)
    ensures DecodeVirtual(name, policies, [], profiles, []) == VirtualLists(policies, profiles, None)
  {
  }
}
