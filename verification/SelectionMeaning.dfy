/**
 What subscription selection finds, answers and refuses, in the fields of
 subscriptions, model references and requests. Nothing here goes through the
 search and filter functions of maas-api/internal/subscription/selector.go.
 */
module SelectionMeaning {
  import opened Options
  import opened Orders
  import opened Selection
  import opened Selector
  import opened Text

  // ---------------------------------------------------------------- finding a model reference

  /** What a search looks for: a literal pair, an alias within a namespace, or a name of either kind. */
  datatype Sought = Pair(namespace: string, name: string) | Alias(namespace: string,
      alias: string) | Called(name: string)

  predicate Fits(q: Sought, r: ModelRef) {
    match q
    case Pair(namespace, name) => r.namespace == namespace && r.name == name
    case Alias(namespace, alias) => r.namespace == namespace && r.modelName != "" && r.modelName == alias
    case Called(name) => (r.modelName != "" && r.modelName == name) || r.name == name
  }

  ghost predicate IsFirst(refs: seq<ModelRef>, f: Option<ModelRef>, q: Sought) {
    match f
    case None => forall i | 0 <= i < |refs| :: !Fits(q, refs[i])
    case Some(r) => exists i :: 0 <= i < |refs| && refs[i] == r && Fits(q, r) && forall j | 0 <= j < i ::
      !Fits(q, refs[j])
  }

  ghost predicate IsLast(refs: seq<ModelRef>, r: ModelRef, q: Sought) {
    exists i :: 0 <= i < |refs| && refs[i] == r && Fits(q, r) && forall j | i < j < |refs| :: !Fits(q, refs[j])
  }

  lemma {:induction false} FirstRawIs(refs: seq<ModelRef>, requested: string)
    ensures IsFirst(refs, FirstRaw(refs, requested), Called(requested))
  {
    if refs != [] {
      FirstRawIs(refs[1..], requested);
      if !Fits(Called(requested), refs[0]) { FirstLater(refs, FirstRaw(refs[1..], requested), Called(requested)); }
    }
  }

  lemma FirstLater(refs: seq<ModelRef>, f: Option<ModelRef>, q: Sought)
    requires refs != [] && !Fits(q, refs[0]) && IsFirst(refs[1..], f, q)
    ensures IsFirst(refs, f, q)
  {
    var tail := refs[1..];
    assert forall i | 1 <= i < |refs| :: refs[i] == tail[i - 1];
    if f.Some? {
      var i :| 0 <= i < |tail| && tail[i] == f.value && Fits(q, f.value) && forall j | 0 <= j < i :: !Fits(q, tail[j]);
      assert refs[i + 1] == f.value;
    }
  }

  lemma {:induction false} FirstExactIs(refs: seq<ModelRef>, namespace: string, name: string)
    ensures IsFirst(refs, FirstExact(refs, namespace, name), Pair(namespace, name))
  {
    if refs != [] {
      FirstExactIs(refs[1..], namespace, name);
      if !(refs[0].namespace == namespace && refs[0].name == name) {
        FirstLater(refs, FirstExact(refs[1..], namespace, name), Pair(namespace, name));
      }
    }
  }

  lemma {:induction false} ScanAliasIs(refs: seq<ModelRef>, namespace: string, alias: string)
    ensures ScanAlias(refs, namespace, alias).OneAlias? ==>
              IsLast(refs, ScanAlias(refs, namespace, alias).ref, Alias(namespace, alias))
  {
    if refs != [] {
      var n := |refs| - 1;
      ScanAliasIs(refs[..n], namespace, alias);
      var s := ScanAlias(refs, namespace, alias);
      if s.OneAlias? {
        if Fits(Alias(namespace, alias), refs[n]) {
          assert s.ref == refs[n];
        } else {
          var i :| && 0 <= i < n && refs[..n][i] == s.ref && Fits(Alias(namespace, alias), s.ref)
                   && forall j | i < j < n :: !Fits(Alias(namespace, alias), refs[..n][j]);
          assert refs[i] == s.ref;
          assert forall j | i < j < n :: refs[j] == refs[..n][j];
        }
      }
    }
  }

  /** A name without a separator finds the first reference that goes by it. */
  lemma RawNameFinds(refs: seq<ModelRef>, requested: string)
    requires '/' !in requested
    ensures IsFirst(refs, FindModelRef(refs, requested), Called(requested))
  {
    FirstRawIs(refs, requested);
  }

  /**
   A name with a separator finds the first reference with that namespace and
   name. Failing that it finds the last carrier of the alias in the namespace,
   or nothing when two carriers have different names. Without a carrier it is
   searched for like a name without a separator.
   */
  lemma PairFinds(refs: seq<ModelRef>, namespace: string, name: string)
    requires '/' !in namespace
    ensures var requested := namespace + "/" + name;
            var f := FindModelRef(refs, requested);
            if exists r :: r in refs && r.namespace == namespace && r.name == name then
              IsFirst(refs, f, Pair(namespace, name))
            else if forall r | r in refs :: !Fits(Alias(namespace, name), r) then
              IsFirst(refs, f, Called(requested))
            else if exists r, o ::
                      && r in refs && o in refs && r.name != o.name
                      && Fits(Alias(namespace, name), r) && Fits(Alias(namespace, name), o) then
              f.None?
            else
              f.Some? && IsLast(refs, f.value, Alias(namespace, name))
  {
    var requested := namespace + "/" + name;
    CutOf(namespace, name, '/');
    FirstExactIs(refs, namespace, name);
    FirstExactFound(refs, namespace, name);
    FirstRawIs(refs, requested);
    ScanAliasIs(refs, namespace, name);
    ScanAliasDecides(refs, namespace, name);
    assert forall r :: HasAlias(r, namespace, name) <==> Fits(Alias(namespace, name), r);
    hide FirstRaw, FirstExact, ScanAlias;
    assert forall r :: IsExact(r, namespace, name) <==> r.namespace == namespace && r.name == name;
  }

  // ---------------------------------------------------------------- authorized references

  /** Authorized references are kept one by one, in order, by namespace and name. */
  lemma {:induction false} AuthorizedAppends(a: seq<ModelRef>, r: ModelRef, allowed: set<ModelKey>)
    ensures Authorized(a + [r], allowed) ==
            Authorized(a, allowed) + if ModelKey(r.namespace, r.name) in allowed then [r] else []
    ensures Authorized([], allowed) == []
  {
    assert (a + [r])[..|a|] == a;
  }

  // ---------------------------------------------------------------- health

  /** The first status reported for the reference's name says that its limits are enforced. */
  ghost predicate ReportedReady(sub: Subscription, ref: ModelRef) {
    exists i ::
      && 0 <= i < |sub.rateLimitStatuses| && sub.rateLimitStatuses[i].model == ref.name &&
           sub.rateLimitStatuses[i].ready
      && forall j | 0 <= j < i :: sub.rateLimitStatuses[j].model != ref.name
  }

  lemma {:induction false} FirstStatusIs(statuses: seq<RateLimitStatus>, model: string)
    ensures match FirstStatus(statuses, model)
            case None => forall i | 0 <= i < |statuses| :: statuses[i].model != model
            case Some(s) => exists i ::
              0 <= i < |statuses| && statuses[i] == s && s.model == model && forall j | 0 <= j < i ::
                statuses[j].model != model
  {
    if statuses != [] && statuses[0].model != model {
      var tail := statuses[1..];
      FirstStatusIs(tail, model);
      assert forall i | 1 <= i < |statuses| :: statuses[i] == tail[i - 1];
      if FirstStatus(tail, model).Some? {
        var s := FirstStatus(tail, model).value;
        var i :| 0 <= i < |tail| && tail[i] == s && s.model == model && forall j | 0 <= j < i :: tail[j].model != model;
        assert statuses[i + 1] == s;
      }
    }
  }

  /**
   Inference is served by an active subscription, and by a degraded one when the
   reference is not rate limited at all or its limits are reported enforced.
   */
  lemma ServesIff(sub: Subscription, ref: ModelRef)
    ensures Serves(sub, ref) <==>
            || sub.phase == "Active"
            || (sub.phase == "Degraded" && ((!ref.unlimited && ref.tokenRateLimits == []) || ReportedReady(sub, ref)))
  {
    FirstStatusIs(sub.rateLimitStatuses, ref.name);
  }

  /** Without a model, a selection is refused when the subscription is unreconciled or failed, and granted otherwise. */
  lemma KeyCreationIff(config: Config, sub: Subscription, allowed: Option<set<ModelKey>>)
    ensures Grants(CompleteSelection(config, sub, "", allowed)) <==> sub.phase != "" && sub.phase != "Failed"
  {
    WithoutModel(config, sub, allowed);
  }

  /**
   A model request without an access checker is never granted. It reports an
   unhealthy subscription, and why, unless that is active, or degraded with the
   reference found and its limits enforced or absent.
   */
  lemma UncheckedDecides(config: Config, sub: Subscription, requested: string)
    requires requested != ""
    ensures var r := CompleteSelection(config, sub, requested, None);
            var f := FindModelRef(sub.modelRefs, requested);
            if sub.phase != "Active" && sub.phase != "Degraded" then
              r == ModelUnhealthy(sub.name, sub.phase, SubscriptionNotReady)
            else if sub.phase == "Degraded" && f.None? then r == ModelUnhealthy(sub.name, sub.phase, InvalidModelFormat)
            else if sub.phase == "Degraded" && !Serves(sub, f.value) then
              r == ModelUnhealthy(sub.name, sub.phase, RateLimitNotEnforced)
            else r.Selected? && !r.response.accessAllowed
  {
    hide FindModelRef, FirstStatus;
  }

  // ---------------------------------------------------------------- the response

  /** What a response says about the subscription, granted or not. */
  ghost predicate Describes(resp: Response, config: Config, sub: Subscription, allowed: Option<set<ModelKey>>) {
    && resp.name == sub.name && resp.namespace == sub.namespace && resp.priority == sub.priority
    && resp.phase == sub.phase && resp.details == sub.details && resp.fairnessId == config.tenantName
    && forall r ::
         r in resp.modelRefs <==>
           r in sub.modelRefs && (allowed.Some? ==> ModelKey(r.namespace, r.name) in allowed.value)
  }

  /** What a response says about the model: the reference found, by namespace and name, or the request as it came. */
  ghost predicate DescribesModel(resp: Response, sub: Subscription, requested: string, f: Option<ModelRef>) {
    && resp.resolvedModel == (if f.Some? then f.value.namespace + "/" + f.value.name else requested)
    && resp.objective ==
       (if f.Some? && resp.resolvedModel in sub.objectives then sub.objectives[resp.resolvedModel] else "")
    && resp.rateLimitId ==
       (if sub.useShortRateLimitId && sub.namespace != "" && sub.name != "" && resp.resolvedModel != ""
        then sub.namespace + "/" + sub.name + "@" + resp.resolvedModel else "")
  }

  /** The references a caller may use. */
  ghost function Usable(sub: Subscription, allowed: Option<set<ModelKey>>): seq<ModelRef> {
    if allowed.Some? then Authorized(sub.modelRefs, allowed.value) else sub.modelRefs
  }

  lemma UsableMembers(sub: Subscription, allowed: Option<set<ModelKey>>)
    ensures forall r ::
              r in Usable(sub, allowed) <==>
              r in sub.modelRefs && (allowed.Some? ==> ModelKey(r.namespace, r.name) in allowed.value)
    ensures Restricted(sub, allowed) == sub.(modelRefs := Usable(sub, allowed))
    ensures allowed.Some? ==> Authorized(Usable(sub, allowed), allowed.value) == Usable(sub, allowed)
  {
    if allowed.Some? {
      AuthorizedMembers(sub.modelRefs, allowed.value);
      AuthorizedIdempotent(sub.modelRefs, allowed.value);
    }
  }

  /** A response is built from the usable part of the subscription, whatever is decided about access. */
  lemma ResponseFrom(config: Config, sub: Subscription, requested: string, allowed: Option<set<ModelKey>>)
    requires CompleteSelection(config, sub, requested, allowed).Selected?
    ensures var resp := CompleteSelection(config, sub, requested, allowed).response;
            var built := ToResponse(config, sub.(modelRefs := Usable(sub, allowed)), requested);
            resp == built.(accessAllowed := resp.accessAllowed, selectedChecks := resp.selectedChecks)
  {
    UsableMembers(sub, allowed);
    hide FindModelRef, IsResolvedModelAuthorized, CheckModelHealth, Authorized, Restricted, Usable;
    hide RateLimitKey, Identity;
  }

  lemma NoChecks(config: Config, sub: Subscription, requested: string, allowed: Option<set<ModelKey>>)
    requires CompleteSelection(config, sub, requested, allowed).Selected?
    ensures var resp := CompleteSelection(config, sub, requested, allowed).response;
            requested == "" || !resp.accessAllowed || config.guardrails.None? ==> resp.selectedChecks == None
  {
    hide FindModelRef, IsResolvedModelAuthorized, CheckModelHealth, Authorized;
  }

  /** Every response describes its subscription, and the model found among the references the caller may use. */
  lemma ResponseMeans(config: Config, sub: Subscription, requested: string, allowed: Option<set<ModelKey>>)
    requires CompleteSelection(config, sub, requested, allowed).Selected?
    ensures var resp := CompleteSelection(config, sub, requested, allowed).response;
            && Describes(resp, config, sub, allowed)
            && DescribesModel(resp, sub, requested, FindModelRef(Usable(sub, allowed), requested))
            && (requested == "" || !resp.accessAllowed || config.guardrails.None? ==> resp.selectedChecks == None)
  {
    NoChecks(config, sub, requested, allowed);
    UsableMembers(sub, allowed);
    ResponseFrom(config, sub, requested, allowed);
    hide FindModelRef, CompleteSelection, Authorized, Usable;
  }

  /** The guardrail lookup of a granted model request is by the namespace and name of subscription and reference. */
  lemma ChecksMean(config: Config, sub: Subscription, requested: string, allowed: set<ModelKey>)
    requires requested != "" && config.guardrails.Some? &&
             Grants(CompleteSelection(config, sub, requested, Some(allowed)))
    ensures var f := FindModelRef(Authorized(sub.modelRefs, allowed), requested);
            var resp := CompleteSelection(config, sub, requested, Some(allowed)).response;
            && f.Some? && resp.selectedChecks.Some?
            && (config.guardrails.value)(sub.namespace, sub.name, ModelKey(f.value.namespace, f.value.name)) ==
               Checks(resp.selectedChecks.value)
  {
    CompletionDecides(config, sub, requested, allowed);
    hide FindModelRef, IsResolvedModelAuthorized, CheckModelHealth, Authorized;
  }

  // ---------------------------------------------------------------- who may use a subscription

  /** The subscription lists the user, or a group of the user. */
  ghost predicate Lists(sub: Subscription, q: Query) {
    (exists u :: u in sub.users && u == q.username) || (exists g :: g in sub.groups && g in q.groups)
  }

  lemma OwnedIff(sub: Subscription, q: Query)
    ensures UserHasAccess(sub, q.username, q.groups) <==> Lists(sub, q)
    ensures Owned(sub, q) <==> !sub.deleting && Lists(sub, q)
  {
    if g :| g in sub.groups && g in q.groups {
      var i :| 0 <= i < |sub.groups| && sub.groups[i] == g;
    }
  }

  /** What auto-selection admits: a live subscription that lists the caller and, in either view, holds the model. */
  lemma AdmitsIff(q: Query, model: string, allowed: Option<set<ModelKey>>, sub: Subscription)
    ensures Passes(Admits(q, model, allowed), sub) <==>
            && !sub.deleting && Lists(sub, q)
            && (|| model == "" || FindModelRef(sub.modelRefs, model).Some?
                || (allowed.Some? && FindModelRef(Authorized(sub.modelRefs, allowed.value), model).Some?))
  {
    OwnedIff(sub, q);
  }

  /** What qualifies for auto-selection with a checker: an admitted subscription whose model is authorized. */
  lemma QualifiesIff(q: Query, model: string, allowed: set<ModelKey>, sub: Subscription)
    requires model != ""
    ensures Passes(Qualifies(q, model, Some(allowed)), sub) <==>
            && !sub.deleting && Lists(sub, q)
            && FindModelRef(Authorized(sub.modelRefs, allowed), model).Some?
            && forall r | r in sub.modelRefs && model == r.namespace + "/" + r.name && '/' !in r.namespace ::
                 ModelKey(r.namespace, r.name) in allowed
  {
    OwnedIff(sub, q);
    AccessDecision(sub, model, allowed);
    forall r | r in sub.modelRefs
      ensures NamesExactly(model, r) <==> model == r.namespace + "/" + r.name && '/' !in r.namespace
    {
      if '/' !in r.namespace { CutOf(r.namespace, r.name, '/'); }
    }
  }

  // ---------------------------------------------------------------- order and names

  /** Higher priority first, then the higher limit, then the smaller name; equals in any order. */
  ghost predicate RankedBefore(x: Subscription, y: Subscription) {
    || x.priority > y.priority
    || (x.priority == y.priority && x.maxLimit > y.maxLimit)
    || (x.priority == y.priority && x.maxLimit == y.maxLimit && (x.name == y.name || Less(x.name, y.name)))
  }

  lemma ByPriorityMeans(subs: seq<Subscription>)
    ensures multiset(ByPriority(subs)) == multiset(subs)
    ensures forall i, j | 0 <= i < j < |subs| ::
            |ByPriority(subs)| == |subs| && RankedBefore(ByPriority(subs)[i], ByPriority(subs)[j])
  {
    Priorities(subs, subs);
    SameLength(ByPriority(subs), subs);
    forall i, j | 0 <= i < j < |subs| ensures RankedBefore(ByPriority(subs)[i], ByPriority(subs)[j]) {
      var x, y := ByPriority(subs)[i], ByPriority(subs)[j];
      assert !SubLess(y, x);
      LessTrichotomy(x.name, y.name);
    }
  }

  /** The error names these subscriptions, in order. */
  ghost predicate ReportsNames(r: Result, subs: seq<Subscription>) {
    r.MultipleSubscriptions? && |r.names| == |subs| && forall i | 0 <= i < |subs| :: r.names[i] == subs[i].name
  }

  /** Auto-selection without a model or without a checker: one candidate completes, none and several are errors. */
  lemma AutoWithoutChecker(
    config: Config, sorted: seq<Subscription>, q: Query, model: string, allowed: Option<set<ModelKey>>)
    requires model == "" || allowed.None?
    ensures var r := AutoSelect(config, sorted, q, model, allowed);
            var candidates := Keep(Admits(q, model, allowed), sorted);
            && (candidates == [] ==> r == NoSubscription)
            && (|candidates| == 1 ==> r == CompleteSelection(config, candidates[0], model, allowed))
            && (|candidates| > 1 ==> ReportsNames(r, candidates))
  {}

  /** With a model and a checker, an ambiguous auto-selection names the qualifying subscriptions, in order. */
  lemma AmbiguityNames(config: Config, sorted: seq<Subscription>, q: Query, model: string, allowed: set<ModelKey>)
    requires model != "" && |Keep(Qualifies(q, model, Some(allowed)), sorted)| > 1
    ensures ReportsNames(AutoSelect(config, sorted, q, model, Some(allowed)),
              Keep(Qualifies(q, model, Some(allowed)), sorted))
  {
    TwoFiltersAreOne(sorted, q, model, Some(allowed));
  }

  // ---------------------------------------------------------------- aliases

  /** Object `i` alone carries the alias. */
  ghost predicate OnlyCarrier(models: seq<ModelObject>, i: nat, alias: string) {
    && i < |models| && models[i].alias == Some(alias)
    && forall j | 0 <= j < |models| && models[j].alias == Some(alias) :: j == i
  }

  lemma OnlyWithoutEnd(models: seq<ModelObject>, i: nat, alias: string)
    requires models != [] && models[|models| - 1].alias != Some(alias)
    ensures OnlyCarrier(models, i, alias) <==> OnlyCarrier(models[..|models| - 1], i, alias)
  {
    var front := models[..|models| - 1];
    assert forall j | 0 <= j < |front| :: front[j] == models[j];
    assert forall j | 0 <= j < |front| :: models[j] == front[j];
  }

  lemma {:induction false} NoCarriers(models: seq<ModelObject>, alias: string)
    ensures Carriers(models, alias) == [] <==> forall i | 0 <= i < |models| :: models[i].alias != Some(alias)
  {
    if models != [] {
      var n := |models| - 1;
      NoCarriers(models[..n], alias);
      assert forall i | 0 <= i < n :: models[..n][i] == models[i];
    }
  }

  lemma {:induction false} CarriersAre(models: seq<ModelObject>, alias: string)
    ensures forall i: nat | OnlyCarrier(models, i, alias) :: Carriers(models, alias) == [models[i]]
    ensures |Carriers(models, alias)| == 1 ==> exists i: nat :: OnlyCarrier(models, i, alias)
  {
    if models != [] {
      var n := |models| - 1;
      var front := models[..n];
      CarriersAre(front, alias);
      NoCarriers(front, alias);
      if models[n].alias == Some(alias) {
        if Carriers(front, alias) == [] { OnlyAtEnd(models, alias); }
        forall i: nat | OnlyCarrier(models, i, alias) ensures Carriers(models, alias) == [models[i]] {
          assert i == n;
          assert forall j | 0 <= j < n :: front[j] == models[j];
        }
      } else {
        forall i: nat ensures OnlyCarrier(models, i, alias) <==> OnlyCarrier(front, i, alias) {
          OnlyWithoutEnd(models, i, alias);
        }
      }
    }
  }

  lemma OnlyAtEnd(models: seq<ModelObject>, alias: string)
    requires models != [] && models[|models| - 1].alias == Some(alias)
    requires Carriers(models[..|models| - 1], alias) == []
    ensures OnlyCarrier(models, |models| - 1, alias)
  {
    var front := models[..|models| - 1];
    NoCarriers(front, alias);
    assert forall i | 0 <= i < |front| :: models[i] == front[i];
  }

  /**
   A client-facing name carried by one model object becomes that object's namespace and
   name; any other name is kept.
   */
  lemma AliasMeans(models: seq<ModelObject>, requested: string)
    requires requested != ""
    ensures forall i: nat | OnlyCarrier(models, i, requested) ::
              ResolvedAlias(Some(models), requested) == models[i].namespace + "/" + models[i].name
    ensures (forall i: nat :: !OnlyCarrier(models, i, requested)) ==>
            ResolvedAlias(Some(models), requested) == requested
  {
    CarriersAre(models, requested);
  }

  // ---------------------------------------------------------------- refusals

  /** Which requests are refused before any subscription is looked at. */
  lemma RefusedEarly(
    config: Config, subs: seq<Subscription>, models: Option<seq<ModelObject>>, access: Access, q: Query)
    ensures var r := Select(config, subs, models, access, q);
            && (r.IdentityMissing? <==> q.groups == [] && q.username == "")
            && (r.AuthorizationUnknown? <==>
                   (q.groups != [] || q.username != "") && subs != [] && access.CheckerFailed?)
            && ((q.groups != [] || q.username != "") && subs == [] ==> r == NoSubscription)
  {
    hide ByPriority, ResolvedAlias, CompleteSelection;
    forall sub, model, allowed { CompletionCompletes(config, sub, model, allowed); }
  }

  /**
   An explicitly picked subscription is refused to a caller it does not list and, without a
   checker, for a model it lacks.
   */
  lemma ExplicitDecides(
    config: Config, sorted: seq<Subscription>, q: Query, model: string, allowed: Option<set<ModelKey>>,
      sub: Subscription)
    requires ExplicitPick(sorted, q.subscription) == Some(sub)
    ensures var r := ExplicitSelect(config, sorted, q, model, allowed);
            if !Lists(sub, q) then r == AccessDenied(q.subscription)
            else if model != "" && allowed.None? && FindModelRef(sub.modelRefs, model).None? then
              r == ModelNotInSubscription(q.subscription, model)
            else r == CompleteSelection(config, sub, model, allowed)
  {
    OwnedIff(sub, q);
  }
}
