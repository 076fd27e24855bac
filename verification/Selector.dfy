/**
 Subscription selection (maas-api/internal/subscription/selector.go): which
 subscription serves a request, whether the requested model is authorized in
 it, and which model reference the response, the health check and the
 guardrail lookup are about.
 */
module Selector {
  import opened Options
  import opened Text

  const PHASE_ACTIVE := "Active"
  const PHASE_DEGRADED := "Degraded"
  const PHASE_FAILED := "Failed"

  datatype ModelKey = ModelKey(namespace: string, name: string)

  /** A model reference of a subscription; `modelName` is the client-facing alias, empty when there is none. */
  datatype ModelRef = ModelRef(
    namespace: string, name: string, modelName: string, tokenRateLimits: seq<int>, unlimited: bool)

  datatype RateLimitStatus = RateLimitStatus(model: string, ready: bool)

  datatype Subscription = Subscription(
    name: string, namespace: string, users: seq<string>, groups: seq<string>,
    priority: int, maxLimit: int, modelRefs: seq<ModelRef>,
    phase: string, deleting: bool, rateLimitStatuses: seq<RateLimitStatus>,
    useShortRateLimitId: bool, objectives: map<string, string>, details: string)

  datatype Response = Response(
    name: string, namespace: string, priority: int, phase: string, details: string,
    modelRefs: seq<ModelRef>, resolvedModel: string, rateLimitId: string, objective: string, fairnessId: string,
    accessAllowed: bool, selectedChecks: Option<set<string>>)

  datatype HealthReason = SubscriptionNotReady | InvalidModelFormat | RateLimitNotEnforced

  datatype Result =
    | Selected(response: Response)
    | IdentityMissing
    | NoSubscription
    | SubscriptionNotFound(subscription: string)
    | AccessDenied(subscription: string)
    | ModelNotInSubscription(subscription: string, model: string)
    | MultipleSubscriptions(names: seq<string>)
    | ModelUnhealthy(subscription: string, phase: string, reason: HealthReason)
    | GuardrailsUnresolved
    | AuthorizationUnknown

  datatype Answer = Checks(ids: set<string>) | Unresolved

  /** What the selector is configured with: its tenant, and the guardrail lookup by subscription and model. */
  datatype Config = Config(tenantName: string, guardrails: Option<(string, string, ModelKey) -> Answer>)

  function KeyOf(ref: ModelRef): ModelKey { ModelKey(ref.namespace, ref.name) }

  // ---------------------------------------------------------------- finding a model reference

  predicate IsExact(ref: ModelRef, namespace: string, name: string) { ref.namespace == namespace && ref.name == name }

  function FirstExact(refs: seq<ModelRef>, namespace: string, name: string): Option<ModelRef> {
    if refs == [] then None
    else if IsExact(refs[0], namespace, name) then Some(refs[0])
    else FirstExact(refs[1..], namespace, name)
  }

  predicate HasAlias(ref: ModelRef, namespace: string, alias: string) {
    ref.modelName != "" && ref.namespace == namespace && ref.modelName == alias
  }

  datatype AliasScan = NoAlias | OneAlias(ref: ModelRef) | Ambiguous

  /** The last carrier of the alias in the namespace, unless two differently named references carry it. */
  function ScanAlias(refs: seq<ModelRef>, namespace: string, alias: string): AliasScan {
    if refs == [] then NoAlias
    else
      var last := refs[|refs| - 1];
      var before := ScanAlias(refs[..|refs| - 1], namespace, alias);
      if !HasAlias(last, namespace, alias) || before.Ambiguous? then before
      else if before.OneAlias? && before.ref.name != last.name then Ambiguous
      else OneAlias(last)
  }

  function FirstRaw(refs: seq<ModelRef>, requested: string): Option<ModelRef> {
    if refs == [] then None
    else if (refs[0].modelName != "" && refs[0].modelName == requested) || refs[0].name == requested then Some(refs[0])
    else FirstRaw(refs[1..], requested)
  }

  function FindModelRef(refs: seq<ModelRef>, requested: string): Option<ModelRef> {
    match CutAt(requested, '/')
    case NotFound => FirstRaw(refs, requested)
    case Found(namespace, name) =>
      var exact := FirstExact(refs, namespace, name);
      if exact.Some? then exact
      else match ScanAlias(refs, namespace, name)
        case Ambiguous => None
        case OneAlias(ref) => Some(ref)
        case NoAlias => FirstRaw(refs, requested)
  }

  predicate IncludesModel(refs: seq<ModelRef>, requested: string) {
    requested == "" || FindModelRef(refs, requested).Some?
  }

  lemma {:induction false} FirstExactFound(refs: seq<ModelRef>, namespace: string, name: string)
    ensures FirstExact(refs, namespace, name).Some? <==> exists r :: r in refs && IsExact(r, namespace, name)
    ensures var e := FirstExact(refs, namespace, name); e.Some? ==> e.value in refs && IsExact(e.value, namespace, name)
  {
    if refs != [] {
      FirstExactFound(refs[1..], namespace, name);
      assert refs == [refs[0]] + refs[1..];
    }
  }

  lemma {:induction false} FirstRawFound(refs: seq<ModelRef>, requested: string)
    ensures var e := FirstRaw(refs, requested); e.Some? ==> e.value in refs
  {
    if refs != [] { FirstRawFound(refs[1..], requested); }
  }

  ghost predicate TwoCarriers(refs: seq<ModelRef>, namespace: string, alias: string) {
    exists r, q ::
      r in refs && q in refs && HasAlias(r, namespace, alias) && HasAlias(q, namespace, alias) && r.name != q.name
  }

  /** An alias resolves exactly when all its carriers in the namespace have one name. */
  lemma {:induction false} ScanAliasDecides(refs: seq<ModelRef>, namespace: string, alias: string)
    ensures var s := ScanAlias(refs, namespace, alias);
            && (s.NoAlias? <==> forall r | r in refs :: !HasAlias(r, namespace, alias))
            && (s.OneAlias? ==> s.ref in refs && HasAlias(s.ref, namespace, alias))
            && (s.OneAlias? ==> forall r | r in refs && HasAlias(r, namespace, alias) :: r.name == s.ref.name)
            && (s.Ambiguous? <==> TwoCarriers(refs, namespace, alias))
  {
    if refs != [] {
      ScanAliasDecides(refs[..|refs| - 1], namespace, alias);
      assert refs == refs[..|refs| - 1] + [refs[|refs| - 1]];
    }
  }

  /** A found reference is one of the subscription's own. */
  lemma FoundIsMember(refs: seq<ModelRef>, requested: string)
    ensures var f := FindModelRef(refs, requested); f.Some? ==> f.value in refs
  {
    FirstRawFound(refs, requested);
    match CutAt(requested, '/')
    case NotFound =>
    case Found(namespace, name) =>
      FirstExactFound(refs, namespace, name);
      ScanAliasDecides(refs, namespace, name);
  }

  // ---------------------------------------------------------------- authorization

  function Authorized(refs: seq<ModelRef>, allowed: set<ModelKey>): seq<ModelRef> {
    if refs == [] then []
    else
      var rest := Authorized(refs[..|refs| - 1], allowed);
      if KeyOf(refs[|refs| - 1]) in allowed then rest + [refs[|refs| - 1]] else rest
  }

  method FilterAuthorizedModels(refs: seq<ModelRef>, allowed: set<ModelKey>) returns (out: seq<ModelRef>)
    ensures out == Authorized(refs, allowed)
  {
    out := [];
    for i := 0 to |refs|
      invariant out == Authorized(refs[..i], allowed)
    {
      assert refs[..i + 1][..i] == refs[..i];
      if KeyOf(refs[i]) in allowed { out := out + [refs[i]]; }
    }
    assert refs[..|refs|] == refs;
  }

  lemma {:induction false} AuthorizedMembers(refs: seq<ModelRef>, allowed: set<ModelKey>)
    ensures forall r :: r in Authorized(refs, allowed) <==> r in refs && KeyOf(r) in allowed
  {
    if refs != [] {
      AuthorizedMembers(refs[..|refs| - 1], allowed);
      assert refs == refs[..|refs| - 1] + [refs[|refs| - 1]];
    }
  }

  /** Filtering twice is filtering once. */
  lemma {:induction false} AuthorizedIdempotent(refs: seq<ModelRef>, allowed: set<ModelKey>)
    ensures Authorized(Authorized(refs, allowed), allowed) == Authorized(refs, allowed)
  {
    if refs != [] {
      var rest := Authorized(refs[..|refs| - 1], allowed);
      AuthorizedIdempotent(refs[..|refs| - 1], allowed);
      if KeyOf(refs[|refs| - 1]) in allowed {
        assert (rest + [refs[|refs| - 1]])[..|rest|] == rest;
      }
    }
  }

  /** The subscription as restricted to the authorized models; unchanged without an authorized set. */
  function Restricted(sub: Subscription, allowed: Option<set<ModelKey>>): Subscription {
    if allowed.None? then sub else sub.(modelRefs := Authorized(sub.modelRefs, allowed.value))
  }

  /** The reference that the request names literally, as "namespace/name". */
  ghost predicate NamesExactly(requested: string, ref: ModelRef) {
    var c := CutAt(requested, '/'); c.Found? && IsExact(ref, c.before, c.after)
  }

  ghost predicate HasExact(refs: seq<ModelRef>, requested: string) {
    exists r :: r in refs && NamesExactly(requested, r)
  }

  predicate IsResolvedModelAuthorized(sub: Subscription, requested: string, allowed: Option<set<ModelKey>>) {
    if requested == "" then true
    else if allowed.None? then false
    else
      var cut := CutAt(requested, '/');
      if cut.Found? && FirstExact(sub.modelRefs, cut.before, cut.after).Some? then
        ModelKey(cut.before, cut.after) in allowed.value
      else
        var ref := FindModelRef(Restricted(sub, allowed).modelRefs, requested);
        ref.Some? && KeyOf(ref.value) in allowed.value
  }

  // ---------------------------------------------------------------- health

  function FirstStatus(statuses: seq<RateLimitStatus>, model: string): Option<RateLimitStatus> {
    if statuses == [] then None
    else if statuses[0].model == model then Some(statuses[0])
    else FirstStatus(statuses[1..], model)
  }

  /** Rate limits of the reference can be enforced: it has no token budget, or its policy is reported ready. */
  predicate RateLimitReady(sub: Subscription, ref: ModelRef) {
    || (!ref.unlimited && |ref.tokenRateLimits| == 0)
    || (var s := FirstStatus(sub.rateLimitStatuses, ref.name); s.Some? && s.value.ready)
  }

  function CheckModelHealth(sub: Subscription, requested: string): Option<HealthReason> {
    if requested == "" then
      if sub.phase == "" || sub.phase == PHASE_FAILED then Some(SubscriptionNotReady) else None
    else if sub.phase != PHASE_ACTIVE && sub.phase != PHASE_DEGRADED then Some(SubscriptionNotReady)
    else if sub.phase != PHASE_DEGRADED then None
    else
      var ref := FindModelRef(sub.modelRefs, requested);
      if ref.None? then Some(InvalidModelFormat)
      else if RateLimitReady(sub, ref.value) then None
      else Some(RateLimitNotEnforced)
  }

  // ---------------------------------------------------------------- responses

  function Identity(ref: ModelRef): string { ref.namespace + "/" + ref.name }

  /** The string whose hash is the short rate-limit identifier; empty when a part is missing. */
  function RateLimitKey(namespace: string, name: string, resolvedModel: string): string {
    if namespace == "" || name == "" || resolvedModel == "" then ""
    else namespace + "/" + name + "@" + resolvedModel
  }

  function ObjectiveFor(sub: Subscription, model: string): string {
    if model in sub.objectives then sub.objectives[model] else ""
  }

  function ToResponse(config: Config, sub: Subscription, requested: string): Response {
    var ref := FindModelRef(sub.modelRefs, requested);
    var resolved := if ref.Some? then Identity(ref.value) else requested;
    Response(
      sub.name, sub.namespace, sub.priority, sub.phase, sub.details, sub.modelRefs,
      resolved,
      if sub.useShortRateLimitId then RateLimitKey(sub.namespace, sub.name, resolved) else "",
      if ref.Some? then ObjectiveFor(sub, resolved) else "",
      config.tenantName, false, None)
  }

  function BuildAuthorizedResponse(
    config: Config, sub: Subscription, requested: string, allowed: Option<set<ModelKey>>): Result
  {
    var view := Restricted(sub, allowed);
    var access := IsResolvedModelAuthorized(sub, requested, allowed);
    var resp := ToResponse(config, view, requested).(accessAllowed := access);
    var resp' := if allowed.Some? then resp.(modelRefs := Authorized(resp.modelRefs, allowed.value)) else resp;
    var health := CheckModelHealth(view, requested);
    if (allowed.None? || access || requested == "") && health.Some? then
      ModelUnhealthy(sub.name, sub.phase, health.value)
    else Selected(resp')
  }

  function CompleteSelection(
    config: Config, sub: Subscription, requested: string, allowed: Option<set<ModelKey>>): Result
  {
    var r := BuildAuthorizedResponse(config, sub, requested, allowed);
    if !r.Selected? || requested == "" || !r.response.accessAllowed || config.guardrails.None? then r
    else
      var ref := FindModelRef(Restricted(sub, allowed).modelRefs, requested);
      if ref.None? then GuardrailsUnresolved
      else match (config.guardrails.value)(sub.namespace, sub.name, KeyOf(ref.value))
        case Unresolved => GuardrailsUnresolved
        case Checks(ids) => Selected(r.response.(selectedChecks := Some(ids)))
  }

  // ---------------------------------------------------------------- one reference throughout

  /** The authorized view still finds the reference a request names literally. */
  lemma ExactSurvives(refs: seq<ModelRef>, requested: string, allowed: set<ModelKey>)
    requires HasExact(refs, requested)
    requires var c := CutAt(requested, '/'); ModelKey(c.before, c.after) in allowed
    ensures var f := FindModelRef(Authorized(refs, allowed), requested);
            f.Some? && f.value in refs && NamesExactly(requested, f.value) && KeyOf(f.value) in allowed
  {
    var c := CutAt(requested, '/');
    var r :| r in refs && NamesExactly(requested, r);
    AuthorizedMembers(refs, allowed);
    assert r in Authorized(refs, allowed) && IsExact(r, c.before, c.after);
    FirstExactFound(Authorized(refs, allowed), c.before, c.after);
  }

  /**
   Authorization is decided on the whole subscription, everything else on the
   authorized part of it. Access is granted exactly when the authorized part
   resolves the request and no unauthorized reference is named literally.
   */
  lemma AccessDecision(sub: Subscription, requested: string, allowed: set<ModelKey>)
    requires requested != ""
    ensures IsResolvedModelAuthorized(sub, requested, Some(allowed)) <==>
            && FindModelRef(Authorized(sub.modelRefs, allowed), requested).Some?
            && (forall r | r in sub.modelRefs && NamesExactly(requested, r) :: KeyOf(r) in allowed)
  {
    var refs := sub.modelRefs;
    var c := CutAt(requested, '/');
    var found := FindModelRef(Authorized(refs, allowed), requested);
    FoundIsMember(Authorized(refs, allowed), requested);
    AuthorizedMembers(refs, allowed);
    if c.Found? {
      FirstExactFound(refs, c.before, c.after);
      if FirstExact(refs, c.before, c.after).Some? {
        var e := FirstExact(refs, c.before, c.after).value;
        assert e in refs && NamesExactly(requested, e) && KeyOf(e) == ModelKey(c.before, c.after);
        if ModelKey(c.before, c.after) in allowed { ExactSurvives(refs, requested, allowed); }
      }
    }
  }

  /** Everything a successful, access-allowed selection says about the one model reference it resolved. */
  ghost predicate AboutOneRef(
    config: Config, sub: Subscription, requested: string, allowed: set<ModelKey>, resp: Response, ref: ModelRef)
  {
    && ref in sub.modelRefs && KeyOf(ref) in allowed
    && (forall r | r in sub.modelRefs && NamesExactly(requested, r) :: KeyOf(r) == KeyOf(ref))
    && resp.resolvedModel == Identity(ref)
    && resp.rateLimitId ==
         (if sub.useShortRateLimitId then RateLimitKey(sub.namespace, sub.name, Identity(ref)) else "")
    && resp.objective == ObjectiveFor(sub, Identity(ref))
    && (sub.phase == PHASE_ACTIVE || (sub.phase == PHASE_DEGRADED && RateLimitReady(sub, ref)))
    && ref in resp.modelRefs && (forall r :: r in resp.modelRefs <==> r in sub.modelRefs && KeyOf(r) in allowed)
    && (config.guardrails.Some? ==>
          resp.selectedChecks.Some? &&
          (config.guardrails.value)(sub.namespace, sub.name, KeyOf(ref)) == Checks(resp.selectedChecks.value))
  }

  /**
   A response that allows access is about one reference of the subscription,
   and that reference is authorized: it gives the resolved model, the rate-limit
   identifier, the objective, the health verdict and the guardrail lookup.
   */
  lemma OneRefThroughout(config: Config, sub: Subscription, requested: string, allowed: Option<set<ModelKey>>)
    requires requested != ""
    requires var r := CompleteSelection(config, sub, requested, allowed); r.Selected? && r.response.accessAllowed
    ensures allowed.Some?
    ensures exists ref ::
            AboutOneRef(config, sub, requested, allowed.value,
                CompleteSelection(config, sub, requested, allowed).response, ref)
  {
    GrantedShape(config, sub, requested, allowed);
    var resp := CompleteSelection(config, sub, requested, allowed).response;
    hide CompleteSelection, FindModelRef, NamesExactly, RateLimitReady, Identity, RateLimitKey, ObjectiveFor;
    AccessDecision(sub, requested, allowed.value);
    var view := Authorized(sub.modelRefs, allowed.value);
    FoundIsMember(view, requested);
    AuthorizedMembers(sub.modelRefs, allowed.value);
    AuthorizedIdempotent(sub.modelRefs, allowed.value);
    ExactIsFound(sub.modelRefs, requested, allowed.value);
    hide Authorized;
    var ref := FindModelRef(view, requested).value;
    assert AboutOneRef(config, sub, requested, allowed.value, resp, ref);
  }

  /** A granting response in terms of the reference found in the authorized part. */
  lemma GrantedShape(config: Config, sub: Subscription, requested: string, allowed: Option<set<ModelKey>>)
    requires requested != ""
    requires var r := CompleteSelection(config, sub, requested, allowed); r.Selected? && r.response.accessAllowed
    ensures allowed.Some? && IsResolvedModelAuthorized(sub, requested, allowed)
    ensures var view := Authorized(sub.modelRefs, allowed.value);
            var found := FindModelRef(view, requested);
            var resp := CompleteSelection(config, sub, requested, allowed).response;
            && resp.modelRefs == Authorized(view, allowed.value)
            && resp.resolvedModel == (if found.Some? then Identity(found.value) else requested)
            && resp.rateLimitId ==
                 (if sub.useShortRateLimitId then RateLimitKey(sub.namespace, sub.name, resp.resolvedModel) else "")
            && (found.Some? ==>
                  && resp.objective == ObjectiveFor(sub, resp.resolvedModel)
                  && (sub.phase == PHASE_ACTIVE || (sub.phase == PHASE_DEGRADED && RateLimitReady(sub, found.value)))
                  && (config.guardrails.Some? ==>
                        resp.selectedChecks.Some? &&
                        (config.guardrails.value)(sub.namespace, sub.name, KeyOf(found.value)) ==
                          Checks(resp.selectedChecks.value)))
  {
    hide FindModelRef, Authorized, Identity, RateLimitKey, FirstStatus;
  }

  lemma ExactIsFound(refs: seq<ModelRef>, requested: string, allowed: set<ModelKey>)
    requires forall r | r in refs && NamesExactly(requested, r) :: KeyOf(r) in allowed
    ensures var f := FindModelRef(Authorized(refs, allowed), requested);
            f.Some? ==> forall r | r in refs && NamesExactly(requested, r) :: KeyOf(r) == KeyOf(f.value)
  {
    if HasExact(refs, requested) { ExactSurvives(refs, requested, allowed); }
  }

  // ---------------------------------------------------------------- exactly when

  /** The subscription can serve inference on this reference. */
  predicate Serves(sub: Subscription, ref: ModelRef) {
    sub.phase == PHASE_ACTIVE || (sub.phase == PHASE_DEGRADED && RateLimitReady(sub, ref))
  }

  predicate GuardrailsResolve(config: Config, sub: Subscription, ref: ModelRef) {
    config.guardrails.Some? ==> (config.guardrails.value)(sub.namespace, sub.name, KeyOf(ref)).Checks?
  }

  predicate Grants(r: Result) { r.Selected? && r.response.accessAllowed }

  /** No reference of the subscription that the request names literally is outside the authorized set. */
  ghost predicate LiteralAuthorized(sub: Subscription, requested: string, allowed: set<ModelKey>) {
    forall r | r in sub.modelRefs && NamesExactly(requested, r) :: KeyOf(r) in allowed
  }

  /**
   For a model request under an authorized set, the outcome is: a denial
   exactly when the model is not authorized; otherwise an unhealthy
   subscription, unresolved guardrails, or access, in this order, each exactly
   when the reference found in the authorized part says so.
   */
  lemma CompletionDecides(config: Config, sub: Subscription, requested: string, allowed: set<ModelKey>)
    requires requested != ""
    ensures var r := CompleteSelection(config, sub, requested, Some(allowed));
            var found := FindModelRef(Authorized(sub.modelRefs, allowed), requested);
            if found.None? || !LiteralAuthorized(sub, requested, allowed) then r.Selected? && !r.response.accessAllowed
            else if !Serves(sub, found.value) then
              r == ModelUnhealthy(sub.name, sub.phase, if sub.phase == PHASE_DEGRADED then RateLimitNotEnforced
                  else SubscriptionNotReady)
            else if !GuardrailsResolve(config, sub, found.value) then r == GuardrailsUnresolved
            else Grants(r)
  {
    AccessDecision(sub, requested, allowed);
    hide FindModelRef, NamesExactly, Authorized, FirstStatus, IsResolvedModelAuthorized;
  }

  /** Without a model, as when a key is created, only an unreconciled or failed subscription is refused. */
  lemma WithoutModel(config: Config, sub: Subscription, allowed: Option<set<ModelKey>>)
    ensures var r := CompleteSelection(config, sub, "", allowed);
            if sub.phase == "" || sub.phase == PHASE_FAILED then
              r == ModelUnhealthy(sub.name, sub.phase, SubscriptionNotReady)
            else Grants(r)
  {}

  /** Without an access checker a model request is never granted access, whatever the subscription. */
  lemma WithoutChecker(config: Config, sub: Subscription, requested: string)
    requires requested != ""
    ensures !Grants(CompleteSelection(config, sub, requested, None))
  {}

  // ---------------------------------------------------------------- non-interference

  /** `whole` is `part` with references inserted that are neither authorized nor named literally. */
  ghost predicate PaddedWith(whole: seq<ModelRef>, part: seq<ModelRef>, requested: string, allowed: set<ModelKey>)
    decreases |whole|
  {
    if whole == [] then part == []
    else
      var last := whole[|whole| - 1];
      || (KeyOf(last) !in allowed && !NamesExactly(requested, last) &&
             PaddedWith(whole[..|whole| - 1], part, requested, allowed))
      || (part != [] && part[|part| - 1] == last &&
             PaddedWith(whole[..|whole| - 1], part[..|part| - 1], requested, allowed))
  }

  lemma {:induction false} PaddingInvisible(
    whole: seq<ModelRef>, part: seq<ModelRef>, requested: string, allowed: set<ModelKey>)
    requires PaddedWith(whole, part, requested, allowed)
    ensures Authorized(whole, allowed) == Authorized(part, allowed)
    ensures forall r | NamesExactly(requested, r) :: r in whole <==> r in part
    decreases |whole|
  {
    if whole != [] {
      var last, front := whole[|whole| - 1], whole[..|whole| - 1];
      assert whole == front + [last];
      if KeyOf(last) !in allowed && !NamesExactly(requested, last) && PaddedWith(front, part, requested, allowed) {
        PaddingInvisible(front, part, requested, allowed);
      } else {
        PaddingInvisible(front, part[..|part| - 1], requested, allowed);
        assert part == part[..|part| - 1] + [last];
      }
    }
  }

  /** References outside the authorized set that the request does not name literally change nothing in the outcome. */
  lemma UnauthorizedRefsInvisible(
    config: Config, sub: Subscription, padded: Subscription, requested: string, allowed: set<ModelKey>)
    requires padded == sub.(modelRefs := padded.modelRefs)
    requires PaddedWith(padded.modelRefs, sub.modelRefs, requested, allowed)
    ensures CompleteSelection(config, padded, requested, Some(allowed)) ==
            CompleteSelection(config, sub, requested, Some(allowed))
  {
    hide PaddedWith, Authorized;
    PaddingInvisible(padded.modelRefs, sub.modelRefs, requested, allowed);
    assert Restricted(padded, Some(allowed)) == Restricted(sub, Some(allowed));
    SameDecision(sub, padded, requested, allowed);
    hide IsResolvedModelAuthorized, FindModelRef, NamesExactly, CheckModelHealth;
  }

  lemma SameDecision(sub: Subscription, padded: Subscription, requested: string, allowed: set<ModelKey>)
    requires Authorized(padded.modelRefs, allowed) == Authorized(sub.modelRefs, allowed)
    requires forall r | NamesExactly(requested, r) :: r in padded.modelRefs <==> r in sub.modelRefs
    ensures IsResolvedModelAuthorized(padded, requested, Some(allowed)) ==
            IsResolvedModelAuthorized(sub, requested, Some(allowed))
  {
    hide FindModelRef, Authorized, NamesExactly;
    if requested != "" {
      AccessDecision(sub, requested, allowed);
      AccessDecision(padded, requested, allowed);
    }
  }

  /** An unauthorized reference that the request names literally forces the denial, whatever else is authorized. */
  lemma UnauthorizedExactDenies(
    config: Config, sub: Subscription, requested: string, allowed: set<ModelKey>, ref: ModelRef)
    requires ref in sub.modelRefs && NamesExactly(requested, ref) && KeyOf(ref) !in allowed
    ensures var r := CompleteSelection(config, sub, requested, Some(allowed)); r.Selected? && !r.response.accessAllowed
  {
    assert requested != "";
    AccessDecision(sub, requested, allowed);
  }
}
