/**
 Composition of the guardrails that apply to one subscription/model pair
 (maas-common/pkg/guardrail/compose.go): five scopes are resolved attachment by
 attachment and merged.
 */
module GuardrailCompose {
  import opened GuardrailMerge
  import opened Options
  import opened Text

  datatype Attachment = Attachment(policy: string)

  datatype Resolution = Resolved(policy: Policy) | Unresolved

  /**
   The policy read behind the attachment resolver. The first argument numbers
   the call, so two reads of one policy may see two different snapshots.
   */
  type Resolver = (nat, string, Attachment) -> Resolution

  datatype Resource = Resource(namespace: string, name: string, uid: string, guardrails: seq<Attachment>)
  datatype ModelEntry = ModelEntry(namespace: string, name: string, guardrails: seq<Attachment>)
  datatype Subscription = Subscription(resource: Resource, modelRefs: seq<ModelEntry>)

  datatype Request = Request(
    resolver: Option<Resolver>, targetNamespace: string,
    tenant: Option<Resource>, tenantConfig: Option<Resource>, sub: Option<Subscription>, model: Option<Resource>,
    modelNamespace: string, modelName: string)

  datatype ComposeError =
    | InvalidCompositionInput
    | ModelEntryNotFound
    | ModelEntryAmbiguous
    | ResolveFailed(path: string)
    | MergeFailed(error: MergeError)

  datatype ComposeResult = Composed(plan: seq<SelectedCheck>) | Rejected(error: ComposeError)

  /** The pair a composition is for, returned with every outcome; empty when there is no subscription. */
  datatype SubscriptionModelKey = SubscriptionModelKey(
    subscriptionNamespace: string, subscriptionName: string, modelNamespace: string, modelName: string)

  /** One attachment to resolve: where to look the policy up, and where it was attached. */
  datatype Job = Job(namespace: string, attachment: Attachment, source: Source)

  predicate InputValid(q: Request) {
    && q.sub.Some? && q.resolver.Some?
    && q.sub.value.resource.namespace == q.targetNamespace
    && q.tenant.Some? && q.tenantConfig.Some?
    && q.tenantConfig.value.namespace == q.targetNamespace
    && q.model.Some?
    && q.model.value.namespace == q.modelNamespace && q.model.value.name == q.modelName
  }

  predicate Matches(e: ModelEntry, namespace: string, name: string) {
    e.namespace == namespace && e.name == name
  }

  // ---------------------------------------------------------------- the five scopes

  function SourceOf(kind: string, r: Resource, path: string): Source {
    Source(kind, r.namespace, r.name, r.uid, path)
  }

  function IndexPath(prefix: string, i: nat): string { prefix + "[" + Decimal(i) + "]" }

  function TenantSource(q: Request, i: nat): Source
    requires q.tenant.Some?
  {
    SourceOf("AITenant", q.tenant.value, IndexPath("AITenant/" + q.tenant.value.name + ".spec.guardrails", i))
  }

  function TenantConfigSource(q: Request, i: nat): Source
    requires q.tenantConfig.Some?
  {
    SourceOf("MaasTenantConfig", q.tenantConfig.value,
             IndexPath("MaasTenantConfig/" + q.tenantConfig.value.name + ".spec.guardrails", i))
  }

  function SubscriptionPath(q: Request): string
    requires q.sub.Some?
  {
    "MaaSSubscription/" + q.sub.value.resource.name + ".spec."
  }

  function SubscriptionSource(q: Request, i: nat): Source
    requires q.sub.Some?
  {
    SourceOf("MaaSSubscription", q.sub.value.resource, IndexPath(SubscriptionPath(q) + "guardrails", i))
  }

  function EntrySource(q: Request, i: nat): Source
    requires q.sub.Some?
  {
    SourceOf("MaaSSubscription", q.sub.value.resource,
             IndexPath(SubscriptionPath(q) + ("modelRefs[" + q.modelNamespace + "/" + q.modelName + "].guardrails"), i))
  }

  function ModelSource(q: Request, i: nat): Source
    requires q.model.Some?
  {
    SourceOf("MaaSModelRef", q.model.value, IndexPath("MaaSModelRef/" + q.model.value.name + ".spec.guardrails", i))
  }

  function ScopeJobs(namespace: string, attachments: seq<Attachment>, source: nat -> Source): seq<Job> {
    seq(|attachments|, i requires 0 <= i < |attachments| => Job(namespace, attachments[i], source(i)))
  }

  function TenantJobs(q: Request): seq<Job>
    requires InputValid(q)
  {
    ScopeJobs(q.targetNamespace, q.tenant.value.guardrails, (i: nat) => TenantSource(q, i))
  }

  function TenantConfigJobs(q: Request): seq<Job>
    requires InputValid(q)
  {
    ScopeJobs(q.targetNamespace, q.tenantConfig.value.guardrails, (i: nat) => TenantConfigSource(q, i))
  }

  function SubscriptionJobs(q: Request): seq<Job>
    requires InputValid(q)
  {
    ScopeJobs(q.targetNamespace, q.sub.value.resource.guardrails, (i: nat) => SubscriptionSource(q, i))
  }

  function EntryJobs(q: Request, e: ModelEntry): seq<Job>
    requires InputValid(q)
  {
    ScopeJobs(q.targetNamespace, e.guardrails, (i: nat) => EntrySource(q, i))
  }

  function ModelJobs(q: Request): seq<Job>
    requires InputValid(q)
  {
    ScopeJobs(q.model.value.namespace, q.model.value.guardrails, (i: nat) => ModelSource(q, i))
  }

  function Jobs(q: Request, e: ModelEntry): seq<Job>
    requires InputValid(q)
  {
    TenantJobs(q) + TenantConfigJobs(q) + SubscriptionJobs(q) + EntryJobs(q, e) + ModelJobs(q)
  }

  // ---------------------------------------------------------------- what composition returns

  function Answer(resolver: Resolver, first: nat, jobs: seq<Job>, i: nat): Resolution
    requires i < |jobs|
  {
    resolver(first + i, jobs[i].namespace, jobs[i].attachment)
  }

  ghost predicate FailsAt(resolver: Resolver, first: nat, jobs: seq<Job>, k: nat) {
    && k < |jobs| && Answer(resolver, first, jobs, k).Unresolved?
    && forall i | 0 <= i < k :: Answer(resolver, first, jobs, i).Resolved?
  }

  ghost predicate IsSelections(resolver: Resolver, first: nat, jobs: seq<Job>, sels: seq<Selection>) {
    && |sels| == |jobs|
    && forall i | 0 <= i < |jobs| ::
         Answer(resolver, first, jobs, i) == Resolved(sels[i].policy) && sels[i].source == jobs[i].source
  }

  ghost predicate UniqueEntry(entries: seq<ModelEntry>, namespace: string, name: string, e: ModelEntry) {
    exists k :: 0 <= k < |entries| && entries[k] == e && Matches(e, namespace, name) &&
      forall l | 0 <= l < |entries| && Matches(entries[l], namespace, name) :: l == k
  }

  /** What the merge of the resolved selections makes of composition. */
  ghost predicate MergedFrom(sels: seq<Selection>, r: ComposeResult) {
    match r
    case Composed(plan) => MergeOutcome(sels, Plan(plan))
    case Rejected(MergeFailed(e)) => MergeOutcome(sels, Failed(e))
    case _ => false
  }

  ghost predicate ComposeOutcome(q: Request, r: ComposeResult) {
    if !InputValid(q) then r == Rejected(InvalidCompositionInput)
    else
      var refs := q.sub.value.modelRefs;
      match r
      case Rejected(InvalidCompositionInput) => false
      case Rejected(ModelEntryNotFound) => forall k | 0 <= k < |refs| ::
        !Matches(refs[k], q.modelNamespace, q.modelName)
      case Rejected(ModelEntryAmbiguous) =>
        exists k, l ::
          0 <= k < l < |refs| && Matches(refs[k], q.modelNamespace, q.modelName) &&
            Matches(refs[l], q.modelNamespace, q.modelName)
      case Rejected(ResolveFailed(path)) =>
        exists e, k: nat :: UniqueEntry(refs, q.modelNamespace, q.modelName, e) &&
          FailsAt(q.resolver.value, 0, Jobs(q, e), k) && Jobs(q, e)[k].source.path == path
      case _ =>
        exists e, sels :: UniqueEntry(refs, q.modelNamespace, q.modelName, e) &&
          IsSelections(q.resolver.value, 0, Jobs(q, e), sels) && MergedFrom(sels, r)
  }

  // ---------------------------------------------------------------- the procedure

  datatype EntryResult = Entry(entry: ModelEntry) | NoEntry | TwoEntries

  method FindSubscriptionModelEntry(entries: seq<ModelEntry>, namespace: string, name: string) returns (r: EntryResult)
    ensures r.NoEntry? <==> forall k | 0 <= k < |entries| :: !Matches(entries[k], namespace, name)
    ensures r.TwoEntries? <==>
            exists k, l ::
              0 <= k < l < |entries| && Matches(entries[k], namespace, name) && Matches(entries[l], namespace, name)
    ensures r.Entry? ==> UniqueEntry(entries, namespace, name, r.entry)
  {
    var found: Option<nat> := None;
    for i := 0 to |entries|
      invariant found.None? ==> forall k | 0 <= k < i :: !Matches(entries[k], namespace, name)
      invariant found.Some? ==> found.value < i && Matches(entries[found.value], namespace, name)
      invariant found.Some? ==> forall k | 0 <= k < i && Matches(entries[k], namespace, name) :: k == found.value
    {
      if Matches(entries[i], namespace, name) {
        if found.Some? { return TwoEntries; }
        found := Some(i);
      }
    }
    return if found.Some? then Entry(entries[found.value]) else NoEntry;
  }

  datatype ResolveResult = Selections(sels: seq<Selection>) | FailedAt(path: string)

  ghost predicate ResolveOutcome(resolver: Resolver, first: nat, jobs: seq<Job>, r: ResolveResult) {
    match r
    case Selections(sels) => IsSelections(resolver, first, jobs, sels)
    case FailedAt(path) => exists k: nat :: FailsAt(resolver, first, jobs, k) && jobs[k].source.path == path
  }

  /** One call of the resolver. */
  datatype Call = Call(namespace: string, attachment: Attachment)

  function CallsOf(jobs: seq<Job>): seq<Call> {
    seq(|jobs|, i requires 0 <= i < |jobs| => Call(jobs[i].namespace, jobs[i].attachment))
  }

  /** The calls made: one for each job, in order, up to and including the first that fails. */
  ghost predicate CallsMade(jobs: seq<Job>, r: ResolveResult, calls: seq<Call>) {
    match r
    case Selections(_) => calls == CallsOf(jobs)
    case FailedAt(path) =>
      exists k: nat :: k < |jobs| && jobs[k].source.path == path && calls == CallsOf(jobs[..k + 1])
  }

  lemma CallsAppend(a: seq<Job>, b: seq<Job>)
    ensures CallsOf(a + b) == CallsOf(a) + CallsOf(b)
  {}

  lemma CallsConcat(a: seq<Job>, b: seq<Job>, r: ResolveResult, calls: seq<Call>)
    requires CallsMade(b, r, calls)
    ensures CallsMade(a + b, r, CallsOf(a) + calls)
  {
    if r.FailedAt? {
      var k: nat :| k < |b| && b[k].source.path == r.path && calls == CallsOf(b[..k + 1]);
      assert (a + b)[|a| + k] == b[k];
      assert (a + b)[..|a| + k + 1] == a + b[..k + 1];
      CallsAppend(a, b[..k + 1]);
    } else {
      CallsAppend(a, b);
    }
  }

  lemma CallsStop(a: seq<Job>, b: seq<Job>, r: ResolveResult, calls: seq<Call>)
    requires r.FailedAt? && CallsMade(a, r, calls)
    ensures CallsMade(a + b, r, calls)
  {
    var k: nat :| k < |a| && a[k].source.path == r.path && calls == CallsOf(a[..k + 1]);
    assert (a + b)[k] == a[k] && (a + b)[..k + 1] == a[..k + 1];
  }

  method ResolveAttachments(
    resolver: Resolver, first: nat, namespace: string, attachments: seq<Attachment>, source: nat -> Source)
    returns (r: ResolveResult, calls: seq<Call>)
    ensures ResolveOutcome(resolver, first, ScopeJobs(namespace, attachments, source), r)
    ensures CallsMade(ScopeJobs(namespace, attachments, source), r, calls)
  {
    ghost var jobs := ScopeJobs(namespace, attachments, source);
    var sels := [];
    calls := [];
    for i := 0 to |attachments|
      invariant IsSelections(resolver, first, jobs[..i], sels)
      invariant calls == CallsOf(jobs[..i])
    {
      var s := source(i);
      var answer := resolver(first + i, namespace, attachments[i]);
      calls := calls + [Call(namespace, attachments[i])];
      assert calls == CallsOf(jobs[..i + 1]);
      assert forall k | 0 <= k < i :: Answer(resolver, first, jobs[..i], k) == Answer(resolver, first, jobs, k);
      if answer.Unresolved? {
        assert FailsAt(resolver, first, jobs, i);
        return FailedAt(s.path), calls;
      }
      sels := sels + [Selection(answer.policy, s)];
      assert forall k | 0 <= k < i :: Answer(resolver, first, jobs[..i + 1], k) == Answer(resolver, first, jobs, k);
    }
    assert jobs[..|attachments|] == jobs;
    return Selections(sels), calls;
  }

  /** Resolving `a` and then `b` is resolving `a + b`. */
  lemma ResolveConcat(resolver: Resolver, first: nat, a: seq<Job>, b: seq<Job>, sels: seq<Selection>, r: ResolveResult)
    requires IsSelections(resolver, first, a, sels) && ResolveOutcome(resolver, first + |a|, b, r)
    ensures ResolveOutcome(resolver, first, a + b, if r.Selections? then Selections(sels + r.sels) else r)
  {
    assert forall i | 0 <= i < |a| :: Answer(resolver, first, a + b, i) == Answer(resolver, first, a, i);
    match r
    case Selections(more) =>
      forall i | 0 <= i < |a + b|
        ensures Answer(resolver, first, a + b, i) == Resolved((sels + more)[i].policy) &&
                (sels + more)[i].source == (a + b)[i].source
      {
        if i >= |a| { AnswerShift(resolver, first, a, b, i); }
      }
    case FailedAt(path) =>
      var k: nat :| FailsAt(resolver, first + |a|, b, k) && b[k].source.path == path;
      forall i | 0 <= i < |a| + k ensures Answer(resolver, first, a + b, i).Resolved? {
        if i >= |a| { AnswerShift(resolver, first, a, b, i); }
      }
      AnswerShift(resolver, first, a, b, |a| + k);
      assert FailsAt(resolver, first, a + b, |a| + k);
  }

  lemma AnswerShift(resolver: Resolver, first: nat, a: seq<Job>, b: seq<Job>, i: nat)
    requires |a| <= i < |a| + |b|
    ensures Answer(resolver, first, a + b, i) == Answer(resolver, first + |a|, b, i - |a|)
  {
  }

  lemma ResolveStops(resolver: Resolver, first: nat, a: seq<Job>, b: seq<Job>, path: string)
    requires ResolveOutcome(resolver, first, a, FailedAt(path))
    ensures ResolveOutcome(resolver, first, a + b, FailedAt(path))
  {
    var k: nat :| FailsAt(resolver, first, a, k) && a[k].source.path == path;
    assert forall i | 0 <= i < |a| :: Answer(resolver, first, a + b, i) == Answer(resolver, first, a, i);
    assert FailsAt(resolver, first, a + b, k);
  }

  /** Appends one scope's selections to those resolved so far. */
  method AppendScope(
    resolver: Resolver, ghost done: seq<Job>, soFar: ResolveResult, callsSoFar: seq<Call>,
    namespace: string, attachments: seq<Attachment>, source: nat -> Source)
    returns (r: ResolveResult, calls: seq<Call>)
    requires ResolveOutcome(resolver, 0, done, soFar) && CallsMade(done, soFar, callsSoFar)
    ensures ResolveOutcome(resolver, 0, done + ScopeJobs(namespace, attachments, source), r)
    ensures CallsMade(done + ScopeJobs(namespace, attachments, source), r, calls)
  {
    ghost var jobs := ScopeJobs(namespace, attachments, source);
    if soFar.FailedAt? {
      ResolveStops(resolver, 0, done, jobs, soFar.path);
      CallsStop(done, jobs, soFar, callsSoFar);
      return soFar, callsSoFar;
    }
    var scope, more := ResolveAttachments(resolver, |soFar.sels|, namespace, attachments, source);
    ResolveConcat(resolver, 0, done, jobs, soFar.sels, scope);
    CallsConcat(done, jobs, scope, more);
    return if scope.Selections? then Selections(soFar.sels + scope.sels) else scope, callsSoFar + more;
  }

  method ResolveScopes(q: Request, resolver: Resolver, e: ModelEntry) returns (r: ResolveResult, calls: seq<Call>)
    requires InputValid(q)
    ensures ResolveOutcome(resolver, 0, Jobs(q, e), r) && CallsMade(Jobs(q, e), r, calls)
  {
    hide ResolveOutcome, CallsMade;
    r, calls := NothingResolved(resolver);
    r, calls := AppendScope(resolver, [], r, calls, q.targetNamespace, q.tenant.value.guardrails,
                            (i: nat) => TenantSource(q, i));
    ghost var done := TenantJobs(q);
    assert [] + TenantJobs(q) == done;
    r, calls := AppendScope(resolver, done, r, calls, q.targetNamespace, q.tenantConfig.value.guardrails,
                            (i: nat) => TenantConfigSource(q, i));
    done := done + TenantConfigJobs(q);
    r, calls := AppendScope(resolver, done, r, calls, q.targetNamespace, q.sub.value.resource.guardrails,
                            (i: nat) => SubscriptionSource(q, i));
    done := done + SubscriptionJobs(q);
    r, calls := AppendScope(resolver, done, r, calls, q.targetNamespace, e.guardrails, (i: nat) => EntrySource(q, i));
    done := done + EntryJobs(q, e);
    r, calls := AppendScope(resolver, done, r, calls, q.model.value.namespace, q.model.value.guardrails,
                            (i: nat) => ModelSource(q, i));
  }

  method NothingResolved(resolver: Resolver) returns (r: ResolveResult, calls: seq<Call>)
    ensures ResolveOutcome(resolver, 0, [], r) && CallsMade([], r, calls)
  {
    r, calls := Selections([]), [];
  }

  /** The calls that the five lists of a request ask for, scope by scope. */
  function CallsFor(namespace: string, attachments: seq<Attachment>): seq<Call> {
    seq(|attachments|, i requires 0 <= i < |attachments| => Call(namespace, attachments[i]))
  }

  lemma JobCalls(q: Request, e: ModelEntry)
    requires InputValid(q)
    ensures CallsOf(Jobs(q, e)) ==
            CallsFor(q.targetNamespace, q.tenant.value.guardrails)
            + CallsFor(q.targetNamespace, q.tenantConfig.value.guardrails)
            + CallsFor(q.targetNamespace, q.sub.value.resource.guardrails)
            + CallsFor(q.targetNamespace, e.guardrails)
            + CallsFor(q.model.value.namespace, q.model.value.guardrails)
  {
  }

  /** The request got as far as resolving attachments. */
  predicate Resolves(r: ComposeResult) { r.Composed? || r.error.MergeFailed? || r.error.ResolveFailed? }

  /**
   Composes the plan of a request. The resolver is called once for each
   attachment of the five lists, in the namespace of its scope and in order, up
   to the first failure, and for nothing else.
   */
  method ComposeSubscriptionModelPlan(
    q: Request)
    returns (key: SubscriptionModelKey, r: ComposeResult, calls: seq<Call>)
    ensures ComposeOutcome(q, r)
    ensures !Resolves(r) ==> calls == []
    ensures Resolves(r) ==>
              && InputValid(q)
              && exists e ::
                   && UniqueEntry(q.sub.value.modelRefs, q.modelNamespace, q.modelName, e)
                   && var all := CallsFor(q.targetNamespace, q.tenant.value.guardrails)
                                 + CallsFor(q.targetNamespace, q.tenantConfig.value.guardrails)
                                 + CallsFor(q.targetNamespace, q.sub.value.resource.guardrails)
                                 + CallsFor(q.targetNamespace, e.guardrails)
                                 + CallsFor(q.model.value.namespace, q.model.value.guardrails);
                      && calls <= all
                      && (r.Composed? || r.error.MergeFailed? ==> calls == all)
                      && (r.Rejected? && r.error.ResolveFailed? ==> calls != [])
    ensures q.sub.None? ==> key == SubscriptionModelKey("", "", "", "")
    ensures q.sub.Some? ==>
              var sub := q.sub.value.resource;
              key == SubscriptionModelKey(sub.namespace, sub.name, q.modelNamespace, q.modelName)
  {
    calls := [];
    if q.sub.None? { return SubscriptionModelKey("", "", "", ""), Rejected(InvalidCompositionInput), calls; }
    var sub := q.sub.value.resource;
    key := SubscriptionModelKey(sub.namespace, sub.name, q.modelNamespace, q.modelName);
    if q.resolver.None? { return key, Rejected(InvalidCompositionInput), calls; }
    if sub.namespace != q.targetNamespace { return key, Rejected(InvalidCompositionInput), calls; }
    if q.tenant.None? || q.tenantConfig.None? { return key, Rejected(InvalidCompositionInput), calls; }
    if q.tenantConfig.value.namespace != q.targetNamespace { return key, Rejected(InvalidCompositionInput), calls; }
    if q.model.None? { return key, Rejected(InvalidCompositionInput), calls; }
    if q.model.value.namespace != q.modelNamespace || q.model.value.name != q.modelName {
      return key, Rejected(InvalidCompositionInput), calls;
    }
    var entry := FindSubscriptionModelEntry(q.sub.value.modelRefs, q.modelNamespace, q.modelName);
    if entry.NoEntry? { return key, Rejected(ModelEntryNotFound), calls; }
    if entry.TwoEntries? { return key, Rejected(ModelEntryAmbiguous), calls; }
    var resolved;
    resolved, calls := ResolveScopes(q, q.resolver.value, entry.entry);
    JobCalls(q, entry.entry);
    PrefixCalls(Jobs(q, entry.entry), resolved, calls);
    if resolved.FailedAt? { return key, Rejected(ResolveFailed(resolved.path)), calls; }
    var merged := Merge(resolved.sels);
    r := if merged.Plan? then Composed(merged.checks) else Rejected(MergeFailed(merged.error));
    assert MergedFrom(resolved.sels, r);
  }

  lemma PrefixCalls(jobs: seq<Job>, r: ResolveResult, calls: seq<Call>)
    requires CallsMade(jobs, r, calls)
    ensures calls <= CallsOf(jobs) && (r.FailedAt? ==> calls != [])
  {
    if r.FailedAt? {
      var k: nat :| k < |jobs| && calls == CallsOf(jobs[..k + 1]);
      assert |CallsOf(jobs[..k + 1])| == k + 1;
      assert jobs == jobs[..k + 1] + jobs[k + 1..];
      CallsAppend(jobs[..k + 1], jobs[k + 1..]);
      hide CallsOf;
    }
  }

  // ---------------------------------------------------------------- provenance

  datatype Scope = InTenant | InTenantConfig | InSubscription | InEntry | InModel

  /** Which attachment the k-th job resolves. */
  function Locate(q: Request, e: ModelEntry, k: nat): (Scope, nat)
    requires InputValid(q) && k < |Jobs(q, e)|
  {
    var a, b, c, d := |TenantJobs(q)|, |TenantConfigJobs(q)|, |SubscriptionJobs(q)|, |EntryJobs(q, e)|;
    if k < a then (InTenant, k)
    else if k < a + b then (InTenantConfig, k - a)
    else if k < a + b + c then (InSubscription, k - a - b)
    else if k < a + b + c + d then (InEntry, k - a - b - c)
    else (InModel, k - a - b - c - d)
  }

  function SourceAt(q: Request, at: (Scope, nat)): Source
    requires InputValid(q)
  {
    match at.0
    case InTenant => TenantSource(q, at.1)
    case InTenantConfig => TenantConfigSource(q, at.1)
    case InSubscription => SubscriptionSource(q, at.1)
    case InEntry => EntrySource(q, at.1)
    case InModel => ModelSource(q, at.1)
  }

  lemma LocateSource(q: Request, e: ModelEntry, k: nat)
    requires InputValid(q) && k < |Jobs(q, e)|
    ensures Jobs(q, e)[k].source == SourceAt(q, Locate(q, e, k))
  {
  }

  lemma IndexPathInjective(prefix: string, i: nat, j: nat)
    requires IndexPath(prefix, i) == IndexPath(prefix, j)
    ensures i == j
  {
    var s := IndexPath(prefix, i);
    assert Decimal(i) == s[|prefix| + 1..|s| - 1];
    assert Decimal(j) == s[|prefix| + 1..|s| - 1];
    DecimalInjective(i, j);
  }

  lemma SubscriptionPathsDiffer(q: Request, i: nat, j: nat)
    requires q.sub.Some?
    ensures SubscriptionSource(q, i).path != EntrySource(q, j).path
  {
    var p := SubscriptionPath(q);
    assert SubscriptionSource(q, i).path[|p|] == 'g';
    assert EntrySource(q, j).path[|p|] == 'm';
  }

  /** A provenance source names one attachment: no two attachments carry the same source. */
  lemma SourcesDistinct(q: Request, e: ModelEntry, k: nat, l: nat)
    requires InputValid(q) && k < |Jobs(q, e)| && l < |Jobs(q, e)|
    requires Jobs(q, e)[k].source == Jobs(q, e)[l].source
    ensures k == l
  {
    LocateSource(q, e, k);
    LocateSource(q, e, l);
    var x, y := Locate(q, e, k), Locate(q, e, l);
    if x.0.InSubscription? && y.0.InEntry? { SubscriptionPathsDiffer(q, x.1, y.1); }
    if x.0.InEntry? && y.0.InSubscription? { SubscriptionPathsDiffer(q, y.1, x.1); }
    assert x.0 == y.0;
    match x.0
    case InTenant => IndexPathInjective("AITenant/" + q.tenant.value.name + ".spec.guardrails", x.1, y.1);
    case InTenantConfig =>
      IndexPathInjective("MaasTenantConfig/" + q.tenantConfig.value.name + ".spec.guardrails", x.1, y.1);
    case InSubscription => IndexPathInjective(SubscriptionPath(q) + "guardrails", x.1, y.1);
    case InEntry =>
      IndexPathInjective(SubscriptionPath(q) + ("modelRefs[" + q.modelNamespace + "/" + q.modelName + "].guardrails"),
          x.1, y.1);
    case InModel => IndexPathInjective("MaaSModelRef/" + q.model.value.name + ".spec.guardrails", x.1, y.1);
  }

  /**
   Tenant, tenant config, subscription and entry policies are looked up in the tenant's
   namespace, model policies in the model's own.
   */
  lemma LookupNamespaces(q: Request, e: ModelEntry, k: nat)
    requires InputValid(q) && k < |Jobs(q, e)|
    ensures Jobs(q, e)[k].namespace ==
            if Jobs(q, e)[k].source.kind == "MaaSModelRef" then q.modelNamespace else q.targetNamespace
  {
    LocateSource(q, e, k);
  }

  /** The policy resolved by job `k` selects the check stored under `key`. */
  ghost predicate Selects(sels: seq<Selection>, k: nat, key: CheckKey) {
    k < |sels| && exists c :: c in sels[k].policy.checks && KeyOf(Contribution(sels[k], c)) == key
  }

  /**
   A composed plan is exactly the union over the five scopes: there is one
   matching model entry, every attachment of the five scopes resolves, a check
   is in the plan if and only if some attachment selects it, its recorded
   sources are exactly the attachments that select it, and each source stands
   for one attachment.
   */
  lemma ComposedPlanIsUnion(q: Request, plan: seq<SelectedCheck>) returns (e: ModelEntry, sels: seq<Selection>)
    requires ComposeOutcome(q, Composed(plan))
    ensures InputValid(q) && UniqueEntry(q.sub.value.modelRefs, q.modelNamespace, q.modelName, e)
    ensures IsSelections(q.resolver.value, 0, Jobs(q, e), sels) && MergeOutcome(sels, Plan(plan))
    ensures forall key :: key in PlanKeys(plan) <==> exists k :: Selects(sels, k, key)
    ensures forall sc, k: nat | sc in plan && k < |sels| ::
              Jobs(q, e)[k].source in sc.sources <==> Selects(sels, k, PlanKey(sc))
    ensures forall sc, src | sc in plan && src in sc.sources ::
              exists k: nat :: k < |sels| && Jobs(q, e)[k].source == src
  {
    e, sels :| UniqueEntry(q.sub.value.modelRefs, q.modelNamespace, q.modelName, e) &&
      IsSelections(q.resolver.value, 0, Jobs(q, e), sels) && MergedFrom(sels, Composed(plan));
    var jobs := Jobs(q, e);
    hide Jobs, UniqueEntry, MergeOutcome;
    PlanOfSelections(sels, plan);
    forall sc, k: nat | sc in plan && k < |sels|
      ensures jobs[k].source in sc.sources <==> Selects(sels, k, PlanKey(sc))
    {
      SourceSelects(q, e, sels, plan, sc, k);
    }
    forall sc, src | sc in plan && src in sc.sources ensures exists k: nat :: k < |sels| && jobs[k].source == src {
      var k := SourceComesFrom(sels, plan, sc, src);
      assert jobs[k].source == src;
    }
  }

  /** The keys of a merged plan are those its selections select. */
  lemma PlanOfSelections(sels: seq<Selection>, plan: seq<SelectedCheck>)
    requires MergeOutcome(sels, Plan(plan))
    ensures forall key :: key in PlanKeys(plan) <==> exists k :: Selects(sels, k, key)
  {
    var cs := Contributions(sels);
    forall key ensures key in PlanKeys(plan) <==> exists k :: Selects(sels, k, key) {
      if key in Keys(cs) {
        var x :| x in cs && KeyOf(x) == key;
        var k := SelectorOf(sels, x);
      }
      if k :| Selects(sels, k, key) { ContributesKey(sels, k, key); }
    }
  }

  /** A source recorded in a merged plan belongs to a selection that selects the check. */
  lemma SourceComesFrom(sels: seq<Selection>, plan: seq<SelectedCheck>, sc: SelectedCheck, src: Source) returns (k: nat)
    requires MergeOutcome(sels, Plan(plan)) && sc in plan && src in sc.sources
    ensures k < |sels| && sels[k].source == src && Selects(sels, k, PlanKey(sc))
  {
    var cs := Contributions(sels);
    assert Records(cs, sc) && src in Elements(sc.sources);
    var x :| x in cs && KeyOf(x) == PlanKey(sc) && x.sel.source == src;
    k := SelectorOf(sels, x);
  }

  lemma SourceSelects(
    q: Request, e: ModelEntry, sels: seq<Selection>, plan: seq<SelectedCheck>, sc: SelectedCheck, k: nat)
    requires InputValid(q) && IsSelections(q.resolver.value, 0, Jobs(q, e), sels) && MergeOutcome(sels, Plan(plan))
    requires sc in plan && k < |sels|
    ensures Jobs(q, e)[k].source in sc.sources <==> Selects(sels, k, PlanKey(sc))
  {
    hide Jobs;
    if Jobs(q, e)[k].source in sc.sources {
      var l := SourceComesFrom(sels, plan, sc, Jobs(q, e)[k].source);
      SourcesDistinct(q, e, k, l);
    }
    if Selects(sels, k, PlanKey(sc)) {
      ContributesKey(sels, k, PlanKey(sc));
      assert Records(Contributions(sels), sc);
      assert sels[k].source in Elements(sc.sources);
    }
  }

  lemma SelectorOf(sels: seq<Selection>, x: Contribution) returns (k: nat)
    requires x in Contributions(sels)
    ensures k < |sels| && sels[k] == x.sel && Selects(sels, k, KeyOf(x))
  {
    var i, j :| 0 <= i < |sels| && 0 <= j < |sels[i].policy.checks| &&
      x == Contribution(sels[i], sels[i].policy.checks[j]);
    k := i;
    assert x.check in sels[k].policy.checks;
  }

  lemma ContributesKey(sels: seq<Selection>, k: nat, key: CheckKey)
    requires Selects(sels, k, key)
    ensures key in Keys(Contributions(sels)) && sels[k].source in SourcesOf(Contributions(sels), key)
  {
    var c :| c in sels[k].policy.checks && KeyOf(Contribution(sels[k], c)) == key;
    var j :| 0 <= j < |sels[k].policy.checks| && sels[k].policy.checks[j] == c;
    assert Contribution(sels[k], c) in Contributions(sels);
  }

  /** Composition is a function of its input and of the policies read: there is one possible result. */
  lemma ComposeDetermined(q: Request, r: ComposeResult, r': ComposeResult)
    requires ComposeOutcome(q, r) && ComposeOutcome(q, r')
    ensures r == r'
  {
    if InputValid(q) {
      var refs := q.sub.value.modelRefs;
      if (r.Composed? || r.error.ResolveFailed? || r.error.MergeFailed?) &&
        (r'.Composed? || r'.error.ResolveFailed? || r'.error.MergeFailed?) {
        var e :| UniqueEntry(refs, q.modelNamespace, q.modelName, e);
        EntryKnown(q, e, r);
        EntryKnown(q, e, r');
        ResolvedDetermined(q, e, r, r');
      }
    }
  }

  lemma ResolveDecided(resolver: Resolver, jobs: seq<Job>, k: nat, sels: seq<Selection>)
    requires FailsAt(resolver, 0, jobs, k)
    ensures !IsSelections(resolver, 0, jobs, sels)
    ensures forall l: nat | FailsAt(resolver, 0, jobs, l) :: l == k
  {
  }

  /** The part of `ComposeOutcome` that follows the choice of the model entry. */
  ghost predicate AfterEntry(q: Request, e: ModelEntry, r: ComposeResult)
    requires InputValid(q)
  {
    match r
    case Rejected(ResolveFailed(path)) =>
      exists k: nat :: FailsAt(q.resolver.value, 0, Jobs(q, e), k) && Jobs(q, e)[k].source.path == path
    case _ => exists sels :: IsSelections(q.resolver.value, 0, Jobs(q, e), sels) && MergedFrom(sels, r)
  }

  lemma ResolvedDetermined(q: Request, e: ModelEntry, r: ComposeResult, r': ComposeResult)
    requires InputValid(q) && AfterEntry(q, e, r) && AfterEntry(q, e, r')
    ensures r == r'
  {
    var resolver, jobs := q.resolver.value, Jobs(q, e);
    if r.Rejected? && r.error.ResolveFailed? {
      var k: nat :| FailsAt(resolver, 0, jobs, k) && jobs[k].source.path == r.error.path;
      ResolveDecided(resolver, jobs, k, []);
      forall sels ensures !IsSelections(resolver, 0, jobs, sels) { ResolveDecided(resolver, jobs, k, sels); }
    } else {
      var sels :| IsSelections(resolver, 0, jobs, sels) && MergedFrom(sels, r);
      forall k: nat ensures !FailsAt(resolver, 0, jobs, k) {
        if FailsAt(resolver, 0, jobs, k) { ResolveDecided(resolver, jobs, k, sels); }
      }
      var sels' :| IsSelections(resolver, 0, jobs, sels') && MergedFrom(sels', r');
      SameSelections(resolver, jobs, sels, sels');
      var m := if r.Composed? then Plan(r.plan) else Failed(r.error.error);
      var m' := if r'.Composed? then Plan(r'.plan) else Failed(r'.error.error);
      MergeCanonical(sels, sels', m, m');
    }
  }

  lemma SameSelections(resolver: Resolver, jobs: seq<Job>, sels: seq<Selection>, sels': seq<Selection>)
    requires IsSelections(resolver, 0, jobs, sels) && IsSelections(resolver, 0, jobs, sels')
    ensures sels == sels'
  {
    forall i | 0 <= i < |sels| ensures sels[i] == sels'[i] {
      assert Answer(resolver, 0, jobs, i) == Resolved(sels[i].policy);
      assert Answer(resolver, 0, jobs, i) == Resolved(sels'[i].policy);
    }
  }

  lemma EntryKnown(q: Request, e: ModelEntry, r: ComposeResult)
    requires InputValid(q) && UniqueEntry(q.sub.value.modelRefs, q.modelNamespace, q.modelName, e)
    requires ComposeOutcome(q, r) && (r.Composed? || r.error.ResolveFailed? || r.error.MergeFailed?)
    ensures AfterEntry(q, e, r)
  {
    var refs := q.sub.value.modelRefs;
    if r.Rejected? && r.error.ResolveFailed? {
      var e', k: nat :| UniqueEntry(refs, q.modelNamespace, q.modelName, e') &&
        FailsAt(q.resolver.value, 0, Jobs(q, e'), k) && Jobs(q, e')[k].source.path == r.error.path;
      assert e' == e;
    } else {
      var e', sels :| UniqueEntry(refs, q.modelNamespace, q.modelName, e') &&
        IsSelections(q.resolver.value, 0, Jobs(q, e'), sels) && MergedFrom(sels, r);
      assert e' == e;
    }
  }
}
