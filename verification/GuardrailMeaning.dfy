/**
 What merging and composing guardrails mean in the fields of their input: when
 each error is raised, and for which request, attachment and check a plan holds
 which entry. Nothing here goes through the keys and orders that
 maas-common/pkg/guardrail/merge.go uses on the way.
 */
module GuardrailMeaning {
  import opened GuardrailCompose
  import opened GuardrailMerge
  import opened Options
  import opened Orders
  import opened Text

  // ---------------------------------------------------------------- errors of a merge

  ghost predicate SamePolicy(a: Selection, b: Selection) {
    a.policy.namespace == b.policy.namespace && a.policy.name == b.policy.name
  }

  /** The two selections saw different snapshots of one policy. */
  ghost predicate Conflicting(a: Selection, b: Selection) {
    && SamePolicy(a, b)
    && (|| a.policy.uid != b.policy.uid
        || a.policy.generation != b.policy.generation
        || a.policy.bindingRevision != b.policy.bindingRevision)
  }

  ghost predicate HasConflict(sels: seq<Selection>) {
    exists a, b :: a in sels && b in sels && Conflicting(a, b)
  }

  /**
   A merge reports a snapshot conflict exactly when two selections of one policy differ in
   UID, generation or binding revision.
   */
  lemma ConflictIff(sels: seq<Selection>, r: MergeResult)
    requires MergeOutcome(sels, r)
    ensures r == Failed(PolicySnapshotConflict) <==> HasConflict(sels)
  {
    if a, b :| a in sels && b in sels && Conflicting(a, b) {
      assert PolicyKeyOf(a.policy) == PolicyKeyOf(b.policy) && IdentityOf(a.policy) != IdentityOf(b.policy);
    }
    if !SnapshotsAgree(sels) {
      var a, b :| && a in sels && b in sels && PolicyKeyOf(a.policy) == PolicyKeyOf(b.policy)
                  && IdentityOf(a.policy) != IdentityOf(b.policy);
      assert Conflicting(a, b);
    }
  }

  /** A check that no plan can hold: its phases are missing, unknown or repeated, or its index is negative. */
  ghost predicate Unacceptable(c: Check) {
    || c.specIndex < 0 || c.phases == []
    || (exists p :: p in c.phases && p != "Input" && p != "Output")
    || (exists i, j :: 0 <= i < j < |c.phases| && c.phases[i] == c.phases[j])
  }

  /** Two checks of one policy share an index under different names, or a name under different index or phases. */
  ghost predicate Incompatible(a: Selection, c: Check, b: Selection, d: Check) {
    && SamePolicy(a, b)
    && (|| (c.specIndex == d.specIndex && c.name != d.name)
        || (c.name == d.name && (c.specIndex != d.specIndex || multiset(c.phases) != multiset(d.phases))))
  }

  ghost predicate HasUnacceptable(sels: seq<Selection>) {
    exists a, c :: a in sels && c in a.policy.checks && Unacceptable(c)
  }

  ghost predicate HasIncompatible(sels: seq<Selection>) {
    exists a, c, b, d ::
      a in sels && c in a.policy.checks && b in sels && d in b.policy.checks && Incompatible(a, c, b, d)
  }

  lemma Contributes(sels: seq<Selection>, a: Selection, c: Check)
    ensures Contribution(a, c) in Contributions(sels) <==> a in sels && c in a.policy.checks
  {
    if a in sels && c in a.policy.checks {
      var i :| 0 <= i < |sels| && sels[i] == a;
      var j :| 0 <= j < |a.policy.checks| && a.policy.checks[j] == c;
    }
  }

  lemma AcceptableIff(c: Check)
    ensures Unacceptable(c) <==> !(ValidPhases(c.phases) && c.specIndex >= 0)
  {
    if p :| p in c.phases && p != "Input" && p != "Output" {
      var i :| 0 <= i < |c.phases| && c.phases[i] == p;
      assert c.phases[i] != PHASE_INPUT && c.phases[i] != PHASE_OUTPUT;
    }
    if i :| 0 <= i < |c.phases| && c.phases[i] != PHASE_INPUT && c.phases[i] != PHASE_OUTPUT {
      assert c.phases[i] in c.phases;
    }
  }

  /**
   A merge reports bad metadata exactly when there is no snapshot conflict but an
   unacceptable check or an incompatible pair.
   */
  lemma MetadataErrorIff(sels: seq<Selection>, r: MergeResult)
    requires MergeOutcome(sels, r)
    ensures r == Failed(InvalidCheckMetadata) <==>
            !HasConflict(sels) && (HasUnacceptable(sels) || HasIncompatible(sels))
  {
    ConflictIff(sels, r);
    InvalidIff(sels);
  }

  lemma InvalidIff(sels: seq<Selection>)
    ensures MetadataValid(Contributions(sels)) <==> !HasUnacceptable(sels) && !HasIncompatible(sels)
  {
    var cs := Contributions(sels);
    if a, c :| a in sels && c in a.policy.checks && Unacceptable(c) {
      Contributes(sels, a, c);
      AcceptableIff(c);
      assert Contribution(a, c) in cs;
    }
    if HasIncompatible(sels) {
      var a, c, b, d :|
        a in sels && c in a.policy.checks && b in sels && d in b.policy.checks && Incompatible(a, c, b, d);
      Contributes(sels, a, c);
      Contributes(sels, b, d);
      var x, y := Contribution(a, c), Contribution(b, d);
      assert x in cs && y in cs && (IndexKeyOf(x) == IndexKeyOf(y) || KeyOf(x) == KeyOf(y));
    }
    if !HasUnacceptable(sels) && !HasIncompatible(sels) {
      forall x | x in cs ensures ValidPhases(x.check.phases) && x.check.specIndex >= 0 {
        Contributes(sels, x.sel, x.check);
        AcceptableIff(x.check);
      }
      forall x, y | x in cs && y in cs ensures !Incompatible(x.sel, x.check, y.sel, y.check) {
        Contributes(sels, x.sel, x.check);
        Contributes(sels, y.sel, y.check);
      }
    }
  }

  // ---------------------------------------------------------------- entries of a plan

  /** The plan entry is about this check of this selection: same policy snapshot, same check, phases in order. */
  ghost predicate EntryOf(sc: SelectedCheck, a: Selection, c: Check) {
    && sc.policy.namespace == a.policy.namespace && sc.policy.name == a.policy.name
    && sc.policy.uid == a.policy.uid && sc.policy.generation == a.policy.generation
    && sc.policy.bindingRevision == a.policy.bindingRevision
    && sc.check.name == c.name && sc.check.specIndex == c.specIndex
    && multiset(sc.check.phases) == multiset(c.phases)
    && (forall i, j | 0 <= i < j < |sc.check.phases| :: Less(sc.check.phases[i], sc.check.phases[j]))
  }

  /** Policy name first, then its namespace, then the index of the check in its spec. */
  ghost predicate ChecksInOrder(a: SelectedCheck, b: SelectedCheck) {
    || Less(a.policy.name, b.policy.name)
    || (a.policy.name == b.policy.name && Less(a.policy.namespace, b.policy.namespace))
    || (a.policy.name == b.policy.name && a.policy.namespace == b.policy.namespace
        && a.check.specIndex < b.check.specIndex)
  }

  /** Kind first, then namespace, name, UID and path. */
  ghost predicate SourcesInOrder(a: Source, b: Source) {
    || Less(a.kind, b.kind)
    || (a.kind == b.kind && Less(a.namespace, b.namespace))
    || (a.kind == b.kind && a.namespace == b.namespace && Less(a.name, b.name))
    || (a.kind == b.kind && a.namespace == b.namespace && a.name == b.name && Less(a.uid, b.uid))
    || (a.kind == b.kind && a.namespace == b.namespace && a.name == b.name && a.uid == b.uid && Less(a.path, b.path))
  }

  /** Every check of every selection has its entry, with the selection's source among the sources. */
  ghost predicate Complete(sels: seq<Selection>, plan: seq<SelectedCheck>) {
    forall a, c | a in sels && c in a.policy.checks :: exists sc ::
      sc in plan && EntryOf(sc, a, c) && a.source in sc.sources
  }

  /** Every entry has a source, and every source of an entry is that of a selection with the check. */
  ghost predicate Grounded(sels: seq<Selection>, plan: seq<SelectedCheck>) {
    forall sc | sc in plan ::
      && sc.sources != []
      && forall src | src in sc.sources ::
           exists a, c :: a in sels && c in a.policy.checks && a.source == src && EntryOf(sc, a, c)
  }

  ghost predicate InOrder(plan: seq<SelectedCheck>) {
    && (forall i, j | 0 <= i < j < |plan| :: ChecksInOrder(plan[i], plan[j]))
    && (forall sc, i, j | sc in plan && 0 <= i < j < |sc.sources| :: SourcesInOrder(sc.sources[i], sc.sources[j]))
  }

  lemma EntryFor(sels: seq<Selection>, plan: seq<SelectedCheck>, sc: SelectedCheck, a: Selection, c: Check)
    requires MergeOutcome(sels, Plan(plan)) && sc in plan && a in sels && c in a.policy.checks
    requires PlanKey(sc) == KeyOf(Contribution(a, c))
    ensures EntryOf(sc, a, c)
  {
    var cs := Contributions(sels);
    Contributes(sels, a, c);
    assert Records(cs, sc) && Contribution(a, c) in cs;
    assert ValidPhases(c.phases);
    SortPermutes(Less, c.phases);
    SortedDistinct(c.phases);
  }

  lemma PlanComplete(sels: seq<Selection>, plan: seq<SelectedCheck>)
    requires MergeOutcome(sels, Plan(plan))
    ensures Complete(sels, plan)
  {
    var cs := Contributions(sels);
    forall a, c | a in sels && c in a.policy.checks
      ensures exists sc :: sc in plan && EntryOf(sc, a, c) && a.source in sc.sources
    {
      Contributes(sels, a, c);
      var x := Contribution(a, c);
      assert KeyOf(x) in PlanKeys(plan);
      var sc :| sc in plan && PlanKey(sc) == KeyOf(x);
      EntryFor(sels, plan, sc, a, c);
      assert Records(cs, sc) && a.source in SourcesOf(cs, PlanKey(sc));
      assert a.source in Elements(sc.sources);
    }
  }

  lemma PlanGrounded(sels: seq<Selection>, plan: seq<SelectedCheck>)
    requires MergeOutcome(sels, Plan(plan))
    ensures Grounded(sels, plan)
  {
    var cs := Contributions(sels);
    forall sc | sc in plan ensures sc.sources != [] {
      assert Records(cs, sc);
      var x :| x in cs && KeyOf(x) == PlanKey(sc);
      assert x.sel.source in SourcesOf(cs, PlanKey(sc));
      assert x.sel.source in Elements(sc.sources);
    }
    forall sc, src | sc in plan && src in sc.sources
      ensures exists a, c :: a in sels && c in a.policy.checks && a.source == src && EntryOf(sc, a, c)
    {
      assert Records(cs, sc) && src in Elements(sc.sources);
      var x :| x in cs && KeyOf(x) == PlanKey(sc) && x.sel.source == src;
      Contributes(sels, x.sel, x.check);
      EntryFor(sels, plan, sc, x.sel, x.check);
    }
  }

  lemma PlanInOrder(sels: seq<Selection>, plan: seq<SelectedCheck>)
    requires MergeOutcome(sels, Plan(plan))
    ensures InOrder(plan)
  {
    forall i, j | 0 <= i < j < |plan| ensures ChecksInOrder(plan[i], plan[j]) {
      assert CheckLess(plan[i], plan[j]);
    }
    forall sc, i, j | sc in plan && 0 <= i < j < |sc.sources| ensures SourcesInOrder(sc.sources[i], sc.sources[j]) {
      assert SourceLess(sc.sources[i], sc.sources[j]);
    }
  }

  /**
   A merge succeeds exactly when nothing conflicts, is unacceptable or
   incompatible. Its plan then holds every check of every selection, nothing
   else, each with exactly the sources that select it, in order.
   */
  lemma MergeMeans(sels: seq<Selection>, r: MergeResult)
    requires MergeOutcome(sels, r)
    ensures r.Plan? <==> !HasConflict(sels) && !HasUnacceptable(sels) && !HasIncompatible(sels)
    ensures r.Plan? ==> Complete(sels, r.checks) && Grounded(sels, r.checks) && InOrder(r.checks)
  {
    ConflictIff(sels, r);
    MetadataErrorIff(sels, r);
    if r.Plan? {
      PlanComplete(sels, r.checks);
      PlanGrounded(sels, r.checks);
      PlanInOrder(sels, r.checks);
    }
  }

  // ---------------------------------------------------------------- composition

  /** The source recorded for attachment `i` of a list found at `path` in a resource. */
  ghost function Provenance(kind: string, r: Resource, path: string, i: nat): Source {
    Source(kind, r.namespace, r.name, r.uid, path + "[" + Decimal(i) + "]")
  }

  /** Every check of the policy is in the plan, under this source. */
  ghost predicate AllSelected(policy: Policy, src: Source, plan: seq<SelectedCheck>) {
    forall c | c in policy.checks ::
      exists sc :: sc in plan && EntryOf(sc, Selection(policy, src), c) && src in sc.sources
  }

  /**
   One of the five lists of a request: the number of the call for its first
   attachment, the namespace its policies are looked up in, the attachments, and
   the kind, resource and path that their sources name.
   */
  datatype ListAt = ListAt(
    first: nat, namespace: string, attachments: seq<Attachment>, kind: string, resource: Resource, path: string)

  ghost function TenantList(q: Request): ListAt
    requires InputValid(q)
  {
    var t := q.tenant.value;
    ListAt(0, q.targetNamespace, t.guardrails, "AITenant", t, "AITenant/" + t.name + ".spec.guardrails")
  }

  ghost function ConfigList(q: Request): ListAt
    requires InputValid(q)
  {
    var c := q.tenantConfig.value;
    ListAt(|q.tenant.value.guardrails|, q.targetNamespace, c.guardrails, "MaasTenantConfig", c,
           "MaasTenantConfig/" + c.name + ".spec.guardrails")
  }

  ghost function SubscriptionList(q: Request): ListAt
    requires InputValid(q)
  {
    var sub := q.sub.value.resource;
    ListAt(|q.tenant.value.guardrails| + |q.tenantConfig.value.guardrails|, q.targetNamespace, sub.guardrails,
           "MaaSSubscription", sub, "MaaSSubscription/" + sub.name + ".spec.guardrails")
  }

  ghost function EntryList(q: Request, e: ModelEntry): ListAt
    requires InputValid(q)
  {
    var sub := q.sub.value.resource;
    ListAt(|q.tenant.value.guardrails| + |q.tenantConfig.value.guardrails| + |sub.guardrails|, q.targetNamespace,
           e.guardrails, "MaaSSubscription", sub,
           "MaaSSubscription/" + sub.name + ".spec.modelRefs[" + q.modelNamespace + "/" + q.modelName + "].guardrails")
  }

  ghost function ModelList(q: Request, e: ModelEntry): ListAt
    requires InputValid(q)
  {
    var sub, m := q.sub.value.resource, q.model.value;
    ListAt(|q.tenant.value.guardrails| + |q.tenantConfig.value.guardrails| + |sub.guardrails| + |e.guardrails|,
           m.namespace, m.guardrails, "MaaSModelRef", m, "MaaSModelRef/" + m.name + ".spec.guardrails")
  }

  /** Every attachment of the list, looked up under its own call, resolves to a policy that is wholly in the plan. */
  ghost predicate Included(resolver: Resolver, l: ListAt, plan: seq<SelectedCheck>) {
    forall i: nat | i < |l.attachments| ::
      && resolver(l.first + i, l.namespace, l.attachments[i]).Resolved?
      && AllSelected(resolver(l.first + i, l.namespace, l.attachments[i]).policy,
                     Provenance(l.kind, l.resource, l.path, i), plan)
  }

  /** The source of the entry stands for attachment `i` of this list, whose policy holds the check. */
  ghost predicate ForAttachment(resolver: Resolver, l: ListAt, i: nat, sc: SelectedCheck, src: Source) {
    && i < |l.attachments| && resolver(l.first + i, l.namespace, l.attachments[i]).Resolved?
    && var policy := resolver(l.first + i, l.namespace, l.attachments[i]).policy;
       exists c :: c in policy.checks && EntryOf(sc, Selection(policy, src), c)
  }

  /** The source of the entry stands for an attachment of this list. */
  ghost predicate FromList(resolver: Resolver, l: ListAt, sc: SelectedCheck, src: Source) {
    exists i: nat :: src == Provenance(l.kind, l.resource, l.path, i) && ForAttachment(resolver, l, i, sc, src)
  }

  /** From job `l.first` on, the jobs are the attachments of this list, in order. */
  ghost predicate JobsOfList(jobs: seq<Job>, l: ListAt) {
    && l.first + |l.attachments| <= |jobs|
    && forall i: nat | i < |l.attachments| ::
         jobs[l.first + i] == Job(l.namespace, l.attachments[i], Provenance(l.kind, l.resource, l.path, i))
  }

  lemma ListIncluded(resolver: Resolver, jobs: seq<Job>, sels: seq<Selection>, plan: seq<SelectedCheck>, l: ListAt)
    requires IsSelections(resolver, 0, jobs, sels) && Complete(sels, plan) && JobsOfList(jobs, l)
    ensures Included(resolver, l, plan)
  {
    hide EntryOf, Provenance;
    forall i: nat | i < |l.attachments|
      ensures resolver(l.first + i, l.namespace, l.attachments[i]).Resolved?
      ensures AllSelected(resolver(l.first + i, l.namespace, l.attachments[i]).policy,
                          Provenance(l.kind, l.resource, l.path, i), plan)
    {
      var a := sels[l.first + i];
      assert jobs[l.first + i] == Job(l.namespace, l.attachments[i], Provenance(l.kind, l.resource, l.path, i));
      assert Answer(resolver, 0, jobs, l.first + i) == Resolved(a.policy);
      assert a in sels && a == Selection(a.policy, Provenance(l.kind, l.resource, l.path, i));
    }
  }

  lemma SourceFromList(
    resolver: Resolver, jobs: seq<Job>, sels: seq<Selection>, k: nat, sc: SelectedCheck, c: Check, l: ListAt)
    requires IsSelections(resolver, 0, jobs, sels) && JobsOfList(jobs, l)
    requires l.first <= k < l.first + |l.attachments| && c in sels[k].policy.checks && EntryOf(sc, sels[k], c)
    ensures FromList(resolver, l, sc, sels[k].source)
  {
    hide EntryOf, Provenance;
    var i: nat := k - l.first;
    assert jobs[l.first + i] == Job(l.namespace, l.attachments[i], Provenance(l.kind, l.resource, l.path, i));
    assert Answer(resolver, 0, jobs, k) == Resolved(sels[k].policy);
    assert sels[k] == Selection(sels[k].policy, Provenance(l.kind, l.resource, l.path, i));
    assert ForAttachment(resolver, l, i, sc, sels[k].source);
  }

  /** The jobs of a request are the attachments of its five lists, one after the other. */
  lemma JobsAreLists(q: Request, e: ModelEntry)
    requires InputValid(q)
    ensures var jobs := Jobs(q, e);
            && JobsOfList(jobs, TenantList(q)) && JobsOfList(jobs, ConfigList(q))
            && JobsOfList(jobs, SubscriptionList(q)) && JobsOfList(jobs, EntryList(q, e))
            && JobsOfList(jobs, ModelList(q, e))
            && |jobs| == ModelList(q, e).first + |ModelList(q, e).attachments|
  {
    SubscriptionPaths(q);
  }

  /** The five lists follow one another. */
  lemma ListsAdjoin(q: Request, e: ModelEntry)
    requires InputValid(q)
    ensures TenantList(q).first == 0
    ensures ConfigList(q).first == TenantList(q).first + |TenantList(q).attachments|
    ensures SubscriptionList(q).first == ConfigList(q).first + |ConfigList(q).attachments|
    ensures EntryList(q, e).first == SubscriptionList(q).first + |SubscriptionList(q).attachments|
    ensures ModelList(q, e).first == EntryList(q, e).first + |EntryList(q, e).attachments|
  {}

  lemma SubscriptionPaths(q: Request)
    requires q.sub.Some?
    ensures var name := q.sub.value.resource.name;
            && SubscriptionPath(q) + "guardrails" == "MaaSSubscription/" + name + ".spec.guardrails"
            && SubscriptionPath(q) + ("modelRefs[" + q.modelNamespace + "/" + q.modelName + "].guardrails") ==
               "MaaSSubscription/" + name + ".spec.modelRefs[" + q.modelNamespace + "/" + q.modelName + "].guardrails"
  {
    assert ".spec." + "guardrails" == ".spec.guardrails" && ".spec." + "modelRefs[" == ".spec.modelRefs[";
  }

  /** The unique entry occurs once. */
  lemma OneEntry(entries: seq<ModelEntry>, namespace: string, name: string, e: ModelEntry)
    requires UniqueEntry(entries, namespace, name, e)
    ensures e in entries && e.namespace == namespace && e.name == name && multiset(entries)[e] == 1
    ensures forall o | o in entries && o.namespace == namespace && o.name == name :: o == e
  {
    var k :| && 0 <= k < |entries| && entries[k] == e && Matches(e, namespace, name)
             && forall l | 0 <= l < |entries| && Matches(entries[l], namespace, name) :: l == k;
    assert forall l | 0 <= l < |entries| && entries[l] == entries[k] :: Matches(entries[l], namespace, name);
    OccursOnce(entries, k);
  }

  /** Each of the five lists of the request is included. */
  ghost predicate ListsIncluded(q: Request, e: ModelEntry, plan: seq<SelectedCheck>)
    requires InputValid(q)
  {
    var resolver := q.resolver.value;
    && Included(resolver, TenantList(q), plan) && Included(resolver, ConfigList(q), plan)
    && Included(resolver, SubscriptionList(q), plan) && Included(resolver, EntryList(q, e), plan)
    && Included(resolver, ModelList(q, e), plan)
  }

  /** The source of the entry stands for an attachment of one of the five lists. */
  ghost predicate FromFiveLists(q: Request, e: ModelEntry, sc: SelectedCheck, src: Source)
    requires InputValid(q)
  {
    var resolver := q.resolver.value;
    || FromList(resolver, TenantList(q), sc, src) || FromList(resolver, ConfigList(q), sc, src)
    || FromList(resolver, SubscriptionList(q), sc, src) || FromList(resolver, EntryList(q, e), sc, src)
    || FromList(resolver, ModelList(q, e), sc, src)
  }

  lemma AllIncluded(q: Request, e: ModelEntry, sels: seq<Selection>, plan: seq<SelectedCheck>)
    requires InputValid(q) && IsSelections(q.resolver.value, 0, Jobs(q, e), sels) && Complete(sels, plan)
    ensures ListsIncluded(q, e, plan)
  {
    hide Included, JobsOfList, IsSelections, Complete, Jobs;
    hide TenantList, ConfigList, SubscriptionList, EntryList, ModelList;
    var resolver, jobs := q.resolver.value, Jobs(q, e);
    JobsAreLists(q, e);
    ListIncluded(resolver, jobs, sels, plan, TenantList(q));
    ListIncluded(resolver, jobs, sels, plan, ConfigList(q));
    ListIncluded(resolver, jobs, sels, plan, SubscriptionList(q));
    ListIncluded(resolver, jobs, sels, plan, EntryList(q, e));
    ListIncluded(resolver, jobs, sels, plan, ModelList(q, e));
  }

  lemma SourceFromFive(q: Request, e: ModelEntry, sels: seq<Selection>, k: nat, sc: SelectedCheck, c: Check)
    requires InputValid(q) && IsSelections(q.resolver.value, 0, Jobs(q, e), sels)
    requires k < |sels| && c in sels[k].policy.checks && EntryOf(sc, sels[k], c)
    ensures FromFiveLists(q, e, sc, sels[k].source)
  {
    var resolver, jobs := q.resolver.value, Jobs(q, e);
    assert |sels| == |jobs|;
    hide FromList, JobsOfList, IsSelections, Jobs, EntryOf;
    hide TenantList, ConfigList, SubscriptionList, EntryList, ModelList;
    JobsAreLists(q, e);
    ListsAdjoin(q, e);
    var l :=
      if k < ConfigList(q).first then TenantList(q)
      else if k < SubscriptionList(q).first then ConfigList(q)
      else if k < EntryList(q, e).first then SubscriptionList(q)
      else if k < ModelList(q, e).first then EntryList(q, e)
      else ModelList(q, e);
    SourceFromList(resolver, jobs, sels, k, sc, c, l);
  }

  /**
   A composed plan, from the request alone. One entry of the subscription
   matches the model. Each attachment of the five lists is looked up under its
   own call number and resolves; every check of the policy it returned is in the
   plan, with a source that names the scope and the index. Every source in the
   plan is one of these.
   */
  lemma ComposedPlanMeans(q: Request, plan: seq<SelectedCheck>) returns (e: ModelEntry)
    requires ComposeOutcome(q, Composed(plan))
    ensures InputValid(q)
    ensures e in q.sub.value.modelRefs && e.namespace == q.modelNamespace && e.name == q.modelName
    ensures multiset(q.sub.value.modelRefs)[e] == 1
    ensures forall o | o in q.sub.value.modelRefs && o.namespace == q.modelNamespace && o.name == q.modelName :: o == e
    ensures ListsIncluded(q, e, plan)
    ensures forall sc, src | sc in plan && src in sc.sources :: FromFiveLists(q, e, sc, src)
    ensures InOrder(plan)
  {
    hide ComposeOutcome, MergeOutcome, IsSelections, Jobs, ListsIncluded, FromFiveLists, InOrder, UniqueEntry;
    var sels;
    e, sels := ComposedPlanIsUnion(q, plan);
    OneEntry(q.sub.value.modelRefs, q.modelNamespace, q.modelName, e);
    PlanComplete(sels, plan);
    PlanGrounded(sels, plan);
    PlanInOrder(sels, plan);
    AllIncluded(q, e, sels, plan);
    AllFromFive(q, e, sels, plan);
  }

  lemma AllFromFive(q: Request, e: ModelEntry, sels: seq<Selection>, plan: seq<SelectedCheck>)
    requires InputValid(q) && IsSelections(q.resolver.value, 0, Jobs(q, e), sels) && Grounded(sels, plan)
    ensures forall sc, src | sc in plan && src in sc.sources :: FromFiveLists(q, e, sc, src)
  {
    hide IsSelections, EntryOf, FromFiveLists, Jobs;
    forall sc, src | sc in plan && src in sc.sources ensures FromFiveLists(q, e, sc, src) {
      var a, c :| a in sels && c in a.policy.checks && a.source == src && EntryOf(sc, a, c);
      var k :| 0 <= k < |sels| && sels[k] == a;
      SourceFromFive(q, e, sels, k, sc, c);
    }
  }

  /** One of the five lists of a request. */
  ghost predicate OneOfFive(q: Request, e: ModelEntry, l: ListAt)
    requires InputValid(q)
  {
    l == TenantList(q) || l == ConfigList(q) || l == SubscriptionList(q) || l == EntryList(q, e) || l == ModelList(q, e)
  }

  /** Attachment `i` of the list does not resolve. */
  ghost predicate FailsIn(resolver: Resolver, l: ListAt, i: nat) {
    i < |l.attachments| && resolver(l.first + i, l.namespace, l.attachments[i]).Unresolved?
  }

  /** Every attachment of the five lists before call `n` resolves. */
  ghost predicate ResolvesUpTo(q: Request, e: ModelEntry, n: nat)
    requires InputValid(q)
  {
    forall l, i: nat | OneOfFive(q, e, l) && l.first + i < n :: !FailsIn(q.resolver.value, l, i)
  }

  /**
   A failed resolution reports the path and index of an attachment of the five
   lists that does not resolve, and no attachment with a smaller call number fails.
   */
  lemma ResolveFailedMeans(q: Request, path: string) returns (e: ModelEntry, l: ListAt, i: nat)
    requires ComposeOutcome(q, Rejected(ResolveFailed(path)))
    ensures InputValid(q) && e in q.sub.value.modelRefs && e.namespace == q.modelNamespace && e.name == q.modelName
    ensures OneOfFive(q, e, l) && FailsIn(q.resolver.value, l, i) && path == l.path + "[" + Decimal(i) + "]"
    ensures ResolvesUpTo(q, e, l.first + i)
  {
    var k: nat;
    e, k :| && UniqueEntry(q.sub.value.modelRefs, q.modelNamespace, q.modelName, e)
            && FailsAt(q.resolver.value, 0, Jobs(q, e), k) && Jobs(q, e)[k].source.path == path;
    hide ComposeOutcome, UniqueEntry, Jobs, OneOfFive, ResolvesUpTo;
    OneEntry(q.sub.value.modelRefs, q.modelNamespace, q.modelName, e);
    l, i := JobInList(q, e, k);
    EarlierResolve(q, e, k);
  }

  lemma EarlierResolve(q: Request, e: ModelEntry, k: nat)
    requires InputValid(q) && FailsAt(q.resolver.value, 0, Jobs(q, e), k)
    ensures ResolvesUpTo(q, e, k)
  {
    hide Jobs, OneOfFive;
    forall l, i: nat | OneOfFive(q, e, l) && l.first + i < k ensures !FailsIn(q.resolver.value, l, i) {
      if i < |l.attachments| {
        JobOfList(q, e, l, i);
        assert Answer(q.resolver.value, 0, Jobs(q, e), l.first + i).Resolved?;
      }
    }
  }

  lemma JobOfList(q: Request, e: ModelEntry, l: ListAt, i: nat)
    requires InputValid(q) && OneOfFive(q, e, l) && i < |l.attachments|
    ensures l.first + i < |Jobs(q, e)|
    ensures Jobs(q, e)[l.first + i] == Job(l.namespace, l.attachments[i], Provenance(l.kind, l.resource, l.path, i))
  {
    hide Jobs, TenantList, ConfigList, SubscriptionList, EntryList, ModelList, Provenance;
    JobsAreLists(q, e);
    assert JobsOfList(Jobs(q, e), l);
  }

  lemma JobInList(q: Request, e: ModelEntry, k: nat) returns (l: ListAt, i: nat)
    requires InputValid(q) && k < |Jobs(q, e)|
    ensures OneOfFive(q, e, l) && i < |l.attachments| && k == l.first + i
    ensures Jobs(q, e)[k] == Job(l.namespace, l.attachments[i], Provenance(l.kind, l.resource, l.path, i))
  {
    hide Jobs, TenantList, ConfigList, SubscriptionList, EntryList, ModelList;
    JobsAreLists(q, e);
    ListsAdjoin(q, e);
    l := if k < ConfigList(q).first then TenantList(q)
         else if k < SubscriptionList(q).first then ConfigList(q)
         else if k < EntryList(q, e).first then SubscriptionList(q)
         else if k < ModelList(q, e).first then EntryList(q, e)
         else ModelList(q, e);
    i := k - l.first;
    JobOfList(q, e, l, i);
  }

  /**
   A composition refuses its input exactly when a part is missing or the namespaces and
   names do not belong together.
   */
  lemma InputErrorIff(q: Request, r: ComposeResult)
    requires ComposeOutcome(q, r)
    ensures r == Rejected(InvalidCompositionInput) <==>
            || q.sub.None? || q.resolver.None? || q.tenant.None? || q.tenantConfig.None? || q.model.None?
            || q.sub.value.resource.namespace != q.targetNamespace
            || q.tenantConfig.value.namespace != q.targetNamespace
            || q.model.value.namespace != q.modelNamespace || q.model.value.name != q.modelName
  {}

  /**
   The entry of the model is missing exactly when none has its namespace and name, ambiguous
   exactly when two have.
   */
  lemma EntryErrorIff(q: Request, r: ComposeResult)
    requires ComposeOutcome(q, r) && InputValid(q)
    ensures var refs := q.sub.value.modelRefs;
            && (r == Rejected(ModelEntryNotFound) <==>
                  forall k | 0 <= k < |refs| :: refs[k].namespace != q.modelNamespace || refs[k].name != q.modelName)
            && (r == Rejected(ModelEntryAmbiguous) <==>
                  exists k, l ::
                    && 0 <= k < l < |refs|
                    && refs[k].namespace == refs[l].namespace == q.modelNamespace
                    && refs[k].name == refs[l].name == q.modelName)
  {
    hide Jobs, IsSelections, MergedFrom, FailsAt;
    var refs, ns, name := q.sub.value.modelRefs, q.modelNamespace, q.modelName;
    if e :| UniqueEntry(refs, ns, name, e) {
      var k :| && 0 <= k < |refs| && refs[k] == e && Matches(e, ns, name)
               && forall l | 0 <= l < |refs| && Matches(refs[l], ns, name) :: l == k;
      forall k', l | 0 <= k' < l < |refs| ensures !(Matches(refs[k'], ns, name) && Matches(refs[l], ns, name)) {}
    }
    if k, l :| 0 <= k < l < |refs| && Matches(refs[k], ns, name) && Matches(refs[l], ns, name) {
      assert refs[k].namespace == refs[l].namespace == ns && refs[k].name == refs[l].name == name;
    }
  }
}
