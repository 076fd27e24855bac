/**
 The discovery cache at run time (maas-discovery/internal/cache/informer.go):
 informer stores change, event handlers run later, and two worker goroutines
 rebuild the tenant list and the dirty entitlements. Every interleaving of
 these steps is a run of `Next`.

 Each step is one critical section or one store read of the source. The
 informer guarantee used is that a store is updated before the handler of the
 change runs: a change and the note of it enter the state together.
 */
module EntitlementProtocol {
  import opened Entitlements
  import opened Text

  /** The policy event handler: idle, after reading the namespace owners, after marking. */
  datatype Handler = HIdle | HLooked(namespace: string, owners: map<string, string>) | HMarked

  /** The metadata worker. `MDraining` covers the time between receiving a token and reading the store. */
  datatype Meta = MIdle | MDraining | MRead(infos: seq<TenantInfo>) | MPublished | MMarked

  /** The entitlement worker. `WStarting` waits for the first tenant list, as `Start` does. */
  datatype Worker =
    | WStarting
    | WIdle
    | WDraining
    | WTaken(batch: set<string>)
    | WPolicies(batch: set<string>, policies: set<AuthPolicy>)
    | WApply(batch: set<string>, policies: set<AuthPolicy>, owners: map<string, string>)

  datatype State = State(
    policies: set<AuthPolicy>, store: set<TenantObject>, cache: Contents,
    notes: seq<string>, handler: Handler,
    tenantNotes: nat, rebuildToken: bool, meta: Meta,
    entitlementToken: bool, worker: Worker)

  datatype Step =
    | ChangePolicies(namespace: string, policies: set<AuthPolicy>, note: string)
    | ChangeTenants(store: set<TenantObject>)
    | RunTenantHandler
    | LookUp(listing: seq<TenantObject>)
    | Mark
    | TriggerEntitlements
    | MetaReceive
    | MetaSwallow
    | MetaRead(infos: seq<TenantInfo>)
    | MetaPublish
    | MetaMarkAll
    | MetaTrigger
    | WorkerReceive
    | WorkerSwallow
    | WorkerTake
    | WorkerReadPolicies
    | WorkerReadTenants(tenantListing: seq<TenantObject>)
    | WorkerApply(tenant: string)
    | WorkerFinish

  ghost function StoreNames(store: set<TenantObject>): set<string> { set t | t in store :: t.name }

  /** Both store changes come from outside; every other step is the service's own. */
  predicate Internal(step: Step) { !step.ChangePolicies? && !step.ChangeTenants? }

  /**
   A policy change is confined to one namespace; its note is that namespace, or
   empty when the handler cannot tell. A tenant or gateway change leaves a note
   for the metadata handler.
   */
  ghost predicate Enabled(s: State, step: Step) {
    match step
    case ChangePolicies(ns, policies, note) =>
      (note == ns || note == "") && forall p: AuthPolicy | p.namespace != ns :: p in s.policies <==> p in policies
    case ChangeTenants(store) => true
    case RunTenantHandler => s.tenantNotes > 0
    case LookUp(listing) => s.handler.HIdle? && s.notes != [] && IsListing(listing, s.store)
    case Mark => s.handler.HLooked?
    case TriggerEntitlements => s.handler.HMarked?
    case MetaReceive => s.meta.MIdle? && s.rebuildToken
    case MetaSwallow => s.meta.MDraining? && s.rebuildToken
    case MetaRead(infos) => s.meta.MDraining? && Names(infos) == StoreNames(s.store)
    case MetaPublish => s.meta.MRead?
    case MetaMarkAll => s.meta.MPublished?
    case MetaTrigger => s.meta.MMarked?
    case WorkerReceive => s.worker.WIdle? && s.entitlementToken
    case WorkerSwallow => s.worker.WDraining? && s.entitlementToken
    case WorkerTake => s.worker.WDraining?
    case WorkerReadPolicies => s.worker.WTaken?
    case WorkerReadTenants(listing) => s.worker.WPolicies? && IsListing(listing, s.store)
    case WorkerApply(tenant) => s.worker.WApply? && tenant in s.worker.batch
    case WorkerFinish => s.worker.WApply? && s.worker.batch == {}
  }

  ghost function After(s: State, step: Step): State
    requires Enabled(s, step)
  {
    match step
    case ChangePolicies(ns, policies, note) => s.(policies := policies, notes := s.notes + [note])
    case ChangeTenants(store) => s.(store := store, tenantNotes := s.tenantNotes + 1)
    case RunTenantHandler => s.(tenantNotes := s.tenantNotes - 1, rebuildToken := true)
    case LookUp(listing) => s.(notes := s.notes[1..], handler := HLooked(s.notes[0], NamespaceOwners(listing)))
    case Mark => s.(cache := MarkedFor(s.cache, s.handler.namespace, s.handler.owners), handler := HMarked)
    case TriggerEntitlements => s.(entitlementToken := true, handler := HIdle)
    case MetaReceive => s.(rebuildToken := false, meta := MDraining)
    case MetaSwallow => s.(rebuildToken := false)
    case MetaRead(infos) => s.(meta := Meta.MRead(infos))
    case MetaPublish => s.(cache := Published(s.cache, s.meta.infos), meta := MPublished)
    case MetaMarkAll =>
      // At start-up the first rebuild of the entitlements follows without a token.
      if s.worker.WStarting? then s.(cache := MarkedAll(s.cache), meta := MIdle, worker := WDraining)
      else s.(cache := MarkedAll(s.cache), meta := MMarked)
    case MetaTrigger => s.(entitlementToken := true, meta := MIdle)
    case WorkerReceive => s.(entitlementToken := false, worker := WDraining)
    case WorkerSwallow => s.(entitlementToken := false)
    case WorkerTake =>
      s.(cache := s.cache.(dirty := {}), worker := if s.cache.dirty == {} then WIdle else WTaken(s.cache.dirty))
    case WorkerReadPolicies => s.(worker := WPolicies(s.worker.batch, s.policies))
    case WorkerReadTenants(listing) => s.(worker := WApply(s.worker.batch, s.worker.policies, NamespaceOwners(listing)))
    case WorkerApply(tenant) =>
      s.(cache := Applied(s.cache, tenant, Entitlement(tenant, s.worker.policies, s.worker.owners)),
         worker := s.worker.(batch := s.worker.batch - {tenant}))
    case WorkerFinish => s.(worker := WIdle)
  }

  ghost predicate Next(s: State, step: Step, s': State) { Enabled(s, step) && s' == After(s, step) }

  /** `Start` after the initial sync and the draining of both channels: nothing is listed yet. */
  ghost predicate Init(s: State) {
    s.cache.tenants == [] && s.cache.entitlements == map[] && s.meta.MDraining? && s.worker.WStarting?
  }

  // ---------------------------------------------------------------- the invariant

  /** A rebuild of the tenant list, ending in marking every listed tenant, is still to come. */
  ghost predicate MetaPending(s: State) {
    s.tenantNotes > 0 || s.rebuildToken || s.meta.MDraining? || s.meta.MRead? || s.meta.MPublished?
  }

  /** A handler that saw `owners` marks `tenant` for a change in `namespace`. */
  ghost predicate Marks(namespace: string, owners: map<string, string>, tenant: string) {
    || TrimSpace(namespace) == ""
    || Owner(owners, TrimSpace(namespace)) == ""
    || TrimSpace(Owner(owners, TrimSpace(namespace))) == tenant
  }

  ghost predicate Noted(s: State, tenant: string) {
    || (exists i :: 0 <= i < |s.notes| && Marks(s.notes[i], Owners(s.store), tenant))
    || (s.handler.HLooked? && Marks(s.handler.namespace, s.handler.owners, tenant))
  }

  ghost function Batch(w: Worker): set<string> {
    if w.WTaken? || w.WPolicies? || w.WApply? then w.batch else {}
  }

  ghost function Wanted(s: State, tenant: string): Grants { Entitlement(tenant, s.policies, Owners(s.store)) }

  /** What the running batch will store for a tenant, given the reads it has made so far. */
  ghost function Upcoming(s: State, tenant: string): Grants {
    match s.worker
    case WPolicies(_, policies) => Entitlement(tenant, policies, Owners(s.store))
    case WApply(_, policies, owners) => Entitlement(tenant, policies, owners)
    case _ => Wanted(s, tenant)
  }

  ghost predicate Settled(s: State, tenant: string) {
    || tenant in s.cache.dirty
    || Noted(s, tenant)
    || (if tenant in Batch(s.worker) then Upcoming(s, tenant) == Wanted(s, tenant)
        else Lookup(s.cache.entitlements, tenant) == Wanted(s, tenant))
  }

  /** Each listed tenant is up to date, or something still on its way will bring it up to date. */
  ghost predicate EntitlementsTracked(s: State) {
    !MetaPending(s) ==> forall t | t in Names(s.cache.tenants) && t != "" :: Settled(s, t)
  }

  /** The published tenant list names the tenants of the store, or a re-read is pending. */
  ghost predicate TenantsTracked(s: State) {
    || s.tenantNotes > 0 || s.rebuildToken || s.meta.MDraining?
    || (if s.meta.MRead? then Names(s.meta.infos) else Names(s.cache.tenants)) == StoreNames(s.store)
  }

  /** Dirty tenants are never forgotten: the worker is awake, has a token, or is about to get one. */
  ghost predicate WakeupPending(s: State) {
    s.cache.dirty != {} ==>
      s.entitlementToken || s.worker.WStarting? || s.worker.WDraining? || s.handler.HMarked? || s.meta.MMarked?
  }

  ghost predicate Booting(s: State) {
    s.worker.WStarting? ==> s.meta.MDraining? || s.meta.MRead? || s.meta.MPublished?
  }

  /** What holds whatever the tenants claim. */
  ghost predicate Awake(s: State) { TenantsTracked(s) && WakeupPending(s) && Booting(s) }

  ghost predicate Inv(s: State) { Awake(s) && (NoClash(s.store) ==> EntitlementsTracked(s)) }

  lemma InitInv(s: State)
    requires Init(s)
    ensures Inv(s)
  {
  }

  /** A change to the policies of a namespace matters to its owner only, and the note of it marks that owner. */
  lemma PolicyChangeSettled(s: State, step: Step, tenant: string)
    requires Enabled(s, step) && step.ChangePolicies? && tenant != "" && Settled(s, tenant)
    ensures Settled(After(s, step), tenant)
  {
    var s' := After(s, step);
    var owners := Owners(s.store);
    assert forall i | 0 <= i < |s.notes| :: s'.notes[i] == s.notes[i];
    if Owner(owners, step.namespace) == tenant {
      OwnersTrimmed(ListingOf(s.store), step.namespace);
      assert Marks(s'.notes[|s.notes|], owners, tenant);
    } else {
      EntitlementFrame(tenant, s.policies, step.policies, owners);
    }
  }

  lemma LookUpSettled(s: State, step: Step, tenant: string)
    requires Enabled(s, step) && step.LookUp? && NoClash(s.store) && Settled(s, tenant)
    ensures Settled(After(s, step), tenant)
  {
    hide Entitlement, NamespaceOwners, Marks;
    var s' := After(s, step);
    OwnersAgree(s.store, step.listing, ListingOf(s.store));
    if i :| 0 <= i < |s.notes| && Marks(s.notes[i], Owners(s.store), tenant) {
      if i > 0 { assert s'.notes[i - 1] == s.notes[i]; }
    }
  }

  lemma MarkSettled(s: State, step: Step, tenant: string)
    requires Enabled(s, step) && step.Mark? && tenant != "" && tenant in Names(s.cache.tenants) && Settled(s, tenant)
    ensures Settled(After(s, step), tenant)
  {
    hide Entitlement, NamespaceOwners, TrimSpace;
    if Marks(s.handler.namespace, s.handler.owners, tenant) {
      assert tenant in After(s, step).cache.dirty;
    }
  }

  lemma WorkerSettled(s: State, step: Step, tenant: string)
    requires Enabled(s, step) && Settled(s, tenant) && NoClash(s.store)
    requires step.WorkerTake? || step.WorkerReadPolicies? || step.WorkerReadTenants? || step.WorkerApply? ||
             step.WorkerFinish?
    ensures Settled(After(s, step), tenant)
  {
    hide Entitlement, NamespaceOwners, Marks;
    if step.WorkerReadTenants? { OwnersAgree(s.store, step.tenantListing, ListingOf(s.store)); }
    if step.WorkerApply? {
      LookupApplied(s.cache, step.tenant, Entitlement(step.tenant, s.worker.policies, s.worker.owners));
    }
    assert Noted(After(s, step), tenant) == Noted(s, tenant);
  }

  /** A store change leaves a rebuild pending; every other step keeps what it finds settled. */
  lemma EntitlementsStep(s: State, step: Step)
    requires Inv(s) && Enabled(s, step) && NoClash(After(s, step).store)
    ensures EntitlementsTracked(After(s, step))
  {
    hide Entitlement, NamespaceOwners, Marks;
    var s' := After(s, step);
    if !MetaPending(s') {
      forall t | t in Names(s'.cache.tenants) && t != "" ensures Settled(s', t) {
        if step.MetaMarkAll? {
          assert t in s'.cache.dirty;
        } else if step.ChangePolicies? {
          PolicyChangeSettled(s, step, t);
        } else if step.LookUp? {
          LookUpSettled(s, step, t);
        } else if step.Mark? {
          MarkSettled(s, step, t);
        } else if step.WorkerTake? || step.WorkerReadPolicies? || step.WorkerReadTenants? || step.WorkerApply? ||
          step.WorkerFinish? {
          WorkerSettled(s, step, t);
        } else {
          assert Noted(s', t) == Noted(s, t);
        }
      }
    }
  }

  lemma MarkedKeepsTenants(c: Contents, namespace: string, owners: map<string, string>)
    ensures MarkedFor(c, namespace, owners).tenants == c.tenants
  {}

  lemma MarkedAllKeepsTenants(c: Contents)
    ensures MarkedAll(c).tenants == c.tenants
  {}

  /** No step loses a wake-up or the way to the current tenant list, whatever the tenants claim. */
  lemma StepKeepsAwake(s: State, step: Step)
    requires Awake(s) && Enabled(s, step)
    ensures Awake(After(s, step))
  {
    hide Entitlement, NamespaceOwners, IsListing, Owner, TrimSpace, Marked, MarkedAll, MarkedFor, Applied;
    if step.Mark? { MarkedKeepsTenants(s.cache, s.handler.namespace, s.handler.owners); }
    if step.WorkerApply? {
      AppliedAlone(s.cache, step.tenant, Entitlement(step.tenant, s.worker.policies, s.worker.owners));
    }
    MarkedAllKeepsTenants(s.cache);
  }

  /** Every step, internal or external, keeps the invariant. */
  lemma StepKeepsInv(s: State, step: Step)
    requires Inv(s) && Enabled(s, step)
    ensures Inv(After(s, step))
  {
    StepKeepsAwake(s, step);
    if NoClash(After(s, step).store) { EntitlementsStep(s, step); }
  }

  // ---------------------------------------------------------------- runs

  ghost predicate Path(states: seq<State>, steps: seq<Step>) {
    && |states| == |steps| + 1
    && forall i | 0 <= i < |steps| :: Next(states[i], steps[i], states[i + 1])
  }

  ghost predicate IsRun(states: seq<State>, steps: seq<Step>) { Path(states, steps) && Init(states[0]) }

  /** In every interleaving from start-up, the invariant holds of every state reached. */
  lemma {:induction false} RunsKeepInv(states: seq<State>, steps: seq<Step>, n: nat)
    requires IsRun(states, steps) && n < |states|
    ensures Inv(states[n])
  {
    hide Inv, Enabled, After;
    if n == 0 {
      InitInv(states[0]);
    } else {
      RunsKeepInv(states, steps, n - 1);
      assert Next(states[n - 1], steps[n - 1], states[n]);
      StepKeepsInv(states[n - 1], steps[n - 1]);
    }
  }

  ghost predicate Quiescent(s: State) {
    && s.notes == [] && s.handler.HIdle? && s.tenantNotes == 0 && !s.rebuildToken && s.meta.MIdle?
    && !s.entitlementToken && s.worker.WIdle?
  }

  /** The answer computed from the stores alone, with no cache. */
  ghost function AnswerFromStores(tenants: seq<TenantInfo>, s: State, callers: seq<string>): seq<TenantInfo> {
    if tenants == [] then []
    else
      var t := tenants[|tenants| - 1];
      var rest := AnswerFromStores(tenants[..|tenants| - 1], s, callers);
      if HasAccess(Wanted(s, t.name), callers) then rest + [t] else rest
  }

  /** The cache agrees with a full recomputation from the stores. */
  ghost predicate Converged(s: State) {
    && s.cache.dirty == {}
    && Names(s.cache.tenants) == StoreNames(s.store)
    && forall t | t in Names(s.cache.tenants) && t != "" :: Lookup(s.cache.entitlements, t) == Wanted(s, t)
  }

  /**
   When nothing is left to do, nothing is dirty, the tenant list is current, and without a
   clash the cache is converged.
   */
  lemma QuiescentConverged(s: State)
    requires Inv(s) && Quiescent(s)
    ensures s.cache.dirty == {} && Names(s.cache.tenants) == StoreNames(s.store)
    ensures NoClash(s.store) ==> Converged(s)
  {
    hide Entitlement, NamespaceOwners, Marks;
    if NoClash(s.store) {
      forall t | t in Names(s.cache.tenants) && t != "" ensures Lookup(s.cache.entitlements, t) == Wanted(s, t) {
        assert Settled(s, t);
      }
    }
  }

  /** A converged cache answers every caller as the stores themselves would. */
  lemma {:induction false} ConvergedAnswers(s: State, tenants: seq<TenantInfo>, callers: seq<string>)
    requires Converged(s) && "" !in StoreNames(s.store) && Names(tenants) <= Names(s.cache.tenants)
    ensures NaiveScan(tenants, s.cache.entitlements, callers) == AnswerFromStores(tenants, s, callers)
  {
    hide Entitlement;
    if tenants != [] {
      var t := tenants[|tenants| - 1];
      assert t.name in Names(tenants);
      assert forall i | 0 <= i < |tenants| - 1 :: tenants[..|tenants| - 1][i] == tenants[i];
      ConvergedAnswers(s, tenants[..|tenants| - 1], callers);
      assert Lookup(s.cache.entitlements, t.name) == Wanted(s, t.name);
    }
  }

  // ---------------------------------------------------------------- progress

  function MetaWork(s: State): nat {
    s.tenantNotes * 8 + (if s.rebuildToken then 7 else 0) +
    match s.meta
    case MDraining => 5
    case MRead(_) => 4
    case MPublished => 3
    case MMarked => 1
    case MIdle => 0
  }

  function HandlerWork(s: State): nat {
    |s.notes| * 4 + (if s.handler.HLooked? then 3 else if s.handler.HMarked? then 1 else 0)
  }

  function WakeWork(s: State): nat {
    (if s.entitlementToken then 2 else 0) + (if s.worker.WDraining? then 1 else 0)
  }

  function BatchWork(s: State): nat {
    match s.worker
    case WTaken(b) => |b| + 3
    case WPolicies(b, _) => |b| + 2
    case WApply(b, _, _) => |b| + 1
    case _ => 0
  }

  ghost predicate Closer(s': State, s: State) {
    || MetaWork(s') < MetaWork(s)
    || (MetaWork(s') == MetaWork(s) && HandlerWork(s') < HandlerWork(s))
    || (MetaWork(s') == MetaWork(s) && HandlerWork(s') == HandlerWork(s) && WakeWork(s') < WakeWork(s))
    || (MetaWork(s') == MetaWork(s) && HandlerWork(s') == HandlerWork(s) && WakeWork(s') == WakeWork(s) &&
           BatchWork(s') < BatchWork(s))
  }

  predicate MetaStep(step: Step) {
    || step.RunTenantHandler? || step.MetaReceive? || step.MetaSwallow? || step.MetaRead? || step.MetaPublish?
    || step.MetaMarkAll? || step.MetaTrigger?
  }

  predicate HandlerStep(step: Step) { step.LookUp? || step.Mark? || step.TriggerEntitlements? }

  lemma MetaStepCloser(s: State, step: Step)
    requires Enabled(s, step) && MetaStep(step)
    ensures MetaWork(After(s, step)) < MetaWork(s)
  {
    hide MarkedAll, StoreNames, Names;
  }

  lemma HandlerStepCloser(s: State, step: Step)
    requires Enabled(s, step) && HandlerStep(step)
    ensures MetaWork(After(s, step)) == MetaWork(s) && HandlerWork(After(s, step)) < HandlerWork(s)
  {
    hide MarkedFor, NamespaceOwners, IsListing;
  }

  lemma WorkerStepCloser(s: State, step: Step)
    requires Enabled(s, step) && Internal(step) && !MetaStep(step) && !HandlerStep(step)
    ensures MetaWork(After(s, step)) == MetaWork(s) && HandlerWork(After(s, step)) == HandlerWork(s)
    ensures || WakeWork(After(s, step)) < WakeWork(s)
            || (WakeWork(After(s, step)) == WakeWork(s) && BatchWork(After(s, step)) < BatchWork(s))
  {
    hide Entitlement, NamespaceOwners, IsListing, Applied;
    if step.WorkerApply? { assert |s.worker.batch - {step.tenant}| < |s.worker.batch|; }
  }

  /** The service cannot stay busy on its own: every internal step uses up work. */
  lemma InternalStepsTerminate(s: State, step: Step)
    requires Enabled(s, step) && Internal(step)
    ensures Closer(After(s, step), s) && After(s, step).policies == s.policies && After(s, step).store == s.store
  {
    hide MetaWork, HandlerWork, WakeWork, BatchWork, Entitlement, NamespaceOwners, MarkedFor, MarkedAll, Applied;
    if MetaStep(step) {
      MetaStepCloser(s, step);
    } else if HandlerStep(step) {
      HandlerStepCloser(s, step);
    } else {
      WorkerStepCloser(s, step);
    }
  }

  /** The service is never stuck: unless it is quiescent, some internal step can run. */
  lemma NeverStuck(s: State) returns (step: Step)
    requires Inv(s) && !Quiescent(s)
    ensures Internal(step) && Enabled(s, step)
  {
    if s.tenantNotes > 0 { step := RunTenantHandler; return; }
    match s.meta {
      case MDraining =>
        var l := ListingOf(s.store);
        var infos := seq(|l|, i requires 0 <= i < |l| => TenantInfo(l[i].name, ""));
        ListedNames(s.store, l, infos);
        step := MetaRead(infos);
      case MRead(_) => step := MetaPublish;
      case MPublished => step := MetaMarkAll;
      case MMarked => step := MetaTrigger;
      case MIdle =>
        if s.rebuildToken { step := MetaReceive; return; }
        step := HandlerOrWorkerStep(s);
    }
  }

  lemma HandlerOrWorkerStep(s: State) returns (step: Step)
    requires Inv(s) && !Quiescent(s) && s.tenantNotes == 0 && !s.rebuildToken && s.meta.MIdle?
    ensures Internal(step) && Enabled(s, step)
  {
    match s.handler {
      case HLooked(_, _) => step := Mark;
      case HMarked => step := TriggerEntitlements;
      case HIdle =>
        if s.notes != [] { step := LookUp(ListingOf(s.store)); return; }
        match s.worker {
          case WStarting => assert false;
          case WIdle => step := WorkerReceive;
          case WDraining => step := WorkerTake;
          case WTaken(_) => step := WorkerReadPolicies;
          case WPolicies(_, _) => step := WorkerReadTenants(ListingOf(s.store));
          case WApply(batch, _, _) =>
            if t :| t in batch { step := WorkerApply(t); } else { step := WorkerFinish; }
        }
    }
  }

  lemma ListedNames(store: set<TenantObject>, l: seq<TenantObject>, infos: seq<TenantInfo>)
    requires IsListing(l, store) && |infos| == |l|
    requires forall i | 0 <= i < |l| :: infos[i].name == l[i].name
    ensures Names(infos) == StoreNames(store)
  {
    forall t | t in store ensures t.name in Names(infos) {
      assert t in l;
      var i :| 0 <= i < |l| && l[i] == t;
      assert infos[i].name == t.name;
    }
    forall i | 0 <= i < |l| ensures infos[i].name in StoreNames(store) { assert l[i] in store; }
  }

  /**
   Convergence: from every state of every run, once the stores stop changing,
   the service's own steps lead to a quiescent state; when no two tenants then
   claim one namespace, its cache agrees with a full recomputation from the stores.
   */
  lemma {:induction false} Converges(s: State) returns (states: seq<State>, steps: seq<Step>)
    requires Inv(s)
    ensures Path(states, steps) && states[0] == s
    ensures forall i | 0 <= i < |steps| :: Internal(steps[i])
    ensures var last := states[|states| - 1];
            && Quiescent(last) && last.policies == s.policies && last.store == s.store
            && (NoClash(s.store) ==> Converged(last))
    decreases MetaWork(s), HandlerWork(s), WakeWork(s), BatchWork(s)
  {
    hide Inv, Enabled, After, Converged, NoClash;
    if Quiescent(s) {
      QuiescentConverged(s);
      states, steps := [s], [];
    } else {
      var step := NeverStuck(s);
      InternalStepsTerminate(s, step);
      StepKeepsInv(s, step);
      var s' := After(s, step);
      var states', steps' := Converges(s');
      states, steps := [s] + states', [step] + steps';
      forall i | 0 <= i < |steps| ensures Next(states[i], steps[i], states[i + 1]) {
        if i > 0 { assert Next(states'[i - 1], steps'[i - 1], states'[i]); }
      }
    }
  }

  // ---------------------------------------------------------------- reachability

  ghost predicate Reaches(first: State, last: State) {
    exists states, steps :: Path(states, steps) && states[0] == first && states[|steps|] == last
  }

  lemma ReachesItself(s: State)
    ensures Reaches(s, s)
  {
    var states, steps: seq<Step> := [s], [];
    assert Path(states, steps) && states[0] == s && states[|steps|] == s;
  }

  lemma ReachesNext(first: State, s: State, step: Step)
    requires Reaches(first, s) && Enabled(s, step)
    ensures Reaches(first, After(s, step))
  {
    hide Enabled, After;
    var states, steps :| Path(states, steps) && states[0] == first && states[|steps|] == s;
    var states', steps' := states + [After(s, step)], steps + [step];
    forall i | 0 <= i < |steps'| ensures Next(states'[i], steps'[i], states'[i + 1]) {
      if i < |steps| { assert Next(states[i], steps[i], states[i + 1]); }
    }
    assert Path(states', steps') && states'[0] == first && states'[|steps'|] == After(s, step);
  }

  /** Takes one step from a state already reached. */
  lemma Go(first: State, s: State, step: Step) returns (s': State)
    requires Reaches(first, s) && Enabled(s, step)
    ensures Reaches(first, s') && s' == After(s, step)
  {
    ReachesNext(first, s, step);
    s' := After(s, step);
  }

  /** Every state that start-up can lead to satisfies the invariant. */
  lemma ReachableInv(first: State, s: State)
    requires Init(first) && Reaches(first, s)
    ensures Inv(s)
  {
    hide Inv, Init;
    var states, steps :| Path(states, steps) && states[0] == first && states[|steps|] == s;
    RunsKeepInv(states, steps, |steps|);
  }

  // ---------------------------------------------------------------- two tenants on one namespace

  /** A state with nothing pending, as a function of the stores and the cache. */
  ghost function AtRest(policies: set<AuthPolicy>, store: set<TenantObject>, cache: Contents): State {
    State(policies, store, cache, [], HIdle, 0, false, MIdle, false, WIdle)
  }

  lemma AppliedAlone(c: Contents, tenant: string, e: Grants)
    ensures Applied(c, tenant, e) == c.(entitlements := Applied(c, tenant, e).entitlements)
    ensures forall t ::
            Lookup(Applied(c, tenant, e).entitlements, t) == if t == tenant then e else Lookup(c.entitlements, t)
  {
    LookupApplied(c, tenant, e);
  }

  /** `after` holds recomputed entitlements for the tenants of `batch` and those of `before` for all others. */
  ghost predicate Recomputed(
    before: Contents, after: Contents, batch: set<string>, policies: set<AuthPolicy>, owners: map<string, string>)
  {
    && after.tenants == before.tenants
    && forall t ::
         Lookup(after.entitlements, t) ==
         if t in batch then Entitlement(t, policies, owners) else Lookup(before.entitlements, t)
  }

  /** Recomputing one tenant and then the rest of the batch recomputes the batch. */
  lemma RecomputedAfterOne(
    before: Contents, after: Contents, tenant: string, batch: set<string>, policies: set<AuthPolicy>,
    owners: map<string, string>)
    requires tenant in batch
    requires Recomputed(Applied(before, tenant, Entitlement(tenant, policies, owners)), after, batch - {tenant},
               policies, owners)
    ensures Recomputed(before, after, batch, policies, owners)
  {
    hide Entitlement, Applied, Lookup;
    AppliedAlone(before, tenant, Entitlement(tenant, policies, owners));
  }

  /** The rest of a batch that has made its reads: every tenant left in it gets its entitlement. */
  lemma {:induction false} FinishBatch(first: State, s: State) returns (last: State)
    requires Reaches(first, s) && s.worker.WApply?
    ensures Reaches(first, last) &&
            last == s.(worker := WIdle, cache := s.cache.(entitlements := last.cache.entitlements))
    ensures Recomputed(s.cache, last.cache, s.worker.batch, s.worker.policies, s.worker.owners)
    decreases |s.worker.batch|
  {
    hide Entitlement, Reaches, Applied;
    if t :| t in s.worker.batch {
      var w := s.worker;
      var s' := Go(first, s, WorkerApply(t));
      assert |w.batch - {t}| < |w.batch|;
      AppliedAlone(s.cache, t, Entitlement(t, w.policies, w.owners));
      last := FinishBatch(first, s');
      hide Recomputed;
      RecomputedAfterOne(s.cache, last.cache, t, w.batch, w.policies, w.owners);
    } else {
      last := Go(first, s, WorkerFinish);
    }
  }

  /** A whole batch with nothing interleaved, from the drained channel to the end. */
  lemma WholeBatch(first: State, s: State, listing: seq<TenantObject>) returns (last: State)
    requires Reaches(first, s) && s.worker.WDraining? && s.cache.dirty != {} && IsListing(listing, s.store)
    ensures Reaches(first, last) &&
            last == s.(worker := WIdle, cache := Contents(s.cache.tenants, last.cache.entitlements, {}))
    ensures Recomputed(s.cache, last.cache, s.cache.dirty, s.policies, NamespaceOwners(listing))
  {
    hide Entitlement, NamespaceOwners, IsListing, Reaches;
    last := Go(first, s, WorkerTake);
    last := Go(first, last, WorkerReadPolicies);
    last := Go(first, last, WorkerReadTenants(listing));
    last := FinishBatch(first, last);
  }

  /** Start-up over a store, with every entitlement computed from one listing. */
  lemma Boot(
    policies: set<AuthPolicy>, store: set<TenantObject>, listing: seq<TenantObject>)
    returns (first: State, last: State)
    requires store != {} && IsListing(listing, store)
    ensures Init(first) && Reaches(first, last)
    ensures last == AtRest(policies, store, last.cache) && last.cache.dirty == {}
    ensures Names(last.cache.tenants) == StoreNames(store)
    ensures forall t | t in StoreNames(store) ::
              Lookup(last.cache.entitlements, t) == Entitlement(t, policies, NamespaceOwners(listing))
  {
    hide Entitlement, NamespaceOwners, IsListing, Reaches;
    var infos := seq(|listing|, i requires 0 <= i < |listing| => TenantInfo(listing[i].name, ""));
    ListedNames(store, listing, infos);
    first := State(policies, store, Contents([], map[], {}), [], HIdle, 0, false, MDraining, false, WStarting);
    ReachesItself(first);
    last := Go(first, first, Step.MetaRead(infos));
    last := Go(first, last, MetaPublish);
    last := Go(first, last, MetaMarkAll);
    assert last.cache.dirty == StoreNames(store);
    var t :| t in store;
    assert t.name in StoreNames(store);
    last := WholeBatch(first, last, listing);
  }

  /**
   One policy event at rest, looked up in a listing in which `tenant` owns the namespace:
   only `tenant` is recomputed.
   */
  lemma OnePolicyEvent(
    first: State, s: State, policies: set<AuthPolicy>, ns: string, tenant: string, listing: seq<TenantObject>)
    returns (last: State)
    requires Reaches(first, s) && s == AtRest(s.policies, s.store, s.cache) && s.cache.dirty == {}
    requires IsListing(listing, s.store) &&
             MarkedFor(s.cache, ns, NamespaceOwners(listing)) == s.cache.(dirty := {tenant})
    requires forall p: AuthPolicy | p.namespace != ns :: p in s.policies <==> p in policies
    ensures Reaches(first, last) && last == AtRest(policies, s.store, last.cache)
    ensures Recomputed(s.cache, last.cache, {tenant}, policies, NamespaceOwners(listing))
  {
    hide Entitlement, NamespaceOwners, IsListing, MarkedFor, Reaches;
    last := Go(first, s, ChangePolicies(ns, policies, ns));
    last := Go(first, last, LookUp(listing));
    last := Go(first, last, Mark);
    last := Go(first, last, TriggerEntitlements);
    last := Go(first, last, WorkerReceive);
    last := WholeBatch(first, last, listing);
  }

  lemma NoPolicyNoGrant(tenant: string)
    ensures forall owners :: Entitlement(tenant, {}, owners) == map[]
  {
  }

  /** A policy of a namespace that grants something to whoever owns it. */
  function GrantingPolicy(ns: string): AuthPolicy { AuthPolicy(ns, "p", false, [ModelRef("m", "x")], ["u"], []) }

  lemma GrantsOwner(ns: string, owners: map<string, string>)
    ensures Entitlement(Owner(owners, ns), {GrantingPolicy(ns)}, owners) != map[]
  {
    var p, tenant := GrantingPolicy(ns), Owner(owners, ns);
    assert TrimSpace("m") == "m" && TrimSpace("x") == "x" && TrimSpace("u") == "u";
    var r := p.modelRefs[0];
    assert TrimSpace(r.namespace) + "/" + TrimSpace(r.name) in ModelRefKeys(p.modelRefs);
    assert UserKeys(p)[0] == "u:u";
    assert "u:u" in Subjects(p) && Applies(p, tenant, owners);
    assert "u:u" in GrantedSubjects(tenant, {p}, owners);
    assert "u:u" in Entitlement(tenant, {p}, owners);
  }

  /** Tenant names as the cluster admits them: not empty, without surrounding space. */
  ghost predicate ProperNames(store: set<TenantObject>) {
    forall t | t in store :: t.name != "" && TrimSpace(t.name) == t.name
  }

  /** The cached entitlements are those of one recomputation, over some listing of the tenants. */
  ghost predicate Fresh(s: State) {
    exists listing :: IsListing(listing, s.store) && FreshBy(s, NamespaceOwners(listing))
  }

  ghost predicate FreshBy(s: State, owners: map<string, string>) {
    forall t | t in Names(s.cache.tenants) :: Lookup(s.cache.entitlements, t) == Entitlement(t, s.policies, owners)
  }

  /** Every run that comes to rest over this store rests with fresh entitlements. */
  ghost predicate AlwaysFresh(store: set<TenantObject>) {
    forall first, last | Init(first) && Reaches(first, last) && last.store == store && Quiescent(last) :: Fresh(last)
  }

  /**
   Two tenants claim one namespace, whatever else the store holds. Start-up
   reads a listing in which the first owns it. Its policy is then deleted; the
   handler reads a listing in which the second owns it, so only the second is
   recomputed, and the service comes to rest with a grant left to the first
   although no policy exists.
   */
  lemma ClashLeavesStaleGrant(store: set<TenantObject>, a: TenantObject, b: TenantObject, ns: string)
    returns (first: State, last: State)
    requires ProperNames(store) && a in store && b in store && a.name != b.name && Claims(a, ns) && Claims(b, ns)
    ensures Init(first) && Reaches(first, last) && Quiescent(last) && last.store == store && last.policies == {}
    ensures a.name in Names(last.cache.tenants) && Lookup(last.cache.entitlements, a.name) != map[]
    ensures forall owners :: Entitlement(a.name, last.policies, owners) == map[]
  {
    var early, late := ClashingListings(store, a, b, ns);
    first, last := GrantedThenDeleted(store, a.name, b.name, ns, early, late);
    NoPolicyNoGrant(a.name);
  }

  lemma GrantedThenDeleted(
    store: set<TenantObject>, a: string, b: string, ns: string, early: seq<TenantObject>, late: seq<TenantObject>)
    returns (first: State, last: State)
    requires a in StoreNames(store) && a != b && TrimSpace(b) == b != "" && TrimSpace(ns) == ns != ""
    requires IsListing(early, store) && Owner(NamespaceOwners(early), ns) == a
    requires IsListing(late, store) && Owner(NamespaceOwners(late), ns) == b
    ensures Init(first) && Reaches(first, last) && Quiescent(last) && last.store == store && last.policies == {}
    ensures a in Names(last.cache.tenants) && Lookup(last.cache.entitlements, a) != map[]
  {
    hide Entitlement, NamespaceOwners, IsListing, TrimSpace, MarkedFor, Owner, Init, Reaches, Names;
    var p := GrantingPolicy(ns);
    first, last := Boot({p}, store, early);
    GrantsOwner(ns, NamespaceOwners(early));
    MarksOwner(last.cache, ns, NamespaceOwners(late));
    last := OnePolicyEvent(first, last, {}, ns, b, late);
  }

  lemma MarksOwner(c: Contents, ns: string, owners: map<string, string>)
    requires c.dirty == {} && TrimSpace(ns) == ns != "" && TrimSpace(Owner(owners, ns)) == Owner(owners, ns) != ""
    ensures MarkedFor(c, ns, owners) == c.(dirty := {Owner(owners, ns)})
  {}

  lemma ClashingListings(store: set<TenantObject>, a: TenantObject, b: TenantObject, ns: string)
    returns (early: seq<TenantObject>, late: seq<TenantObject>)
    requires ProperNames(store) && a in store && b in store && a.name != b.name && Claims(a, ns) && Claims(b, ns)
    ensures IsListing(early, store) && Owner(NamespaceOwners(early), ns) == a.name
    ensures IsListing(late, store) && Owner(NamespaceOwners(late), ns) == b.name
    ensures TrimSpace(ns) == ns != "" && TrimSpace(b.name) == b.name
  {
    var rest := ListingOf(store - {a, b});
    early, late := rest + [b] + [a], rest + [a] + [b];
    assert early == rest + [b, a] && late == rest + [a, b];
    ListingWith(store, rest, b, a);
    ListingWith(store, rest, a, b);
    LastClaimWins(rest + [b], a, ns);
    LastClaimWins(rest + [a], b, ns);
    TrimSpaceTrims(a.statusNamespace);
  }

  /**
   The exact condition for convergence: every run that comes to rest over a
   store does so with fresh entitlements if and only if no two of its tenants
   claim one namespace.
   */
  lemma FreshIff(store: set<TenantObject>)
    requires ProperNames(store)
    ensures AlwaysFresh(store) <==> NoClash(store)
  {
    hide Init, Reaches, Quiescent, Entitlement;
    if NoClash(store) {
      forall first, last | Init(first) && Reaches(first, last) && last.store == store && Quiescent(last)
        ensures Fresh(last)
      {
        ReachableInv(first, last);
        RestIsFresh(last);
      }
    } else {
      var a, b, ns :| a in store && b in store && Claims(a, ns) && Claims(b, ns) &&
        TrimSpace(a.name) != TrimSpace(b.name);
      var first, last := ClashLeavesStaleGrant(store, a, b, ns);
      assert forall owners :: !FreshBy(last, owners);
      assert !Fresh(last);
    }
  }

  lemma RestIsFresh(s: State)
    requires Inv(s) && Quiescent(s) && NoClash(s.store) && ProperNames(s.store)
    ensures Fresh(s)
  {
    QuiescentConverged(s);
    var listing := ListingOf(s.store);
    assert IsListing(listing, s.store) && FreshBy(s, NamespaceOwners(listing));
  }
}
