/**
 The discovery service's entitlement cache as a data structure
 (maas-discovery/internal/cache/informer.go): computing one tenant's
 entitlement from the policies, and keeping the inverted index from subjects
 to tenants while entitlements are replaced one tenant at a time.
 */
module Entitlements {
  import opened Text

  const DEFAULT_TENANT_NAMESPACE := "models-as-a-service"

  datatype ModelRef = ModelRef(namespace: string, name: string)

  datatype AuthPolicy = AuthPolicy(
    namespace: string, name: string, deleting: bool,
    modelRefs: seq<ModelRef>, users: seq<string>, groups: seq<string>)

  /** An AITenant object: its name and the raw `status.tenantNamespace`. */
  datatype TenantObject = TenantObject(name: string, statusNamespace: string)

  datatype TenantInfo = TenantInfo(name: string, gateway: string)

  /** What the policies grant: subject key to the model references granted to it. */
  type Grants = map<string, set<string>>

  function UserSubjectKey(user: string): string {
    var u := TrimSpace(user);
    if u == "" then "" else "u:" + u
  }

  function GroupSubjectKey(group: string): string {
    var g := TrimSpace(group);
    if g == "" then "" else "g:" + g
  }

  function ModelRefKeys(refs: seq<ModelRef>): set<string> {
    set i | 0 <= i < |refs| && TrimSpace(refs[i].name) != "" && TrimSpace(refs[i].namespace) != "" ::
      TrimSpace(refs[i].namespace) + "/" + TrimSpace(refs[i].name)
  }

  // ---------------------------------------------------------------- entitlement of one tenant

  function Owner(owners: map<string, string>, namespace: string): string {
    if namespace in owners then owners[namespace] else ""
  }

  function UserKeys(p: AuthPolicy): seq<string> {
    seq(|p.users|, k requires 0 <= k < |p.users| => UserSubjectKey(p.users[k]))
  }

  function GroupKeys(p: AuthPolicy): seq<string> {
    seq(|p.groups|, k requires 0 <= k < |p.groups| => GroupSubjectKey(p.groups[k]))
  }

  ghost function KeySet(keys: seq<string>): set<string> { set k | k in keys && k != "" }

  ghost function Subjects(p: AuthPolicy): set<string> { KeySet(UserKeys(p)) + KeySet(GroupKeys(p)) }

  ghost function PolicySet(policies: seq<AuthPolicy>): set<AuthPolicy> { set p | p in policies }

  predicate Applies(p: AuthPolicy, tenant: string, owners: map<string, string>) {
    !p.deleting && Owner(owners, p.namespace) == tenant && ModelRefKeys(p.modelRefs) != {}
  }

  ghost function GrantedSubjects(tenant: string, ps: set<AuthPolicy>, owners: map<string, string>): set<string> {
    set p, s | p in ps && Applies(p, tenant, owners) && s in Subjects(p) :: s
  }

  ghost function GrantedModels(
    tenant: string, ps: set<AuthPolicy>, owners: map<string, string>, s: string): set<string>
  {
    set p, m | p in ps && Applies(p, tenant, owners) && s in Subjects(p) && m in ModelRefKeys(p.modelRefs) :: m
  }

  /** The entitlement of `tenant` as a function of the set of policies, whatever order they are listed in. */
  ghost function Entitlement(tenant: string, ps: set<AuthPolicy>, owners: map<string, string>): Grants {
    map s | s in GrantedSubjects(tenant, ps, owners) :: GrantedModels(tenant, ps, owners, s)
  }

  function AddSubjectModelRefs(g: Grants, subject: string, models: set<string>): Grants {
    if subject == "" || models == {} then g
    else g[subject := (if subject in g then g[subject] else {}) + models]
  }

  /** Grants all of `models` to all of `subjects` on top of `g`. */
  ghost predicate Granted(g: Grants, subjects: set<string>, models: set<string>, g': Grants) {
    && g'.Keys == g.Keys + subjects
    && forall s :: Bucket(g', s) == Bucket(g, s) + (if s in subjects then models else {})
  }

  lemma GrantedUnique(g: Grants, subjects: set<string>, models: set<string>, a: Grants, b: Grants)
    requires Granted(g, subjects, models, a) && Granted(g, subjects, models, b)
    ensures a == b
  {
    forall s | s in a ensures a[s] == b[s] {
      assert Bucket(a, s) == Bucket(b, s);
    }
  }

  lemma GrantedTwice(g: Grants, a: set<string>, b: set<string>, models: set<string>, g1: Grants, g2: Grants)
    requires Granted(g, a, models, g1) && Granted(g1, b, models, g2)
    ensures Granted(g, a + b, models, g2)
  {
    forall s ensures Bucket(g2, s) == Bucket(g, s) + (if s in a + b then models else {}) {
      assert Bucket(g1, s) == Bucket(g, s) + (if s in a then models else {});
    }
  }

  method AddSubjects(g: Grants, keys: seq<string>, models: set<string>) returns (g': Grants)
    requires models != {}
    ensures Granted(g, KeySet(keys), models, g')
  {
    g' := g;
    for i := 0 to |keys|
      invariant Granted(g, KeySet(keys[..i]), models, g')
    {
      ghost var key := if keys[i] == "" then {} else {keys[i]};
      assert keys[..i + 1] == keys[..i] + [keys[i]];
      assert KeySet(keys[..i + 1]) == KeySet(keys[..i]) + key;
      GrantedTwice(g, KeySet(keys[..i]), key, models, g', AddSubjectModelRefs(g', keys[i], models));
      g' := AddSubjectModelRefs(g', keys[i], models);
    }
    assert keys[..|keys|] == keys;
  }

  /** The body of the policy loop. */
  method AddPolicy(
    tenant: string, ghost ps: set<AuthPolicy>, p: AuthPolicy, owners: map<string, string>, e: Grants)
    returns (e': Grants)
    requires e == Entitlement(tenant, ps, owners)
    ensures e' == Entitlement(tenant, ps + {p}, owners)
  {
    hide Entitlement, ModelRefKeys;
    EntitlementStep(tenant, ps, p, owners);
    if !Applies(p, tenant, owners) {
      GrantedUnique(e, {}, ModelRefKeys(p.modelRefs), e, Entitlement(tenant, ps + {p}, owners));
      return e;
    }
    var models := ModelRefKeys(p.modelRefs);
    var g := AddSubjects(e, UserKeys(p), models);
    e' := AddSubjects(g, GroupKeys(p), models);
    GrantedTwice(e, KeySet(UserKeys(p)), KeySet(GroupKeys(p)), models, g, e');
    GrantedUnique(e, Subjects(p), models, e', Entitlement(tenant, ps + {p}, owners));
  }

  method ComputeTenantEntitlement(
    tenant: string, policies: seq<AuthPolicy>, owners: map<string, string>)
    returns (e: Grants)
    ensures e == Entitlement(tenant, PolicySet(policies), owners)
  {
    e := map[];
    for i := 0 to |policies|
      invariant e == Entitlement(tenant, PolicySet(policies[..i]), owners)
    {
      assert policies[..i + 1] == policies[..i] + [policies[i]];
      assert PolicySet(policies[..i + 1]) == PolicySet(policies[..i]) + {policies[i]};
      e := AddPolicy(tenant, PolicySet(policies[..i]), policies[i], owners, e);
    }
    assert policies[..|policies|] == policies;
  }

  lemma SubjectsStep(tenant: string, ps: set<AuthPolicy>, p: AuthPolicy, owners: map<string, string>)
    ensures GrantedSubjects(tenant, ps + {p}, owners) ==
            GrantedSubjects(tenant, ps, owners) + (if Applies(p, tenant, owners) then Subjects(p) else {})
  {
  }

  lemma ModelsStep(tenant: string, ps: set<AuthPolicy>, p: AuthPolicy, owners: map<string, string>, s: string)
    ensures GrantedModels(tenant, ps + {p}, owners, s) ==
            GrantedModels(tenant, ps, owners, s) +
            (if Applies(p, tenant, owners) && s in Subjects(p) then ModelRefKeys(p.modelRefs) else {})
    ensures s !in GrantedSubjects(tenant, ps, owners) ==> GrantedModels(tenant, ps, owners, s) == {}
  {
  }

  /** Adding a policy that applies grants its models to its subjects; any other policy changes nothing. */
  lemma EntitlementStep(tenant: string, ps: set<AuthPolicy>, p: AuthPolicy, owners: map<string, string>)
    ensures Granted(Entitlement(tenant, ps, owners), if Applies(p, tenant, owners) then Subjects(p) else {},
                    ModelRefKeys(p.modelRefs), Entitlement(tenant, ps + {p}, owners))
  {
    hide GrantedModels, Applies, Subjects, ModelRefKeys;
    var a, b := Entitlement(tenant, ps, owners), Entitlement(tenant, ps + {p}, owners);
    var subjects := if Applies(p, tenant, owners) then Subjects(p) else {};
    SubjectsStep(tenant, ps, p, owners);
    forall s ensures Bucket(b, s) == Bucket(a, s) + (if s in subjects then ModelRefKeys(p.modelRefs) else {}) {
      EntitlementStepAt(tenant, ps, p, owners, s);
    }
  }

  lemma EntitlementStepAt(tenant: string, ps: set<AuthPolicy>, p: AuthPolicy, owners: map<string, string>, s: string)
    ensures Bucket(Entitlement(tenant, ps + {p}, owners), s) ==
            Bucket(Entitlement(tenant, ps, owners), s) +
            (if Applies(p, tenant, owners) && s in Subjects(p) then ModelRefKeys(p.modelRefs) else {})
  {
    SubjectsStep(tenant, ps, p, owners);
    ModelsStep(tenant, ps, p, owners, s);
  }

  /** Policies outside the namespaces of a tenant do not touch its entitlement. */
  lemma EntitlementFrame(tenant: string, ps: set<AuthPolicy>, qs: set<AuthPolicy>, owners: map<string, string>)
    requires forall p: AuthPolicy | Owner(owners, p.namespace) == tenant :: p in ps <==> p in qs
    ensures Entitlement(tenant, ps, owners) == Entitlement(tenant, qs, owners)
  {
    assert forall p | Applies(p, tenant, owners) :: p in ps <==> p in qs;
    assert GrantedSubjects(tenant, ps, owners) == GrantedSubjects(tenant, qs, owners);
    forall s ensures GrantedModels(tenant, ps, owners, s) == GrantedModels(tenant, qs, owners, s) { }
  }

  // ---------------------------------------------------------------- which tenant owns a namespace

  predicate Claims(t: TenantObject, namespace: string) {
    TrimSpace(t.name) != "" && namespace != "" && TrimSpace(t.statusNamespace) == namespace
  }

  /** The owner of each namespace in listing order: later tenants overwrite earlier ones. */
  function ClaimedOwners(listing: seq<TenantObject>): map<string, string> {
    if listing == [] then map[]
    else
      var t := listing[|listing| - 1];
      var m := ClaimedOwners(listing[..|listing| - 1]);
      if Claims(t, TrimSpace(t.statusNamespace)) then m[TrimSpace(t.statusNamespace) := TrimSpace(t.name)] else m
  }

  function NamespaceOwners(listing: seq<TenantObject>): map<string, string> {
    var m := ClaimedOwners(listing);
    if DEFAULT_TENANT_NAMESPACE in m then m else m[DEFAULT_TENANT_NAMESPACE := DEFAULT_TENANT_NAMESPACE]
  }

  method BuildNamespaceTenantMap(listing: seq<TenantObject>) returns (out: map<string, string>)
    ensures out == NamespaceOwners(listing)
  {
    out := map[];
    for i := 0 to |listing|
      invariant out == ClaimedOwners(listing[..i])
    {
      assert listing[..i + 1][..i] == listing[..i];
      var tenantName := TrimSpace(listing[i].name);
      var nsName := TrimSpace(listing[i].statusNamespace);
      if tenantName != "" && nsName != "" { out := out[nsName := tenantName]; }
    }
    assert listing[..|listing|] == listing;
    if DEFAULT_TENANT_NAMESPACE !in out { out := out[DEFAULT_TENANT_NAMESPACE := DEFAULT_TENANT_NAMESPACE]; }
  }

  /** A namespace is mapped exactly when some tenant claims it, and then to one of its claimants. */
  lemma {:induction false} ClaimedOwnersCharacterized(listing: seq<TenantObject>, namespace: string)
    ensures namespace in ClaimedOwners(listing) <==> exists i :: 0 <= i < |listing| && Claims(listing[i], namespace)
    ensures namespace in ClaimedOwners(listing) ==>
              exists i :: 0 <= i < |listing| && Claims(listing[i], namespace) &&
                ClaimedOwners(listing)[namespace] == TrimSpace(listing[i].name)
  {
    if listing != [] {
      var n := |listing| - 1;
      var rest := listing[..n];
      ClaimedOwnersCharacterized(rest, namespace);
      if Claims(listing[n], namespace) {
        assert ClaimedOwners(listing)[namespace] == TrimSpace(listing[n].name);
      } else {
        assert namespace in ClaimedOwners(listing) <==> namespace in ClaimedOwners(rest);
        assert forall i | 0 <= i < n :: rest[i] == listing[i];
      }
    }
  }

  ghost predicate IsListing(listing: seq<TenantObject>, store: set<TenantObject>) {
    && (forall t :: t in listing <==> t in store)
    && (forall i, j | 0 <= i < j < |listing| :: listing[i] != listing[j])
  }

  /** No two tenants of different names claim one namespace. */
  ghost predicate NoClash(store: set<TenantObject>) {
    forall s, t, ns | s in store && t in store && Claims(s, ns) && Claims(t, ns) ::
      TrimSpace(s.name) == TrimSpace(t.name)
  }

  lemma OwnersAgree(store: set<TenantObject>, l: seq<TenantObject>, m: seq<TenantObject>)
    requires NoClash(store) && IsListing(l, store) && IsListing(m, store)
    ensures NamespaceOwners(l) == NamespaceOwners(m)
  {
    forall ns ensures ns in ClaimedOwners(l) <==> ns in ClaimedOwners(m) {
      ClaimantShared(store, l, m, ns);
      ClaimantShared(store, m, l, ns);
    }
    forall ns | ns in ClaimedOwners(l) ensures ClaimedOwners(l)[ns] == ClaimedOwners(m)[ns] {
      ClaimantShared(store, l, m, ns);
    }
    assert ClaimedOwners(l) == ClaimedOwners(m);
  }

  lemma ClaimantShared(store: set<TenantObject>, l: seq<TenantObject>, m: seq<TenantObject>, ns: string)
    requires IsListing(l, store) && IsListing(m, store)
    ensures ns in ClaimedOwners(l) ==> ns in ClaimedOwners(m)
    ensures NoClash(store) && ns in ClaimedOwners(l) ==> ClaimedOwners(l)[ns] == ClaimedOwners(m)[ns]
  {
    ClaimedOwnersCharacterized(l, ns);
    ClaimedOwnersCharacterized(m, ns);
    if ns in ClaimedOwners(l) {
      var i :| 0 <= i < |l| && Claims(l[i], ns) && ClaimedOwners(l)[ns] == TrimSpace(l[i].name);
      assert l[i] in m;
      var j :| 0 <= j < |m| && m[j] == l[i];
      var k :| 0 <= k < |m| && Claims(m[k], ns) && ClaimedOwners(m)[ns] == TrimSpace(m[k].name);
      assert l[i] in store && m[k] in store;
    }
  }

  /** Some order in which the store may list its objects. */
  ghost function ListingOf(store: set<TenantObject>): (l: seq<TenantObject>)
    ensures IsListing(l, store)
  {
    if store == {} then []
    else
      var t :| t in store;
      ListingOf(store - {t}) + [t]
  }

  /** The namespace owners of a store; the same for every listing when no namespace is claimed twice. */
  ghost function Owners(store: set<TenantObject>): map<string, string> { NamespaceOwners(ListingOf(store)) }

  /** Namespaces and tenant names in the owner map carry no surrounding space, and names are not empty. */
  lemma OwnersTrimmed(l: seq<TenantObject>, ns: string)
    requires ns in NamespaceOwners(l)
    ensures TrimSpace(ns) == ns
    ensures NamespaceOwners(l)[ns] != "" && TrimSpace(NamespaceOwners(l)[ns]) == NamespaceOwners(l)[ns]
  {
    ClaimedOwnersCharacterized(l, ns);
    if ns in ClaimedOwners(l) {
      var i :| 0 <= i < |l| && Claims(l[i], ns) && ClaimedOwners(l)[ns] == TrimSpace(l[i].name);
      TrimSpaceTrims(l[i].statusNamespace);
      TrimSpaceTrims(l[i].name);
    }
  }

  /**
   The informer store lists its objects in no fixed order. The namespace owners
   are the same for every listing exactly when no two differently named tenants
   claim one namespace.
   */
  lemma ListingIndependence(store: set<TenantObject>)
    ensures NoClash(store) <==>
            forall l, m | IsListing(l, store) && IsListing(m, store) :: NamespaceOwners(l) == NamespaceOwners(m)
  {
    if NoClash(store) {
      forall l, m | IsListing(l, store) && IsListing(m, store) ensures NamespaceOwners(l) == NamespaceOwners(m) {
        OwnersAgree(store, l, m);
      }
    } else {
      var s, t, ns :| s in store && t in store && Claims(s, ns) && Claims(t, ns) &&
        TrimSpace(s.name) != TrimSpace(t.name);
      var l, m := ClashSplits(store, s, t, ns);
    }
  }

  lemma ClashSplits(
    store: set<TenantObject>, s: TenantObject, t: TenantObject, ns: string)
    returns (l: seq<TenantObject>, m: seq<TenantObject>)
    requires s in store && t in store && Claims(s, ns) && Claims(t, ns) && TrimSpace(s.name) != TrimSpace(t.name)
    ensures IsListing(l, store) && IsListing(m, store) && NamespaceOwners(l) != NamespaceOwners(m)
  {
    var rest := ListingOf(store - {s, t});
    l, m := rest + [s] + [t], rest + [t] + [s];
    assert l == rest + [s, t] && m == rest + [t, s];
    ListingWith(store, rest, s, t);
    ListingWith(store, rest, t, s);
    LastClaimWins(rest + [s], t, ns);
    LastClaimWins(rest + [t], s, ns);
  }

  lemma ListingWith(store: set<TenantObject>, rest: seq<TenantObject>, s: TenantObject, t: TenantObject)
    requires s in store && t in store && s != t && IsListing(rest, store - {s, t})
    ensures IsListing(rest + [s, t], store)
  {
  }

  lemma LastClaimWins(l: seq<TenantObject>, t: TenantObject, ns: string)
    requires Claims(t, ns)
    ensures ns in NamespaceOwners(l + [t]) && NamespaceOwners(l + [t])[ns] == TrimSpace(t.name)
  {
    assert (l + [t])[..|l|] == l;
  }

  // ---------------------------------------------------------------- the cache contents as a value

  datatype Contents = Contents(tenants: seq<TenantInfo>, entitlements: map<string, Grants>, dirty: set<string>)

  function Names(tenants: seq<TenantInfo>): set<string> { set i | 0 <= i < |tenants| :: tenants[i].name }

  function MarkedAll(c: Contents): Contents { c.(dirty := c.dirty + Names(c.tenants) + c.entitlements.Keys) }

  function Published(c: Contents, infos: seq<TenantInfo>): Contents { c.(tenants := infos) }

  function Marked(c: Contents, name: string): Contents {
    if TrimSpace(name) == "" then c else c.(dirty := c.dirty + {TrimSpace(name)})
  }

  /** Marks the owner of a policy's namespace, or every tenant when there is none. */
  function MarkedFor(c: Contents, namespace: string, owners: map<string, string>): Contents {
    if TrimSpace(namespace) == "" || Owner(owners, TrimSpace(namespace)) == "" then MarkedAll(c)
    else Marked(c, Owner(owners, TrimSpace(namespace)))
  }

  function Applied(c: Contents, tenant: string, e: Grants): Contents {
    c.(entitlements := if e == map[] then c.entitlements - {tenant} else c.entitlements[tenant := e])
  }

  function Lookup(entitlements: map<string, Grants>, tenant: string): Grants {
    if tenant in entitlements then entitlements[tenant] else map[]
  }

  lemma AppliedRest(c: Contents, tenant: string, e: Grants)
    ensures Applied(c, tenant, e).entitlements - {tenant} == c.entitlements - {tenant}
    ensures Lookup(Applied(c, tenant, e).entitlements, tenant).Keys == e.Keys
  {
  }

  lemma LookupApplied(c: Contents, tenant: string, e: Grants)
    ensures forall t ::
            Lookup(Applied(c, tenant, e).entitlements, t) == if t == tenant then e else Lookup(c.entitlements, t)
  {
  }

  // ---------------------------------------------------------------- the inverted index

  function Bucket(index: map<string, set<string>>, subject: string): set<string> {
    if subject in index then index[subject] else {}
  }

  ghost function TenantsWith(entitlements: map<string, Grants>, subject: string): set<string> {
    set t | t in entitlements && subject in entitlements[t]
  }

  /** `index` is the exact inverse of `entitlements`, without empty buckets. */
  ghost predicate IsInverse(index: map<string, set<string>>, entitlements: map<string, Grants>) {
    && (forall s | s in index :: index[s] != {})
    && (forall s :: Bucket(index, s) == TenantsWith(entitlements, s))
  }

  /** `index` inverts `rest` together with one more tenant that has exactly `subjects`. */
  ghost predicate Indexes(
    index: map<string, set<string>>, rest: map<string, Grants>, tenant: string, subjects: set<string>)
  {
    && (forall s | s in index :: index[s] != {})
    && (forall s :: Bucket(index, s) == TenantsWith(rest, s) + (if s in subjects then {tenant} else {}))
  }

  lemma TenantsWithout(entitlements: map<string, Grants>, tenant: string, s: string)
    ensures TenantsWith(entitlements, s) ==
            TenantsWith(entitlements - {tenant}, s) + (if s in Lookup(entitlements, tenant) then {tenant} else {})
  {
  }

  lemma OpenIndex(index: map<string, set<string>>, entitlements: map<string, Grants>, tenant: string)
    requires IsInverse(index, entitlements)
    ensures Indexes(index, entitlements - {tenant}, tenant, Lookup(entitlements, tenant).Keys)
  {
    forall s { TenantsWithout(entitlements, tenant, s); }
  }

  lemma CloseIndex(index: map<string, set<string>>, entitlements: map<string, Grants>, tenant: string)
    requires Indexes(index, entitlements - {tenant}, tenant, Lookup(entitlements, tenant).Keys)
    ensures IsInverse(index, entitlements)
  {
    forall s { TenantsWithout(entitlements, tenant, s); }
  }

  function Dropped(index: map<string, set<string>>, subject: string, tenant: string): map<string, set<string>> {
    var left := Bucket(index, subject) - {tenant};
    if left == {} then index - {subject} else index[subject := left]
  }

  lemma DropBucket(
    index: map<string, set<string>>, rest: map<string, Grants>, tenant: string, subjects: set<string>,
    subject: string)
    requires Indexes(index, rest, tenant, subjects) && tenant !in rest && subject in subjects
    ensures Indexes(Dropped(index, subject, tenant), rest, tenant, subjects - {subject})
  {
    var index' := Dropped(index, subject, tenant);
    assert Bucket(index, subject) == TenantsWith(rest, subject) + {tenant};
    assert Bucket(index', subject) == TenantsWith(rest, subject);
    forall s | s != subject ensures Bucket(index', s) == Bucket(index, s) { }
  }

  lemma AddBucket(
    index: map<string, set<string>>, rest: map<string, Grants>, tenant: string, subjects: set<string>,
    subject: string)
    requires Indexes(index, rest, tenant, subjects)
    ensures Indexes(index[subject := Bucket(index, subject) + {tenant}], rest, tenant, subjects + {subject})
  {
    var index' := index[subject := Bucket(index, subject) + {tenant}];
    assert Bucket(index', subject) == TenantsWith(rest, subject) + {tenant};
    forall s | s != subject ensures Bucket(index', s) == Bucket(index, s) { }
  }

  function CallerSubjects(username: string, groups: seq<string>): seq<string> {
    var user := UserSubjectKey(username);
    (if user != "" then [user] else []) + GroupSubjects(groups)
  }

  function GroupSubjects(groups: seq<string>): seq<string> {
    if groups == [] then []
    else
      var key := GroupSubjectKey(groups[|groups| - 1]);
      GroupSubjects(groups[..|groups| - 1]) + (if key != "" then [key] else [])
  }

  predicate HasAccess(e: Grants, callers: seq<string>) {
    exists i :: 0 <= i < |callers| && callers[i] in e && e[callers[i]] != {}
  }

  /** The reference answer: scan every tenant's entitlement, without the index. */
  function NaiveScan(
    tenants: seq<TenantInfo>, entitlements: map<string, Grants>, callers: seq<string>): seq<TenantInfo>
  {
    if tenants == [] then []
    else
      var t := tenants[|tenants| - 1];
      var rest := NaiveScan(tenants[..|tenants| - 1], entitlements, callers);
      if t.name in entitlements && HasAccess(entitlements[t.name], callers) then rest + [t] else rest
  }

  lemma {:induction false} NaiveScanEmpty(
    tenants: seq<TenantInfo>, entitlements: map<string, Grants>, callers: seq<string>)
    requires forall t | t in entitlements :: !HasAccess(entitlements[t], callers)
    ensures NaiveScan(tenants, entitlements, callers) == []
  {
    if tenants != [] { NaiveScanEmpty(tenants[..|tenants| - 1], entitlements, callers); }
  }

  class InformerCache {
    var tenants: seq<TenantInfo>
    var entitlementsByTenant: map<string, Grants>
    var tenantsBySubject: map<string, set<string>>
    var dirtyTenants: set<string>

    ghost predicate Valid() reads this { IsInverse(tenantsBySubject, entitlementsByTenant) }

    ghost function View(): Contents reads this { Contents(tenants, entitlementsByTenant, dirtyTenants) }

    constructor ()
      ensures Valid() && View() == Contents([], map[], {})
    {
      tenants, entitlementsByTenant, tenantsBySubject, dirtyTenants := [], map[], map[], {};
    }

    method ApplyTenantEntitlement(tenant: string, e: Grants)
      requires Valid()
      modifies this`entitlementsByTenant, this`tenantsBySubject
      ensures Valid() && View() == Applied(old(View()), tenant, e)
      ensures entitlementsByTenant ==
              if e == map[] then old(entitlementsByTenant) - {tenant} else old(entitlementsByTenant)[tenant := e]
    {
      hide Indexes, IsInverse;
      ghost var rest := entitlementsByTenant - {tenant};
      AppliedRest(View(), tenant, e);
      RemoveFromIndex(tenant);
      if e == map[] {
        entitlementsByTenant := entitlementsByTenant - {tenant};
      } else {
        entitlementsByTenant := entitlementsByTenant[tenant := e];
        AddToIndex(rest, tenant, e);
      }
      CloseIndex(tenantsBySubject, entitlementsByTenant, tenant);
    }

    /** Drops `tenant` from the bucket of every subject of its current entitlement. */
    method RemoveFromIndex(tenant: string)
      requires Valid()
      modifies this`tenantsBySubject
      ensures Indexes(tenantsBySubject, entitlementsByTenant - {tenant}, tenant, {})
    {
      ghost var rest := entitlementsByTenant - {tenant};
      OpenIndex(tenantsBySubject, entitlementsByTenant, tenant);
      var pending := Lookup(entitlementsByTenant, tenant).Keys;
      while pending != {}
        invariant Indexes(tenantsBySubject, rest, tenant, pending)
      {
        var subject :| subject in pending;
        DropBucket(tenantsBySubject, rest, tenant, pending, subject);
        tenantsBySubject := Dropped(tenantsBySubject, subject, tenant);
        pending := pending - {subject};
      }
    }

    /** Enters `tenant` under every subject of its new entitlement. */
    method AddToIndex(ghost rest: map<string, Grants>, tenant: string, e: Grants)
      requires Indexes(tenantsBySubject, rest, tenant, {})
      modifies this`tenantsBySubject
      ensures Indexes(tenantsBySubject, rest, tenant, e.Keys)
    {
      var pending := e.Keys;
      while pending != {}
        invariant pending <= e.Keys && Indexes(tenantsBySubject, rest, tenant, e.Keys - pending)
      {
        var subject :| subject in pending;
        AddBucket(tenantsBySubject, rest, tenant, e.Keys - pending, subject);
        tenantsBySubject := tenantsBySubject[subject := Bucket(tenantsBySubject, subject) + {tenant}];
        assert e.Keys - (pending - {subject}) == e.Keys - pending + {subject};
        pending := pending - {subject};
      }
      assert e.Keys - pending == e.Keys;
    }

    /** The tenants a caller may see, found through the index. */
    method VisibleTenants(callers: seq<string>) returns (visible: set<string>)
      requires Valid()
      ensures visible == set t | t in entitlementsByTenant && HasAccess(entitlementsByTenant[t], callers)
    {
      var candidates: set<string> := {};
      for i := 0 to |callers|
        invariant forall k | 0 <= k < i :: Bucket(tenantsBySubject, callers[k]) <= candidates
      {
        candidates := candidates + Bucket(tenantsBySubject, callers[i]);
      }
      visible := set t | t in candidates && t in entitlementsByTenant && HasAccess(entitlementsByTenant[t], callers);
      forall t | t in entitlementsByTenant && HasAccess(entitlementsByTenant[t], callers) ensures t in candidates {
        var k :| 0 <= k < |callers| && callers[k] in entitlementsByTenant[t];
        assert t in TenantsWith(entitlementsByTenant, callers[k]);
        assert t in Bucket(tenantsBySubject, callers[k]);
      }
    }

    method ListForSubjects(username: string, groups: seq<string>) returns (r: seq<TenantInfo>)
      requires Valid()
      ensures r == NaiveScan(tenants, entitlementsByTenant, CallerSubjects(username, groups))
    {
      var callers := CallerSubjects(username, groups);
      var visible := VisibleTenants(callers);
      if visible == {} {
        assert forall t | t in entitlementsByTenant && HasAccess(entitlementsByTenant[t], callers) :: t in visible;
        NaiveScanEmpty(tenants, entitlementsByTenant, callers);
        return [];
      }
      r := [];
      for i := 0 to |tenants|
        invariant r == NaiveScan(tenants[..i], entitlementsByTenant, callers)
      {
        assert tenants[..i + 1][..i] == tenants[..i];
        if tenants[i].name in visible { r := r + [tenants[i]]; }
      }
      assert tenants[..|tenants|] == tenants;
    }

    /** Replaces the published tenant list and leaves entitlements and dirty tenants alone. */
    method PublishTenants(infos: seq<TenantInfo>)
      requires Valid()
      modifies this`tenants
      ensures Valid() && View() == Published(old(View()), infos) && tenants == infos
    {
      tenants := infos;
    }

    method MarkTenantDirty(name: string)
      requires Valid()
      modifies this`dirtyTenants
      ensures Valid() && View() == Marked(old(View()), name)
      ensures dirtyTenants ==
              if TrimSpace(name) == "" then old(dirtyTenants) else old(dirtyTenants) + {TrimSpace(name)}
    {
      var trimmed := TrimSpace(name);
      if trimmed == "" { return; }
      dirtyTenants := dirtyTenants + {trimmed};
    }

    method MarkAllTenantsDirty()
      requires Valid()
      modifies this`dirtyTenants
      ensures Valid() && View() == MarkedAll(old(View()))
      ensures forall t ::
                t in dirtyTenants <==>
                t in old(dirtyTenants) || t in entitlementsByTenant || exists i ::
                  0 <= i < |tenants| && tenants[i].name == t
    {
      for i := 0 to |tenants|
        invariant dirtyTenants == old(dirtyTenants) + Names(tenants[..i])
      {
        assert Names(tenants[..i + 1]) == Names(tenants[..i]) + {tenants[i].name};
        dirtyTenants := dirtyTenants + {tenants[i].name};
      }
      assert tenants[..|tenants|] == tenants;
      dirtyTenants := dirtyTenants + entitlementsByTenant.Keys;
    }

    method MarkTenantDirtyFromObject(namespace: string, listing: seq<TenantObject>)
      requires Valid()
      modifies this`dirtyTenants
      ensures Valid() && View() == MarkedFor(old(View()), namespace, NamespaceOwners(listing))
      ensures TrimSpace(namespace) != "" && TrimSpace(namespace) in NamespaceOwners(listing) ==>
                dirtyTenants == old(dirtyTenants) + {NamespaceOwners(listing)[TrimSpace(namespace)]}
      ensures TrimSpace(namespace) == "" || TrimSpace(namespace) !in NamespaceOwners(listing) ==>
                entitlementsByTenant.Keys <= dirtyTenants && forall i | 0 <= i < |tenants| ::
                  tenants[i].name in dirtyTenants
    {
      var ns := TrimSpace(namespace);
      if ns == "" { MarkAllTenantsDirty(); return; }
      var owners := BuildNamespaceTenantMap(listing);
      TrimSpaceTrims(namespace);
      if ns in owners { OwnersTrimmed(listing, ns); }
      var name := Owner(owners, TrimSpace(ns));
      if name == "" { MarkAllTenantsDirty(); return; }
      MarkTenantDirty(name);
    }

    method TakeDirtyTenants() returns (taken: seq<string>)
      requires Valid()
      modifies this`dirtyTenants
      ensures Valid() && View() == old(View()).(dirty := {})
      ensures (forall t :: t in taken <==> t in old(dirtyTenants)) && |taken| == |old(dirtyTenants)|
    {
      taken := [];
      while dirtyTenants != {}
        invariant dirtyTenants <= old(dirtyTenants)
        invariant forall t :: t in taken <==> t in old(dirtyTenants) - dirtyTenants
        invariant |taken| + |dirtyTenants| == |old(dirtyTenants)|
        decreases |dirtyTenants|
      {
        var t :| t in dirtyTenants;
        taken := taken + [t];
        dirtyTenants := dirtyTenants - {t};
      }
    }

    /** One batch with nothing interleaved: every dirty tenant gets the entitlement of the two listings read. */
    method RebuildDirtyEntitlements(policies: seq<AuthPolicy>, listing: seq<TenantObject>)
      requires Valid()
      modifies this`dirtyTenants, this`entitlementsByTenant, this`tenantsBySubject
      ensures Valid() && tenants == old(tenants) && dirtyTenants == {}
      ensures forall t | t in old(dirtyTenants) ::
                Lookup(entitlementsByTenant, t) == Entitlement(t, PolicySet(policies), NamespaceOwners(listing))
      ensures forall t | t !in old(dirtyTenants) ::
              Lookup(entitlementsByTenant, t) == Lookup(old(entitlementsByTenant), t)
    {
      hide IsInverse, Entitlement;
      var batch := TakeDirtyTenants();
      if |batch| == 0 { return; }
      var owners := BuildNamespaceTenantMap(listing);
      for i := 0 to |batch|
        invariant Valid() && tenants == old(tenants) && dirtyTenants == {}
        invariant forall t | t in batch[..i] ::
                  Lookup(entitlementsByTenant, t) == Entitlement(t, PolicySet(policies), owners)
        invariant forall t | t !in old(dirtyTenants) ::
                  Lookup(entitlementsByTenant, t) == Lookup(old(entitlementsByTenant), t)
      {
        var e := ComputeTenantEntitlement(batch[i], policies, owners);
        assert batch[i] in batch;
        LookupApplied(View(), batch[i], e);
        ApplyTenantEntitlement(batch[i], e);
        assert batch[..i + 1] == batch[..i] + [batch[i]];
      }
      assert batch[..|batch|] == batch;
    }
  }
}
