/**
 What the discovery cache answers, in the names that policies, tenants and
 callers carry: who sees which tenant, and who owns a namespace. Nothing here
 goes through the subject keys and maps of
 maas-discovery/internal/cache/informer.go.
 */
module EntitlementMeaning {
  import opened EntitlementProtocol
  import opened Entitlements
  import opened Text

  // ---------------------------------------------------------------- subject keys

  /** User keys and group keys never coincide, are empty for blank names only, and otherwise tell names apart. */
  lemma SubjectKeysTellApart(a: string, b: string)
    ensures UserSubjectKey(a) == "" <==> TrimSpace(a) == ""
    ensures GroupSubjectKey(a) == "" <==> TrimSpace(a) == ""
    ensures UserSubjectKey(a) == UserSubjectKey(b) <==> TrimSpace(a) == TrimSpace(b)
    ensures GroupSubjectKey(a) == GroupSubjectKey(b) <==> TrimSpace(a) == TrimSpace(b)
    ensures UserSubjectKey(a) == GroupSubjectKey(b) ==> TrimSpace(a) == "" && TrimSpace(b) == ""
  {
    var x, y := TrimSpace(a), TrimSpace(b);
    assert ("u:" + x)[2..] == x && ("u:" + y)[2..] == y && ("g:" + x)[2..] == x && ("g:" + y)[2..] == y;
    assert ("u:" + x)[0] == 'u' && ("g:" + y)[0] == 'g';
  }

  // ---------------------------------------------------------------- who is granted what

  /** The same name, up to surrounding space, and not a blank one. */
  predicate SameName(a: string, b: string) { TrimSpace(a) != "" && TrimSpace(a) == TrimSpace(b) }

  predicate NamesModel(ref: ModelRef) { TrimSpace(ref.namespace) != "" && TrimSpace(ref.name) != "" }

  /** The policy is live, in a namespace of the tenant, and names a model. */
  ghost predicate Concerns(p: AuthPolicy, tenant: string, owners: map<string, string>) {
    && !p.deleting
    && (if p.namespace in owners then owners[p.namespace] else "") == tenant
    && exists ref :: ref in p.modelRefs && NamesModel(ref)
  }

  ghost predicate ListsUser(p: AuthPolicy, username: string) { exists u :: u in p.users && SameName(u, username) }

  ghost predicate ListsGroup(p: AuthPolicy, group: string) { exists g :: g in p.groups && SameName(g, group) }

  /** Some policy of the tenant lists the caller, by name or by one of the caller's groups. */
  ghost predicate MaySee(
    tenant: string, ps: set<AuthPolicy>, owners: map<string, string>, username: string, groups: seq<string>)
  {
    exists p ::
      && p in ps && Concerns(p, tenant, owners)
      && (ListsUser(p, username) || exists g :: g in groups && ListsGroup(p, g))
  }

  lemma AppliesIff(p: AuthPolicy, tenant: string, owners: map<string, string>)
    ensures Applies(p, tenant, owners) <==> Concerns(p, tenant, owners)
  {
    if ref :| ref in p.modelRefs && NamesModel(ref) {
      var i :| 0 <= i < |p.modelRefs| && p.modelRefs[i] == ref;
      assert TrimSpace(p.modelRefs[i].namespace) + "/" + TrimSpace(p.modelRefs[i].name) in ModelRefKeys(p.modelRefs);
    }
    if m :| m in ModelRefKeys(p.modelRefs) {
      var i :| && 0 <= i < |p.modelRefs| && TrimSpace(p.modelRefs[i].name) != ""
               && TrimSpace(p.modelRefs[i].namespace) != "";
      assert p.modelRefs[i] in p.modelRefs && NamesModel(p.modelRefs[i]);
    }
  }

  lemma UserSubjects(p: AuthPolicy, username: string)
    ensures TrimSpace(username) != "" ==> (UserSubjectKey(username) in Subjects(p) <==> ListsUser(p, username))
  {
    var key := UserSubjectKey(username);
    SubjectKeysTellApart(username, username);
    if u :| u in p.users && SameName(u, username) {
      var i :| 0 <= i < |p.users| && p.users[i] == u;
      SubjectKeysTellApart(u, username);
      assert UserKeys(p)[i] == key;
    }
    if TrimSpace(username) != "" && key in Subjects(p) {
      if i :| 0 <= i < |p.users| && UserKeys(p)[i] == key {
        SubjectKeysTellApart(p.users[i], username);
        assert p.users[i] in p.users && SameName(p.users[i], username);
      } else {
        var i :| 0 <= i < |p.groups| && GroupKeys(p)[i] == key;
        SubjectKeysTellApart(username, p.groups[i]);
      }
    }
  }

  lemma GroupSubjectsOf(p: AuthPolicy, group: string)
    ensures TrimSpace(group) != "" ==> (GroupSubjectKey(group) in Subjects(p) <==> ListsGroup(p, group))
  {
    var key := GroupSubjectKey(group);
    SubjectKeysTellApart(group, group);
    if g :| g in p.groups && SameName(g, group) {
      var i :| 0 <= i < |p.groups| && p.groups[i] == g;
      SubjectKeysTellApart(g, group);
      assert GroupKeys(p)[i] == key;
    }
    if TrimSpace(group) != "" && key in Subjects(p) {
      if i :| 0 <= i < |p.groups| && GroupKeys(p)[i] == key {
        SubjectKeysTellApart(p.groups[i], group);
        assert p.groups[i] in p.groups && SameName(p.groups[i], group);
      } else {
        var i :| 0 <= i < |p.users| && UserKeys(p)[i] == key;
        SubjectKeysTellApart(p.users[i], group);
      }
    }
  }

  lemma {:induction false} GroupSubjectsMembers(groups: seq<string>, key: string)
    ensures key in GroupSubjects(groups) <==> key != "" && exists g :: g in groups && GroupSubjectKey(g) == key
  {
    hide GroupSubjectKey;
    if groups != [] {
      var n := |groups| - 1;
      GroupSubjectsMembers(groups[..n], key);
      assert forall g :: g in groups <==> g in groups[..n] || g == groups[n];
    }
  }

  lemma CallerKeys(username: string, groups: seq<string>, key: string)
    ensures key in CallerSubjects(username, groups) <==>
            && key != ""
            && (key == UserSubjectKey(username) || exists g :: g in groups && GroupSubjectKey(g) == key)
  {
    GroupSubjectsMembers(groups, key);
  }

  /** A subject of an entitlement always has models there. */
  lemma SubjectsHaveModels(tenant: string, ps: set<AuthPolicy>, owners: map<string, string>, s: string)
    ensures s in Entitlement(tenant, ps, owners) <==>
            exists p :: p in ps && Applies(p, tenant, owners) && s in Subjects(p)
    ensures s in Entitlement(tenant, ps, owners) ==> Entitlement(tenant, ps, owners)[s] != {}
  {
    if p :| p in ps && Applies(p, tenant, owners) && s in Subjects(p) {
      var m :| m in ModelRefKeys(p.modelRefs);
      assert m in GrantedModels(tenant, ps, owners, s);
      assert s in GrantedSubjects(tenant, ps, owners);
    }
  }

  /** A computed entitlement gives a caller access exactly when some policy of the tenant lists the caller. */
  lemma AccessIff(
    tenant: string, ps: set<AuthPolicy>, owners: map<string, string>, username: string, groups: seq<string>)
    ensures HasAccess(Entitlement(tenant, ps, owners), CallerSubjects(username, groups)) <==>
            MaySee(tenant, ps, owners, username, groups)
  {
    hide Entitlement, Applies, Subjects, Concerns, UserSubjectKey, GroupSubjectKey, CallerSubjects;
    var e, callers := Entitlement(tenant, ps, owners), CallerSubjects(username, groups);
    if HasAccess(e, callers) {
      var i :| 0 <= i < |callers| && callers[i] in e && e[callers[i]] != {};
      assert callers[i] in callers;
      AccessNamed(tenant, ps, owners, username, groups, callers[i]);
    }
    if MaySee(tenant, ps, owners, username, groups) {
      var p :|
        && p in ps && Concerns(p, tenant, owners)
        && (ListsUser(p, username) || exists g :: g in groups && ListsGroup(p, g));
      NamedAccess(tenant, ps, owners, username, groups, p);
    }
  }

  lemma AccessNamed(
    tenant: string, ps: set<AuthPolicy>, owners: map<string, string>, username: string, groups: seq<string>,
      key: string)
    requires key in CallerSubjects(username, groups) && key in Entitlement(tenant, ps, owners)
    ensures MaySee(tenant, ps, owners, username, groups)
  {
    hide Entitlement, Subjects, Concerns, Applies, UserSubjectKey, GroupSubjectKey, CallerSubjects;
    CallerKeys(username, groups, key);
    SubjectsHaveModels(tenant, ps, owners, key);
    var p :| p in ps && Applies(p, tenant, owners) && key in Subjects(p);
    AppliesIff(p, tenant, owners);
    if key == UserSubjectKey(username) {
      SubjectKeysTellApart(username, username);
      UserSubjects(p, username);
    } else {
      var g :| g in groups && GroupSubjectKey(g) == key;
      SubjectKeysTellApart(g, g);
      GroupSubjectsOf(p, g);
    }
  }

  lemma NamedAccess(
    tenant: string, ps: set<AuthPolicy>, owners: map<string, string>, username: string, groups: seq<string>,
      p: AuthPolicy)
    requires p in ps && Concerns(p, tenant, owners)
    requires ListsUser(p, username) || exists g :: g in groups && ListsGroup(p, g)
    ensures HasAccess(Entitlement(tenant, ps, owners), CallerSubjects(username, groups))
  {
    hide Entitlement, Subjects, Concerns, Applies, UserSubjectKey, GroupSubjectKey, CallerSubjects;
    AppliesIff(p, tenant, owners);
    var key: string;
    if ListsUser(p, username) {
      key := UserSubjectKey(username);
      SubjectKeysTellApart(username, username);
      UserSubjects(p, username);
    } else {
      var g :| g in groups && ListsGroup(p, g);
      key := GroupSubjectKey(g);
      SubjectKeysTellApart(g, g);
      GroupSubjectsOf(p, g);
    }
    CallerKeys(username, groups, key);
    SubjectsHaveModels(tenant, ps, owners, key);
    var callers := CallerSubjects(username, groups);
    var i :| 0 <= i < |callers| && callers[i] == key;
  }

  // ---------------------------------------------------------------- the list a caller gets

  /** The scan is taken tenant by tenant, in list order. */
  lemma ScanAppends(tenants: seq<TenantInfo>, t: TenantInfo, entitlements: map<string, Grants>, callers: seq<string>)
    ensures NaiveScan(tenants + [t], entitlements, callers) ==
            NaiveScan(tenants, entitlements, callers) +
            if HasAccess(Lookup(entitlements, t.name), callers) then [t] else []
    ensures NaiveScan([], entitlements, callers) == []
  {
    assert (tenants + [t])[..|tenants|] == tenants;
  }

  /**
   When every listed tenant has its computed entitlement, the answer to a caller
   is the list of tenants, in order, restricted to those a policy lets the
   caller see.
   */
  lemma {:induction false} ListedIff(
    tenants: seq<TenantInfo>, entitlements: map<string, Grants>, ps: set<AuthPolicy>, owners: map<string, string>,
    username: string, groups: seq<string>)
    requires forall t | t in tenants :: Lookup(entitlements, t.name) == Entitlement(t.name, ps, owners)
    ensures forall t ::
              t in NaiveScan(tenants, entitlements, CallerSubjects(username, groups)) <==>
              t in tenants && MaySee(t.name, ps, owners, username, groups)
  {
    hide Entitlement, CallerSubjects, MaySee, HasAccess;
    var callers := CallerSubjects(username, groups);
    if tenants != [] {
      var n := |tenants| - 1;
      var front, last := tenants[..n], tenants[n];
      assert tenants == front + [last];
      ListedIff(front, entitlements, ps, owners, username, groups);
      ScanAppends(front, last, entitlements, callers);
      AccessIff(last.name, ps, owners, username, groups);
      assert Lookup(entitlements, last.name) == Entitlement(last.name, ps, owners);
    }
  }

  /** At rest without a clash, the cache answers every caller by the policies and tenants in the stores. */
  lemma ConvergedListIff(s: State, username: string, groups: seq<string>)
    requires Converged(s) && "" !in StoreNames(s.store)
    ensures forall t ::
              t in NaiveScan(s.cache.tenants, s.cache.entitlements, CallerSubjects(username, groups)) <==>
              t in s.cache.tenants && MaySee(t.name, s.policies, Owners(s.store), username, groups)
  {
    hide Entitlement;
    forall t | t in s.cache.tenants
      ensures Lookup(s.cache.entitlements, t.name) == Entitlement(t.name, s.policies, Owners(s.store))
    {
      assert t.name in Names(s.cache.tenants);
    }
    ListedIff(s.cache.tenants, s.cache.entitlements, s.policies, Owners(s.store), username, groups);
  }

  lemma ModelKeysIff(refs: seq<ModelRef>, model: string)
    ensures model in ModelRefKeys(refs) <==>
            exists ref ::
              ref in refs && NamesModel(ref) && model == TrimSpace(ref.namespace) + "/" + TrimSpace(ref.name)
  {
    if ref :| ref in refs && NamesModel(ref) && model == TrimSpace(ref.namespace) + "/" + TrimSpace(ref.name) {
      var i :| 0 <= i < |refs| && refs[i] == ref;
    }
    if model in ModelRefKeys(refs) {
      var i :| && 0 <= i < |refs| && TrimSpace(refs[i].name) != "" && TrimSpace(refs[i].namespace) != ""
               && model == TrimSpace(refs[i].namespace) + "/" + TrimSpace(refs[i].name);
      assert refs[i] in refs && NamesModel(refs[i]);
    }
  }

  lemma BucketIff(tenant: string, ps: set<AuthPolicy>, owners: map<string, string>, key: string, model: string)
    ensures model in Bucket(Entitlement(tenant, ps, owners), key) <==>
            exists p :: p in ps && Applies(p, tenant, owners) && key in Subjects(p) &&
              model in ModelRefKeys(p.modelRefs)
  {
    hide Applies, Subjects, ModelRefKeys;
    if p :| p in ps && Applies(p, tenant, owners) && key in Subjects(p) && model in ModelRefKeys(p.modelRefs) {
      assert model in GrantedModels(tenant, ps, owners, key) && key in GrantedSubjects(tenant, ps, owners);
    }
  }

  /** The policy grants this model to this user. */
  ghost predicate GrantsModel(p: AuthPolicy, username: string, model: string) {
    && ListsUser(p, username)
    && exists ref ::
         ref in p.modelRefs && NamesModel(ref) && model == TrimSpace(ref.namespace) + "/" + TrimSpace(ref.name)
  }

  /** The models an entitlement grants to a user are those of the tenant's policies that list the user. */
  lemma ModelsIff(tenant: string, ps: set<AuthPolicy>, owners: map<string, string>, username: string, model: string)
    requires TrimSpace(username) != ""
    ensures model in Bucket(Entitlement(tenant, ps, owners), UserSubjectKey(username)) <==>
            exists p :: p in ps && Concerns(p, tenant, owners) && GrantsModel(p, username, model)
  {
    hide Entitlement, Bucket, Applies, Subjects, ModelRefKeys, Concerns, ListsUser;
    var key := UserSubjectKey(username);
    BucketIff(tenant, ps, owners, key, model);
    forall p
      ensures Applies(p, tenant, owners) <==> Concerns(p, tenant, owners)
      ensures key in Subjects(p) && model in ModelRefKeys(p.modelRefs) <==> GrantsModel(p, username, model)
    {
      AppliesIff(p, tenant, owners);
      UserSubjects(p, username);
      ModelKeysIff(p.modelRefs, model);
    }
  }

  // ---------------------------------------------------------------- who owns a namespace

  /** Tenant `i` of the listing is the last to report this namespace as its own. */
  ghost predicate LastToClaim(listing: seq<TenantObject>, i: nat, ns: string) {
    && i < |listing| && TrimSpace(listing[i].name) != "" && TrimSpace(listing[i].statusNamespace) == ns
    && forall j | i < j < |listing| :: TrimSpace(listing[j].name) == "" || TrimSpace(listing[j].statusNamespace) != ns
  }

  /** A namespace belongs to the last tenant that reports it; unreported, only the default namespace has an owner. */
  lemma {:induction false} OwnerIff(listing: seq<TenantObject>, ns: string)
    requires ns != ""
    ensures forall i: nat | LastToClaim(listing, i, ns) ::
              ns in NamespaceOwners(listing) && NamespaceOwners(listing)[ns] == TrimSpace(listing[i].name)
    ensures (forall i: nat :: !LastToClaim(listing, i, ns)) ==>
              (ns in NamespaceOwners(listing) <==> ns == "models-as-a-service")
              && (ns == "models-as-a-service" ==> NamespaceOwners(listing)[ns] == "models-as-a-service")
  {
    ClaimedIff(listing, ns);
  }

  lemma LastWithoutEnd(listing: seq<TenantObject>, i: nat, ns: string)
    requires i < |listing| - 1
    requires var t := listing[|listing| - 1]; TrimSpace(t.name) == "" || TrimSpace(t.statusNamespace) != ns
    ensures LastToClaim(listing, i, ns) <==> LastToClaim(listing[..|listing| - 1], i, ns)
  {
    var front := listing[..|listing| - 1];
    assert forall j | 0 <= j < |front| :: front[j] == listing[j];
    assert forall j | 0 <= j < |front| :: listing[j] == front[j];
  }

  lemma {:induction false} ClaimedIff(listing: seq<TenantObject>, ns: string)
    requires ns != ""
    ensures forall i: nat | LastToClaim(listing, i, ns) ::
              ns in ClaimedOwners(listing) && ClaimedOwners(listing)[ns] == TrimSpace(listing[i].name)
    ensures (forall i: nat :: !LastToClaim(listing, i, ns)) ==> ns !in ClaimedOwners(listing)
  {
    if listing != [] {
      var n := |listing| - 1;
      var front, t := listing[..n], listing[n];
      ClaimedIff(front, ns);
      if TrimSpace(t.name) != "" && TrimSpace(t.statusNamespace) == ns {
        assert LastToClaim(listing, n, ns);
      } else {
        forall i: nat ensures LastToClaim(listing, i, ns) <==> LastToClaim(front, i, ns) {
          if i < n { LastWithoutEnd(listing, i, ns); }
        }
      }
    }
  }
}
