/**
 Choosing among the subscriptions of a caller: `SelectWithContext` and
 `selectExplicit` of maas-api/internal/subscription/selector.go, and what the
 choice owes to the order in which subscriptions are listed.
 */
module Selection {
  import opened Options
  import opened Orders
  import opened Text
  import opened Selector

  datatype ModelObject = ModelObject(namespace: string, name: string, alias: Option<string>)

  /** The outcome of asking the access checker, if there is one. */
  datatype Access = NoChecker | Allowed(models: set<ModelKey>) | CheckerFailed

  datatype Query = Query(groups: seq<string>, username: string, subscription: string, model: string)

  // ---------------------------------------------------------------- model aliases

  function Carriers(models: seq<ModelObject>, alias: string): seq<ModelObject> {
    if models == [] then []
    else
      var rest := Carriers(models[..|models| - 1], alias);
      if models[|models| - 1].alias == Some(alias) then rest + [models[|models| - 1]] else rest
  }

  /** A client-facing name is rewritten to "namespace/name" exactly when one model object carries it. */
  function ResolvedAlias(models: Option<seq<ModelObject>>, requested: string): string {
    if models.None? || requested == "" then requested
    else
      var c := Carriers(models.value, requested);
      if |c| == 1 then c[0].namespace + "/" + c[0].name else requested
  }

  method ResolveModelAlias(models: Option<seq<ModelObject>>, requested: string) returns (r: string)
    ensures r == ResolvedAlias(models, requested)
  {
    if models.None? || requested == "" { return requested; }
    var items := models.value;
    var resolved := "";
    for i := 0 to |items|
      invariant |Carriers(items[..i], requested)| <= 1
      invariant resolved == "" <==> Carriers(items[..i], requested) == []
      invariant resolved != "" ==>
                  var c := Carriers(items[..i], requested)[0]; resolved == c.namespace + "/" + c.name
    {
      assert items[..i + 1][..i] == items[..i];
      if items[i].alias == Some(requested) {
        if resolved != "" {
          MoreCarriers(items, i + 1, requested);
          return requested;
        }
        resolved := items[i].namespace + "/" + items[i].name;
        assert resolved[|items[i].namespace|] == '/';
      }
    }
    assert items[..|items|] == items;
    return if resolved != "" then resolved else requested;
  }

  lemma {:induction false} MoreCarriers(items: seq<ModelObject>, n: nat, alias: string)
    requires n <= |items|
    ensures |Carriers(items[..n], alias)| <= |Carriers(items, alias)|
    decreases |items|
  {
    if n < |items| {
      assert items[..|items| - 1][..n] == items[..n];
      MoreCarriers(items[..|items| - 1], n, alias);
    } else {
      assert items[..n] == items;
    }
  }

  // ---------------------------------------------------------------- filters

  predicate UserHasAccess(sub: Subscription, username: string, groups: seq<string>) {
    username in sub.users || exists i :: 0 <= i < |sub.groups| && sub.groups[i] in groups
  }

  predicate Owned(sub: Subscription, q: Query) { !sub.deleting && UserHasAccess(sub, q.username, q.groups) }

  /** The three tests the selector applies to a list of subscriptions. */
  datatype Test =
    | Admits(q: Query, model: string, allowed: Option<set<ModelKey>>)
    | Authorizes(model: string, allowed: Option<set<ModelKey>>)
    | Qualifies(q: Query, model: string, allowed: Option<set<ModelKey>>)

  predicate Passes(t: Test, sub: Subscription) {
    match t
    case Admits(q, model, allowed) =>
      && Owned(sub, q)
      && (IncludesModel(sub.modelRefs, model) || IncludesModel(Restricted(sub, allowed).modelRefs, model))
    case Authorizes(model, allowed) => IsResolvedModelAuthorized(sub, model, allowed)
    case Qualifies(q, model, allowed) => Owned(sub, q) && IsResolvedModelAuthorized(sub, model, allowed)
  }

  function Keep(t: Test, subs: seq<Subscription>): seq<Subscription> {
    if subs == [] then []
    else
      var rest := Keep(t, subs[..|subs| - 1]);
      if Passes(t, subs[|subs| - 1]) then rest + [subs[|subs| - 1]] else rest
  }

  method KeepPassing(t: Test, subs: seq<Subscription>) returns (kept: seq<Subscription>)
    ensures kept == Keep(t, subs)
  {
    kept := [];
    for i := 0 to |subs|
      invariant kept == Keep(t, subs[..i])
    {
      assert subs[..i + 1][..i] == subs[..i];
      if Passes(t, subs[i]) { kept := kept + [subs[i]]; }
    }
    assert subs[..|subs|] == subs;
  }

  // ---------------------------------------------------------------- the selection

  /** `sortSubscriptionsByPriority`: priority descending, then limit descending, then name. */
  datatype SortKey = SortKey(priority: int, maxLimit: int, name: string)

  function SortKeyOf(s: Subscription): SortKey { SortKey(s.priority, s.maxLimit, s.name) }

  predicate KeyLess(a: SortKey, b: SortKey) {
    if a.priority != b.priority then a.priority > b.priority
    else if a.maxLimit != b.maxLimit then a.maxLimit > b.maxLimit
    else Less(a.name, b.name)
  }

  predicate SubLess(a: Subscription, b: Subscription) { KeyLess(SortKeyOf(a), SortKeyOf(b)) }

  function ByPriority(subs: seq<Subscription>): seq<Subscription> { StableSort(SubLess, subs) }

  function NamesOf(subs: seq<Subscription>): seq<string> {
    seq(|subs|, i requires 0 <= i < |subs| => subs[i].name)
  }

  /** Auto-selection, when the request names no subscription. */
  function AutoSelect(
    config: Config, sorted: seq<Subscription>, q: Query, model: string, allowed: Option<set<ModelKey>>): Result
  {
    var admitted := Keep(Admits(q, model, allowed), sorted);
    var candidates := if model != "" && allowed.Some? then Keep(Authorizes(model, allowed), admitted) else admitted;
    if admitted != [] && candidates == [] then AccessDenied("")
    else if candidates == [] then NoSubscription
    else if |candidates| == 1 then CompleteSelection(config, candidates[0], model, allowed)
    else MultipleSubscriptions(NamesOf(candidates))
  }

  /** The two ways a request can name a subscription. */
  datatype Naming = Qualified(requested: string) | Bare(requested: string)

  /** A subscription of that name that is not being deleted. */
  predicate Live(s: Subscription, naming: Naming) {
    && !s.deleting
    && match naming
       case Qualified(requested) => s.namespace + "/" + s.name == requested
       case Bare(requested) => s.name == requested
  }

  function First(subs: seq<Subscription>, naming: Naming): Option<Subscription> {
    if subs == [] then None
    else if Live(subs[0], naming) then Some(subs[0])
    else First(subs[1..], naming)
  }

  function ExplicitPick(sorted: seq<Subscription>, requested: string): Option<Subscription> {
    var qualified := First(sorted, Qualified(requested));
    if qualified.Some? then qualified
    else if '/' !in requested then First(sorted, Bare(requested))
    else None
  }

  function ConfirmExplicit(
    config: Config, sub: Subscription, q: Query, model: string, allowed: Option<set<ModelKey>>): Result
  {
    if !UserHasAccess(sub, q.username, q.groups) then AccessDenied(q.subscription)
    else if model != "" && allowed.None? && !IncludesModel(sub.modelRefs, model) then
      ModelNotInSubscription(q.subscription, model)
    else CompleteSelection(config, sub, model, allowed)
  }

  function ExplicitSelect(
    config: Config, sorted: seq<Subscription>, q: Query, model: string, allowed: Option<set<ModelKey>>): Result
  {
    match ExplicitPick(sorted, q.subscription)
    case Some(sub) => ConfirmExplicit(config, sub, q, model, allowed)
    case None => SubscriptionNotFound(q.subscription)
  }

  function Select(
    config: Config, subs: seq<Subscription>, models: Option<seq<ModelObject>>, access: Access, q: Query): Result
  {
    if q.groups == [] && q.username == "" then IdentityMissing
    else if subs == [] then NoSubscription
    else if access.CheckerFailed? then AuthorizationUnknown
    else
      var model := ResolvedAlias(models, q.model);
      var allowed := if access.Allowed? then Some(access.models) else None;
      if q.subscription != "" then ExplicitSelect(config, ByPriority(subs), q, model, allowed)
      else AutoSelect(config, ByPriority(subs), q, model, allowed)
  }

  method SelectExplicit(
    config: Config, sorted: seq<Subscription>, q: Query, model: string, allowed: Option<set<ModelKey>>)
    returns (r: Result)
    ensures r == ExplicitSelect(config, sorted, q, model, allowed)
  {
    var qualified, bare := Qualified(q.subscription), Bare(q.subscription);
    for i := 0 to |sorted|
      invariant First(sorted, qualified) == First(sorted[i..], qualified)
    {
      assert sorted[i..][1..] == sorted[i + 1..];
      if sorted[i].namespace + "/" + sorted[i].name == q.subscription {
        if sorted[i].deleting { continue; }
        return ConfirmExplicit(config, sorted[i], q, model, allowed);
      }
    }
    if '/' !in q.subscription {
      for i := 0 to |sorted|
        invariant First(sorted, bare) == First(sorted[i..], bare)
      {
        assert sorted[i..][1..] == sorted[i + 1..];
        if sorted[i].name != q.subscription { continue; }
        if sorted[i].deleting { continue; }
        return ConfirmExplicit(config, sorted[i], q, model, allowed);
      }
    }
    return SubscriptionNotFound(q.subscription);
  }

  method SelectWithContext(
    config: Config, subs: seq<Subscription>, models: Option<seq<ModelObject>>, access: Access, q: Query)
    returns (r: Result)
    ensures r == Select(config, subs, models, access, q)
  {
    if |q.groups| == 0 && q.username == "" { return IdentityMissing; }
    var model := ResolveModelAlias(models, q.model);
    if |subs| == 0 { return NoSubscription; }
    var sorted := ByPriority(subs);
    if access.CheckerFailed? { return AuthorizationUnknown; }
    var allowed := if access.Allowed? then Some(access.models) else None;
    if q.subscription != "" {
      r := SelectExplicit(config, sorted, q, model, allowed);
      return;
    }
    var accessible := KeepPassing(Admits(q, model, allowed), sorted);
    var modelMatched := |accessible| > 0;
    if model != "" && allowed.Some? {
      var authorized := KeepPassing(Authorizes(model, allowed), accessible);
      if modelMatched && |authorized| == 0 { return AccessDenied(""); }
      accessible := authorized;
    }
    if |accessible| == 0 { return NoSubscription; }
    if |accessible| == 1 { return CompleteSelection(config, accessible[0], model, allowed); }
    return MultipleSubscriptions(NamesOf(accessible));
  }

  // ---------------------------------------------------------------- the admission filter drops nothing

  /** A subscription whose resolved model is authorized always passes the earlier admission test. */
  lemma AdmissionKeepsAuthorized(sub: Subscription, q: Query, model: string, allowed: Option<set<ModelKey>>)
    requires Passes(Qualifies(q, model, allowed), sub)
    ensures Passes(Admits(q, model, allowed), sub)
  {
    if model != "" { AccessDecision(sub, model, allowed.value); }
  }

  lemma {:induction false} TwoFiltersAreOne(
    subs: seq<Subscription>, q: Query, model: string, allowed: Option<set<ModelKey>>)
    ensures Keep(Authorizes(model, allowed), Keep(Admits(q, model, allowed), subs)) ==
            Keep(Qualifies(q, model, allowed), subs)
  {
    if subs != [] {
      var n := |subs| - 1;
      TwoFiltersAreOne(subs[..n], q, model, allowed);
      var rest := Keep(Admits(q, model, allowed), subs[..n]);
      if Passes(Qualifies(q, model, allowed), subs[n]) { AdmissionKeepsAuthorized(subs[n], q, model, allowed); }
      if Passes(Admits(q, model, allowed), subs[n]) { assert (rest + [subs[n]])[..|rest|] == rest; }
    }
  }

  // ---------------------------------------------------------------- independence of the listing order

  lemma {:induction false} KeepCounts(t: Test, subs: seq<Subscription>, x: Subscription)
    ensures multiset(Keep(t, subs))[x] == if Passes(t, x) then multiset(subs)[x] else 0
  {
    if subs != [] {
      var n := |subs| - 1;
      KeepCounts(t, subs[..n], x);
      assert subs == subs[..n] + [subs[n]];
    }
  }

  lemma KeepPermutes(t: Test, a: seq<Subscription>, b: seq<Subscription>)
    requires multiset(a) == multiset(b)
    ensures multiset(Keep(t, a)) == multiset(Keep(t, b)) && |Keep(t, a)| == |Keep(t, b)|
  {
    forall x ensures multiset(Keep(t, a))[x] == multiset(Keep(t, b))[x] {
      KeepCounts(t, a, x);
      KeepCounts(t, b, x);
    }
    assert multiset(Keep(t, a)) == multiset(Keep(t, b));
    SameLength(Keep(t, a), Keep(t, b));
  }

  lemma {:induction false} KeepSorted(t: Test, subs: seq<Subscription>)
    requires Sorted(SubLess, subs)
    ensures Sorted(SubLess, Keep(t, subs)) && forall x | x in Keep(t, subs) :: x in subs
  {
    if subs != [] {
      var n := |subs| - 1;
      var rest := Keep(t, subs[..n]);
      KeepSorted(t, subs[..n]);
      hide Passes, SubLess;
      forall i | 0 <= i < |rest| ensures !SubLess(subs[n], rest[i]) {
        assert rest[i] in subs[..n];
      }
    }
  }

  lemma KeyLessTransitive(a: SortKey, b: SortKey, c: SortKey)
    requires KeyLess(a, b) && KeyLess(b, c)
    ensures KeyLess(a, c)
  {
    if a.priority == b.priority == c.priority && a.maxLimit == b.maxLimit == c.maxLimit {
      LessTransitive(a.name, b.name, c.name);
    }
  }

  lemma KeyLessTotal()
    ensures StrictTotal(KeyLess)
  {
    forall a ensures !KeyLess(a, a) { LessIrreflexive(a.name); }
    forall a, b, c | KeyLess(a, b) && KeyLess(b, c) ensures KeyLess(a, c) { KeyLessTransitive(a, b, c); }
    forall a, b ensures a == b || KeyLess(a, b) || KeyLess(b, a) { LessTrichotomy(a.name, b.name); }
  }

  lemma SubLessWeak()
    ensures StrictWeak(SubLess)
  {
    KeyLessTotal();
    TotalIsWeak(KeyLess);
  }

  function SortKeys(subs: seq<Subscription>): seq<SortKey> { Image(SortKeyOf, subs) }

  /** Sorted permutations of the same subscriptions show the same sequence of names, even when subscriptions tie. */
  lemma SortedNamesAgree(a: seq<Subscription>, b: seq<Subscription>)
    requires multiset(a) == multiset(b) && Sorted(SubLess, a) && Sorted(SubLess, b)
    ensures NamesOf(a) == NamesOf(b)
  {
    ImagePermutes(SortKeyOf, a, b);
    KeyLessTotal();
    TotalIsWeak(KeyLess);
    SortedUnique(KeyLess, SortKeys(a), SortKeys(b));
    SameLength(a, b);
    forall i | 0 <= i < |a| ensures a[i].name == b[i].name {
      assert SortKeyOf(a[i]) == SortKeys(a)[i] == SortKeys(b)[i] == SortKeyOf(b[i]);
    }
  }

  lemma Priorities(a: seq<Subscription>, b: seq<Subscription>)
    requires multiset(a) == multiset(b)
    ensures multiset(ByPriority(a)) == multiset(ByPriority(b)) == multiset(a)
    ensures Sorted(SubLess, ByPriority(a)) && Sorted(SubLess, ByPriority(b))
  {
    SubLessWeak();
    SortPermutes(SubLess, a);
    SortPermutes(SubLess, b);
    SortSorts(SubLess, a);
    SortSorts(SubLess, b);
  }

  lemma AutoSelectSorted(
    config: Config, a: seq<Subscription>, b: seq<Subscription>, q: Query, model: string,
    allowed: Option<set<ModelKey>>)
    requires multiset(a) == multiset(b) && Sorted(SubLess, a) && Sorted(SubLess, b)
    ensures AutoSelect(config, a, q, model, allowed) == AutoSelect(config, b, q, model, allowed)
  {
    var t := Admits(q, model, allowed);
    var x, y := Keep(t, a), Keep(t, b);
    KeepPermutes(t, a, b);
    KeepSorted(t, a);
    KeepSorted(t, b);
    SameCandidates(x, y);
    if model != "" && allowed.Some? {
      var u := Authorizes(model, allowed);
      KeepPermutes(u, x, y);
      KeepSorted(u, x);
      KeepSorted(u, y);
      SameCandidates(Keep(u, x), Keep(u, y));
    }
  }

  lemma SameCandidates(x: seq<Subscription>, y: seq<Subscription>)
    requires multiset(x) == multiset(y) && |x| == |y| && Sorted(SubLess, x) && Sorted(SubLess, y)
    ensures NamesOf(x) == NamesOf(y) && (|x| == 1 ==> x[0] == y[0])
  {
    SortedNamesAgree(x, y);
    if |x| == 1 { SingletonPermutation(x, y); }
  }

  /** Auto-selection does not depend on the order in which the subscriptions are listed, ties included. */
  lemma AutoSelectIgnoresOrder(
    config: Config, a: seq<Subscription>, b: seq<Subscription>, models: Option<seq<ModelObject>>, access: Access,
    q: Query)
    requires multiset(a) == multiset(b) && q.subscription == ""
    ensures Select(config, a, models, access, q) == Select(config, b, models, access, q)
  {
    SameLength(a, b);
    Priorities(a, b);
    var allowed := if access.Allowed? then Some(access.models) else None;
    AutoSelectSorted(config, ByPriority(a), ByPriority(b), q, ResolvedAlias(models, q.model), allowed);
  }

  function Plain(namespace: string): Subscription {
    Subscription("s", namespace, ["u"], [], 0, 0, [], PHASE_ACTIVE, false, [], false, map[], "")
  }

  /**
   An explicit bare name does depend on the listing order when two namespaces hold that name
   with equal priority and limit.
   */
  lemma BareNameTieDependsOnOrder()
    ensures var a, b := Plain("n1"), Plain("n2");
            var q, config := Query([], "u", "s", ""), Config("", None);
            && multiset([a, b]) == multiset([b, a])
            && Select(config, [a, b], None, NoChecker, q) != Select(config, [b, a], None, NoChecker, q)
  {
    var a, b := Plain("n1"), Plain("n2");
    var q, config := Query([], "u", "s", ""), Config("", None);
    BareNameTakesFirst(a, b, q, config);
    BareNameTakesFirst(b, a, q, config);
  }

  lemma SingletonSorted(b: Subscription)
    ensures StableSort(SubLess, [b]) == [b]
  {
    SortPermutes(SubLess, [b]);
    SameLength(StableSort(SubLess, [b]), [b]);
    SingletonPermutation(StableSort(SubLess, [b]), [b]);
  }

  lemma BareNameTakesFirst(a: Subscription, b: Subscription, q: Query, config: Config)
    requires a == Plain(a.namespace) && b == Plain(b.namespace) && q == Query([], "u", "s", "") &&
             config == Config("", None)
    ensures var r := Select(config, [a, b], None, NoChecker, q); r.Selected? && r.response.namespace == a.namespace
  {
    LessIrreflexive("s");
    assert [a, b][1..] == [b] && [b][1..] == [];
    SingletonSorted(b);
    assert !SubLess(b, a);
    assert ByPriority([a, b]) == InsertFront(SubLess, a, StableSort(SubLess, [b])) == [a, b];
    assert |a.namespace + "/" + a.name| > |"s"| && |b.namespace + "/" + b.name| > |"s"|;
    assert First([b], Qualified("s")) == None;
    assert First([a, b], Qualified("s")) == None;
    assert First([a, b], Bare("s")) == Some(a);
    assert UserHasAccess(a, "u", []);
  }

  // ---------------------------------------------------------------- only owned subscriptions

  function AllowedBy(access: Access): Option<set<ModelKey>> {
    if access.Allowed? then Some(access.models) else None
  }

  predicate Answers(s: Subscription, requested: string) {
    s.namespace + "/" + s.name == requested || ('/' !in requested && s.name == requested)
  }

  /**
   The result is the completion of this subscription, which is live, owned by the caller,
   and the one asked for if any was.
   */
  ghost predicate CompletionOf(
    config: Config, s: Subscription, q: Query, model: string, allowed: Option<set<ModelKey>>, r: Result)
  {
    && Owned(s, q) && (q.subscription != "" ==> Answers(s, q.subscription))
    && r == CompleteSelection(config, s, model, allowed)
  }

  lemma {:induction false} FirstFound(subs: seq<Subscription>, naming: Naming)
    ensures var f := First(subs, naming);
            && (f.Some? ==> f.value in subs && Live(f.value, naming))
            && (f.None? ==> forall s | s in subs :: !Live(s, naming))
  {
    if subs != [] {
      FirstFound(subs[1..], naming);
      assert subs == [subs[0]] + subs[1..];
    }
  }

  lemma {:induction false} KeepMembers(t: Test, subs: seq<Subscription>)
    ensures forall s | s in Keep(t, subs) :: s in subs && Passes(t, s)
  {
    if subs != [] { KeepMembers(t, subs[..|subs| - 1]); }
  }

  /** An explicit request is not found exactly when no live subscription answers to the name. */
  lemma ExplicitNotFoundIff(
    config: Config, sorted: seq<Subscription>, q: Query, model: string, allowed: Option<set<ModelKey>>)
    ensures ExplicitSelect(config, sorted, q, model, allowed).SubscriptionNotFound? <==>
            forall s | s in sorted && !s.deleting :: !Answers(s, q.subscription)
  {
    hide CompleteSelection;
    FirstFound(sorted, Qualified(q.subscription));
    FirstFound(sorted, Bare(q.subscription));
    forall s { CompletionCompletes(config, s, model, allowed); }
  }

  lemma ExplicitIsOwned(
    config: Config, sorted: seq<Subscription>, q: Query, model: string, allowed: Option<set<ModelKey>>)
    requires q.subscription != ""
    ensures var r := ExplicitSelect(config, sorted, q, model, allowed);
            Completed(r) ==> exists s :: s in sorted && CompletionOf(config, s, q, model, allowed, r)
  {
    hide CompleteSelection;
    FirstFound(sorted, Qualified(q.subscription));
    FirstFound(sorted, Bare(q.subscription));
    var r := ExplicitSelect(config, sorted, q, model, allowed);
    if Completed(r) {
      var s := ExplicitPick(sorted, q.subscription).value;
      assert s in sorted && CompletionOf(config, s, q, model, allowed, r);
    }
  }

  lemma AutoIsOwned(config: Config, sorted: seq<Subscription>, q: Query, model: string, allowed: Option<set<ModelKey>>)
    requires q.subscription == ""
    ensures var r := AutoSelect(config, sorted, q, model, allowed);
            Completed(r) ==> exists s :: s in sorted && CompletionOf(config, s, q, model, allowed, r)
  {
    hide CompleteSelection, Keep;
    var admitted := Keep(Admits(q, model, allowed), sorted);
    KeepMembers(Admits(q, model, allowed), sorted);
    KeepMembers(Authorizes(model, allowed), admitted);
    var r := AutoSelect(config, sorted, q, model, allowed);
    if Completed(r) {
      var candidates := if model != "" && allowed.Some? then Keep(Authorizes(model, allowed), admitted) else admitted;
      var s := candidates[0];
      assert s in admitted && Passes(Admits(q, model, allowed), s);
      assert s in sorted && CompletionOf(config, s, q, model, allowed, r);
    }
  }

  /** Whatever the request, a completed selection is of a listed subscription that is live and owned by the caller. */
  lemma SelectionIsOwned(
    config: Config, subs: seq<Subscription>, models: Option<seq<ModelObject>>, access: Access, q: Query)
    ensures var r := Select(config, subs, models, access, q);
            Completed(r) ==>
              exists s :: s in subs && CompletionOf(config, s, q, ResolvedAlias(models, q.model), AllowedBy(access), r)
  {
    hide CompleteSelection, ByPriority, AutoSelect, ExplicitSelect, ResolvedAlias;
    var model, allowed := ResolvedAlias(models, q.model), AllowedBy(access);
    Priorities(subs, subs);
    SameMembers(subs, ByPriority(subs));
    if q.subscription == "" {
      AutoIsOwned(config, ByPriority(subs), q, model, allowed);
    } else {
      ExplicitIsOwned(config, ByPriority(subs), q, model, allowed);
    }
  }

  // ---------------------------------------------------------------- explicit names and the listing order

  /** A live subscription of that name that no other one outranks. */
  ghost predicate Top(x: Subscription, subs: seq<Subscription>, naming: Naming) {
    x in subs && Live(x, naming) && forall y | y in subs && Live(y, naming) :: !SubLess(y, x)
  }

  ghost predicate OneTop(subs: seq<Subscription>, naming: Naming) {
    forall x, y | Top(x, subs, naming) && Top(y, subs, naming) :: x == y
  }

  lemma {:induction false} FirstIsTop(sorted: seq<Subscription>, naming: Naming)
    requires Sorted(SubLess, sorted)
    ensures First(sorted, naming).Some? ==> Top(First(sorted, naming).value, sorted, naming)
  {
    if sorted != [] {
      assert sorted == [sorted[0]] + sorted[1..];
      if Live(sorted[0], naming) {
        SubLessWeak();
        assert !SubLess(sorted[0], sorted[0]);
      } else {
        FirstIsTop(sorted[1..], naming);
      }
    }
  }

  /** Listed first, a top subscription of the name is the one picked. */
  lemma {:induction false} HeadWins(x: Subscription, s: seq<Subscription>, naming: Naming)
    requires Live(x, naming) && forall y | y in s && Live(y, naming) :: !SubLess(y, x)
    ensures First(InsertFront(SubLess, x, s), naming) == Some(x)
  {
    if s != [] && SubLess(s[0], x) {
      HeadWins(x, s[1..], naming);
      assert ([s[0]] + InsertFront(SubLess, x, s[1..]))[1..] == InsertFront(SubLess, x, s[1..]);
    }
  }

  /** A top subscription of the name is picked in some listing. */
  lemma TopPickedFirst(a: seq<Subscription>, x: Subscription, naming: Naming) returns (b: seq<Subscription>)
    requires Top(x, a, naming)
    ensures multiset(b) == multiset(a) && First(ByPriority(b), naming) == Some(x)
  {
    var i :| 0 <= i < |a| && a[i] == x;
    var rest := a[..i] + a[i + 1..];
    b := [x] + rest;
    assert a == a[..i] + [x] + a[i + 1..];
    assert b[1..] == rest;
    SortPermutes(SubLess, rest);
    forall y | y in StableSort(SubLess, rest) && Live(y, naming) ensures !SubLess(y, x) {
      assert y in multiset(rest);
      assert y in a;
    }
    HeadWins(x, StableSort(SubLess, rest), naming);
  }

  /** In every listing a name finds a subscription or in none does it; a single top one is found in all. */
  lemma SameFirst(a: seq<Subscription>, b: seq<Subscription>, naming: Naming)
    requires multiset(a) == multiset(b)
    ensures First(ByPriority(a), naming).Some? <==> exists s :: s in a && Live(s, naming)
    ensures First(ByPriority(a), naming).Some? <==> First(ByPriority(b), naming).Some?
    ensures OneTop(a, naming) ==> First(ByPriority(a), naming) == First(ByPriority(b), naming)
  {
    Priorities(a, b);
    FirstFound(ByPriority(a), naming);
    FirstFound(ByPriority(b), naming);
    FirstIsTop(ByPriority(a), naming);
    FirstIsTop(ByPriority(b), naming);
    hide ByPriority, SubLess, Live;
    SameMembers(a, ByPriority(a));
    SameMembers(a, ByPriority(b));
    var f, g := First(ByPriority(a), naming), First(ByPriority(b), naming);
    assert f.Some? ==> Top(f.value, a, naming);
    assert g.Some? ==> Top(g.value, a, naming);
  }

  ghost predicate SamePick(a: seq<Subscription>, b: seq<Subscription>, requested: string) {
    multiset(a) == multiset(b) ==> ExplicitPick(ByPriority(a), requested) == ExplicitPick(ByPriority(b), requested)
  }

  ghost predicate Named(subs: seq<Subscription>, naming: Naming) { exists s :: s in subs && Live(s, naming) }

  /**
   One live subscription of the qualified name outranks the others, or, if there is none,
   one of the bare name does.
   */
  ghost predicate Determined(subs: seq<Subscription>, requested: string) {
    if Named(subs, Qualified(requested)) then OneTop(subs, Qualified(requested))
    else '/' !in requested ==> OneTop(subs, Bare(requested))
  }

  /** An explicit name picks the same subscription in every listing exactly when the name is determined. */
  lemma ExplicitPickIff(a: seq<Subscription>, requested: string)
    ensures (forall b :: SamePick(a, b, requested)) <==> Determined(a, requested)
  {
    if Determined(a, requested) {
      forall b ensures SamePick(a, b, requested) {
        if multiset(a) == multiset(b) { DeterminedPick(a, b, requested); }
      }
    } else if Named(a, Qualified(requested)) {
      TiedPick(a, Qualified(requested));
    } else {
      TiedPick(a, Bare(requested));
    }
  }

  lemma DeterminedPick(a: seq<Subscription>, b: seq<Subscription>, requested: string)
    requires multiset(a) == multiset(b) && Determined(a, requested)
    ensures ExplicitPick(ByPriority(a), requested) == ExplicitPick(ByPriority(b), requested)
  {
    hide ByPriority, First, OneTop;
    SameFirst(a, b, Qualified(requested));
    SameFirst(a, b, Bare(requested));
  }

  /** Two top subscriptions of the name are picked in different listings. */
  lemma TiedPick(a: seq<Subscription>, naming: Naming)
    requires !OneTop(a, naming)
    requires naming.Bare? ==> '/' !in naming.requested && !Named(a, Qualified(naming.requested))
    ensures exists b :: !SamePick(a, b, naming.requested)
  {
    var x, y :| Top(x, a, naming) && Top(y, a, naming) && x != y;
    var b := TopPickedFirst(a, x, naming);
    var c := TopPickedFirst(a, y, naming);
    hide ByPriority, First, Top;
    if naming.Bare? {
      SameFirst(a, b, Qualified(naming.requested));
      SameFirst(a, c, Qualified(naming.requested));
    }
    assert !SamePick(a, b, naming.requested) || !SamePick(a, c, naming.requested);
  }

  /** The naming by which an explicit request finds its subscription, if it finds one. */
  ghost function Effective(subs: seq<Subscription>, requested: string): Naming {
    if Named(subs, Qualified(requested)) || '/' in requested then Qualified(requested) else Bare(requested)
  }

  /** The request gets as far as choosing among subscriptions by name. */
  predicate Chooses(subs: seq<Subscription>, access: Access, q: Query) {
    (q.groups != [] || q.username != "") && subs != [] && !access.CheckerFailed? && q.subscription != ""
  }

  /** All top subscriptions of the name asked for confirm to one result. */
  ghost predicate Agreed(
    config: Config, subs: seq<Subscription>, q: Query, model: string, allowed: Option<set<ModelKey>>)
  {
    forall x, y | Top(x, subs, Effective(subs, q.subscription)) && Top(y, subs, Effective(subs, q.subscription)) ::
      ConfirmExplicit(config, x, q, model, allowed) == ConfirmExplicit(config, y, q, model, allowed)
  }

  ghost predicate SameSelection(
    config: Config, a: seq<Subscription>, b: seq<Subscription>, models: Option<seq<ModelObject>>, access: Access,
    q: Query)
  {
    multiset(a) == multiset(b) ==> Select(config, a, models, access, q) == Select(config, b, models, access, q)
  }

  /** In every listing the pick is a top subscription of the effective naming, or there is none. */
  lemma PickIsTop(a: seq<Subscription>, b: seq<Subscription>, requested: string)
    requires multiset(a) == multiset(b)
    ensures var pick := ExplicitPick(ByPriority(b), requested);
            && (pick.Some? <==> Named(a, Effective(a, requested)))
            && (pick.Some? ==> Top(pick.value, a, Effective(a, requested)))
  {
    Priorities(a, b);
    SameMembers(a, ByPriority(b));
    FirstFound(ByPriority(b), Qualified(requested));
    FirstFound(ByPriority(b), Bare(requested));
    FirstIsTop(ByPriority(b), Qualified(requested));
    FirstIsTop(ByPriority(b), Bare(requested));
    hide ByPriority, First, SubLess, Live;
    var q, r := First(ByPriority(b), Qualified(requested)), First(ByPriority(b), Bare(requested));
    assert q.Some? ==> Top(q.value, a, Qualified(requested));
    assert r.Some? ==> Top(r.value, a, Bare(requested));
  }

  /** Every top subscription of the effective naming is the pick in some listing. */
  lemma TopIsPicked(a: seq<Subscription>, x: Subscription, requested: string) returns (b: seq<Subscription>)
    requires Top(x, a, Effective(a, requested))
    ensures multiset(b) == multiset(a) && ExplicitPick(ByPriority(b), requested) == Some(x)
  {
    b := TopPickedFirst(a, x, Effective(a, requested));
    hide ByPriority, First, Top;
    SameFirst(a, b, Qualified(requested));
  }

  /**
   The exact condition for a selection to be the same in every listing: when it
   chooses by name, all top subscriptions of that name confirm to one result.
   */
  lemma SelectIgnoresOrderIff(
    config: Config, a: seq<Subscription>, models: Option<seq<ModelObject>>, access: Access, q: Query)
    ensures (forall b :: SameSelection(config, a, b, models, access, q)) <==>
            (Chooses(a, access, q) ==> Agreed(config, a, q, ResolvedAlias(models, q.model), AllowedBy(access)))
  {
    var model, allowed := ResolvedAlias(models, q.model), AllowedBy(access);
    hide ByPriority, ResolvedAlias, ConfirmExplicit, AutoSelect, ExplicitPick, Top, Effective, Named;
    if Chooses(a, access, q) && !Agreed(config, a, q, model, allowed) {
      var naming := Effective(a, q.subscription);
      var x, y :| && Top(x, a, naming) && Top(y, a, naming)
                  && ConfirmExplicit(config, x, q, model, allowed) != ConfirmExplicit(config, y, q, model, allowed);
      var b := TopIsPicked(a, x, q.subscription);
      var c := TopIsPicked(a, y, q.subscription);
      SameLength(a, b);
      SameLength(a, c);
      assert !SameSelection(config, a, b, models, access, q) || !SameSelection(config, a, c, models, access, q);
    } else {
      forall b ensures SameSelection(config, a, b, models, access, q) {
        if multiset(a) == multiset(b) { AgreedSelection(config, a, b, models, access, q); }
      }
    }
  }

  lemma AgreedSelection(
    config: Config, a: seq<Subscription>, b: seq<Subscription>, models: Option<seq<ModelObject>>, access: Access,
    q: Query)
    requires multiset(a) == multiset(b)
    requires Chooses(a, access, q) ==> Agreed(config, a, q, ResolvedAlias(models, q.model), AllowedBy(access))
    ensures Select(config, a, models, access, q) == Select(config, b, models, access, q)
  {
    hide ByPriority, ResolvedAlias, ConfirmExplicit, AutoSelect, ExplicitPick, Top, Effective, Named;
    SameLength(a, b);
    if q.subscription == "" {
      AutoSelectIgnoresOrder(config, a, b, models, access, q);
    } else {
      PickIsTop(a, a, q.subscription);
      PickIsTop(a, b, q.subscription);
    }
  }

  // ---------------------------------------------------------------- granted selections

  /**
   A selection that grants access, from the request to the reference: it is of a
   listed, live subscription the caller owns and, if one was named, asked for;
   without a model that subscription is reconciled and has not failed; with a
   model there is an access checker, and everything in the response is about one
   authorized reference.
   */
  lemma GrantedSelection(
    config: Config, subs: seq<Subscription>, models: Option<seq<ModelObject>>, access: Access, q: Query)
    returns (s: Subscription)
    requires Grants(Select(config, subs, models, access, q))
    ensures s in subs && Owned(s, q) && (q.subscription != "" ==> Answers(s, q.subscription))
    ensures var model, resp := ResolvedAlias(models, q.model), Select(config, subs, models, access, q).response;
            if model == "" then s.phase != "" && s.phase != PHASE_FAILED
            else access.Allowed? && exists ref :: AboutOneRef(config, s, model, access.models, resp, ref)
  {
    var model, allowed := ResolvedAlias(models, q.model), AllowedBy(access);
    var r := Select(config, subs, models, access, q);
    SelectionIsOwned(config, subs, models, access, q);
    hide Select, ResolvedAlias, CompleteSelection, AboutOneRef;
    s :| s in subs && CompletionOf(config, s, q, model, allowed, r);
    if model == "" {
      WithoutModel(config, s, allowed);
    } else {
      if allowed.None? { WithoutChecker(config, s, model); }
      OneRefThroughout(config, s, model, allowed);
    }
  }

  lemma SameMembers(a: seq<Subscription>, b: seq<Subscription>)
    requires multiset(a) == multiset(b)
    ensures forall x :: x in a <==> x in b
  {
    assert forall x :: (x in a <==> x in multiset(a)) && (x in b <==> x in multiset(b));
  }

  // ---------------------------------------------------------------- what auto-selection selects

  /** The result came out of completing the selection of some subscription. */
  predicate Completed(r: Result) { r.Selected? || r.ModelUnhealthy? || r.GuardrailsUnresolved? }

  /**
   With a model and an access checker, auto-selection completes on a
   subscription exactly when it is the only one, in listing order, that is not
   being deleted, that the caller owns and whose resolved model is authorized.
   */
  lemma AutoSelectsTheOnlyAuthorized(
    config: Config, subs: seq<Subscription>, q: Query, model: string, allowed: set<ModelKey>)
    requires model != ""
    ensures var r := AutoSelect(config, ByPriority(subs), q, model, Some(allowed));
            var qualifying := Keep(Qualifies(q, model, Some(allowed)), subs);
            && (Completed(r) <==> |qualifying| == 1)
            && (|qualifying| == 1 ==> r == CompleteSelection(config, qualifying[0], model, Some(allowed)))
            && (r.MultipleSubscriptions? <==> |qualifying| > 1)
            && (|qualifying| == 0 ==>
                  r == if Keep(Admits(q, model, Some(allowed)), subs) == [] then NoSubscription else AccessDenied(""))
  {
    hide CompleteSelection, ByPriority, Keep, NamesOf;
    var some := Some(allowed);
    var sorted := ByPriority(subs);
    Priorities(subs, subs);
    TwoFiltersAreOne(sorted, q, model, some);
    var t := Qualifies(q, model, some);
    KeepPermutes(t, sorted, subs);
    KeepPermutes(Admits(q, model, some), sorted, subs);
    var x, y := Keep(t, sorted), Keep(t, subs);
    NothingAdmitted(Authorizes(model, some), Keep(Admits(q, model, some), sorted));
    if |y| == 1 {
      SingletonPermutation(x, y);
      CompletionCompletes(config, y[0], model, some);
    }
  }

  /** The same of the whole selection, for a request that names a model but no subscription. */
  lemma AutoSelection(
    config: Config, subs: seq<Subscription>, models: Option<seq<ModelObject>>, allowed: set<ModelKey>, q: Query)
    requires q.subscription == "" && (q.groups != [] || q.username != "") && ResolvedAlias(models, q.model) != ""
    ensures var r := Select(config, subs, models, Allowed(allowed), q);
            var model := ResolvedAlias(models, q.model);
            var qualifying := Keep(Qualifies(q, model, Some(allowed)), subs);
            && (Completed(r) <==> |qualifying| == 1)
            && (|qualifying| == 1 ==> r == CompleteSelection(config, qualifying[0], model, Some(allowed)))
  {
    hide CompleteSelection, ByPriority, AutoSelect, ResolvedAlias;
    if subs != [] { AutoSelectsTheOnlyAuthorized(config, subs, q, ResolvedAlias(models, q.model), allowed); }
  }

  lemma CompletionCompletes(config: Config, sub: Subscription, model: string, allowed: Option<set<ModelKey>>)
    ensures Completed(CompleteSelection(config, sub, model, allowed))
  {}

  lemma SingletonPermutation(x: seq<Subscription>, y: seq<Subscription>)
    requires multiset(x) == multiset(y) && |x| == |y| == 1
    ensures x[0] == y[0]
  {
    assert x == [x[0]] && y == [y[0]];
    assert x[0] in multiset(y);
  }

  lemma NothingAdmitted(u: Test, admitted: seq<Subscription>)
    ensures admitted == [] ==> Keep(u, admitted) == []
  {}
}
