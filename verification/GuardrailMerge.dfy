/**
 Merging of resolved guardrail selections into one execution plan
 (maas-common/pkg/guardrail/merge.go).

 `Merge` folds the selections into a map, walks that map in an arbitrary order
 and sorts. `IsPlan` describes the plan without naming any order of selections
 or of map keys; the plan it describes is unique, which makes the merge
 canonical, additive and idempotent.
 */
module GuardrailMerge {
  import opened Orders

  const PHASE_INPUT := "Input"
  const PHASE_OUTPUT := "Output"

  datatype Check = Check(name: string, specIndex: int, phases: seq<string>)

  datatype Policy = Policy(
    namespace: string, name: string, uid: string, generation: int, bindingRevision: string,
    checks: seq<Check>)

  datatype Identity = Identity(
    namespace: string, name: string, uid: string, generation: int, bindingRevision: string)

  datatype Source = Source(kind: string, namespace: string, name: string, uid: string, path: string)

  datatype Selection = Selection(policy: Policy, source: Source)

  datatype SelectedCheck = SelectedCheck(policy: Identity, check: Check, sources: seq<Source>)

  datatype MergeError = PolicySnapshotConflict | InvalidCheckMetadata

  datatype MergeResult = Plan(checks: seq<SelectedCheck>) | Failed(error: MergeError)

  datatype CheckKey = CheckKey(namespace: string, name: string, check: string)
  datatype IndexKey = IndexKey(namespace: string, name: string, index: int)
  datatype PolicyKey = PolicyKey(namespace: string, name: string)

  function IdentityOf(p: Policy): Identity {
    Identity(p.namespace, p.name, p.uid, p.generation, p.bindingRevision)
  }

  function PolicyKeyOf(p: Policy): PolicyKey { PolicyKey(p.namespace, p.name) }

  predicate SourceLess(a: Source, b: Source) {
    if a.kind != b.kind then Less(a.kind, b.kind)
    else if a.namespace != b.namespace then Less(a.namespace, b.namespace)
    else if a.name != b.name then Less(a.name, b.name)
    else if a.uid != b.uid then Less(a.uid, b.uid)
    else Less(a.path, b.path)
  }

  /** The comparator of `sortChecks`: policy name, then namespace, then spec index. */
  predicate CheckLess(a: SelectedCheck, b: SelectedCheck) {
    if a.policy.name != b.policy.name then Less(a.policy.name, b.policy.name)
    else if a.policy.namespace != b.policy.namespace then Less(a.policy.namespace, b.policy.namespace)
    else a.check.specIndex < b.check.specIndex
  }

  lemma SourceLessTransitive(a: Source, b: Source, c: Source)
    requires SourceLess(a, b) && SourceLess(b, c)
    ensures SourceLess(a, c)
  {
    LessTotal();
  }

  lemma SourceLessTrichotomy(a: Source, b: Source)
    ensures !SourceLess(a, a) && (a == b || SourceLess(a, b) || SourceLess(b, a))
  {
    LessIrreflexive(a.path);
    LessTrichotomy(a.kind, b.kind);
    LessTrichotomy(a.namespace, b.namespace);
    LessTrichotomy(a.name, b.name);
    LessTrichotomy(a.uid, b.uid);
    LessTrichotomy(a.path, b.path);
  }

  lemma SourceLessTotal()
    ensures StrictTotal(SourceLess)
  {
    forall a, b, c | SourceLess(a, b) && SourceLess(b, c) ensures SourceLess(a, c) {
      SourceLessTransitive(a, b, c);
    }
    forall a, b ensures !SourceLess(a, a) && (a == b || SourceLess(a, b) || SourceLess(b, a)) {
      SourceLessTrichotomy(a, b);
    }
  }

  lemma CheckLessTransitive(a: SelectedCheck, b: SelectedCheck, c: SelectedCheck)
    requires CheckLess(a, b) && CheckLess(b, c)
    ensures CheckLess(a, c)
  {
    var p, q, r := a.policy, b.policy, c.policy;
    if Less(p.name, q.name) && Less(q.name, r.name) { LessTransitive(p.name, q.name, r.name); }
    if Less(p.namespace, q.namespace) && Less(q.namespace, r.namespace) {
      LessTransitive(p.namespace, q.namespace, r.namespace);
    }
    LessIrreflexive(p.name);
    LessIrreflexive(p.namespace);
  }

  /** Incomparability is transitive: whatever lies between two ordered checks is ordered with one of them. */
  lemma CheckLessSplits(a: SelectedCheck, b: SelectedCheck, c: SelectedCheck)
    requires CheckLess(a, c)
    ensures CheckLess(a, b) || CheckLess(b, c)
  {
    LessSplits(a.policy.name, b.policy.name, c.policy.name);
    LessSplits(a.policy.namespace, b.policy.namespace, c.policy.namespace);
    LessTrichotomy(a.policy.name, b.policy.name);
    LessTrichotomy(a.policy.namespace, b.policy.namespace);
    LessIrreflexive(a.policy.name);
    LessIrreflexive(a.policy.namespace);
  }

  lemma LessSplits(a: string, b: string, c: string)
    ensures Less(a, c) ==> Less(a, b) || Less(b, c)
  {
    LessTrichotomy(a, b);
    if Less(a, c) && Less(b, a) { LessTransitive(b, a, c); }
  }

  lemma CheckLessWeak()
    ensures StrictWeak(CheckLess)
  {
    forall a, b, c | CheckLess(a, b) && CheckLess(b, c) ensures CheckLess(a, c) { CheckLessTransitive(a, b, c); }
    forall a, b, c | CheckLess(a, c) ensures CheckLess(a, b) || CheckLess(b, c) { CheckLessSplits(a, b, c); }
  }

  // ---------------------------------------------------------------- what a plan is

  /** One check selected by one selection. */
  datatype Contribution = Contribution(sel: Selection, check: Check)

  function KeyOf(x: Contribution): CheckKey {
    CheckKey(x.sel.policy.namespace, x.sel.policy.name, x.check.name)
  }

  function PlanKey(sc: SelectedCheck): CheckKey {
    CheckKey(sc.policy.namespace, sc.policy.name, sc.check.name)
  }

  function IndexKeyOf(x: Contribution): IndexKey {
    IndexKey(x.sel.policy.namespace, x.sel.policy.name, x.check.specIndex)
  }

  function Normal(c: Check): Check { c.(phases := StableSort(Less, c.phases)) }

  ghost function Contributions(sels: seq<Selection>): set<Contribution> {
    set i, j | 0 <= i < |sels| && 0 <= j < |sels[i].policy.checks| ::
      Contribution(sels[i], sels[i].policy.checks[j])
  }

  ghost function Keys(cs: set<Contribution>): set<CheckKey> { set x | x in cs :: KeyOf(x) }

  ghost function PlanKeys(plan: seq<SelectedCheck>): set<CheckKey> { set sc | sc in plan :: PlanKey(sc) }

  ghost function SourcesOf(cs: set<Contribution>, k: CheckKey): set<Source> {
    set x | x in cs && KeyOf(x) == k :: x.sel.source
  }

  ghost function Elements<T>(s: seq<T>): set<T> { set x | x in s }

  ghost predicate ValidPhases(phases: seq<string>) {
    && phases != []
    && (forall i | 0 <= i < |phases| :: phases[i] == PHASE_INPUT || phases[i] == PHASE_OUTPUT)
    && (forall i, j | 0 <= i < j < |phases| :: phases[i] != phases[j])
  }

  /** All selections of one policy carry the same UID, generation and binding revision. */
  ghost predicate SnapshotsAgree(sels: seq<Selection>) {
    forall s, t | s in sels && t in sels && PolicyKeyOf(s.policy) == PolicyKeyOf(t.policy) ::
      IdentityOf(s.policy) == IdentityOf(t.policy)
  }

  /** Pairwise consistency of check metadata. */
  ghost predicate MetadataValid(cs: set<Contribution>) {
    && (forall x | x in cs :: ValidPhases(x.check.phases) && x.check.specIndex >= 0)
    && (forall x, y | x in cs && y in cs && IndexKeyOf(x) == IndexKeyOf(y) :: x.check.name == y.check.name)
    && (forall x, y | x in cs && y in cs && KeyOf(x) == KeyOf(y) ::
          x.check.specIndex == y.check.specIndex && multiset(x.check.phases) == multiset(y.check.phases))
  }

  /** The entry `sc` records exactly what the contributions under its key say. */
  ghost predicate Records(cs: set<Contribution>, sc: SelectedCheck) {
    && PlanKey(sc) in Keys(cs)
    && (forall x | x in cs && KeyOf(x) == PlanKey(sc) ::
          sc.policy == IdentityOf(x.sel.policy) && sc.check == Normal(x.check))
    && Elements(sc.sources) == SourcesOf(cs, PlanKey(sc))
  }

  ghost predicate IsPlan(cs: set<Contribution>, plan: seq<SelectedCheck>) {
    && StrictlySorted(CheckLess, plan)
    && PlanKeys(plan) == Keys(cs)
    && (forall sc | sc in plan :: Records(cs, sc) && StrictlySorted(SourceLess, sc.sources))
  }

  ghost predicate MergeOutcome(sels: seq<Selection>, r: MergeResult) {
    if !SnapshotsAgree(sels) then r == Failed(PolicySnapshotConflict)
    else if !MetadataValid(Contributions(sels)) then r == Failed(InvalidCheckMetadata)
    else r.Plan? && IsPlan(Contributions(sels), r.checks)
  }

  // ---------------------------------------------------------------- the merge itself

  method CheckSnapshotConsistency(sels: seq<Selection>) returns (ok: bool)
    ensures ok <==> SnapshotsAgree(sels)
  {
    var seen: map<PolicyKey, Identity> := map[];
    for i := 0 to |sels|
      invariant forall j | 0 <= j < i ::
                  PolicyKeyOf(sels[j].policy) in seen && seen[PolicyKeyOf(sels[j].policy)] == IdentityOf(sels[j].policy)
      invariant forall k | k in seen ::
                  exists j :: 0 <= j < i && PolicyKeyOf(sels[j].policy) == k && IdentityOf(sels[j].policy) == seen[k]
    {
      var key := PolicyKeyOf(sels[i].policy);
      if key !in seen {
        seen := seen[key := IdentityOf(sels[i].policy)];
      } else if seen[key] != IdentityOf(sels[i].policy) {
        return false;
      }
    }
    return true;
  }

  lemma {:induction false} SortedAdjacentDistinct(s: seq<string>)
    requires Sorted(Less, s)
    ensures (forall i | 1 <= i < |s| :: s[i] != s[i - 1]) <==> StrictlySorted(Less, s)
  {
    LessTotal();
    if forall i | 1 <= i < |s| :: s[i] != s[i - 1] {
      if |s| > 1 {
        var t := s[..|s| - 1];
        assert forall i | 0 <= i < |t| :: t[i] == s[i];
        SortedAdjacentDistinct(t);
        assert !Less(s[|s| - 1], s[|s| - 2]) && s[|s| - 1] != s[|s| - 2];
        forall i, j | 0 <= i < j < |s| ensures Less(s[i], s[j]) {
          if j < |s| - 1 {
            assert Less(t[i], t[j]);
          } else if i < |s| - 2 {
            assert Less(t[i], t[|t| - 1]);
          }
        }
      }
    }
  }

  /** A sorted arrangement increases strictly exactly when the sequence has no duplicate. */
  lemma {:induction false} SortedDistinct(s: seq<string>)
    ensures StrictlySorted(Less, StableSort(Less, s)) <==> (forall i, j | 0 <= i < j < |s| :: s[i] != s[j])
  {
    LessTotal();
    TotalIsWeak(Less);
    if forall i, j | 0 <= i < j < |s| :: s[i] != s[j] {
      SortStrict(Less, s);
    } else {
      var i, j :| 0 <= i < j < |s| && s[i] == s[j];
      DuplicateCounts(s, i, j);
      SortPermutes(Less, s);
      if StrictlySorted(Less, StableSort(Less, s)) {
        StrictMultiplicity(StableSort(Less, s), s[i]);
        assert false;
      }
    }
  }

  lemma DuplicateCounts(s: seq<string>, i: nat, j: nat)
    requires i < j < |s| && s[i] == s[j]
    ensures multiset(s)[s[i]] >= 2
  {
    assert s == s[..i] + [s[i]] + s[i + 1..j] + [s[j]] + s[j + 1..];
  }

  lemma {:induction false} StrictMultiplicity(s: seq<string>, x: string)
    requires StrictlySorted(Less, s)
    ensures multiset(s)[x] <= 1
  {
    LessTotal();
    if s != [] {
      StrictMultiplicity(s[1..], x);
      assert s == [s[0]] + s[1..];
      assert forall i | 0 <= i < |s[1..]| :: s[1..][i] == s[i + 1] && Less(s[0], s[i + 1]);
      assert s[0] !in s[1..];
    }
  }

  /** Comparing neighbours after sorting finds every duplicate. */
  lemma AdjacentDecides(s: seq<string>)
    ensures (forall i, j | 0 <= i < j < |s| :: s[i] != s[j]) <==>
            (var out := StableSort(Less, s); forall i | 1 <= i < |out| :: out[i] != out[i - 1])
  {
    LessTotal();
    TotalIsWeak(Less);
    SortSorts(Less, s);
    SortedDistinct(s);
    SortedAdjacentDistinct(StableSort(Less, s));
  }

  datatype PhaseResult = Phases(sorted: seq<string>) | BadPhases

  method ValidateAndSortPhases(phases: seq<string>) returns (r: PhaseResult)
    ensures r == if ValidPhases(phases) then Phases(StableSort(Less, phases)) else BadPhases
  {
    if |phases| == 0 { return BadPhases; }
    for i := 0 to |phases|
      invariant forall j | 0 <= j < i :: phases[j] == PHASE_INPUT || phases[j] == PHASE_OUTPUT
    {
      if phases[i] != PHASE_INPUT && phases[i] != PHASE_OUTPUT { return BadPhases; }
    }
    var out := StableSort(Less, phases);
    AdjacentDecides(phases);
    for i := 1 to |out|
      invariant forall j | 1 <= j < i :: out[j] != out[j - 1]
    {
      if out[i] == out[i - 1] { return BadPhases; }
    }
    return Phases(out);
  }

  method DedupeSources(sources: seq<Source>) returns (out: seq<Source>)
    ensures StrictlySorted(SourceLess, out)
    ensures Elements(out) == Elements(sources)
  {
    var seen: set<Source> := {};
    out := [];
    for i := 0 to |sources|
      invariant seen == Elements(out) == Elements(sources[..i])
      invariant forall j, k | 0 <= j < k < |out| :: out[j] != out[k]
    {
      assert sources[..i + 1] == sources[..i] + [sources[i]];
      if sources[i] !in seen {
        seen := seen + {sources[i]};
        out := out + [sources[i]];
      }
    }
    assert sources[..|sources|] == sources;
    SourceLessTotal();
    TotalIsWeak(SourceLess);
    SortStrict(SourceLess, out);
    out := StableSort(SourceLess, out);
  }

  /** The loop invariant of `Merge`: the two maps describe the contributions seen so far. */
  ghost predicate Accumulated(
    cs: set<Contribution>, index: map<CheckKey, SelectedCheck>, owners: map<IndexKey, string>)
  {
    && MetadataValid(cs)
    && IndexRecords(cs, index)
    && OwnersRecord(cs, owners)
  }

  ghost predicate IndexRecords(cs: set<Contribution>, index: map<CheckKey, SelectedCheck>) {
    && index.Keys == Keys(cs)
    && (forall k | k in index :: PlanKey(index[k]) == k && Records(cs, index[k]))
  }

  ghost predicate OwnersRecord(cs: set<Contribution>, owners: map<IndexKey, string>) {
    && owners.Keys == (set x | x in cs :: IndexKeyOf(x))
    && (forall x | x in cs :: owners[IndexKeyOf(x)] == x.check.name)
  }

  lemma SortedPhasesDecide(a: seq<string>, b: seq<string>)
    ensures StableSort(Less, a) == StableSort(Less, b) <==> multiset(a) == multiset(b)
  {
    SortPermutes(Less, a);
    SortPermutes(Less, b);
    if multiset(a) == multiset(b) {
      LessTotal();
      TotalIsWeak(Less);
      SortForgetsOrder(Less, a, b);
    }
  }

  /** Adds one contribution to the maps, or reports the conflict that forbids it. */
  method AddContribution(
    ghost cs: set<Contribution>, x: Contribution,
    index: map<CheckKey, SelectedCheck>, owners: map<IndexKey, string>)
    returns (ok: bool, index': map<CheckKey, SelectedCheck>, owners': map<IndexKey, string>)
    requires Accumulated(cs, index, owners)
    requires SameIdentity(cs, x)
    ensures ok <==> MetadataValid(cs + {x})
    ensures ok ==> Accumulated(cs + {x}, index', owners')
  {
    index', owners' := index, owners;
    var phases := ValidateAndSortPhases(x.check.phases);
    if phases.BadPhases? || x.check.specIndex < 0 {
      assert x in cs + {x};
      return false, index, owners;
    }
    if IndexKeyOf(x) in owners && owners[IndexKeyOf(x)] != x.check.name {
      OwnerConflict(cs, x, index, owners);
      return false, index, owners;
    }
    owners' := owners[IndexKeyOf(x) := x.check.name];
    var key := KeyOf(x);
    var c := x.check.(phases := phases.sorted);
    if key !in index {
      AddedMetadata(cs, x, index, owners);
      RecordsFirst(cs, x);
      index' := index[key := SelectedCheck(IdentityOf(x.sel.policy), c, [x.sel.source])];
    } else {
      var existing := index[key];
      if existing.check.specIndex != c.specIndex || existing.check.phases != c.phases {
        MetadataConflict(cs, x, index, owners);
        return false, index, owners;
      }
      AddedMetadata(cs, x, index, owners);
      RecordsMore(cs, x, existing);
      index' := index[key := existing.(sources := existing.sources + [x.sel.source])];
    }
    AddedRecords(cs, x, index, index'[key]);
    AddedOwner(cs, x, owners);
    ok := true;
  }

  ghost predicate SameIdentity(cs: set<Contribution>, x: Contribution) {
    forall y | y in cs && PolicyKeyOf(y.sel.policy) == PolicyKeyOf(x.sel.policy) ::
      IdentityOf(y.sel.policy) == IdentityOf(x.sel.policy)
  }

  lemma OwnerConflict(
    cs: set<Contribution>, x: Contribution, index: map<CheckKey, SelectedCheck>, owners: map<IndexKey, string>)
    requires Accumulated(cs, index, owners)
    requires IndexKeyOf(x) in owners && owners[IndexKeyOf(x)] != x.check.name
    ensures !MetadataValid(cs + {x})
  {
    var y :| y in cs && IndexKeyOf(y) == IndexKeyOf(x);
    assert x in cs + {x} && y in cs + {x};
  }

  lemma MetadataConflict(
    cs: set<Contribution>, x: Contribution, index: map<CheckKey, SelectedCheck>, owners: map<IndexKey, string>)
    requires Accumulated(cs, index, owners) && KeyOf(x) in index
    requires index[KeyOf(x)].check.specIndex != x.check.specIndex ||
             index[KeyOf(x)].check.phases != Normal(x.check).phases
    ensures !MetadataValid(cs + {x})
  {
    var y :| y in cs && KeyOf(y) == KeyOf(x);
    assert x in cs + {x} && y in cs + {x};
    assert index[KeyOf(x)].check == Normal(y.check);
    SortedPhasesDecide(y.check.phases, x.check.phases);
  }

  lemma AddedOwner(cs: set<Contribution>, x: Contribution, owners: map<IndexKey, string>)
    requires OwnersRecord(cs, owners)
    requires IndexKeyOf(x) in owners ==> owners[IndexKeyOf(x)] == x.check.name
    ensures OwnersRecord(cs + {x}, owners[IndexKeyOf(x) := x.check.name])
  {
    assert (set y | y in cs + {x} :: IndexKeyOf(y)) == (set y | y in cs :: IndexKeyOf(y)) + {IndexKeyOf(x)};
    forall y | y in cs ensures IndexKeyOf(y) in owners { }
  }

  lemma AddedMetadata(
    cs: set<Contribution>, x: Contribution, index: map<CheckKey, SelectedCheck>, owners: map<IndexKey, string>)
    requires Accumulated(cs, index, owners)
    requires ValidPhases(x.check.phases) && x.check.specIndex >= 0
    requires IndexKeyOf(x) in owners ==> owners[IndexKeyOf(x)] == x.check.name
    requires KeyOf(x) in index ==>
      index[KeyOf(x)].check.specIndex == x.check.specIndex && index[KeyOf(x)].check.phases == Normal(x.check).phases
    ensures MetadataValid(cs + {x})
  {
    forall y | y in cs && IndexKeyOf(y) == IndexKeyOf(x) ensures y.check.name == x.check.name {
      assert IndexKeyOf(y) in owners;
    }
    forall y | y in cs && KeyOf(y) == KeyOf(x)
      ensures y.check.specIndex == x.check.specIndex && multiset(y.check.phases) == multiset(x.check.phases)
    {
      assert KeyOf(y) in Keys(cs);
      assert index[KeyOf(x)].check == Normal(y.check);
      SortedPhasesDecide(y.check.phases, x.check.phases);
    }
  }

  lemma RecordsOther(cs: set<Contribution>, x: Contribution, sc: SelectedCheck)
    requires Records(cs, sc) && PlanKey(sc) != KeyOf(x)
    ensures Records(cs + {x}, sc)
  {
    assert Keys(cs + {x}) == Keys(cs) + {KeyOf(x)};
    assert SourcesOf(cs + {x}, PlanKey(sc)) == SourcesOf(cs, PlanKey(sc));
  }

  lemma RecordsFirst(cs: set<Contribution>, x: Contribution)
    requires KeyOf(x) !in Keys(cs)
    ensures Records(cs + {x}, SelectedCheck(IdentityOf(x.sel.policy), Normal(x.check), [x.sel.source]))
  {
    forall y | y in cs ensures KeyOf(y) != KeyOf(x) { assert KeyOf(y) in Keys(cs); }
    assert x in cs + {x};
    assert SourcesOf(cs + {x}, KeyOf(x)) == {x.sel.source};
  }

  lemma RecordsMore(cs: set<Contribution>, x: Contribution, sc: SelectedCheck)
    requires Records(cs, sc) && PlanKey(sc) == KeyOf(x) && MetadataValid(cs + {x}) && SameIdentity(cs, x)
    ensures Records(cs + {x}, sc.(sources := sc.sources + [x.sel.source]))
  {
    var y :| y in cs && KeyOf(y) == KeyOf(x);
    assert x in cs + {x} && y in cs + {x};
    SortedPhasesDecide(y.check.phases, x.check.phases);
    assert SourcesOf(cs + {x}, KeyOf(x)) == SourcesOf(cs, KeyOf(x)) + {x.sel.source};
    assert Elements(sc.sources + [x.sel.source]) == Elements(sc.sources) + {x.sel.source};
  }

  lemma AddedRecords(cs: set<Contribution>, x: Contribution, index: map<CheckKey, SelectedCheck>, sc: SelectedCheck)
    requires IndexRecords(cs, index)
    requires PlanKey(sc) == KeyOf(x) && Records(cs + {x}, sc)
    ensures IndexRecords(cs + {x}, index[KeyOf(x) := sc])
  {
    assert Keys(cs + {x}) == Keys(cs) + {KeyOf(x)};
    forall k | k in index && k != KeyOf(x) ensures PlanKey(index[k]) == k && Records(cs + {x}, index[k]) {
      RecordsOther(cs, x, index[k]);
    }
  }

  lemma FewerContributions(cs: set<Contribution>, ds: set<Contribution>)
    requires cs <= ds && MetadataValid(ds)
    ensures MetadataValid(cs)
  {
  }

  ghost function FromSelection(sel: Selection, n: nat): set<Contribution>
    requires n <= |sel.policy.checks|
  {
    set j | 0 <= j < n :: Contribution(sel, sel.policy.checks[j])
  }

  lemma ContributionsStep(sels: seq<Selection>, i: nat)
    requires i < |sels|
    ensures Contributions(sels[..i + 1]) == Contributions(sels[..i]) + FromSelection(sels[i], |sels[i].policy.checks|)
    ensures Contributions(sels[..i + 1]) <= Contributions(sels)
  {
    forall c | c in Contributions(sels[..i + 1])
      ensures c in Contributions(sels[..i]) + FromSelection(sels[i], |sels[i].policy.checks|)
    {
      var k, j :| 0 <= k < i + 1 && 0 <= j < |sels[k].policy.checks| &&
        c == Contribution(sels[k], sels[k].policy.checks[j]);
      if k < i { assert sels[..i][k] == sels[k]; }
    }
    forall c | c in Contributions(sels[..i]) ensures c in Contributions(sels[..i + 1]) {
      var k, j :| 0 <= k < i && 0 <= j < |sels[k].policy.checks| &&
        c == Contribution(sels[k], sels[k].policy.checks[j]);
      assert sels[..i + 1][k] == sels[k];
    }
    assert sels[..i + 1][i] == sels[i];
  }

  lemma FromSelectionStep(sel: Selection, j: nat)
    requires j < |sel.policy.checks|
    ensures FromSelection(sel, j + 1) == FromSelection(sel, j) + {Contribution(sel, sel.policy.checks[j])}
    ensures FromSelection(sel, j + 1) <= FromSelection(sel, |sel.policy.checks|)
  {
  }

  lemma ShareIdentity(sels: seq<Selection>, cs: set<Contribution>, x: Contribution)
    requires SnapshotsAgree(sels) && cs <= Contributions(sels) && x.sel in sels
    ensures SameIdentity(cs, x)
  {
    forall y | y in cs ensures y.sel in sels { assert y in Contributions(sels); }
  }

  method Merge(sels: seq<Selection>) returns (r: MergeResult)
    ensures MergeOutcome(sels, r)
  {
    var consistent := CheckSnapshotConsistency(sels);
    if !consistent { return Failed(PolicySnapshotConflict); }
    var index: map<CheckKey, SelectedCheck> := map[];
    var owners: map<IndexKey, string> := map[];
    ghost var cs: set<Contribution> := {};
    for i := 0 to |sels|
      invariant cs == Contributions(sels[..i]) && Accumulated(cs, index, owners)
    {
      ContributionsStep(sels, i);
      var ok;
      ok, index, owners := AddSelection(sels, sels[i], cs, index, owners);
      if !ok { return Failed(InvalidCheckMetadata); }
      cs := cs + FromSelection(sels[i], |sels[i].policy.checks|);
    }
    assert sels[..|sels|] == sels;
    var checks := CollectChecks(cs, index);
    r := Plan(checks);
  }

  /** The inner loop of `Merge`: every check of one selection. */
  method AddSelection(
    ghost sels: seq<Selection>, sel: Selection, ghost before: set<Contribution>,
    index0: map<CheckKey, SelectedCheck>, owners0: map<IndexKey, string>)
    returns (ok: bool, index: map<CheckKey, SelectedCheck>, owners: map<IndexKey, string>)
    requires Accumulated(before, index0, owners0) && SnapshotsAgree(sels) && sel in sels
    requires before + FromSelection(sel, |sel.policy.checks|) <= Contributions(sels)
    ensures !ok ==> !MetadataValid(Contributions(sels))
    ensures ok ==> Accumulated(before + FromSelection(sel, |sel.policy.checks|), index, owners)
  {
    index, owners := index0, owners0;
    ghost var cs := before;
    for j := 0 to |sel.policy.checks|
      invariant cs == before + FromSelection(sel, j) && Accumulated(cs, index, owners)
    {
      var x := Contribution(sel, sel.policy.checks[j]);
      FromSelectionStep(sel, j);
      ShareIdentity(sels, cs, x);
      ok, index, owners := AddContribution(cs, x, index, owners);
      cs := cs + {x};
      if !ok {
        if MetadataValid(Contributions(sels)) { FewerContributions(cs, Contributions(sels)); }
        return;
      }
    }
    ok := true;
  }

  /** Walks the index in whatever order the map yields its keys, then sorts. */
  method CollectChecks(ghost cs: set<Contribution>, index: map<CheckKey, SelectedCheck>)
    returns (checks: seq<SelectedCheck>)
    requires MetadataValid(cs) && IndexRecords(cs, index)
    ensures IsPlan(cs, checks)
  {
    checks := [];
    var pending := index.Keys;
    while pending != {}
      invariant pending <= index.Keys && Collected(cs, checks, index.Keys - pending)
    {
      var k :| k in pending;
      var sources := DedupeSources(index[k].sources);
      var sc := index[k].(sources := sources);
      RecordsSources(cs, index[k], sources);
      CollectOne(cs, checks, index.Keys - pending, sc);
      assert index.Keys - (pending - {k}) == index.Keys - pending + {k};
      checks := checks + [sc];
      pending := pending - {k};
    }
    assert index.Keys - pending == index.Keys;
    SortedChecksArePlan(cs, checks);
    checks := SortChecks(checks);
  }

  function SortChecks(checks: seq<SelectedCheck>): seq<SelectedCheck> { StableSort(CheckLess, checks) }

  lemma RecordsSources(cs: set<Contribution>, sc: SelectedCheck, sources: seq<Source>)
    requires Records(cs, sc) && Elements(sources) == Elements(sc.sources)
    ensures Records(cs, sc.(sources := sources))
  {
  }

  /** `checks` holds one finished entry for each of `keys`, in any order. */
  ghost predicate Collected(cs: set<Contribution>, checks: seq<SelectedCheck>, keys: set<CheckKey>) {
    && PlanKeys(checks) == keys
    && (forall sc | sc in checks :: Records(cs, sc) && StrictlySorted(SourceLess, sc.sources))
    && (forall i, j | 0 <= i < j < |checks| :: PlanKey(checks[i]) != PlanKey(checks[j]))
  }

  lemma CollectOne(cs: set<Contribution>, checks: seq<SelectedCheck>, keys: set<CheckKey>, sc: SelectedCheck)
    requires Collected(cs, checks, keys) && PlanKey(sc) !in keys
    requires Records(cs, sc) && StrictlySorted(SourceLess, sc.sources)
    ensures Collected(cs, checks + [sc], keys + {PlanKey(sc)})
  {
    forall i | 0 <= i < |checks| ensures PlanKey(checks[i]) in keys {
      assert PlanKey(checks[i]) in PlanKeys(checks);
    }
    assert PlanKeys(checks + [sc]) == PlanKeys(checks) + {PlanKey(sc)};
  }

  lemma SortedChecksArePlan(cs: set<Contribution>, checks: seq<SelectedCheck>)
    requires MetadataValid(cs) && Collected(cs, checks, Keys(cs))
    ensures IsPlan(cs, SortChecks(checks))
  {
    forall i, j | 0 <= i < j < |checks|
      ensures CheckLess(checks[i], checks[j]) || CheckLess(checks[j], checks[i])
    {
      NoTies(cs, checks[i], checks[j]);
    }
    CheckLessWeak();
    SortStrict(CheckLess, checks);
    assert PlanKeys(StableSort(CheckLess, checks)) == PlanKeys(checks);
  }

  /** Distinct checks of valid metadata never tie in the sort key, because no spec index has two owners. */
  lemma NoTies(cs: set<Contribution>, a: SelectedCheck, b: SelectedCheck)
    requires MetadataValid(cs) && Records(cs, a) && Records(cs, b) && PlanKey(a) != PlanKey(b)
    ensures CheckLess(a, b) || CheckLess(b, a)
  {
    LessTotal();
    var x :| x in cs && KeyOf(x) == PlanKey(a);
    var y :| y in cs && KeyOf(y) == PlanKey(b);
    assert a.check == Normal(x.check) && b.check == Normal(y.check);
  }

  method ChecksForPhase(plan: seq<SelectedCheck>, phase: string) returns (out: seq<SelectedCheck>)
    ensures out == PhaseView(plan, phase)
  {
    out := [];
    for i := 0 to |plan|
      invariant out == PhaseView(plan[..i], phase)
    {
      assert plan[..i + 1][..i] == plan[..i];
      if phase in plan[i].check.phases { out := out + [plan[i]]; }
    }
    assert plan[..|plan|] == plan;
  }

  function PhaseView(plan: seq<SelectedCheck>, phase: string): seq<SelectedCheck> {
    if plan == [] then []
    else
      var rest := PhaseView(plan[..|plan| - 1], phase);
      if phase in plan[|plan| - 1].check.phases then rest + [plan[|plan| - 1]] else rest
  }

  // ---------------------------------------------------------------- theorems

  lemma {:induction false} PlanUnique(cs: set<Contribution>, p: seq<SelectedCheck>, q: seq<SelectedCheck>)
    requires IsPlan(cs, p) && IsPlan(cs, q)
    ensures p == q
  {
    forall sc ensures sc in p <==> sc in q {
      if sc in p { EntryShared(cs, p, q, sc); }
      if sc in q { EntryShared(cs, q, p, sc); }
    }
    CheckLessWeak();
    StrictlySortedUnique(CheckLess, p, q);
  }

  lemma EntryShared(cs: set<Contribution>, p: seq<SelectedCheck>, q: seq<SelectedCheck>, sc: SelectedCheck)
    requires IsPlan(cs, p) && IsPlan(cs, q) && sc in p
    ensures sc in q
  {
    assert PlanKey(sc) in PlanKeys(p);
    var tc :| tc in q && PlanKey(tc) == PlanKey(sc);
    var x :| x in cs && KeyOf(x) == PlanKey(sc);
    SourceLessTotal();
    TotalIsWeak(SourceLess);
    assert forall s :: s in sc.sources <==> s in Elements(sc.sources);
    assert forall s :: s in tc.sources <==> s in Elements(tc.sources);
    StrictlySortedUnique(SourceLess, sc.sources, tc.sources);
  }

  /**
   The merge is canonical: its result depends only on which selections are
   present. Permuting or repeating selections, and any order of walking the
   index map, give the identical plan or the identical error.
   */
  lemma MergeCanonical(s: seq<Selection>, t: seq<Selection>, r: MergeResult, q: MergeResult)
    requires MergeOutcome(s, r) && MergeOutcome(t, q)
    requires forall x :: x in s <==> x in t
    ensures r == q
  {
    assert SnapshotsAgree(s) <==> SnapshotsAgree(t);
    ContributionsMonotone(s, t);
    ContributionsMonotone(t, s);
    if r.Plan? { PlanUnique(Contributions(s), r.checks, q.checks); }
  }

  lemma ContributionsMonotone(s: seq<Selection>, t: seq<Selection>)
    requires forall x | x in s :: x in t
    ensures Contributions(s) <= Contributions(t)
  {
    forall c | c in Contributions(s) ensures c in Contributions(t) {
      var i, j :| 0 <= i < |s| && 0 <= j < |s[i].policy.checks| && c == Contribution(s[i], s[i].policy.checks[j]);
      assert s[i] in t;
      var k :| 0 <= k < |t| && t[k] == s[i];
    }
  }

  lemma MergeIdempotent(s: seq<Selection>, r: MergeResult, q: MergeResult)
    requires MergeOutcome(s, r) && MergeOutcome(s + s, q)
    ensures r == q
  {
    MergeCanonical(s, s + s, r, q);
  }

  /** Position of the entry of `plan` under the key of `sc`. */
  ghost function Place(plan: seq<SelectedCheck>, sc: SelectedCheck): (i: nat)
    requires PlanKey(sc) in PlanKeys(plan)
    ensures i < |plan| && PlanKey(plan[i]) == PlanKey(sc)
  {
    var tc :| tc in plan && PlanKey(tc) == PlanKey(sc);
    var i :| 0 <= i < |plan| && plan[i] == tc;
    i
  }

  /** The check of `sc` is in `plan` unchanged, with at least the same sources. */
  ghost predicate Kept(sc: SelectedCheck, plan: seq<SelectedCheck>) {
    && PlanKey(sc) in PlanKeys(plan)
    && var tc := plan[Place(plan, sc)];
       tc.policy == sc.policy && tc.check == sc.check && Elements(sc.sources) <= Elements(tc.sources)
  }

  /** `small` is an order-preserving part of `big`; an entry can only gain sources. */
  ghost predicate Embedded(small: seq<SelectedCheck>, big: seq<SelectedCheck>) {
    && (forall i | 0 <= i < |small| :: Kept(small[i], big))
    && (forall i, j | 0 <= i < j < |small| :: Place(big, small[i]) < Place(big, small[j]))
  }

  /**
   The merge is additive: no selection removes what another contributes. When
   the larger merge succeeds so does the smaller one, its plan is embedded in
   the larger plan in order, and the larger plan has no check beyond the union.
   */
  lemma MergeAdditive(s: seq<Selection>, t: seq<Selection>, rs: MergeResult, rt: MergeResult, both: MergeResult)
    requires MergeOutcome(s, rs) && MergeOutcome(t, rt) && MergeOutcome(s + t, both)
    requires both.Plan?
    ensures rs.Plan? && rt.Plan?
    ensures Embedded(rs.checks, both.checks) && Embedded(rt.checks, both.checks)
    ensures PlanKeys(both.checks) == PlanKeys(rs.checks) + PlanKeys(rt.checks)
  {
    PartOfMerge(s, s + t, rs, both);
    PartOfMerge(t, s + t, rt, both);
    forall x | x in Contributions(s + t) ensures x in Contributions(s) || x in Contributions(t) {
      var i, j :| 0 <= i < |s + t| && 0 <= j < |(s + t)[i].policy.checks| &&
                  x == Contribution((s + t)[i], (s + t)[i].policy.checks[j]);
      if i < |s| { assert s[i] == (s + t)[i]; } else { assert t[i - |s|] == (s + t)[i]; }
    }
    ContributionsMonotone(s, s + t);
    ContributionsMonotone(t, s + t);
    assert Contributions(s + t) == Contributions(s) + Contributions(t);
    assert Keys(Contributions(s + t)) == Keys(Contributions(s)) + Keys(Contributions(t));
  }

  lemma PartOfMerge(s: seq<Selection>, t: seq<Selection>, rs: MergeResult, rt: MergeResult)
    requires MergeOutcome(s, rs) && MergeOutcome(t, rt) && rt.Plan?
    requires forall x | x in s :: x in t
    ensures rs.Plan? && Embedded(rs.checks, rt.checks)
  {
    ContributionsMonotone(s, t);
    FewerContributions(Contributions(s), Contributions(t));
    PlanEmbeds(Contributions(s), Contributions(t), rs.checks, rt.checks);
  }

  lemma PlanEmbeds(cs: set<Contribution>, ds: set<Contribution>, small: seq<SelectedCheck>, big: seq<SelectedCheck>)
    requires cs <= ds && IsPlan(cs, small) && IsPlan(ds, big)
    ensures Embedded(small, big)
  {
    forall i | 0 <= i < |small| ensures Kept(small[i], big) {
      EntryKept(cs, ds, small, big, small[i]);
    }
    forall i, j | 0 <= i < j < |small| ensures Place(big, small[i]) < Place(big, small[j]) {
      assert Kept(small[i], big) && Kept(small[j], big);
      var k, l := Place(big, small[i]), Place(big, small[j]);
      assert CheckLess(small[i], small[j]);
      assert CheckLess(big[k], big[l]);
      CheckLessWeak();
    }
  }

  lemma EntryKept(
    cs: set<Contribution>, ds: set<Contribution>, small: seq<SelectedCheck>, big: seq<SelectedCheck>,
    sc: SelectedCheck)
    requires cs <= ds && IsPlan(cs, small) && IsPlan(ds, big) && sc in small
    ensures Kept(sc, big)
  {
    assert Records(cs, sc);
    var x :| x in cs && KeyOf(x) == PlanKey(sc);
    assert KeyOf(x) in Keys(ds);
    var tc := big[Place(big, sc)];
    assert tc in big && Records(ds, tc);
    assert SourcesOf(cs, PlanKey(sc)) <= SourcesOf(ds, PlanKey(sc));
  }

  /** Every check of a merged plan runs in at least one of the two phases. */
  lemma PhasesCoverPlan(s: seq<Selection>, r: MergeResult, sc: SelectedCheck)
    requires MergeOutcome(s, r) && r.Plan? && sc in r.checks
    ensures sc in PhaseView(r.checks, PHASE_INPUT) || sc in PhaseView(r.checks, PHASE_OUTPUT)
  {
    var x :| x in Contributions(s) && KeyOf(x) == PlanKey(sc);
    SortPermutes(Less, x.check.phases);
    assert x.check.phases[0] in multiset(sc.check.phases);
    var p := x.check.phases[0];
    PhaseViewKeeps(r.checks, p, sc);
  }

  lemma {:induction false} PhaseViewKeeps(plan: seq<SelectedCheck>, phase: string, sc: SelectedCheck)
    ensures sc in PhaseView(plan, phase) <==> sc in plan && phase in sc.check.phases
  {
    if plan != [] {
      PhaseViewKeeps(plan[..|plan| - 1], phase, sc);
      assert plan == plan[..|plan| - 1] + [plan[|plan| - 1]];
    }
  }

  /** The view of a phase is taken entry by entry, in plan order. */
  lemma PhaseViewAppends(plan: seq<SelectedCheck>, sc: SelectedCheck, phase: string)
    ensures PhaseView(plan + [sc], phase) == PhaseView(plan, phase) + if phase in sc.check.phases then [sc] else []
    ensures PhaseView([], phase) == []
  {
    assert (plan + [sc])[..|plan|] == plan;
  }
}
