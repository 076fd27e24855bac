/**
 The cache in front of the admin check
 (maas-api/internal/auth/cached_admin_checker.go): a bounded map with separate
 lifetimes for positive and negative answers. The protocol below runs any number
 of checks at once; the lock is held only for the lookup and for the store, and
 the clock is read before each of them.
 */
module AdminCache {
  import opened Options
  import opened Orders
  import opened Text

  datatype User = User(username: string, groups: seq<string>)

  datatype Entry = Entry(isAdmin: bool, expiresAt: int)

  type Cache = map<string, Entry>

  datatype Limits = Limits(ttl: int, negativeTtl: int, maxSize: int)

  // ---------------------------------------------------------------- cache keys

  /** `strings.Join` with the null character. */
  function Join(parts: seq<string>): string {
    if parts == [] then "" else if |parts| == 1 then parts[0] else parts[0] + ['\0'] + Join(parts[1..])
  }

  function CacheKey(u: User): string { u.username + ['\0'] + Join(StableSort(Less, u.groups)) }

  predicate NulFree(s: string) { '\0' !in s }

  predicate NulFreeUser(u: User) { NulFree(u.username) && forall i | 0 <= i < |u.groups| :: NulFree(u.groups[i]) }

  /** No group at all, or one group without a name. */
  predicate Groupless(groups: seq<string>) { groups == [] || groups == [""] }

  predicate SameIdentity(u: User, v: User) {
    u.username == v.username &&
      (multiset(u.groups) == multiset(v.groups) || (Groupless(u.groups) && Groupless(v.groups)))
  }

  lemma {:induction false} JoinSplits(parts: seq<string>)
    requires forall i | 0 <= i < |parts| :: NulFree(parts[i])
    ensures NulFree(Join(parts)) <==> |parts| <= 1
  {
    if |parts| > 1 {
      var s := Join(parts);
      assert s[|parts[0]|] == '\0';
    }
  }

  /** Joining null-free strings is injective, except that no string and one empty string look alike. */
  lemma {:induction false} JoinInjective(a: seq<string>, b: seq<string>)
    requires forall i | 0 <= i < |a| :: NulFree(a[i])
    requires forall i | 0 <= i < |b| :: NulFree(b[i])
    requires Join(a) == Join(b)
    ensures a == b || (Groupless(a) && Groupless(b))
  {
    JoinSplits(a);
    JoinSplits(b);
    if |a| > 1 {
      CutUnique(a[0], Join(a[1..]), b[0], Join(b[1..]), '\0');
      JoinInjective(a[1..], b[1..]);
      assert a == [a[0]] + a[1..] && b == [b[0]] + b[1..];
    } else {
      assert a == [] || a == [a[0]];
      assert b == [] || b == [b[0]];
    }
  }

  lemma SortedGroups(a: seq<string>, b: seq<string>)
    ensures StableSort(Less, a) == StableSort(Less, b) <==> multiset(a) == multiset(b)
    ensures forall x | x in StableSort(Less, a) :: x in a
  {
    LessTotal();
    TotalIsWeak(Less);
    SortPermutes(Less, a);
    SortPermutes(Less, b);
    assert forall x | x in StableSort(Less, a) :: x in multiset(StableSort(Less, a)) && x in multiset(a);
    if multiset(a) == multiset(b) { SortForgetsOrder(Less, a, b); }
  }

  lemma GrouplessSorted(a: seq<string>)
    ensures Groupless(StableSort(Less, a)) <==> Groupless(a)
    ensures Groupless(a) ==> Join(StableSort(Less, a)) == ""
  {
    SortPermutes(Less, a);
    var s := StableSort(Less, a);
    SameLength(s, a);
    if |a| == 1 {
      assert a == [a[0]] && s == [s[0]];
      assert s[0] in multiset(a);
    }
  }

  /** Users of one name whose joined groups agree, in null-free names, have the same groups in some order. */
  lemma GroupsIdentify(u: User, v: User)
    requires u.username == v.username && Join(StableSort(Less, u.groups)) == Join(StableSort(Less, v.groups))
    requires forall x | x in u.groups :: NulFree(x)
    requires forall x | x in v.groups :: NulFree(x)
    ensures SameIdentity(u, v)
  {
    var a, b := StableSort(Less, u.groups), StableSort(Less, v.groups);
    SortedGroups(u.groups, v.groups);
    SortedGroups(v.groups, u.groups);
    GrouplessSorted(u.groups);
    GrouplessSorted(v.groups);
    forall i | 0 <= i < |a| ensures NulFree(a[i]) { assert a[i] in u.groups; }
    forall i | 0 <= i < |b| ensures NulFree(b[i]) { assert b[i] in v.groups; }
    JoinInjective(a, b);
  }

  /**
   The same user with the same groups in any order always has the same cache key;
   for null-free names nobody else has.
   */
  lemma CacheKeyIdentifies(u: User, v: User)
    ensures SameIdentity(u, v) ==> CacheKey(u) == CacheKey(v)
    ensures NulFreeUser(u) && NulFreeUser(v) && CacheKey(u) == CacheKey(v) ==> SameIdentity(u, v)
  {
    SortedGroups(u.groups, v.groups);
    GrouplessSorted(u.groups);
    GrouplessSorted(v.groups);
    if NulFreeUser(u) && NulFreeUser(v) && CacheKey(u) == CacheKey(v) {
      var a, b := StableSort(Less, u.groups), StableSort(Less, v.groups);
      CutUnique(u.username, Join(a), v.username, Join(b), '\0');
      GroupsIdentify(u, v);
    }
  }

  /** With a null character in a group name, different users can share a cache key. */
  lemma NulNamesCollide()
    ensures var u, v := User("u", ["a\0b"]), User("u", ["a", "b"]);
            CacheKey(u) == CacheKey(v) && !SameIdentity(u, v)
  {
    var u, v := User("u", ["a\0b"]), User("u", ["a", "b"]);
    var a, b := StableSort(Less, u.groups), StableSort(Less, v.groups);
    assert ["a\0b"][1..] == [] && ["a", "b"][1..] == ["b"] && ["b"][1..] == [];
    assert StableSort(Less, ["b"]) == InsertFront(Less, "b", []) == ["b"];
    assert a == InsertFront(Less, "a\0b", []) == ["a\0b"];
    assert !Less("b", "a");
    assert b == InsertFront(Less, "a", ["b"]) == ["a", "b"];
    assert Join(["b"]) == "b" && Join(b) == "a" + ['\0'] + "b" == "a\0b" == Join(a);
    assert |u.groups| != |v.groups| && |multiset(u.groups)| == 1 && |multiset(v.groups)| == 2;
  }

  /** Among users with a name, the key belongs to this identity alone. */
  ghost predicate OwnKey(u: User) {
    forall v: User | v.username != "" && CacheKey(u) == CacheKey(v) :: SameIdentity(u, v)
  }

  /** No null character in the name after its first position, none in a group, and at most one group. */
  predicate Unmistakable(u: User) {
    && (forall i | 0 < i < |u.username| :: u.username[i] != '\0')
    && |u.groups| <= 1 && (forall i | 0 <= i < |u.groups| :: NulFree(u.groups[i]))
  }

  lemma {:induction false} JoinKeepsNul(parts: seq<string>)
    requires |parts| > 1 || (exists i :: 0 <= i < |parts| && !NulFree(parts[i]))
    ensures !NulFree(Join(parts))
  {
    if |parts| > 1 { assert Join(parts)[|parts[0]|] == '\0'; }
  }

  lemma JoinFree(parts: seq<string>)
    requires NulFree(Join(parts))
    ensures forall x | x in parts :: NulFree(x)
  {
    if |parts| > 1 { JoinKeepsNul(parts); }
  }

  lemma SingleGroupKey(name: string, group: string)
    ensures CacheKey(User(name, [group])) == name + ['\0'] + group
  {
    var s := StableSort(Less, [group]);
    SortPermutes(Less, [group]);
    SameLength(s, [group]);
    assert s == [s[0]] && s[0] in multiset([group]);
  }

  /** A key with two null characters past its first position is the key of two named users of different names. */
  lemma TwoNulsShared(u: User, i: nat, j: nat)
    requires 0 < i < j < |CacheKey(u)| && CacheKey(u)[i] == '\0' && CacheKey(u)[j] == '\0'
    ensures !OwnKey(u)
  {
    hide CacheKey;
    var k := CacheKey(u);
    var v, w := User(k[..i], [k[i + 1..]]), User(k[..j], [k[j + 1..]]);
    SplitKey(k, i);
    SplitKey(k, j);
    assert |v.username| == i && |w.username| == j;
  }

  lemma SplitKey(k: string, i: nat)
    requires i < |k| && k[i] == '\0'
    ensures CacheKey(User(k[..i], [k[i + 1..]])) == k
  {
    SingleGroupKey(k[..i], k[i + 1..]);
    assert k == k[..i] + ['\0'] + k[i + 1..];
  }

  /** With one null character past its first position, the key decides the named user. */
  lemma OneNulOwned(u: User, v: User)
    requires u.username != "" && Unmistakable(u) && v.username != "" && CacheKey(u) == CacheKey(v)
    ensures SameIdentity(u, v)
  {
    var a, b := StableSort(Less, u.groups), StableSort(Less, v.groups);
    SameMembers(u.groups);
    SameMembers(v.groups);
    forall i | 0 <= i < |a| ensures NulFree(a[i]) { assert a[i] in u.groups; }
    JoinSplits(a);
    var k := CacheKey(u);
    var n, m := |u.username|, |v.username|;
    assert k[n] == '\0' && k[m] == '\0';
    assert forall i | 0 <= i < n :: k[i] == u.username[i];
    assert forall i | n < i < |k| :: k[i] == Join(a)[i - n - 1];
    assert n == m;
    assert v.username == k[..n] == u.username;
    assert Join(b) == k[n + 1..] == Join(a);
    JoinFree(b);
    GroupsIdentify(u, v);
  }

  lemma SameMembers(groups: seq<string>)
    ensures |StableSort(Less, groups)| == |groups|
    ensures forall x :: x in StableSort(Less, groups) <==> x in groups
  {
    SortPermutes(Less, groups);
    SameLength(StableSort(Less, groups), groups);
    assert forall x :: x in StableSort(Less, groups) <==> x in multiset(StableSort(Less, groups));
    assert forall x :: x in groups <==> x in multiset(groups);
  }

  /** The exact condition on one named user: no other named user shares the key if and only if it is unmistakable. */
  lemma OwnKeyIff(u: User)
    requires u.username != ""
    ensures OwnKey(u) <==> Unmistakable(u)
  {
    var n, k := |u.username|, CacheKey(u);
    var a := StableSort(Less, u.groups);
    SameMembers(u.groups);
    assert k[n] == '\0';
    if Unmistakable(u) {
      forall v: User | v.username != "" && k == CacheKey(v) ensures SameIdentity(u, v) { OneNulOwned(u, v); }
    } else if i :| 0 < i < n && u.username[i] == '\0' {
      assert k[i] == '\0';
      TwoNulsShared(u, i, n);
    } else {
      if |u.groups| <= 1 {
        var i :| 0 <= i < |u.groups| && !NulFree(u.groups[i]);
        assert u.groups[i] in a;
        var j :| 0 <= j < |a| && a[j] == u.groups[i];
      }
      JoinKeepsNul(a);
      var i :| 0 <= i < |Join(a)| && Join(a)[i] == '\0';
      assert k[n + 1 + i] == '\0';
      TwoNulsShared(u, n, n + 1 + i);
    }
  }

  // ---------------------------------------------------------------- the cache

  function Hit(cache: Cache, key: string, now: int): Option<bool> {
    if key in cache && now < cache[key].expiresAt then Some(cache[key].isAdmin) else None
  }

  function Lifetime(limits: Limits, isAdmin: bool): int { if isAdmin then limits.ttl else limits.negativeTtl }

  function Unexpired(cache: Cache, now: int): Cache {
    map k | k in cache && now <= cache[k].expiresAt :: cache[k]
  }

  predicate HasRoom(limits: Limits, cache: Cache, now: int) { |Unexpired(cache, now)| < limits.maxSize }

  /** The cache after storing an answer: expired entries leave, and the answer enters if there is room. */
  function Stored(limits: Limits, cache: Cache, key: string, isAdmin: bool, now: int): Cache {
    var live := Unexpired(cache, now);
    if HasRoom(limits, cache, now) then live[key := Entry(isAdmin, now + Lifetime(limits, isAdmin))] else live
  }

  /**
   What a store does to later lookups. Entries past their expiry are gone and no
   other is touched; if that leaves room, the answer is there and is served
   exactly as long as its lifetime, and if not the key is as it was.
   */
  lemma StoredMeans(limits: Limits, cache: Cache, key: string, isAdmin: bool, at: int, k: string, now: int)
    ensures var room := |set x | x in cache && at <= cache[x].expiresAt| < limits.maxSize;
            var lifetime := if isAdmin then limits.ttl else limits.negativeTtl;
            Hit(Stored(limits, cache, key, isAdmin, at), k, now) ==
            if k == key && room then (if now < at + lifetime then Some(isAdmin) else None)
            else if k in cache && at <= cache[k].expiresAt && now < cache[k].expiresAt then Some(cache[k].isAdmin)
            else None
  {
    assert Unexpired(cache, at).Keys == set x | x in cache && at <= cache[x].expiresAt;
    assert |Unexpired(cache, at)| == |Unexpired(cache, at).Keys|;
  }

  datatype Verdict = Answer(isAdmin: bool) | Cancelled | DelegateFailed

  class CachedAdminChecker {
    const limits: Limits
    var cache: Cache
    var hits: nat
    var misses: nat

    ghost predicate Valid() reads this {
      limits.ttl > 0 && limits.negativeTtl > 0 && 0 < limits.maxSize && |cache| <= limits.maxSize
    }

    constructor (limits: Limits)
      requires limits.ttl > 0 && limits.negativeTtl > 0 && limits.maxSize > 0
      ensures Valid() && this.limits == limits && cache == map[] && hits == misses == 0
    {
      this.limits := limits;
      cache, hits, misses := map[], 0, 0;
    }

    method EvictExpired(now: int)
      modifies this`cache
      ensures forall k :: k in cache <==> k in old(cache) && !(now > old(cache)[k].expiresAt)
      ensures forall k | k in cache :: cache[k] == old(cache)[k]
      ensures cache == Unexpired(old(cache), now)
    {
      var all := cache;
      var todo := all.Keys;
      while todo != {}
        invariant todo <= all.Keys
        invariant cache == map k | k in all && (k in todo || now <= all[k].expiresAt) :: all[k]
      {
        var k :| k in todo;
        if now > all[k].expiresAt { cache := cache - {k}; }
        todo := todo - {k};
      }
    }

    /**
     One check without interference. `answer` is what the delegate would say
     (nothing when it fails), `before` and `after` whether the request is found
     cancelled before the lookup and after the delegate.
     */
    method IsAdmin(user: Option<User>, now: int, before: bool, answer: Option<bool>, after: bool, storeTime: int)
      returns (r: Verdict, asked: bool)
      requires Valid()
      modifies this
      ensures Valid()
      ensures user.None? || user.value.username == "" ==> r == Answer(false) && !asked
      ensures user.Some? && user.value.username != "" && before ==> r == Cancelled && !asked
      ensures !asked ==> cache == old(cache) && misses == old(misses)
      ensures user.None? || user.value.username == "" || before ==> hits == old(hits)
      ensures asked ==> misses == old(misses) + 1 && hits == old(hits)
      ensures user.Some? && user.value.username != "" && !before ==>
                var hit := Hit(old(cache), CacheKey(user.value), now);
                && asked == hit.None?
                && (hit.Some? ==> r == Answer(hit.value) && hits == old(hits) + 1)
                && (hit.None? ==>
                       r == if answer.None? then DelegateFailed else if after then Cancelled else Answer(answer.value))
                && (hit.None? ==>
                      cache == if r.Answer? then Stored(limits, old(cache), CacheKey(user.value), r.isAdmin, storeTime)
                        else old(cache))
    {
      if user.None? || user.value.username == "" { return Answer(false), false; }
      if before { return Cancelled, false; }
      var key := CacheKey(user.value);
      if key in cache && now < cache[key].expiresAt {
        hits := hits + 1;
        return Answer(cache[key].isAdmin), false;
      }
      if answer.None? || after {
        misses := misses + 1;
        return if answer.None? then DelegateFailed else Cancelled, true;
      }
      var result := answer.value;
      var ttl := limits.ttl;
      if !result { ttl := limits.negativeTtl; }
      StoreBounded(limits, cache, key, result, storeTime);
      EvictExpired(storeTime);
      if |cache| < limits.maxSize { cache := cache[key := Entry(result, storeTime + ttl)]; }
      misses := misses + 1;
      return Answer(result), true;
    }
  }

  /** Storing never takes the cache past its maximum size. */
  lemma StoreBounded(limits: Limits, cache: Cache, key: string, isAdmin: bool, now: int)
    requires |cache| <= limits.maxSize
    ensures |Stored(limits, cache, key, isAdmin, now)| <= limits.maxSize
  {
    var live := Unexpired(cache, now);
    UnexpiredFewer(cache, now);
    var grown := live[key := Entry(isAdmin, now + Lifetime(limits, isAdmin))];
    hide Unexpired;
    assert grown.Keys == live.Keys + {key} && |grown| == |grown.Keys| && |live| == |live.Keys|;
  }

  lemma UnexpiredFewer(cache: Cache, now: int)
    ensures |Unexpired(cache, now)| <= |cache|
  {
    var live := Unexpired(cache, now);
    assert live.Keys <= cache.Keys;
    SubsetSmaller(live.Keys, cache.Keys);
    assert |live| == |live.Keys| && |cache| == |cache.Keys|;
  }

  /** What is in the cache after a store was there before or is the new answer. */
  lemma StoredEntry(limits: Limits, cache: Cache, key: string, isAdmin: bool, now: int, k: string)
    requires k in Stored(limits, cache, key, isAdmin, now)
    ensures var e := Stored(limits, cache, key, isAdmin, now)[k];
            || (k in cache && e == cache[k])
            || (k == key && HasRoom(limits, cache, now) && e == Entry(isAdmin, now + Lifetime(limits, isAdmin)))
  {}

  lemma {:induction false} SubsetSmaller<T>(a: set<T>, b: set<T>)
    requires a <= b
    ensures |a| <= |b|
  {
    if a != {} {
      var x :| x in a;
      SubsetSmaller(a - {x}, b - {x});
    }
  }

  // ---------------------------------------------------------------- concurrent checks

  datatype Check =
    | Started(now: int)                        // the clock is read
    | Asking                                   // missed, the delegate is working
    | Answered(isAdmin: bool)                  // the delegate has answered
    | Storing(isAdmin: bool, at: int)          // the store time is read
    | Over

  /** A cached answer given to a check that had read the clock at `now`. */
  datatype Service = Service(check: nat, isAdmin: bool, now: int)

  /** A delegate answer put into the cache under its check's key. */
  datatype Deposit = Deposit(check: nat, at: int)

  /** The cache, the checks under way, and the record of delegate answers, deposits and cached answers served. */
  datatype State = State(
    clock: int, cache: Cache, checks: map<nat, Check>, users: map<nat, User>,
    answers: map<nat, bool>, deposits: seq<Deposit>, served: seq<Service>)

  datatype Step =
    | Tick(clock: int)
    | Start(c: nat, user: User)
    | Lookup(c: nat)
    | DelegateAnswers(c: nat, isAdmin: bool)
    | DelegateGivesNothing(c: nat)             // it failed, or the request is cancelled by now
    | ReadStoreTime(c: nat)
    | Store(c: nat)

  ghost predicate Init(s: State) {
    && s.cache == map[] && s.checks == map[] && s.users == map[] && s.answers == map[]
    && s.deposits == [] && s.served == []
  }

  predicate Enabled(s: State, step: Step) {
    match step
    case Tick(t) => t >= s.clock
    case Start(c, user) => c !in s.checks && c !in s.users && user.username != ""
    case Lookup(c) => c in s.checks && c in s.users && s.checks[c].Started?
    case DelegateAnswers(c, _) => c in s.checks && s.checks[c].Asking?
    case DelegateGivesNothing(c) => c in s.checks && s.checks[c].Asking?
    case ReadStoreTime(c) => c in s.checks && s.checks[c].Answered?
    case Store(c) => c in s.checks && c in s.users && s.checks[c].Storing?
  }

  function Moved(s: State, c: nat, p: Check): State { s.(checks := s.checks[c := p]) }

  function After(limits: Limits, s: State, step: Step): State
    requires Enabled(s, step)
  {
    match step
    case Tick(t) => s.(clock := t)
    case Start(c, user) => Moved(s, c, Started(s.clock)).(users := s.users[c := user])
    case Lookup(c) =>
      var now := s.checks[c].now;
      var hit := Hit(s.cache, CacheKey(s.users[c]), now);
      if hit.Some? then Moved(s, c, Over).(served := s.served + [Service(c, hit.value, now)]) else Moved(s, c, Asking)
    case DelegateAnswers(c, isAdmin) => Moved(s, c, Answered(isAdmin)).(answers := s.answers[c := isAdmin])
    case DelegateGivesNothing(c) => Moved(s, c, Over)
    case ReadStoreTime(c) => Moved(s, c, Storing(s.checks[c].isAdmin, s.clock))
    case Store(c) =>
      var p := s.checks[c];
      Moved(s, c, Over).(cache := Stored(limits, s.cache, CacheKey(s.users[c]), p.isAdmin, p.at),
                         deposits := if HasRoom(limits, s.cache, p.at) then s.deposits + [Deposit(c, p.at)]
                           else s.deposits)
  }

  ghost predicate IsRun(limits: Limits, trace: seq<State>, steps: seq<Step>) {
    && limits.maxSize > 0
    && |trace| == |steps| + 1 && Init(trace[0])
    && forall i | 0 <= i < |steps| :: Enabled(trace[i], steps[i]) && trace[i + 1] == After(limits, trace[i], steps[i])
  }

  /** The entry under this key is deposit `j`: the delegate's answer, with its lifetime counted from the deposit. */
  ghost predicate Backs(limits: Limits, s: State, j: nat, key: string, e: Entry) {
    && j < |s.deposits|
    && var d := s.deposits[j];
       && d.check in s.users && d.check in s.answers && CacheKey(s.users[d.check]) == key
       && e == Entry(s.answers[d.check], d.at + Lifetime(limits, s.answers[d.check]))
  }

  ghost predicate Backed(limits: Limits, s: State, key: string, e: Entry) {
    exists j: nat :: Backs(limits, s, j, key, e)
  }

  /** A cached answer was served from an entry that a deposit backs, before the entry's expiry. */
  ghost predicate Justified(limits: Limits, s: State, v: Service) {
    && v.check in s.users
    && exists e :: Backed(limits, s, CacheKey(s.users[v.check]), e) && e.isAdmin == v.isAdmin && v.now < e.expiresAt
  }

  ghost predicate GoodCheck(s: State, c: nat)
    requires c in s.checks
  {
    && c in s.users
    && match s.checks[c]
       case Started(_) => c !in s.answers
       case Asking => c !in s.answers
       case Answered(isAdmin) => c in s.answers && s.answers[c] == isAdmin
       case Storing(isAdmin, _) => c in s.answers && s.answers[c] == isAdmin
       case Over => true
  }

  ghost predicate Inv(limits: Limits, s: State) {
    && |s.cache| <= limits.maxSize
    && (forall c | c in s.checks :: GoodCheck(s, c))
    && s.answers.Keys <= s.checks.Keys
    && (forall k | k in s.cache :: Backed(limits, s, k, s.cache[k]))
    && (forall i | 0 <= i < |s.served| :: Justified(limits, s, s.served[i]))
  }

  ghost predicate KeptIn<V(!new)>(a: map<nat, V>, b: map<nat, V>) { forall c | c in a :: c in b && b[c] == a[c] }

  /** The records of `s` are kept in `t`. */
  ghost predicate Extends(s: State, t: State) {
    && KeptIn(s.users, t.users) && KeptIn(s.answers, t.answers)
    && |s.deposits| <= |t.deposits| && (forall j | 0 <= j < |s.deposits| :: t.deposits[j] == s.deposits[j])
  }

  lemma BackedStays(limits: Limits, s: State, t: State, key: string, e: Entry)
    requires Extends(s, t) && Backed(limits, s, key, e)
    ensures Backed(limits, t, key, e)
  {
    var j: nat :| Backs(limits, s, j, key, e);
    assert t.deposits[j] == s.deposits[j];
    assert Backs(limits, t, j, key, e);
  }

  lemma JustifiedStays(limits: Limits, s: State, t: State, v: Service)
    requires Extends(s, t) && Justified(limits, s, v)
    ensures Justified(limits, t, v)
  {
    var e :| Backed(limits, s, CacheKey(s.users[v.check]), e) && e.isAdmin == v.isAdmin && v.now < e.expiresAt;
    BackedStays(limits, s, t, CacheKey(s.users[v.check]), e);
  }

  lemma StepKeepsUsers(limits: Limits, s: State, step: Step)
    requires Enabled(s, step)
    ensures KeptIn(s.users, After(limits, s, step).users)
  {}

  lemma StepKeepsAnswers(limits: Limits, s: State, step: Step)
    requires Enabled(s, step) && (step.DelegateAnswers? ==> step.c !in s.answers)
    ensures KeptIn(s.answers, After(limits, s, step).answers)
  {}

  lemma StepExtends(limits: Limits, s: State, step: Step)
    requires Inv(limits, s) && Enabled(s, step)
    ensures Extends(s, After(limits, s, step))
  {
    if step.DelegateAnswers? { assert GoodCheck(s, step.c); }
    StepKeepsUsers(limits, s, step);
    StepKeepsAnswers(limits, s, step);
    hide Inv, KeptIn;
  }

  lemma StepKeepsChecks(limits: Limits, s: State, step: Step)
    requires Inv(limits, s) && Enabled(s, step)
    ensures var t := After(limits, s, step);
            t.answers.Keys <= t.checks.Keys && forall c | c in t.checks :: GoodCheck(t, c)
  {
    hide Stored, HasRoom, CacheKey, Hit, Backed, Justified;
    var t := After(limits, s, step);
    forall c | c in t.checks ensures GoodCheck(t, c) {
      if c in s.checks { assert GoodCheck(s, c); }
    }
  }

  /** What storing does to the state, in terms of the cache alone. */
  lemma StoreEffect(limits: Limits, s: State, c: nat)
    requires Inv(limits, s) && Enabled(s, Store(c))
    ensures var p, key, t := s.checks[c], CacheKey(s.users[c]), After(limits, s, Store(c));
            && t.cache == Stored(limits, s.cache, key, p.isAdmin, p.at)
            && (HasRoom(limits, s.cache, p.at) ==>
                  Backs(limits, t, |s.deposits|, key, Entry(p.isAdmin, p.at + Lifetime(limits, p.isAdmin))))
  {
    assert GoodCheck(s, c);
    hide Inv;
    var t := After(limits, s, Store(c));
    if HasRoom(limits, s.cache, s.checks[c].at) { assert t.deposits[|s.deposits|] == Deposit(c, s.checks[c].at); }
  }

  /** An entry of the cache after a store is an old one or the answer deposited. */
  lemma StoreKeepsEntry(limits: Limits, s: State, c: nat, k: string)
    requires Inv(limits, s) && Enabled(s, Store(c)) && k in After(limits, s, Store(c)).cache
    ensures var t := After(limits, s, Store(c)); Backed(limits, t, k, t.cache[k])
  {
    StoreEffect(limits, s, c);
    var p, key, t := s.checks[c], CacheKey(s.users[c]), After(limits, s, Store(c));
    StoredEntry(limits, s.cache, key, p.isAdmin, p.at, k);
    if k in s.cache && t.cache[k] == s.cache[k] {
      StepExtends(limits, s, Store(c));
      assert Backed(limits, s, k, s.cache[k]);
      BackedStays(limits, s, t, k, s.cache[k]);
    } else {
      assert Backs(limits, t, |s.deposits|, k, t.cache[k]);
    }
  }

  lemma OldEntriesStay(limits: Limits, s: State, step: Step, k: string)
    requires Inv(limits, s) && Enabled(s, step) && !step.Store? && k in s.cache
    ensures var t := After(limits, s, step); t.cache == s.cache && Backed(limits, t, k, t.cache[k])
  {
    StepExtends(limits, s, step);
    StepBounded(limits, s, step);
    hide After, Enabled, Extends, Backed;
    BackedStays(limits, s, After(limits, s, step), k, s.cache[k]);
  }

  lemma StepBounded(limits: Limits, s: State, step: Step)
    requires |s.cache| <= limits.maxSize && Enabled(s, step)
    ensures |After(limits, s, step).cache| <= limits.maxSize
    ensures !step.Store? ==> After(limits, s, step).cache == s.cache
  {
    if step.Store? {
      var p := s.checks[step.c];
      StoreBounded(limits, s.cache, CacheKey(s.users[step.c]), p.isAdmin, p.at);
    }
  }

  lemma StepKeepsCache(limits: Limits, s: State, step: Step)
    requires Inv(limits, s) && Enabled(s, step)
    ensures var t := After(limits, s, step);
            |t.cache| <= limits.maxSize && forall k | k in t.cache :: Backed(limits, t, k, t.cache[k])
  {
    StepBounded(limits, s, step);
    hide Inv, After, Enabled, Backed;
    var t := After(limits, s, step);
    forall k | k in t.cache ensures Backed(limits, t, k, t.cache[k]) {
      if step.Store? { StoreKeepsEntry(limits, s, step.c, k); } else { OldEntriesStay(limits, s, step, k); }
    }
  }

  lemma StepKeepsServed(limits: Limits, s: State, step: Step)
    requires Inv(limits, s) && Enabled(s, step)
    ensures var t := After(limits, s, step);
            forall i | 0 <= i < |t.served| :: Justified(limits, t, t.served[i])
  {
    var t := After(limits, s, step);
    StepExtends(limits, s, step);
    forall i | 0 <= i < |t.served| ensures Justified(limits, t, t.served[i]) {
      if i < |s.served| {
        JustifiedStays(limits, s, t, s.served[i]);
      } else {
        var key := CacheKey(s.users[step.c]);
        BackedStays(limits, s, t, key, s.cache[key]);
      }
    }
  }

  lemma {:induction false} RunsKeepInv(limits: Limits, trace: seq<State>, steps: seq<Step>, n: nat)
    requires IsRun(limits, trace, steps) && n < |trace|
    ensures Inv(limits, trace[n])
  {
    if n > 0 {
      RunsKeepInv(limits, trace, steps, n - 1);
      StepKeepsChecks(limits, trace[n - 1], steps[n - 1]);
      StepKeepsCache(limits, trace[n - 1], steps[n - 1]);
      StepKeepsServed(limits, trace[n - 1], steps[n - 1]);
    }
  }

  // ---------------------------------------------------------------- what is served

  /**
   In every run, a cached answer served to a check is a delegate answer to a
   check with the same cache key, deposited less than its lifetime before the
   check's clock reading. For null-free names that is the same user with the
   same groups.
   */
  lemma ServedFromDelegate(limits: Limits, trace: seq<State>, steps: seq<Step>, n: nat, i: nat) returns (d: Deposit)
    requires IsRun(limits, trace, steps) && n < |trace| && i < |trace[n].served|
    ensures var s, v := trace[n], trace[n].served[i];
            && d in s.deposits && d.check in s.users && d.check in s.answers && v.check in s.users
            && CacheKey(s.users[d.check]) == CacheKey(s.users[v.check])
            && (NulFreeUser(s.users[d.check]) && NulFreeUser(s.users[v.check]) ==>
                  SameIdentity(s.users[d.check], s.users[v.check]))
            && s.answers[d.check] == v.isAdmin
            && v.now - d.at < (if v.isAdmin then limits.ttl else limits.negativeTtl)
  {
    var s, v := trace[n], trace[n].served[i];
    RunsKeepInv(limits, trace, steps, n);
    assert Justified(limits, s, v);
    var e :| Backed(limits, s, CacheKey(s.users[v.check]), e) && e.isAdmin == v.isAdmin && v.now < e.expiresAt;
    var j: nat :| Backs(limits, s, j, CacheKey(s.users[v.check]), e);
    d := s.deposits[j];
    hide CacheKey, SameIdentity;
    CacheKeyIdentifies(s.users[d.check], s.users[v.check]);
  }

  // ---------------------------------------------------------------- the same in the steps of the run

  lemma {:induction false} UserStarted(
    limits: Limits, trace: seq<State>, steps: seq<Step>, n: nat, c: nat)
    returns (k: nat)
    requires IsRun(limits, trace, steps) && n < |trace| && c in trace[n].users
    ensures k < n && steps[k] == Start(c, trace[n].users[c])
  {
    if c in trace[n - 1].users { k := UserStarted(limits, trace, steps, n - 1, c); } else { k := n - 1; }
  }

  lemma {:induction false} AnswerGiven(
    limits: Limits, trace: seq<State>, steps: seq<Step>, n: nat, c: nat)
    returns (k: nat)
    requires IsRun(limits, trace, steps) && n < |trace| && c in trace[n].answers
    ensures k < n && steps[k] == DelegateAnswers(c, trace[n].answers[c])
  {
    hide Inv, Enabled, After;
    assert n > 0;
    RunsKeepInv(limits, trace, steps, n - 1);
    AnswerStep(limits, trace[n - 1], steps[n - 1], c);
    if c in trace[n - 1].answers { k := AnswerGiven(limits, trace, steps, n - 1, c); } else { k := n - 1; }
  }

  lemma AnswerStep(limits: Limits, s: State, step: Step, c: nat)
    requires Inv(limits, s) && Enabled(s, step) && c in After(limits, s, step).answers
    ensures if c in s.answers then After(limits, s, step).answers[c] == s.answers[c]
            else step == DelegateAnswers(c, After(limits, s, step).answers[c])
  {
    StepExtends(limits, s, step);
  }

  /** A check that has read the clock for its lookup or its store did so at a step of the run. */
  ghost predicate ReadAt(trace: seq<State>, steps: seq<Step>, n: nat, c: nat, p: Check) {
    match p
    case Started(now) =>
      exists k :: 0 <= k < n < |trace| && k < |steps| && steps[k].Start? && steps[k].c == c && trace[k].clock == now
    case Storing(_, at) =>
      exists k :: 0 <= k < n < |trace| && k < |steps| && steps[k] == ReadStoreTime(c) && trace[k].clock == at
    case _ => true
  }

  lemma {:induction false} ClockRead(limits: Limits, trace: seq<State>, steps: seq<Step>, n: nat, c: nat)
    requires IsRun(limits, trace, steps) && n < |trace| && c in trace[n].checks
    ensures ReadAt(trace, steps, n, c, trace[n].checks[c])
  {
    if n > 0 {
      var s, step := trace[n - 1], steps[n - 1];
      if c in s.checks && trace[n].checks[c] == s.checks[c] {
        ClockRead(limits, trace, steps, n - 1, c);
      } else {
        assert step.Start? || step.Lookup? || step.DelegateAnswers? || step.DelegateGivesNothing? || step.ReadStoreTime?
               || step.Store?;
      }
    }
  }

  lemma {:induction false} ServiceRead(
    limits: Limits, trace: seq<State>, steps: seq<Step>, n: nat, i: nat)
    returns (k: nat)
    requires IsRun(limits, trace, steps) && n < |trace| && i < |trace[n].served|
    ensures k < n && steps[k].Start? && steps[k].c == trace[n].served[i].check &&
            trace[k].clock == trace[n].served[i].now
  {
    var s, step := trace[n - 1], steps[n - 1];
    if i < |s.served| {
      k := ServiceRead(limits, trace, steps, n - 1, i);
    } else {
      ClockRead(limits, trace, steps, n - 1, step.c);
      k :| 0 <= k < n - 1 && steps[k].Start? && steps[k].c == step.c && trace[k].clock == s.checks[step.c].now;
    }
  }

  lemma {:induction false} DepositRead(
    limits: Limits, trace: seq<State>, steps: seq<Step>, n: nat, d: Deposit)
    returns (k: nat)
    requires IsRun(limits, trace, steps) && n < |trace| && d in trace[n].deposits
    ensures k < n && steps[k] == ReadStoreTime(d.check) && trace[k].clock == d.at
  {
    var s, step := trace[n - 1], steps[n - 1];
    if d in s.deposits {
      k := DepositRead(limits, trace, steps, n - 1, d);
    } else {
      assert step.Store? && d == Deposit(step.c, s.checks[step.c].at);
      ClockRead(limits, trace, steps, n - 1, step.c);
      k :| 0 <= k < n - 1 && steps[k] == ReadStoreTime(step.c) && trace[k].clock == s.checks[step.c].at;
    }
  }

  /**
   Behind every cached answer are four steps of the run: the delegate gave that
   answer to a check started for the same cache key, and the clock showed less
   than the answer's lifetime between the reading before its store and the
   reading at the start of the check served.
   */
  lemma ServedInSteps(limits: Limits, trace: seq<State>, steps: seq<Step>, n: nat, i: nat)
    returns (started: nat, answered: nat, stored: nat, asked: nat)
    requires IsRun(limits, trace, steps) && n < |trace| && i < |trace[n].served|
    ensures started < n && answered < n && stored < n && asked < n
    ensures steps[started].Start? && steps[asked].Start? && steps[asked].c == trace[n].served[i].check
    ensures CacheKey(steps[started].user) == CacheKey(steps[asked].user)
    ensures steps[answered] == DelegateAnswers(steps[started].c, trace[n].served[i].isAdmin)
    ensures steps[stored] == ReadStoreTime(steps[started].c)
    ensures trace[asked].clock - trace[stored].clock <
            if trace[n].served[i].isAdmin then limits.ttl else limits.negativeTtl
  {
    hide CacheKey;
    var s, v := trace[n], trace[n].served[i];
    var d := ServedFromDelegate(limits, trace, steps, n, i);
    started := UserStarted(limits, trace, steps, n, d.check);
    answered := AnswerGiven(limits, trace, steps, n, d.check);
    stored := DepositRead(limits, trace, steps, n, d);
    asked := ServiceRead(limits, trace, steps, n, i);
    var own := UserStarted(limits, trace, steps, n, v.check);
    StartedOnce(limits, trace, steps, asked, own);
  }

  lemma StartedOnce(limits: Limits, trace: seq<State>, steps: seq<Step>, j: nat, k: nat)
    requires IsRun(limits, trace, steps) && j < |steps| && k < |steps|
    requires steps[j].Start? && steps[k].Start? && steps[j].c == steps[k].c
    ensures j == k
  {
    if j < k { UsersStay(limits, trace, steps, j + 1, k, steps[j].c); }
    if k < j { UsersStay(limits, trace, steps, k + 1, j, steps[k].c); }
  }

  lemma {:induction false} UsersStay(limits: Limits, trace: seq<State>, steps: seq<Step>, j: nat, k: nat, c: nat)
    requires IsRun(limits, trace, steps) && j <= k < |trace| && c in trace[j].users
    ensures c in trace[k].users
    decreases k
  {
    if j < k { UsersStay(limits, trace, steps, j, k - 1, c); }
  }

  /** The cache never exceeds its maximum size. */
  lemma NeverTooLarge(limits: Limits, trace: seq<State>, steps: seq<Step>, n: nat)
    requires IsRun(limits, trace, steps) && n < |trace|
    ensures |trace[n].cache| <= limits.maxSize
  {
    RunsKeepInv(limits, trace, steps, n);
  }

  // ---------------------------------------------------------------- agreement with the delegate

  /** All answers the delegate has given are its fixed verdicts. */
  ghost predicate Steady(s: State, delegate: User -> bool) {
    forall c | c in s.answers && c in s.users :: s.answers[c] == delegate(s.users[c])
  }

  /** Every cached answer served is the delegate's verdict on the user it was served to. */
  ghost predicate Agrees(s: State, delegate: User -> bool) {
    forall i | 0 <= i < |s.served| ::
      s.served[i].check in s.users && s.served[i].isAdmin == delegate(s.users[s.served[i].check])
  }

  ghost predicate AlwaysAgrees(limits: Limits, delegate: User -> bool) {
    forall trace, steps | IsRun(limits, trace, steps) && Steady(trace[|steps|], delegate) ::
      Agrees(trace[|steps|], delegate)
  }

  /** The verdict is the same for all users of one cache key. */
  ghost predicate RespectsKeys(delegate: User -> bool) {
    forall u: User, v: User | u.username != "" && v.username != "" && CacheKey(u) == CacheKey(v) ::
      delegate(u) == delegate(v)
  }

  /**
   The cache agrees with a delegate of fixed verdicts in every run if and only
   if the delegate gives one verdict to all users who share a cache key.
   */
  lemma CacheAgreesIff(limits: Limits, delegate: User -> bool)
    requires limits.ttl > 0 && limits.negativeTtl > 0 && limits.maxSize > 0
    ensures AlwaysAgrees(limits, delegate) <==> RespectsKeys(delegate)
  {
    if RespectsKeys(delegate) {
      forall trace, steps | IsRun(limits, trace, steps) && Steady(trace[|steps|], delegate)
        ensures Agrees(trace[|steps|], delegate)
      {
        RespectfulAgrees(limits, trace, steps, delegate);
      }
    } else {
      var u: User, v: User :|
        u.username != "" && v.username != "" && CacheKey(u) == CacheKey(v) && delegate(u) != delegate(v);
      var trace, steps := OneThenOther(limits, u, v, delegate);
      assert trace[|steps|].served[0].check == 1;
    }
  }

  lemma RespectfulAgrees(limits: Limits, trace: seq<State>, steps: seq<Step>, delegate: User -> bool)
    requires IsRun(limits, trace, steps) && RespectsKeys(delegate) && Steady(trace[|steps|], delegate)
    ensures Agrees(trace[|steps|], delegate)
  {
    hide CacheKey;
    var s := trace[|steps|];
    forall i | 0 <= i < |s.served|
      ensures s.served[i].check in s.users && s.served[i].isAdmin == delegate(s.users[s.served[i].check])
    {
      var d := ServedFromDelegate(limits, trace, steps, |steps|, i);
      NamedUsers(limits, trace, steps, |steps|);
    }
  }

  /** Only users with a name are ever looked up. */
  lemma {:induction false} NamedUsers(limits: Limits, trace: seq<State>, steps: seq<Step>, n: nat)
    requires IsRun(limits, trace, steps) && n < |trace|
    ensures forall c | c in trace[n].users :: trace[n].users[c].username != ""
  {
    if n > 0 {
      NamedUsers(limits, trace, steps, n - 1);
      StepNames(limits, trace[n - 1], steps[n - 1]);
    }
  }

  lemma StepNames(limits: Limits, s: State, step: Step)
    requires Enabled(s, step) && forall c | c in s.users :: s.users[c].username != ""
    ensures forall c | c in After(limits, s, step).users :: After(limits, s, step).users[c].username != ""
  {
    hide Stored, HasRoom, CacheKey, Hit;
  }

  lemma Extended(limits: Limits, trace: seq<State>, steps: seq<Step>, step: Step)
    returns (trace': seq<State>, steps': seq<Step>)
    requires IsRun(limits, trace, steps) && Enabled(trace[|steps|], step)
    ensures IsRun(limits, trace', steps') && trace'[|steps'|] == After(limits, trace[|steps|], step)
  {
    hide Enabled, After;
    trace', steps' := trace + [After(limits, trace[|steps|], step)], steps + [step];
  }

  /** A check of `u` fills the cache. */
  lemma OneDeposited(limits: Limits, u: User, isAdmin: bool) returns (trace: seq<State>, steps: seq<Step>)
    requires limits.maxSize > 0 && u.username != ""
    ensures IsRun(limits, trace, steps)
    ensures trace[|steps|] ==
            State(0, map[CacheKey(u) := Entry(isAdmin, Lifetime(limits, isAdmin))], map[0 := Over], map[0 := u],
                  map[0 := isAdmin], [Deposit(0, 0)], [])
  {
    hide CacheKey, Lifetime;
    trace, steps := [State(0, map[], map[], map[], map[], [], [])], [];
    trace, steps := Extended(limits, trace, steps, Start(0, u));
    trace, steps := Extended(limits, trace, steps, Lookup(0));
    trace, steps := Extended(limits, trace, steps, DelegateAnswers(0, isAdmin));
    trace, steps := Extended(limits, trace, steps, ReadStoreTime(0));
    assert Unexpired(map[], 0) == map[];
    trace, steps := Extended(limits, trace, steps, Store(0));
  }

  /** A check of `u` fills the cache, and a check of `v` is served from it. */
  lemma OneThenOther(
    limits: Limits, u: User, v: User, delegate: User -> bool)
    returns (trace: seq<State>, steps: seq<Step>)
    requires limits.ttl > 0 && limits.negativeTtl > 0 && limits.maxSize > 0
    requires u.username != "" && v.username != "" && CacheKey(u) == CacheKey(v)
    ensures IsRun(limits, trace, steps) && Steady(trace[|steps|], delegate)
    ensures trace[|steps|].served == [Service(1, delegate(u), 0)] && trace[|steps|].users == map[0 := u, 1 := v]
  {
    hide CacheKey;
    trace, steps := OneDeposited(limits, u, delegate(u));
    trace, steps := Extended(limits, trace, steps, Start(1, v));
    trace, steps := Extended(limits, trace, steps, Lookup(1));
  }
}
