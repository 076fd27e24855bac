/**
 The table of API keys (maas-api/internal/api_keys/store_postgres.go). Each SQL
 statement is one atomic update of the table at one clock reading; a run is the
 history of tables that a sequence of statements produces. Reads may be served
 by a replica that shows any earlier table of the history.
 */
module KeyStore {
  import opened Options
  import opened Text
  import ReadRouting

  datatype Status = Active | Revoked | Expired

  /** What a row says from its creation on. */
  datatype Facts = Facts(
    username: string, name: string, description: string, hash: string, groups: seq<string>,
    subscription: string, tenant: string, createdAt: int, expiresAt: Option<int>, ephemeral: bool,
    labels: map<string, string>)

  datatype Row = Row(facts: Facts, status: Status, deletedAt: Option<int>, lastUsedAt: Option<int>)

  type Table = map<string, Row>

  /** Thirty minutes, in nanoseconds. */
  const EPHEMERAL_GRACE: int := 1_800_000_000_000

  datatype Statement =
    | Insert(id: string, facts: Facts)
    | RevokeOne(id: string)
    | RevokeScope(username: string, subscription: string)
    | DeleteTenantSoftly
    | DeleteSubscriptionSoftly(subscription: string)
    | TouchLastUsed(id: string)
    | MarkExpired(id: string)
    | PurgeEphemeral
    | PurgeSoftDeleted(retention: nat)

  // ---------------------------------------------------------------- statements

  /** The keys a bulk revocation is aimed at, whatever state they are in; an empty filter matches everything. */
  predicate InScope(row: Row, tenant: string, username: string, subscription: string) {
    && row.facts.tenant == tenant
    && (username == "" || row.facts.username == username)
    && (subscription == "" || row.facts.subscription == subscription)
  }

  /** The WHERE clause of a statement. */
  predicate Where(s: Statement, tenant: string, now: int, id: string, row: Row) {
    var expiry := row.facts.expiresAt;
    && row.facts.tenant == tenant
    && match s
       case Insert(_, _) => false
       case RevokeOne(i) => id == i && row.status.Active?
       case RevokeScope(username, subscription) =>
         && row.status.Active? && row.deletedAt.None? && (expiry.None? || expiry.value > now)
         && (username == "" || row.facts.username == username)
         && (subscription == "" || row.facts.subscription == subscription)
       case DeleteTenantSoftly => row.deletedAt.None?
       case DeleteSubscriptionSoftly(subscription) => row.facts.subscription == subscription && row.deletedAt.None?
       case TouchLastUsed(i) => id == i
       case MarkExpired(i) => id == i && row.status.Active?
       case PurgeEphemeral =>
         row.deletedAt.None? && row.facts.ephemeral && expiry.Some? && expiry.value < now - EPHEMERAL_GRACE
       case PurgeSoftDeleted(retention) => row.deletedAt.Some? && row.deletedAt.value < now - retention
  }

  predicate Purges(s: Statement) { s.PurgeEphemeral? || s.PurgeSoftDeleted? }

  /** The SET clause of an updating statement. */
  function Assigned(s: Statement, now: int, row: Row): Row {
    match s
    case RevokeOne(_) => row.(status := Revoked)
    case RevokeScope(_, _) => row.(status := Revoked)
    case DeleteTenantSoftly => SoftlyDeleted(row, now)
    case DeleteSubscriptionSoftly(_) => SoftlyDeleted(row, now)
    case TouchLastUsed(_) => row.(lastUsedAt := Some(now))
    case MarkExpired(_) => row.(status := Expired)
    case _ => row
  }

  function SoftlyDeleted(row: Row, now: int): Row {
    row.(deletedAt := Some(now), status := if row.status.Active? then Revoked else row.status)
  }

  function NewRow(facts: Facts): Row { Row(facts, Active, None, None) }

  function Affected(t: Table, tenant: string, now: int, s: Statement): set<string> {
    set id | id in t && Where(s, tenant, now, id, t[id])
  }

  function Execute(t: Table, tenant: string, now: int, s: Statement): Table {
    if s.Insert? then t[s.id := NewRow(s.facts)]
    else if Purges(s) then map id | id in t && !Where(s, tenant, now, id, t[id]) :: t[id]
    else map id | id in t :: if Where(s, tenant, now, id, t[id]) then Assigned(s, now, t[id]) else t[id]
  }

  /** The primary key and the unique index on hash and tenant admit the row. */
  predicate Insertable(t: Table, id: string, facts: Facts) {
    id !in t && forall i | i in t :: t[i].facts.hash != facts.hash || t[i].facts.tenant != facts.tenant
  }

  // ---------------------------------------------------------------- validation

  /** The lookup of a key by hash finds this row. */
  predicate Finds(t: Table, tenant: string, hash: string, id: string) {
    id in t && t[id].facts.hash == hash && t[id].facts.tenant == tenant && t[id].deletedAt.None?
  }

  predicate PastExpiry(row: Row, now: int) { row.facts.expiresAt.Some? && now > row.facts.expiresAt.value }

  /** Validating the hash on this table at this time succeeds with this key. */
  predicate Validates(t: Table, tenant: string, hash: string, now: int, id: string) {
    && Finds(t, tenant, hash, id)
    && t[id].status.Active? && !PastExpiry(t[id], now)
    && TrimSpace(t[id].facts.subscription) != ""
  }

  ghost predicate UniqueHashes(t: Table) {
    forall i, j | i in t && j in t && t[i].facts.hash == t[j].facts.hash && t[i].facts.tenant == t[j].facts.tenant ::
      i == j
  }

  // ---------------------------------------------------------------- runs

  datatype Event = Event(now: int, tenant: string, statement: Statement)

  /** Some table of the history shows the key as active and past its expiry: what makes a validation write an expiry. */
  ghost predicate SeenExpired(history: seq<Table>, tenant: string, now: int, id: string) {
    exists k ::
      && 0 <= k < |history| && id in history[k]
      && history[k][id].facts.tenant == tenant && history[k][id].status.Active? && PastExpiry(history[k][id], now)
  }

  /**
   Statements the store issues after this history: key identifiers are never reused,
   expiries follow an observation.
   */
  ghost predicate Enabled(history: seq<Table>, e: Event)
    requires history != []
  {
    match e.statement
    case Insert(id, facts) =>
      && (forall k | 0 <= k < |history| :: id !in history[k])
      && Insertable(history[|history| - 1], id, facts)
      && facts.tenant == e.tenant && facts.subscription != "" && (facts.ephemeral ==> facts.expiresAt.Some?)
    case MarkExpired(id) => SeenExpired(history, e.tenant, e.now, id)
    case _ => true
  }

  ghost predicate Follows(h: seq<Table>, es: seq<Event>, i: nat)
    requires |h| == |es| + 1 && i < |es|
  {
    && Enabled(h[..i + 1], es[i])
    && h[i + 1] == Execute(h[i], es[i].tenant, es[i].now, es[i].statement)
  }

  ghost predicate IsRun(h: seq<Table>, es: seq<Event>) {
    && |h| == |es| + 1
    && h[0] == map[]
    && (forall i | 0 <= i < |es| :: Follows(h, es, i))
    && (forall i, j | 0 <= i <= j < |es| :: es[i].now <= es[j].now)
  }

  // ---------------------------------------------------------------- what rows keep

  /** How a row may change: facts stay, a status other than active stays, a deletion time once set stays. */
  ghost predicate Ages(a: Row, b: Row) {
    && b.facts == a.facts
    && (a.status.Active? || b.status == a.status)
    && (a.deletedAt.None? || b.deletedAt == a.deletedAt)
  }

  lemma StepAges(t: Table, tenant: string, now: int, s: Statement, id: string)
    requires id in t && id in Execute(t, tenant, now, s) && !(s.Insert? && s.id == id)
    ensures Ages(t[id], Execute(t, tenant, now, s)[id])
  {}

  /** An identifier in the table was in every table since it first appeared. */
  lemma {:induction false} StaysUntilGone(h: seq<Table>, es: seq<Event>, i: nat, j: nat, id: string)
    requires IsRun(h, es) && i <= j < |h| && id in h[i] && id in h[j]
    ensures forall k | i <= k <= j :: id in h[k]
    decreases j
  {
    if i < j {
      assert Follows(h, es, j - 1);
      assert h[..j][i] == h[i];
      StaysUntilGone(h, es, i, j - 1, id);
    }
  }

  /**
   Over every run a key's facts never change, it never leaves revoked or expired, and its
   deletion time is set once.
   */
  lemma {:induction false} KeysAge(h: seq<Table>, es: seq<Event>, i: nat, j: nat, id: string)
    requires IsRun(h, es) && i <= j < |h| && id in h[i] && id in h[j]
    ensures Ages(h[i][id], h[j][id])
    decreases j
  {
    if i < j {
      StaysUntilGone(h, es, i, j, id);
      assert id in h[j - 1];
      KeysAge(h, es, i, j - 1, id);
      assert Follows(h, es, j - 1);
      assert h[..j][i] == h[i];
      StepAges(h[j - 1], es[j - 1].tenant, es[j - 1].now, es[j - 1].statement, id);
    }
  }

  /** The event removed the key in a cleanup whose grace or retention period had passed. */
  ghost predicate PurgedBy(row: Row, e: Event) {
    && row.facts.tenant == e.tenant
    && match e.statement
       case PurgeEphemeral =>
         && row.facts.ephemeral && row.deletedAt.None?
         && row.facts.expiresAt.Some? && row.facts.expiresAt.value + 30 * 60 * 1_000_000_000 < e.now
       case PurgeSoftDeleted(retention) => row.deletedAt.Some? && row.deletedAt.value + retention < e.now
       case _ => false
  }

  /** A statement removes a row exactly when it is a cleanup of the row's tenant and the row's period has passed. */
  lemma RemovedIff(t: Table, e: Event, id: string)
    requires id in t
    ensures id !in Execute(t, e.tenant, e.now, e.statement) <==> PurgedBy(t[id], e)
  {}

  /** A key that is gone was removed by one of the two cleanups, after its period, and never comes back. */
  lemma {:induction false} VanishOnlyByCleanup(
    h: seq<Table>, es: seq<Event>, i: nat, j: nat, id: string)
    returns (k: nat)
    requires IsRun(h, es) && i <= j < |h| && id in h[i] && id !in h[j]
    ensures i <= k < j && id in h[k] && PurgedBy(h[k][id], es[k])
    ensures forall m | k < m < |h| :: id !in h[m]
    decreases j
  {
    assert Follows(h, es, j - 1);
    if id in h[j - 1] {
      k := j - 1;
      RemovedIff(h[k], es[k], id);
      forall m | k < m < |h| ensures id !in h[m] {
        if id in h[m] { StaysUntilGone(h, es, k, m, id); }
      }
    } else {
      k := VanishOnlyByCleanup(h, es, i, j - 1, id);
    }
  }

  /** Statements of other tenants leave a key's row exactly as it was. */
  lemma {:induction false} OtherTenantsUntouched(h: seq<Table>, es: seq<Event>, i: nat, j: nat, id: string)
    requires IsRun(h, es) && i <= j < |h| && id in h[i]
    requires forall k | i <= k < j :: es[k].tenant != h[i][id].facts.tenant
    ensures id in h[j] && h[j][id] == h[i][id]
    decreases j
  {
    if i < j {
      OtherTenantsUntouched(h, es, i, j - 1, id);
      assert Follows(h, es, j - 1);
      assert h[..j][i] == h[i];
    }
  }

  // ---------------------------------------------------------------- what every table satisfies

  /** A row marked expired is past its expiry, a soft-deleted row is not active, and an ephemeral row expires. */
  ghost predicate Sound(row: Row, now: int) {
    && (row.status.Expired? ==> PastExpiry(row, now))
    && (row.deletedAt.Some? ==> !row.status.Active? && row.deletedAt.value <= now)
    && (row.facts.ephemeral ==> row.facts.expiresAt.Some?)
    && row.facts.subscription != ""
  }

  ghost predicate SoundTable(t: Table, now: int) {
    UniqueHashes(t) && forall id | id in t :: Sound(t[id], now)
  }

  lemma StepFacts(t: Table, e: Event, id: string)
    requires id in Execute(t, e.tenant, e.now, e.statement) && !(e.statement.Insert? && e.statement.id == id)
    ensures id in t && Execute(t, e.tenant, e.now, e.statement)[id].facts == t[id].facts
  {}

  lemma StepUnique(t: Table, e: Event)
    requires UniqueHashes(t) && (e.statement.Insert? ==> Insertable(t, e.statement.id, e.statement.facts))
    ensures UniqueHashes(Execute(t, e.tenant, e.now, e.statement))
  {
    var t' := Execute(t, e.tenant, e.now, e.statement);
    assert e.statement.Insert? ==> e.statement.id in t' && t'[e.statement.id].facts == e.statement.facts;
    hide Execute;
    forall i, j | i in t' && j in t' && t'[i].facts.hash == t'[j].facts.hash && t'[i].facts.tenant == t'[j].facts.tenant
      ensures i == j
    {
      if !(e.statement.Insert? && e.statement.id == i) { StepFacts(t, e, i); }
      if !(e.statement.Insert? && e.statement.id == j) { StepFacts(t, e, j); }
    }
  }

  /** An expiry written on the word of a stale replica row is still a true expiry of the current row. */
  lemma ExpirySeenIsExpiry(h: seq<Table>, es: seq<Event>, i: nat, id: string)
    requires IsRun(h, es) && i < |es| && es[i].statement == MarkExpired(id) && id in h[i]
    ensures PastExpiry(h[i][id], es[i].now)
  {
    assert Follows(h, es, i);
    var past := h[..i + 1];
    var k :| 0 <= k < |past| && id in past[k] && PastExpiry(past[k][id], es[i].now);
    assert past[k] == h[k];
    KeysAge(h, es, k, i, id);
    assert h[i][id].facts == past[k][id].facts;
    assert PastExpiry(past[k][id], es[i].now);
  }

  lemma StepSound(h: seq<Table>, es: seq<Event>, i: nat, id: string)
    requires IsRun(h, es) && i < |es| && id in h[i + 1]
    requires id in h[i] ==> Sound(h[i][id], es[i].now)
    ensures Sound(h[i + 1][id], es[i].now)
  {
    assert Follows(h, es, i);
    if es[i].statement == MarkExpired(id) && id in h[i] { ExpirySeenIsExpiry(h, es, i, id); }
  }

  lemma SoundLater(row: Row, n: int, now: int)
    requires Sound(row, n) && n <= now
    ensures Sound(row, now)
  {}

  lemma NextUnique(h: seq<Table>, es: seq<Event>, i: nat)
    requires IsRun(h, es) && i < |es| && UniqueHashes(h[i])
    ensures UniqueHashes(h[i + 1])
  {
    assert Follows(h, es, i);
    assert h[..i + 1][i] == h[i];
    StepUnique(h[i], es[i]);
  }

  /** Every table of every run is sound at the time of the statement that produced it and ever after. */
  lemma {:induction false} TablesSound(h: seq<Table>, es: seq<Event>, i: nat, now: int)
    requires IsRun(h, es) && i < |h| && (i == 0 || es[i - 1].now <= now)
    ensures SoundTable(h[i], now)
  {
    if i > 0 {
      var n := es[i - 1].now;
      TablesSound(h, es, i - 1, n);
      hide Follows, Sound, UniqueHashes;
      NextUnique(h, es, i - 1);
      forall id | id in h[i] ensures Sound(h[i][id], now) {
        StepSound(h, es, i - 1, id);
        SoundLater(h[i][id], n, now);
      }
    }
  }

  // ---------------------------------------------------------------- bulk revocation

  /**
   Exactly what a bulk revocation at time n changes about validation from n on:
   the keys in its scope stop validating, except that a key expiring at n
   itself is left alone and still validates at that very instant.
   */
  lemma RevocationDecides(t: Table, tenant: string, n: int, username: string, subscription: string,
                          tenant': string, hash: string, now: int, id: string)
    requires n <= now
    ensures var t' := Execute(t, tenant, n, RevokeScope(username, subscription));
            Validates(t', tenant', hash, now, id) <==>
            && Validates(t, tenant', hash, now, id)
            && (InScope(t[id], tenant, username, subscription) ==> now == n && t[id].facts.expiresAt == Some(n))
  {}

  /** A key outside the scope keeps its validation outcome at every time, earlier ones included. */
  lemma OutOfScopeKeeps(t: Table, tenant: string, n: int, username: string, subscription: string,
                        tenant': string, hash: string, now: int, id: string)
    requires id in t && !InScope(t[id], tenant, username, subscription)
    ensures var t' := Execute(t, tenant, n, RevokeScope(username, subscription));
            id in t' && t'[id] == t[id] &&
              (Validates(t', tenant', hash, now, id) <==> Validates(t, tenant', hash, now, id))
  {}

  /**
   However many bulk revocations follow one another, a key in the scope of none
   of them keeps its row and its validation outcome at every time.
   */
  lemma {:induction false} RevocationsElsewhere(
    h: seq<Table>, es: seq<Event>, i: nat, j: nat, tenant: string, hash: string, now: int, id: string)
    requires IsRun(h, es) && i <= j < |h| && id in h[i]
    requires forall k | i <= k < j ::
               && es[k].statement.RevokeScope?
               && !InScope(h[i][id], es[k].tenant, es[k].statement.username, es[k].statement.subscription)
    ensures id in h[j] && h[j][id] == h[i][id]
    ensures Validates(h[j], tenant, hash, now, id) <==> Validates(h[i], tenant, hash, now, id)
    decreases j
  {
    if i < j {
      RevocationsElsewhere(h, es, i, j - 1, tenant, hash, now, id);
      var e := es[j - 1];
      assert Follows(h, es, j - 1);
      OutOfScopeKeeps(h[j - 1], e.tenant, e.now, e.statement.username, e.statement.subscription, tenant, hash, now, id);
    }
  }

  /** The key can never validate again strictly after `n`. */
  ghost predicate DeadAfter(row: Row, n: int) {
    !row.status.Active? || row.deletedAt.Some? || (row.facts.expiresAt.Some? && row.facts.expiresAt.value <= n)
  }

  /** After a bulk revocation no key of its scope validates on any later table of the run, at any time after it. */
  lemma RevokedForGood(h: seq<Table>, es: seq<Event>, i: nat, j: nat, id: string, hash: string, now: int)
    requires IsRun(h, es) && i < j < |h| && es[i].statement.RevokeScope? && es[i].now < now
    requires id in h[i] && InScope(h[i][id], es[i].tenant, es[i].statement.username, es[i].statement.subscription)
    ensures !Validates(h[j], es[i].tenant, hash, now, id)
  {
    assert Follows(h, es, i);
    assert id in h[i + 1] && DeadAfter(h[i + 1][id], es[i].now);
    if id in h[j] { KeysAge(h, es, i + 1, j, id); }
  }

  /** The same for lifecycle invalidation: soft-deleted keys never validate again, not even at the same instant. */
  lemma InvalidatedForGood(h: seq<Table>, es: seq<Event>, i: nat, j: nat, id: string, hash: string, now: int)
    requires IsRun(h, es) && i < j < |h| && id in h[i] && h[i][id].facts.tenant == es[i].tenant
    requires || es[i].statement.DeleteTenantSoftly?
             || es[i].statement == DeleteSubscriptionSoftly(h[i][id].facts.subscription)
    ensures !Validates(h[j], es[i].tenant, hash, now, id)
  {
    assert Follows(h, es, i);
    assert id in h[i + 1] && h[i + 1][id].deletedAt.Some?;
    if id in h[j] { KeysAge(h, es, i + 1, j, id); }
  }

  /** The keys on which two tables disagree. */
  ghost function Changed(t: Table, t': Table): set<string> {
    set id | id in t.Keys + t'.Keys && (id !in t || id !in t' || t[id] != t'[id])
  }

  /** The previewed rows are exactly the rows the revocation turns from active to revoked, and it touches no other. */
  lemma PreviewIsEffect(t: Table, tenant: string, now: int, username: string, subscription: string)
    ensures var t' := Execute(t, tenant, now, RevokeScope(username, subscription));
            && t'.Keys == t.Keys
            && Affected(t, tenant, now, RevokeScope(username, subscription)) == Changed(t, t')
            && (forall id | id in Changed(t, t') :: t[id].status == Active && t'[id] == t[id].(status := Revoked))
            && Affected(t', tenant, now, RevokeScope(username, subscription)) == {}
  {}

  /** The event ends the active life of a key with these facts. */
  ghost predicate Ends(e: Event, id: string, facts: Facts) {
    && facts.tenant == e.tenant
    && match e.statement
       case RevokeOne(i) => i == id
       case RevokeScope(username, subscription) =>
         && (username == "" || facts.username == username) && (subscription == "" || facts.subscription == subscription)
         && (facts.expiresAt.None? || facts.expiresAt.value > e.now)
       case DeleteTenantSoftly => true
       case DeleteSubscriptionSoftly(subscription) => facts.subscription == subscription
       case MarkExpired(i) => i == id
       case _ => false
  }

  /** A key still present is active exactly when no revocation, invalidation or expiry write has been aimed at it. */
  lemma {:induction false} ActiveUntilEnded(h: seq<Table>, es: seq<Event>, i: nat, j: nat, id: string)
    requires IsRun(h, es) && i <= j < |h| && id in h[i] && h[i][id].status.Active? && id in h[j]
    ensures h[j][id].status.Active? <==> forall k | i <= k < j :: !Ends(es[k], id, h[i][id].facts)
    decreases j
  {
    if i < j {
      StaysUntilGone(h, es, i, j, id);
      assert id in h[j - 1];
      ActiveUntilEnded(h, es, i, j - 1, id);
      KeysAge(h, es, i, j - 1, id);
      TablesSound(h, es, j - 1, es[j - 1].now);
      assert Sound(h[j - 1][id], es[j - 1].now);
      assert Follows(h, es, j - 1);
      assert h[..j][i] == h[i];
      StepStatus(h[j - 1], es[j - 1], id);
    }
  }

  lemma StepStatus(t: Table, e: Event, id: string)
    requires id in t && Sound(t[id], e.now) && id in Execute(t, e.tenant, e.now, e.statement)
    requires !(e.statement.Insert? && e.statement.id == id)
    ensures Execute(t, e.tenant, e.now, e.statement)[id].status.Active? <==>
            t[id].status.Active? && !Ends(e, id, t[id].facts)
  {}

  /** The first event that ends a key fixes its status for good: expired after an expiry write, revoked otherwise. */
  lemma FirstEndDecides(h: seq<Table>, es: seq<Event>, i: nat, k: nat, j: nat, id: string)
    requires IsRun(h, es) && i <= k < j < |h| && id in h[i] && h[i][id].status.Active? && id in h[j]
    requires Ends(es[k], id, h[i][id].facts) && forall m | i <= m < k :: !Ends(es[m], id, h[i][id].facts)
    ensures h[j][id].status == if es[k].statement.MarkExpired? then Expired else Revoked
  {
    StaysUntilGone(h, es, i, j, id);
    assert id in h[k] && id in h[k + 1];
    ActiveUntilEnded(h, es, i, k, id);
    KeysAge(h, es, i, k, id);
    TablesSound(h, es, k, es[k].now);
    assert Sound(h[k][id], es[k].now);
    assert Follows(h, es, k);
    KeysAge(h, es, k + 1, j, id);
  }

  // ---------------------------------------------------------------- where rows come from

  /** Every row of every table was inserted, once, with the facts it still shows. */
  lemma {:induction false} RowsAreInserted(h: seq<Table>, es: seq<Event>, i: nat, id: string) returns (k: nat)
    requires IsRun(h, es) && i < |h| && id in h[i]
    ensures k < i && es[k].statement == Insert(id, h[i][id].facts) && es[k].tenant == h[i][id].facts.tenant
    ensures forall m | 0 <= m < |es| && es[m].statement.Insert? && es[m].statement.id == id :: m == k
  {
    assert Follows(h, es, i - 1);
    if id in h[i - 1] {
      k := RowsAreInserted(h, es, i - 1, id);
      assert h[..i][i - 1] == h[i - 1];
      StepAges(h[i - 1], es[i - 1].tenant, es[i - 1].now, es[i - 1].statement, id);
    } else {
      k := i - 1;
      forall m | 0 <= m < |es| && es[m].statement.Insert? && es[m].statement.id == id ensures m == k {
        if m < k { InsertedOnce(h, es, m, k, id); } else { InsertedOnce(h, es, k, m, id); }
      }
    }
  }

  lemma InsertedOnce(h: seq<Table>, es: seq<Event>, m: nat, k: nat, id: string)
    requires IsRun(h, es) && m <= k < |es|
    requires es[m].statement.Insert? && es[m].statement.id == id && es[k].statement.Insert? && es[k].statement.id == id
    ensures m == k
  {
    if m < k { AbsentBefore(h, es, k, m + 1); }
    assert Follows(h, es, m);
  }

  lemma AbsentBefore(h: seq<Table>, es: seq<Event>, k: nat, j: nat)
    requires IsRun(h, es) && j <= k < |es| && es[k].statement.Insert?
    ensures es[k].statement.id !in h[j]
  {
    assert Follows(h, es, k);
    assert h[..k + 1][j] == h[j];
  }

  /** A deletion time is the time of the lifecycle invalidation that found the row live. */
  lemma {:induction false} DeletionTimeIsTrue(h: seq<Table>, es: seq<Event>, i: nat, id: string) returns (k: nat)
    requires IsRun(h, es) && i < |h| && id in h[i] && h[i][id].deletedAt.Some?
    ensures k < i && es[k].now == h[i][id].deletedAt.value && es[k].tenant == h[i][id].facts.tenant
    ensures || es[k].statement.DeleteTenantSoftly?
            || es[k].statement == DeleteSubscriptionSoftly(h[i][id].facts.subscription)
    ensures id in h[k] && h[k][id].deletedAt.None?
  {
    assert Follows(h, es, i - 1);
    if id in h[i - 1] && h[i - 1][id].deletedAt.Some? {
      assert h[..i][i - 1] == h[i - 1];
      StepAges(h[i - 1], es[i - 1].tenant, es[i - 1].now, es[i - 1].statement, id);
      k := DeletionTimeIsTrue(h, es, i - 1, id);
    } else {
      k := i - 1;
    }
  }

  /** The time of last use changes only in an update for that very key, to the time of the update, and alone. */
  lemma LastUsedOnlyByUpdate(t: Table, e: Event, id: string)
    requires id in t && id in Execute(t, e.tenant, e.now, e.statement) && !(e.statement.Insert? && e.statement.id == id)
    ensures var row := Execute(t, e.tenant, e.now, e.statement)[id];
            && (row.lastUsedAt != t[id].lastUsedAt ==> e.statement == TouchLastUsed(id))
            && (e.statement.TouchLastUsed? ==>
                  row ==
                  if e.statement.id == id && t[id].facts.tenant == e.tenant then t[id].(lastUsedAt := Some(e.now))
                  else t[id])
  {}

  /**
   Validation in terms of the history alone: a key inserted with some facts and
   still present validates exactly when the hash and tenant are its own, nothing
   has ended it since, its expiry has not passed and its subscription is not blank.
   */
  lemma ValidatesIff(
    h: seq<Table>, es: seq<Event>, k: nat, i: nat, id: string, facts: Facts, tenant: string, hash: string, now: int)
    requires IsRun(h, es) && k < i < |h| && es[k].statement == Insert(id, facts) && id in h[i]
    ensures Validates(h[i], tenant, hash, now, id) <==>
            && facts.hash == hash && facts.tenant == tenant
            && (forall j | k < j < i :: !Ends(es[j], id, facts))
            && (facts.expiresAt.Some? ==> now <= facts.expiresAt.value)
            && TrimSpace(facts.subscription) != ""
  {
    assert Follows(h, es, k);
    assert h[k + 1][id] == NewRow(facts);
    KeysAge(h, es, k + 1, i, id);
    ActiveUntilEnded(h, es, k + 1, i, id);
    TablesSound(h, es, i, es[i - 1].now);
    assert Sound(h[i][id], es[i - 1].now);
  }

  // ---------------------------------------------------------------- the store

  /** The writable primary, shared by the stores of all tenants. */
  class Database {
    var rows: Table

    constructor ()
      ensures rows == map[]
    {
      rows := map[];
    }
  }

  datatype AddError =
    | EmptyId | EmptyName | EmptyHash | EmptySubscription | EphemeralWithoutExpiry | TenantMismatch | Conflict

  datatype RevokeError = EmptyScope | WrongTenant | BlankSubscription | NegativeRetention

  datatype Outcome<T, E> = Done(value: T) | Refused(error: E)

  datatype Key = Key(id: string, row: Row)

  type Answer = ReadRouting.Attempt<Key>

  /**
   What one pool shows to a lookup: a table, the clock at the time, whether an expiry write
   would succeed, and errors.
   */
  datatype PoolView = PoolView(
    table: Table, now: int, writeSucceeds: bool, queryError: string, iterationError: string, closeError: string)

  /** The answer of a lookup by hash that reads this table to the end. */
  ghost function LookupAnswer(t: Table, tenant: string, hash: string, now: int): Answer {
    if id :| id in t && Finds(t, tenant, hash, id) then
      if t[id].status.Active? && !PastExpiry(t[id], now) then ReadRouting.Rows(Key(id, t[id]))
        else ReadRouting.InvalidKey
    else ReadRouting.KeyNotFound
  }

  /** A live row of the tenant has the hash. */
  ghost predicate HasRow(t: Table, tenant: string, hash: string, id: string) {
    id in t && t[id].facts.hash == hash && t[id].facts.tenant == tenant && t[id].deletedAt == None
  }

  /** The row is active, and its expiry, if it has one, is not before this time. */
  ghost predicate InForce(row: Row, now: int) {
    row.status == Active && (row.facts.expiresAt.Some? ==> now <= row.facts.expiresAt.value)
  }

  /** A lookup answers with the row in force, refuses a row that is not, and is not found exactly when there is none. */
  lemma LookupMeans(t: Table, tenant: string, hash: string, now: int)
    requires UniqueHashes(t)
    ensures var a := LookupAnswer(t, tenant, hash, now);
            && (a == ReadRouting.KeyNotFound <==> forall id :: !HasRow(t, tenant, hash, id))
            && (a == ReadRouting.InvalidKey <==> exists id :: HasRow(t, tenant, hash, id) && !InForce(t[id], now))
            && (a.Rows? ==> a.value.id in t)
            && (forall id | id in t ::
                  a == ReadRouting.Rows(Key(id, t[id])) <==> HasRow(t, tenant, hash, id) && InForce(t[id], now))
  {
    forall id ensures HasRow(t, tenant, hash, id) <==> id in t && Finds(t, tenant, hash, id) {}
  }

  /** The key whose expiry such a lookup notices. */
  ghost function Noticed(t: Table, tenant: string, hash: string, now: int): Option<string> {
    if id :| id in t && Finds(t, tenant, hash, id) && t[id].status.Active? && PastExpiry(t[id], now) then Some(id)
      else None
  }

  ghost function ViewAnswer(v: PoolView, tenant: string, hash: string): Answer {
    ReadRouting.Streamed(v.queryError, LookupAnswer(v.table, tenant, hash, v.now), v.iterationError, v.closeError)
  }

  /** The query, the iteration over its rows or the closing of its cursor failed. */
  predicate Broken(v: PoolView) { v.queryError != "" || v.iterationError != "" || v.closeError != "" }

  /**
   A pool's definite answer counts only if query, iteration and close all
   succeeded; otherwise the read has failed with the query's error, or else the
   close error before the iteration error.
   */
  lemma ViewMeans(v: PoolView, tenant: string, hash: string)
    ensures !Broken(v) ==> ViewAnswer(v, tenant, hash) == LookupAnswer(v.table, tenant, hash, v.now)
    ensures !LookupAnswer(v.table, tenant, hash, v.now).Failed?
    ensures v.queryError != "" ==> ViewAnswer(v, tenant, hash) == ReadRouting.Failed(v.queryError)
    ensures v.queryError == "" && v.closeError != "" ==>
              ViewAnswer(v, tenant, hash) == ReadRouting.Failed(v.closeError)
    ensures v.queryError == "" && v.closeError == "" && v.iterationError != "" ==>
              ViewAnswer(v, tenant, hash) == ReadRouting.Failed(v.iterationError)
  {}

  /** The primary after a lookup on this view: at most the expiry it noticed is written. */
  ghost function Wrote(rows: Table, v: PoolView, tenant: string, hash: string): Table {
    var noticed := Noticed(v.table, tenant, hash, v.now);
    if v.queryError == "" && v.writeSucceeds && noticed.Some? then
      Execute(rows, tenant, v.now, MarkExpired(noticed.value))
    else rows
  }

  /** The lookup found this key live, active and past its expiry, and its write goes through. */
  ghost predicate WritesExpiry(v: PoolView, tenant: string, hash: string, id: string) {
    && v.queryError == "" && v.writeSucceeds
    && HasRow(v.table, tenant, hash, id) && v.table[id].status == Active && !InForce(v.table[id], v.now)
  }

  /** A lookup writes exactly the expiry it found, on the tenant's row if that is still active, and nothing else. */
  lemma WroteMeans(rows: Table, v: PoolView, tenant: string, hash: string)
    requires UniqueHashes(v.table)
    ensures (forall id :: !WritesExpiry(v, tenant, hash, id)) ==> Wrote(rows, v, tenant, hash) == rows
    ensures forall id | WritesExpiry(v, tenant, hash, id) ::
              Wrote(rows, v, tenant, hash) ==
              if id in rows && rows[id].facts.tenant == tenant && rows[id].status == Active
              then rows[id := rows[id].(status := Expired)] else rows
  {
    forall id
      ensures WritesExpiry(v, tenant, hash, id) <==>
              v.queryError == "" && v.writeSucceeds && Noticed(v.table, tenant, hash, v.now) == Some(id)
    {
    }
  }

  /** A noticed expiry is one that the history justifies writing, when the view shows a table of the history. */
  lemma NoticedEnables(history: seq<Table>, k: nat, tenant: string, hash: string, now: int)
    requires k < |history| && Noticed(history[k], tenant, hash, now).Some?
    ensures Enabled(history, Event(now, tenant, MarkExpired(Noticed(history[k], tenant, hash, now).value)))
  {}

  class PostgresStore {
    const tenantName: string
    const writeDB: Database
    const router: ReadRouting.ReadRouter

    constructor (tenantName: string, writeDB: Database, router: ReadRouting.ReadRouter)
      ensures this.tenantName == tenantName && this.writeDB == writeDB && this.router == router
    {
      this.tenantName := tenantName;
      this.writeDB := writeDB;
      this.router := router;
    }

    method AddKey(id: string, facts: Facts) returns (r: Outcome<(), AddError>)
      modifies writeDB, router
      ensures r.Done? <==>
              && id != "" && facts.name != "" && facts.hash != "" && facts.subscription != ""
              && (facts.ephemeral ==> facts.expiresAt.Some?) && facts.tenant == tenantName
              && id !in old(writeDB.rows)
              && (forall i | i in old(writeDB.rows) ::
                    !(old(writeDB.rows)[i].facts.hash == facts.hash &&
                        old(writeDB.rows)[i].facts.tenant == facts.tenant))
      ensures r == Refused(EmptyId) <==> id == ""
      ensures r == Refused(EmptyName) <==> id != "" && facts.name == ""
      ensures r == Refused(EmptyHash) <==> id != "" && facts.name != "" && facts.hash == ""
      ensures r == Refused(EmptySubscription) <==>
              id != "" && facts.name != "" && facts.hash != "" && facts.subscription == ""
      ensures r == Refused(EphemeralWithoutExpiry) <==>
              && id != "" && facts.name != "" && facts.hash != "" && facts.subscription != ""
              && facts.ephemeral && facts.expiresAt.None?
      ensures r == Refused(TenantMismatch) <==>
              && id != "" && facts.name != "" && facts.hash != "" && facts.subscription != ""
              && (facts.ephemeral ==> facts.expiresAt.Some?) && facts.tenant != tenantName
      ensures writeDB.rows == if r.Done? then Execute(old(writeDB.rows), tenantName, facts.createdAt, Insert(id, facts))
              else old(writeDB.rows)
      ensures router.State() ==
              if r.Done? || r.error.Conflict? then ReadRouting.Mutated(old(router.State()), "add_key")
              else old(router.State())
    {
      if id == "" { return Refused(EmptyId); }
      if facts.name == "" { return Refused(EmptyName); }
      if facts.hash == "" { return Refused(EmptyHash); }
      if facts.subscription == "" { return Refused(EmptySubscription); }
      if facts.ephemeral && facts.expiresAt.None? { return Refused(EphemeralWithoutExpiry); }
      if facts.tenant != tenantName { return Refused(TenantMismatch); }
      router.RecordQuery("add_key", ReadRouting.Primary);
      if !Insertable(writeDB.rows, id, facts) { return Refused(Conflict); }
      writeDB.rows := writeDB.rows[id := NewRow(facts)];
      return Done(());
    }

    /** Counts, or revokes and counts, the active keys of the scope that have not expired. */
    method BulkRevoke(username: string, subscription: string, tenant: string, dryRun: bool, now: int)
      returns (r: Outcome<nat, RevokeError>)
      modifies writeDB, router
      ensures r == if username == "" && subscription == "" then Refused(EmptyScope)
                   else if tenant != tenantName then Refused(WrongTenant)
                   else Done(|Affected(old(writeDB.rows), tenantName, now, RevokeScope(username, subscription))|)
      ensures writeDB.rows == if r.Done? && !dryRun
                              then Execute(old(writeDB.rows), tenantName, now, RevokeScope(username, subscription))
                              else old(writeDB.rows)
      ensures r.Done? && !dryRun ==>
                r.value == |Changed(old(writeDB.rows), writeDB.rows)|
      ensures router.State() ==
              if r.Done? then ReadRouting.Mutated(old(router.State()), "bulk_revoke") else old(router.State())
    {
      if username == "" && subscription == "" { return Refused(EmptyScope); }
      if tenant != tenantName { return Refused(WrongTenant); }
      PreviewIsEffect(writeDB.rows, tenantName, now, username, subscription);
      if dryRun {
        router.RecordQuery("bulk_revoke", ReadRouting.Primary);
        return Done(|Affected(writeDB.rows, tenantName, now, RevokeScope(username, subscription))|);
      }
      r := Update("bulk_revoke", RevokeScope(username, subscription), now);
    }

    method InvalidateTenant(tenant: string, now: int) returns (r: Outcome<nat, RevokeError>)
      modifies writeDB, router
      ensures r == if tenant != tenantName then Refused(WrongTenant)
                   else Done(|Affected(old(writeDB.rows), tenantName, now, DeleteTenantSoftly)|)
      ensures writeDB.rows == if r.Done? then Execute(old(writeDB.rows), tenantName, now, DeleteTenantSoftly)
              else old(writeDB.rows)
      ensures router.State() ==
              if r.Done? then ReadRouting.Mutated(old(router.State()), "invalidate_tenant") else old(router.State())
    {
      if tenant != tenantName { return Refused(WrongTenant); }
      r := Update("invalidate_tenant", DeleteTenantSoftly, now);
    }

    method InvalidateSubscription(tenant: string, subscription: string, now: int) returns (r: Outcome<nat, RevokeError>)
      modifies writeDB, router
      ensures r == if tenant != tenantName then Refused(WrongTenant)
                   else if TrimSpace(subscription) == "" then Refused(BlankSubscription)
                   else Done(|Affected(old(writeDB.rows), tenantName, now, DeleteSubscriptionSoftly(subscription))|)
      ensures writeDB.rows ==
              if r.Done? then Execute(old(writeDB.rows), tenantName, now, DeleteSubscriptionSoftly(subscription))
              else old(writeDB.rows)
      ensures router.State() ==
              if r.Done? then ReadRouting.Mutated(old(router.State()), "invalidate_subscription")
              else old(router.State())
    {
      if tenant != tenantName { return Refused(WrongTenant); }
      if TrimSpace(subscription) == "" { return Refused(BlankSubscription); }
      r := Update("invalidate_subscription", DeleteSubscriptionSoftly(subscription), now);
    }

    /** Reports a missing key exactly when the tenant has no active key with the identifier. */
    method Revoke(id: string, now: int) returns (found: bool)
      modifies writeDB, router
      ensures found <==>
              id in old(writeDB.rows) && old(writeDB.rows)[id].facts.tenant == tenantName &&
                old(writeDB.rows)[id].status.Active?
      ensures writeDB.rows == if found then old(writeDB.rows)[id := old(writeDB.rows)[id].(status := Revoked)]
              else old(writeDB.rows)
      ensures router.State() == ReadRouting.Mutated(old(router.State()), "revoke")
    {
      ghost var t := writeDB.rows;
      var r := Update("revoke", RevokeOne(id), now);
      ghost var hit := Affected(t, tenantName, now, RevokeOne(id));
      assert hit == if id in hit then {id} else {};
      found := r.value > 0;
      assert !found ==> writeDB.rows == t;
      assert found ==> writeDB.rows == t[id := t[id].(status := Revoked)];
    }

    method UpdateLastUsed(id: string, now: int)
      modifies writeDB, router
      ensures writeDB.rows == Execute(old(writeDB.rows), tenantName, now, TouchLastUsed(id))
      ensures router.State() == ReadRouting.Mutated(old(router.State()), "update_last_used")
    {
      var _ := Update("update_last_used", TouchLastUsed(id), now);
    }

    method DeleteExpiredEphemeral(now: int) returns (removed: nat)
      modifies writeDB, router
      ensures writeDB.rows == Execute(old(writeDB.rows), tenantName, now, PurgeEphemeral)
      ensures removed == |old(writeDB.rows)| - |writeDB.rows|
      ensures router.State() == ReadRouting.Mutated(old(router.State()), "delete_expired_ephemeral")
    {
      ghost var t := writeDB.rows;
      var r := Update("delete_expired_ephemeral", PurgeEphemeral, now);
      PurgeCounts(t, tenantName, now, PurgeEphemeral);
      removed := r.value;
    }

    method DeleteSoftDeleted(retention: int, now: int) returns (r: Outcome<nat, RevokeError>)
      modifies writeDB, router
      ensures r.Refused? <==> retention < 0
      ensures r.Refused? ==> r.error == NegativeRetention && writeDB.rows == old(writeDB.rows)
      ensures r.Done? ==> writeDB.rows == Execute(old(writeDB.rows), tenantName, now, PurgeSoftDeleted(retention))
      ensures r.Done? ==> r.value == |old(writeDB.rows)| - |writeDB.rows|
      ensures router.State() ==
              if r.Done? then ReadRouting.Mutated(old(router.State()), "delete_soft_deleted") else old(router.State())
    {
      if retention < 0 { return Refused(NegativeRetention); }
      ghost var t := writeDB.rows;
      r := Update("delete_soft_deleted", PurgeSoftDeleted(retention), now);
      PurgeCounts(t, tenantName, now, PurgeSoftDeleted(retention));
    }

    /** Executes a counted statement on the primary and reports the number of affected rows. */
    method Update(operation: string, s: Statement, now: int) returns (r: Outcome<nat, RevokeError>)
      requires !s.Insert?
      modifies writeDB, router
      ensures r == Done(|Affected(old(writeDB.rows), tenantName, now, s)|)
      ensures writeDB.rows == Execute(old(writeDB.rows), tenantName, now, s)
      ensures router.State() == ReadRouting.Mutated(old(router.State()), operation)
    {
      router.RecordQuery(operation, ReadRouting.Primary);
      r := Done(|Affected(writeDB.rows, tenantName, now, s)|);
      writeDB.rows := Execute(writeDB.rows, tenantName, now, s);
    }

    /** Consumes the rows of a lookup by hash, and records on the primary an expiry it notices. */
    method ConsumeRow(v: PoolView, hash: string) returns (r: Answer)
      requires UniqueHashes(v.table) && v.queryError == ""
      modifies writeDB
      ensures r == LookupAnswer(v.table, tenantName, hash, v.now)
      ensures writeDB.rows == Wrote(old(writeDB.rows), v, tenantName, hash)
    {
      if id :| id in v.table && Finds(v.table, tenantName, hash, id) {
        var row := v.table[id];
        assert forall i | i in v.table && Finds(v.table, tenantName, hash, i) :: i == id;
        if PastExpiry(row, v.now) && row.status.Active? {
          if v.writeSucceeds { writeDB.rows := Execute(writeDB.rows, tenantName, v.now, MarkExpired(id)); }
          return ReadRouting.InvalidKey;
        }
        if !row.status.Active? { return ReadRouting.InvalidKey; }
        return ReadRouting.Rows(Key(id, row));
      }
      return ReadRouting.KeyNotFound;
    }

    method QueryView(v: PoolView, hash: string) returns (r: Answer)
      requires UniqueHashes(v.table)
      modifies writeDB
      ensures r == ViewAnswer(v, tenantName, hash)
      ensures writeDB.rows == Wrote(old(writeDB.rows), v, tenantName, hash)
    {
      if v.queryError != "" { return ReadRouting.Failed(v.queryError); }
      r := ConsumeRow(v, hash);
      if v.iterationError != "" { r := ReadRouting.Failed(v.iterationError); }
      if v.closeError != "" { r := ReadRouting.Failed(v.closeError); }
    }

    /**
     Looks a key up by hash, on the replica first and once more on the primary
     if that fails. A lookup that fails after its row was consumed has already
     written the expiry it noticed.
     */
    method GetByHash(replica: PoolView, primary: PoolView, cancelled: bool, hash: string) returns (r: Answer)
      requires UniqueHashes(replica.table) && UniqueHashes(primary.table)
      modifies writeDB, router
      ensures r == ReadRouting.Answer(router.hasReplica, LookupRead(replica, primary, cancelled, tenantName, hash))
      ensures writeDB.rows ==
              AfterLookup(old(writeDB.rows), router.hasReplica, replica, primary, cancelled, tenantName, hash)
      ensures router.State() ==
              ReadRouting.Booked(
                router.hasReplica, old(router.State()), LookupRead(replica, primary, cancelled, tenantName, hash))
      ensures router.hasReplica && Broken(replica) && !cancelled ==>
                && !router.readHealthy && router.fallbacks == old(router.fallbacks) + 1
                && r == ViewAnswer(primary, tenantName, hash)
      ensures router.hasReplica && Broken(replica) && cancelled ==>
                r.Failed? && router.readHealthy == old(router.readHealthy) && router.fallbacks == old(router.fallbacks)
      ensures router.hasReplica && !Broken(replica) ==>
                && router.readHealthy && router.fallbacks == old(router.fallbacks)
                && r == LookupAnswer(replica.table, tenantName, hash, replica.now)
      ensures !router.hasReplica ==>
                && router.readHealthy == old(router.readHealthy) && router.fallbacks == old(router.fallbacks)
                && r == ViewAnswer(primary, tenantName, hash)
    {
      RoutingMeans(router.hasReplica, router.State(), replica, primary, cancelled, tenantName, hash);
      hide ViewAnswer, LookupAnswer, Wrote, Broken;
      if !router.hasReplica {
        router.RecordQuery("get_by_hash", ReadRouting.Primary);
        r := QueryView(primary, hash);
        return;
      }
      router.RecordQuery("get_by_hash", ReadRouting.Replica);
      r := QueryView(replica, hash);
      if !r.Failed? {
        router.readHealthy := true;
        return;
      }
      if cancelled { return; }
      router.readHealthy := false;
      router.fallbacks := router.fallbacks + 1;
      router.RecordQuery("get_by_hash", ReadRouting.Primary);
      r := QueryView(primary, hash);
    }
  }

  /** Errors of the replica, and nothing else, send an uncancelled lookup to the primary. */
  lemma RoutingMeans(
    hasReplica: bool, b: ReadRouting.Books, replica: PoolView, primary: PoolView, cancelled: bool, tenant: string,
    hash: string)
    ensures var q := LookupRead(replica, primary, cancelled, tenant, hash);
            var r, b' := ReadRouting.Answer(hasReplica, q), ReadRouting.Booked(hasReplica, b, q);
            && (hasReplica && Broken(replica) && !cancelled ==>
                  !b'.healthy && b'.fallbacks == b.fallbacks + 1 && r == ViewAnswer(primary, tenant, hash))
            && (hasReplica && Broken(replica) && cancelled ==>
                  r.Failed? && b'.healthy == b.healthy && b'.fallbacks == b.fallbacks)
            && (hasReplica && !Broken(replica) ==>
                  && b'.healthy && b'.fallbacks == b.fallbacks
                  && r == LookupAnswer(replica.table, tenant, hash, replica.now))
            && (!hasReplica ==>
                  b'.healthy == b.healthy && b'.fallbacks == b.fallbacks && r == ViewAnswer(primary, tenant, hash))
  {
    ViewMeans(replica, tenant, hash);
    hide LookupAnswer;
  }

  /** The lookup as a routed read. */
  ghost function LookupRead(
    replica: PoolView, primary: PoolView, cancelled: bool, tenant: string, hash: string): ReadRouting.Read<Key>
  {
    ReadRouting.Read("get_by_hash", ViewAnswer(replica, tenant, hash), ViewAnswer(primary, tenant, hash), cancelled)
  }

  /** The primary after a routed lookup: the expiries noticed by the views contacted, in order. */
  ghost function AfterLookup(
    rows: Table, hasReplica: bool, replica: PoolView, primary: PoolView, cancelled: bool, tenant: string, hash: string)
    : Table
  {
    var contacted := ReadRouting.Contacted(hasReplica, LookupRead(replica, primary, cancelled, tenant, hash));
    var first := if ReadRouting.Replica in contacted then Wrote(rows, replica, tenant, hash) else rows;
    if ReadRouting.Primary in contacted then Wrote(first, primary, tenant, hash) else first
  }

  /** A cleanup removes as many rows as it reports. */
  lemma PurgeCounts(t: Table, tenant: string, now: int, s: Statement)
    requires Purges(s)
    ensures |Affected(t, tenant, now, s)| == |t| - |Execute(t, tenant, now, s)|
  {
    var t' := Execute(t, tenant, now, s);
    assert t'.Keys == t.Keys - Affected(t, tenant, now, s);
    assert |t| == |t.Keys| && |t'| == |t'.Keys|;
  }
}
