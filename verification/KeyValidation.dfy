/**
 Validation of an API key string (maas-api/internal/api_keys/service.go): format
 check, digest, lookup, subscription and identifier check, from the string a
 caller presents to the rows the store has ever held.
 */
module KeyValidation {
  import Debounce
  import opened KeyGen
  import opened KeyStore
  import opened Options
  import opened Text
  import ReadRouting

  datatype Reason = BadFormat | UnknownKey | RevokedOrExpired | NoSubscription

  datatype Verdict = Valid(key: Key) | Rejected(reason: Reason) | LookupFailed(error: string) | CorruptId(id: string)

  /** The digest and the syntax of database identifiers. */
  datatype Environment = Environment(sha256: string -> string, isUuid: string -> bool)

  /** The verdict on a key string, given the store's answer about its digest. */
  function Judge(env: Environment, key: string, answer: Answer): Verdict {
    if !WellFormed(env, key) then Rejected(BadFormat)
    else match answer
      case KeyNotFound => Rejected(UnknownKey)
      case InvalidKey => Rejected(RevokedOrExpired)
      case Failed(error) => LookupFailed(error)
      case Rows(k) =>
        if TrimSpace(k.row.facts.subscription) == "" then Rejected(NoSubscription)
        else if !env.isUuid(k.id) then CorruptId(k.id)
        else Valid(k)
  }

  /**
   Validates a key string at `now`. A key that the lookup finds gets its last-used
   slot reserved before its subscription and its identifier are looked at, so
   `stamp`, the key whose last use is to be written, may be one that is refused.
   */
  method ValidateAPIKey(
    env: Environment, store: PostgresStore, service: Debounce.Service,
    replica: PoolView, primary: PoolView, cancelled: bool, now: int, key: string)
    returns (v: Verdict, stamp: Option<string>)
    requires UniqueHashes(replica.table) && UniqueHashes(primary.table)
    modifies store.writeDB, store.router, service
    ensures var read := LookupRead(replica, primary, cancelled, store.tenantName, HashAPIKey(env.sha256, key));
            var answer := ReadRouting.Answer(store.router.hasReplica, read);
            && v == Judge(env, key, answer)
            && (WellFormed(env, key) ==>
                  && store.router.State() ==
                     ReadRouting.Booked(store.router.hasReplica, old(store.router.State()), read)
                  && store.writeDB.rows ==
                     AfterLookup(old(store.writeDB.rows), store.router.hasReplica, replica, primary, cancelled,
                                 store.tenantName, HashAPIKey(env.sha256, key)))
            && (!WellFormed(env, key) ==>
                  store.router.State() == old(store.router.State()) && store.writeDB.rows == old(store.writeDB.rows))
            && stamp ==
               (if && WellFormed(env, key) && answer.Rows?
                   && (|| service.ttl == 0 || answer.value.id !in old(service.lastUsedDebounce)
                       || now - old(service.lastUsedDebounce)[answer.value.id] >= service.ttl)
                then Some(answer.value.id) else None)
            && service.lastUsedDebounce ==
               (if stamp.Some? && service.ttl != 0 then old(service.lastUsedDebounce)[stamp.value := now]
                else old(service.lastUsedDebounce))
  {
    stamp := None;
    if !IsValidKeyFormat(key) { return Rejected(BadFormat), stamp; }
    var hash := HashAPIKey(env.sha256, key);
    if hash == "" { return Rejected(BadFormat), stamp; }
    var answer := store.GetByHash(replica, primary, cancelled, hash);
    match answer {
      case KeyNotFound => return Rejected(UnknownKey), stamp;
      case InvalidKey => return Rejected(RevokedOrExpired), stamp;
      case Failed(error) => return LookupFailed(error), stamp;
      case Rows(k) =>
        var proceed, _ := service.ShouldUpdateLastUsed(k.id, now);
        if proceed { stamp := Some(k.id); }
        if TrimSpace(k.row.facts.subscription) == "" { return Rejected(NoSubscription), stamp; }
        if !env.isUuid(k.id) { return CorruptId(k.id), stamp; }
        return Valid(k), stamp;
    }
  }

  predicate WellFormed(env: Environment, key: string) { IsValidKeyFormat(key) && HashAPIKey(env.sha256, key) != "" }

  /** The verdict when the lookup reads this table to the end. */
  ghost function VerdictOn(env: Environment, key: string, t: Table, tenant: string, now: int): Verdict {
    Judge(env, key, LookupAnswer(t, tenant, HashAPIKey(env.sha256, key), now))
  }

  /**
   Every verdict, and exactly when it is given: malformed, no live row of the
   tenant with the digest, a row that is revoked or expired, a row without a
   subscription, an identifier that is no UUID, or valid.
   */
  lemma VerdictMeans(env: Environment, key: string, t: Table, tenant: string, now: int)
    requires UniqueHashes(t)
    ensures var v := VerdictOn(env, key, t, tenant, now);
            var hash := HashAPIKey(env.sha256, key);
            && (v == Rejected(BadFormat) <==> !IsValidKeyFormat(key) || hash == "")
            && (v == Rejected(UnknownKey) <==>
                  IsValidKeyFormat(key) && hash != "" && forall id :: !HasRow(t, tenant, hash, id))
            && (v == Rejected(RevokedOrExpired) <==>
                  IsValidKeyFormat(key) && hash != "" && exists id ::
                    HasRow(t, tenant, hash, id) && !InForce(t[id], now))
            && (v == Rejected(NoSubscription) <==>
                  && IsValidKeyFormat(key) && hash != ""
                  && exists id ::
                       HasRow(t, tenant, hash, id) && InForce(t[id], now) && TrimSpace(t[id].facts.subscription) == "")
            && (forall id ::
                  v == CorruptId(id) <==>
                  && IsValidKeyFormat(key) && hash != "" && HasRow(t, tenant, hash, id) && InForce(t[id], now)
                  && TrimSpace(t[id].facts.subscription) != "" && !env.isUuid(id))
            && !v.LookupFailed?
  {
    hide IsValidKeyFormat, HashAPIKey, TrimSpace;
    LookupMeans(t, tenant, HashAPIKey(env.sha256, key), now);
  }

  /**
   On one table: a key string is valid for a row if and only if it is well formed and its
   digest validates that row.
   */
  lemma VerdictIff(env: Environment, key: string, t: Table, tenant: string, now: int, id: string)
    requires UniqueHashes(t)
    ensures (exists row :: VerdictOn(env, key, t, tenant, now) == Valid(Key(id, row))) <==>
            && IsValidKeyFormat(key) && HashAPIKey(env.sha256, key) != "" && env.isUuid(id)
            && Validates(t, tenant, HashAPIKey(env.sha256, key), now, id)
  {
    var hash := HashAPIKey(env.sha256, key);
    hide IsValidKeyFormat, HashAPIKey, TrimSpace;
    var v := VerdictOn(env, key, t, tenant, now);
    if Validates(t, tenant, hash, now, id) {
      assert Finds(t, tenant, hash, id);
      assert forall i | i in t && Finds(t, tenant, hash, i) :: i == id;
      assert LookupAnswer(t, tenant, hash, now) == ReadRouting.Rows(Key(id, t[id]));
      if IsValidKeyFormat(key) && hash != "" && env.isUuid(id) { assert v == Valid(Key(id, t[id])); }
    }
  }

  /** Event `k` created the key, with these facts and a digest equal to that of the key string. */
  ghost predicate CreatedFor(
    env: Environment, es: seq<Event>, k: nat, id: string, facts: Facts, tenant: string, key: string)
  {
    && k < |es| && es[k].statement == Insert(id, facts)
    && facts.tenant == tenant && facts.hash == HashAPIKey(env.sha256, key)
  }

  /**
   Nothing has ended the key between its creation and table `i`, it has not expired, and it
   is bound to a subscription.
   */
  ghost predicate StillGood(es: seq<Event>, k: nat, i: nat, id: string, facts: Facts, now: int)
    requires i <= |es|
  {
    && (forall j | k < j < i :: !Ends(es[j], id, facts))
    && (facts.expiresAt.Some? ==> now <= facts.expiresAt.value)
    && TrimSpace(facts.subscription) != ""
  }

  /**
   The whole validation path over every run: a key string is valid for an
   identifier on table `i` at `now` if and only if it is well formed and the
   identifier was created for its digest in this tenant, is still in the table,
   and nothing has ended it since.
   */
  lemma KeyStringValidIff(
    env: Environment, h: seq<Table>, es: seq<Event>, i: nat, key: string, tenant: string, now: int, id: string)
    requires IsRun(h, es) && i < |h|
    ensures (exists row :: VerdictOn(env, key, h[i], tenant, now) == Valid(Key(id, row))) <==>
            && IsValidKeyFormat(key) && HashAPIKey(env.sha256, key) != "" && env.isUuid(id) && id in h[i]
            && exists k, facts ::
                 0 <= k < i && CreatedFor(env, es, k, id, facts, tenant, key) && StillGood(es, k, i, id, facts, now)
  {
    hide IsValidKeyFormat, HashAPIKey, TrimSpace, VerdictOn, IsRun, Ends;
    var hash := HashAPIKey(env.sha256, key);
    UniqueInRun(h, es, i);
    VerdictIff(env, key, h[i], tenant, now, id);
    if id in h[i] {
      var k := RowsAreInserted(h, es, i, id);
      var facts := h[i][id].facts;
      ValidatesIff(h, es, k, i, id, facts, tenant, hash, now);
      if Validates(h[i], tenant, hash, now, id) {
        assert CreatedFor(env, es, k, id, facts, tenant, key) && StillGood(es, k, i, id, facts, now);
      }
    }
  }

  lemma UniqueInRun(h: seq<Table>, es: seq<Event>, i: nat)
    requires IsRun(h, es) && i < |h|
    ensures |h| == |es| + 1 && UniqueHashes(h[i])
  {
    TablesSound(h, es, i, if i == 0 then 0 else es[i - 1].now);
  }

  ghost predicate InjectiveDigest(sha256: string -> string) {
    forall a: string, b: string | sha256(a) == sha256(b) :: a == b
  }

  /**
   Only the issued string opens a key: when the digest is injective and the
   key was created for the digest of a well-formed `issued`, every string that
   is ever valid for it is `issued` itself.
   */
  lemma OnlyTheIssuedKey(
    env: Environment, h: seq<Table>, es: seq<Event>, k: nat, i: nat,
    issued: string, key: string, facts: Facts, tenant: string, now: int, id: string, row: Row)
    requires InjectiveDigest(env.sha256) && IsRun(h, es) && k < i < |h|
    requires IsValidKeyFormat(issued) && CreatedFor(env, es, k, id, facts, tenant, issued)
    requires VerdictOn(env, key, h[i], tenant, now) == Valid(Key(id, row))
    ensures key == issued
  {
    KeyStringValidIff(env, h, es, i, key, tenant, now, id);
    var k' := RowsAreInserted(h, es, i, id);
    assert k' == k;
    assert HashAPIKey(env.sha256, key) == HashAPIKey(env.sha256, issued);
    SameDigestSameKey(env.sha256, key, issued);
  }

  lemma SameDigestSameKey(sha256: string -> string, key: string, issued: string)
    requires InjectiveDigest(sha256) && IsValidKeyFormat(key) && IsValidKeyFormat(issued)
    requires HashAPIKey(sha256, key) == HashAPIKey(sha256, issued)
    ensures key == issued
  {
    AcceptedPreHashInjective(key, issued);
    var p, q := ParseAPIKey(key), ParseAPIKey(issued);
    assert sha256(PreHash(p.id, p.secret)) == sha256(PreHash(q.id, q.secret));
  }
}
