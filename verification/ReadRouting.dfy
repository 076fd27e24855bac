/**
 Routing of reads between a replica and the writable primary
 (maas-api/internal/api_keys/store_postgres.go) and the counters and health flag
 it maintains (maas-api/internal/api_keys/store_metrics.go).
 */
module ReadRouting {

  datatype Pool = Replica | Primary

  /** What running the read on a pool comes to; the middle two are the domain results. */
  datatype Attempt<T> = Rows(value: T) | KeyNotFound | InvalidKey | Failed(error: string)

  predicate Conclusive<T>(a: Attempt<T>) { !a.Failed? }

  /** A read: what each pool would answer, and whether the request is found cancelled after the replica failed. */
  datatype Read<T> = Read(operation: string, replica: Attempt<T>, primary: Attempt<T>, cancelled: bool)

  type Counters<!K> = map<K, nat>

  function Count<K>(c: Counters<K>, k: K): nat { if k in c then c[k] else 0 }

  function Bump<K>(c: Counters<K>, k: K): Counters<K> { c[k := Count(c, k) + 1] }

  /** The observable state of the store. */
  datatype Books = Books(
    healthy: bool, queries: Counters<(string, Pool)>, fallbacks: nat, pingFailures: Counters<Pool>)

  // ---------------------------------------------------------------- one read

  /** The replica failed on a request that is still wanted. */
  predicate FallsBack<T>(hasReplica: bool, q: Read<T>) { hasReplica && q.replica.Failed? && !q.cancelled }

  function Contacted<T>(hasReplica: bool, q: Read<T>): seq<Pool> {
    if !hasReplica then [Primary] else if FallsBack(hasReplica, q) then [Replica, Primary] else [Replica]
  }

  /** The answer of the pool contacted last. */
  function Answer<T>(hasReplica: bool, q: Read<T>): Attempt<T> {
    if !hasReplica || FallsBack(hasReplica, q) then q.primary else q.replica
  }

  function Booked<T>(hasReplica: bool, b: Books, q: Read<T>): Books {
    var first := Bump(b.queries, (q.operation, if hasReplica then Replica else Primary));
    if !hasReplica then b.(queries := first)
    else if Conclusive(q.replica) then b.(queries := first, healthy := true)
    else if q.cancelled then b.(queries := first)
    else b.(queries := Bump(first, (q.operation, Primary)), healthy := false, fallbacks := b.fallbacks + 1)
  }

  /** A query that a mutation sends straight to the primary. */
  function Mutated(b: Books, operation: string): Books { b.(queries := Bump(b.queries, (operation, Primary))) }

  /** How a streamed result becomes an attempt: a failure while iterating or closing overrides what the rows said. */
  function Streamed<T>(
    queryError: string, consumed: Attempt<T>, iterationError: string, closeError: string): Attempt<T>
  {
    if queryError != "" then Failed(queryError)
    else if closeError != "" then Failed(closeError)
    else if iterationError != "" then Failed(iterationError)
    else consumed
  }

  /** Outcome of scanning a single row. */
  datatype Scan<T> = Scanned(value: T) | NoRows | ScanFailed(error: string)

  function AttemptOf<T>(s: Scan<T>): Attempt<T> {
    match s
    case Scanned(v) => Rows(v)
    case NoRows => KeyNotFound
    case ScanFailed(e) => Failed(e)
  }

  /** The routing part of the store: its pools, counters and health flag. */
  class ReadRouter {
    const hasReplica: bool
    var readHealthy: bool
    var queries: Counters<(string, Pool)>
    var fallbacks: nat
    var pingFailures: Counters<Pool>

    ghost function State(): Books reads this { Books(readHealthy, queries, fallbacks, pingFailures) }

    constructor (hasReplica: bool)
      ensures this.hasReplica == hasReplica && State() == Books(true, map[], 0, map[])
    {
      this.hasReplica := hasReplica;
      readHealthy, queries, fallbacks, pingFailures := true, map[], 0, map[];
    }

    method RecordQuery(operation: string, pool: Pool)
      modifies this`queries
      ensures queries == Bump(old(queries), (operation, pool))
    {
      var counter := if (operation, pool) in queries then queries[(operation, pool)] else 0;
      queries := queries[(operation, pool) := counter + 1];
    }

    method ReadWithFallback<T>(q: Read<T>) returns (r: Attempt<T>, contacted: seq<Pool>)
      modifies this
      ensures contacted == Contacted(hasReplica, q) && r == Answer(hasReplica, q)
      ensures State() == Booked(hasReplica, old(State()), q)
    {
      if !hasReplica {
        RecordQuery(q.operation, Primary);
        return q.primary, [Primary];
      }
      RecordQuery(q.operation, Replica);
      r, contacted := q.replica, [Replica];
      if !r.Failed? {
        readHealthy := true;
        return;
      }
      if q.cancelled { return; }
      readHealthy := false;
      fallbacks := fallbacks + 1;
      RecordQuery(q.operation, Primary);
      r, contacted := q.primary, contacted + [Primary];
    }

    /** The separately written routing of a lookup by identifier meets the same contract. */
    method Get<T>(replica: Scan<T>, primary: Scan<T>, cancelled: bool) returns (r: Attempt<T>, contacted: seq<Pool>)
      modifies this
      ensures var q := Read("get", AttemptOf(replica), AttemptOf(primary), cancelled);
              && contacted == Contacted(hasReplica, q) && r == Answer(hasReplica, q)
              && State() == Booked(hasReplica, old(State()), q)
    {
      var readPool := if hasReplica then Replica else Primary;
      RecordQuery("get", readPool);
      var row := if hasReplica then replica else primary;
      contacted := [readPool];
      var fallbackUsed := false;
      if row.NoRows? {
        if hasReplica { readHealthy := true; }
        return KeyNotFound, contacted;
      }
      if row.ScanFailed? && hasReplica {
        if cancelled { return Failed(row.error), contacted; }
        readHealthy := false;
        fallbacks := fallbacks + 1;
        RecordQuery("get", Primary);
        row := primary;
        contacted := contacted + [Primary];
        fallbackUsed := true;
      }
      match row {
        case NoRows => return KeyNotFound, contacted;
        case ScanFailed(error) => return Failed(error), contacted;
        case Scanned(value) =>
          if hasReplica && !fallbackUsed { readHealthy := true; }
          return Rows(value), contacted;
      }
    }

    method CollectPings(primaryUp: bool, replicaUp: bool)
      modifies this`pingFailures, this`readHealthy
      ensures State() == Pinged(hasReplica, old(State()), primaryUp, replicaUp)
    {
      if !primaryUp { pingFailures := Bump(pingFailures, Primary); }
      if hasReplica && !replicaUp {
        pingFailures := Bump(pingFailures, Replica);
        readHealthy := false;
      }
    }
  }

  function Pinged(hasReplica: bool, b: Books, primaryUp: bool, replicaUp: bool): Books {
    var p := if primaryUp then b.pingFailures else Bump(b.pingFailures, Primary);
    if hasReplica && !replicaUp then b.(pingFailures := Bump(p, Replica), healthy := false) else b.(pingFailures := p)
  }

  // ---------------------------------------------------------------- runs

  /** Reads, pings, and the queries that mutations send straight to the primary. */
  datatype Event<T> = Reads(read: Read<T>) | Mutates(operation: string) | Pings(primaryUp: bool, replicaUp: bool)

  function Apply<T>(hasReplica: bool, b: Books, e: Event<T>): Books {
    match e
    case Reads(q) => Booked(hasReplica, b, q)
    case Mutates(op) => Mutated(b, op)
    case Pings(up, up') => Pinged(hasReplica, b, up, up')
  }

  function After<T>(hasReplica: bool, es: seq<Event<T>>): Books {
    if es == [] then Books(true, map[], 0, map[])
    else Apply(hasReplica, After(hasReplica, es[..|es| - 1]), es[|es| - 1])
  }

  function Tally<T>(es: seq<Event<T>>, p: Event<T> -> bool): nat {
    if es == [] then 0 else Tally(es[..|es| - 1], p) + One(p(es[|es| - 1]))
  }

  function ReadsOf<T(==)>(op: string): Event<T> -> bool { (e: Event<T>) => e.Reads? && e.read.operation == op }
  function MutationsOf<T(==)>(op: string): Event<T> -> bool { (e: Event<T>) => e.Mutates? && e.operation == op }
  function FallbacksOf<T(==)>(hasReplica: bool, op: string): Event<T> -> bool {
    (e: Event<T>) => e.Reads? && e.read.operation == op && FallsBack(hasReplica, e.read)
  }
  function AllFallbacks<T(==)>(hasReplica: bool): Event<T> -> bool {
    (e: Event<T>) => e.Reads? && FallsBack(hasReplica, e.read)
  }
  function PrimaryPingFailures<T(==)>(): Event<T> -> bool { (e: Event<T>) => e.Pings? && !e.primaryUp }
  function ReplicaPingFailures<T(==)>(hasReplica: bool): Event<T> -> bool {
    (e: Event<T>) => e.Pings? && hasReplica && !e.replicaUp
  }

  /**
   In every run the counters are exact: the replica count of an operation is the
   number of its reads when there is a replica, the primary count adds its
   mutations to its fallbacks (or to its reads, without a replica), and the
   fallback counter is the number of reads that fell back.
   */
  lemma {:induction false} CountersExact<T>(hasReplica: bool, es: seq<Event<T>>, op: string)
    ensures var b := After(hasReplica, es);
            && Count(b.queries, (op, Replica)) == (if hasReplica then Tally(es, ReadsOf(op)) else 0)
            && Count(b.queries, (op, Primary)) ==
               Tally(es, MutationsOf(op)) +
                 (if hasReplica then Tally(es, FallbacksOf(hasReplica, op)) else Tally(es, ReadsOf(op)))
            && b.fallbacks == Tally(es, AllFallbacks(hasReplica))
            && Count(b.pingFailures, Replica) == Tally(es, ReplicaPingFailures(hasReplica))
            && Count(b.pingFailures, Primary) == Tally(es, PrimaryPingFailures())
  {
    if es != [] {
      CountersExact(hasReplica, es[..|es| - 1], op);
      ApplyCounts(hasReplica, After(hasReplica, es[..|es| - 1]), es[|es| - 1], op);
      hide Apply, Count, FallsBack;
    }
  }

  function One(hit: bool): nat { if hit then 1 else 0 }

  lemma BumpCounts<K(!new)>(c: Counters<K>, k: K)
    ensures forall j :: Count(Bump(c, k), j) == Count(c, j) + One(j == k)
  {}

  /** What one event adds to the counters. */
  lemma ApplyCounts<T>(hasReplica: bool, b: Books, e: Event<T>, op: string)
    ensures var b' := Apply(hasReplica, b, e);
            && Count(b'.queries, (op, Replica)) == Count(b.queries, (op, Replica)) + One(hasReplica && ReadsOf(op)(e))
            && Count(b'.queries, (op, Primary)) == Count(b.queries, (op, Primary)) + One(MutationsOf(op)(e)) +
                 One(if hasReplica then FallbacksOf(hasReplica, op)(e) else ReadsOf(op)(e))
            && b'.fallbacks == b.fallbacks + One(AllFallbacks(hasReplica)(e))
            && Count(b'.pingFailures, Replica) ==
                 Count(b.pingFailures, Replica) + One(ReplicaPingFailures(hasReplica)(e))
            && Count(b'.pingFailures, Primary) == Count(b.pingFailures, Primary) + One(PrimaryPingFailures()(e))
  {
    match e
    case Reads(q) =>
      var first := (q.operation, if hasReplica then Replica else Primary);
      BumpCounts(b.queries, first);
      BumpCounts(Bump(b.queries, first), (q.operation, Primary));
      hide Count, Bump;
    case Mutates(m) =>
      BumpCounts(b.queries, (m, Primary));
      hide Count, Bump;
    case Pings(up, _) =>
      BumpCounts(b.pingFailures, Primary);
      BumpCounts(if up then b.pingFailures else Bump(b.pingFailures, Primary), Replica);
      hide Count, Bump;
  }

  // ---------------------------------------------------------------- health

  predicate Up<T>(hasReplica: bool, e: Event<T>) { hasReplica && e.Reads? && Conclusive(e.read.replica) }

  predicate Down<T>(hasReplica: bool, e: Event<T>) {
    hasReplica && ((e.Reads? && e.read.replica.Failed? && !e.read.cancelled) || (e.Pings? && !e.replicaUp))
  }

  /** No failure has been seen since event `i`. */
  ghost predicate QuietSince<T(!new)>(hasReplica: bool, es: seq<Event<T>>, i: nat) {
    forall k | i <= k < |es| :: !Down(hasReplica, es[k])
  }

  /**
   The replica counts as healthy exactly when no replica failure has ever been
   seen, or some direct read succeeded after the last one. Cancelled requests,
   successful pings and successful fallbacks say nothing.
   */
  lemma {:induction false} HealthIsLastSignal<T(!new)>(hasReplica: bool, es: seq<Event<T>>)
    ensures After(hasReplica, es).healthy <==>
            || QuietSince(hasReplica, es, 0)
            || exists i :: 0 <= i < |es| && Up(hasReplica, es[i]) && QuietSince(hasReplica, es, i)
  {
    if es != [] {
      var n := |es| - 1;
      var front := es[..n];
      HealthIsLastSignal(hasReplica, front);
      if Up(hasReplica, es[n]) {
        assert QuietSince(hasReplica, es, n);
      } else if !Down(hasReplica, es[n]) {
        QuietStays(hasReplica, es, 0);
        forall i | 0 <= i < n
          ensures QuietSince(hasReplica, es, i) <==> QuietSince(hasReplica, front, i) { QuietStays(hasReplica, es, i); }
        assert forall i | 0 <= i < n :: front[i] == es[i];
      } else {
        assert forall i | 0 <= i <= n :: !QuietSince(hasReplica, es, i);
      }
    }
  }

  lemma QuietStays<T(!new)>(hasReplica: bool, es: seq<Event<T>>, i: nat)
    requires es != [] && i < |es| && !Down(hasReplica, es[|es| - 1])
    ensures QuietSince(hasReplica, es, i) <==> QuietSince(hasReplica, es[..|es| - 1], i)
  {
    var front := es[..|es| - 1];
    assert forall k | 0 <= k < |front| :: front[k] == es[k];
    assert forall k | 0 <= k < |es| - 1 :: es[k] == front[k];
  }

  /** The primary is contacted at most once, and after the replica only when that failed on a request still wanted. */
  lemma PrimaryAtMostOnce<T>(hasReplica: bool, q: Read<T>)
    ensures var c := Contacted(hasReplica, q);
            && multiset(c)[Primary] <= 1 && multiset(c)[Replica] <= 1
            && (Primary in c && Replica in c <==> hasReplica && !Conclusive(q.replica) && !q.cancelled)
            && (hasReplica ==> c[0] == Replica)
            && Answer(hasReplica, q) == (if c[|c| - 1].Replica? then q.replica else q.primary)
  {}
}
