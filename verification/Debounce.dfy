/**
 The debounce of last-used writes (maas-api/internal/api_keys/service.go): one
 map entry per key, changed by LoadOrStore, CompareAndSwap, CompareAndDelete and
 the bare Delete of the hourly sweep. The protocol below follows the entry of
 one key under every interleaving of callers, failing writers and the sweep; the
 clock is read before, and separately from, every map operation.
 */
module Debounce {
  import opened Options

  // ---------------------------------------------------------------- the protocol

  datatype Caller =
    | Reading(now: int)                  // the clock is read, the map not yet consulted
    | Contending(now: int, seen: int)    // found an old enough slot, about to swap
    | Holding(slot: int)                 // granted: the database write is under way
    | Over

  datatype Sweeper = Resting | Sweeping(cutoff: int) | Condemned(seen: int, cutoff: int)

  datatype Grant = Grant(caller: nat, slot: int)

  /** How the entry was removed: by a failing writer, or by the sweep that had read `seen` with that cutoff. */
  datatype Removal = Cleared(caller: nat) | Swept(seen: int, cutoff: int)

  /** An epoch: the grants between two removals of the entry, and the removal that ended it. */
  datatype Epoch = Epoch(grants: seq<Grant>, removal: Removal)

  /** The entry and the processes working on it; `readings`, `grants` and `past` record what happened. */
  datatype State = State(
    ttl: int, clock: int, slot: Option<int>, callers: map<nat, Caller>, sweeper: Sweeper,
    readings: map<nat, int>, grants: seq<Grant>, past: seq<Epoch>)

  datatype Step =
    | Tick(clock: int)
    | ReadClock(c: nat)
    | LoadOrStore(c: nat)
    | CompareAndSwap(c: nat)
    | WriteSucceeds(c: nat)
    | CompareAndDelete(c: nat)
    | SweepBegins
    | SweepLoads
    | SweepDeletes

  ghost predicate Init(s: State) {
    && s.slot.None? && s.callers == map[] && s.sweeper == Resting
    && s.readings == map[] && s.grants == [] && s.past == []
  }

  predicate Enabled(s: State, step: Step) {
    match step
    case Tick(t) => t >= s.clock
    case ReadClock(c) => c !in s.callers
    case LoadOrStore(c) => c in s.callers && s.callers[c].Reading?
    case CompareAndSwap(c) => c in s.callers && s.callers[c].Contending?
    case WriteSucceeds(c) => c in s.callers && s.callers[c].Holding?
    case CompareAndDelete(c) => c in s.callers && s.callers[c].Holding?
    case SweepBegins => s.sweeper.Resting?
    case SweepLoads => s.sweeper.Sweeping?
    case SweepDeletes => s.sweeper.Condemned?
  }

  function Granted(s: State, c: nat, now: int): State {
    s.(slot := Some(now), callers := s.callers[c := Holding(now)], grants := s.grants + [Grant(c, now)])
  }

  function Removed(s: State, removal: Removal): State {
    s.(slot := None, grants := [], past := s.past + [Epoch(s.grants, removal)])
  }

  function After(s: State, step: Step): State
    requires Enabled(s, step)
  {
    match step
    case Tick(t) => s.(clock := t)
    case ReadClock(c) => s.(callers := s.callers[c := Reading(s.clock)], readings := s.readings[c := s.clock])
    case LoadOrStore(c) =>
      var now := s.callers[c].now;
      if s.slot.None? then Granted(s, c, now)
      else if now - s.slot.value >= s.ttl then s.(callers := s.callers[c := Contending(now, s.slot.value)])
      else s.(callers := s.callers[c := Over])
    case CompareAndSwap(c) =>
      if s.slot == Some(s.callers[c].seen) then Granted(s, c, s.callers[c].now)
      else s.(callers := s.callers[c := Over])
    case WriteSucceeds(c) => s.(callers := s.callers[c := Over])
    case CompareAndDelete(c) =>
      var s' := s.(callers := s.callers[c := Over]);
      if s.slot == Some(s.callers[c].slot) then Removed(s', Cleared(c)) else s'
    case SweepBegins => s.(sweeper := Sweeping(s.clock - s.ttl))
    case SweepLoads =>
      var cutoff := s.sweeper.cutoff;
      s.(sweeper := if s.slot.Some? && s.slot.value < cutoff then Condemned(s.slot.value, cutoff) else Resting)
    case SweepDeletes =>
      var s' := s.(sweeper := Resting);
      if s.slot.None? then s' else Removed(s', Swept(s.sweeper.seen, s.sweeper.cutoff))
  }

  ghost predicate IsPath(trace: seq<State>, steps: seq<Step>) {
    && |trace| == |steps| + 1
    && forall i | 0 <= i < |steps| :: Enabled(trace[i], steps[i]) && trace[i + 1] == After(trace[i], steps[i])
  }

  ghost predicate IsRun(trace: seq<State>, steps: seq<Step>) { IsPath(trace, steps) && Init(trace[0]) }

  // ---------------------------------------------------------------- the invariant

  /** Consecutive grants are at least the TTL apart. */
  ghost predicate Spaced(g: seq<Grant>, ttl: int) {
    forall i | 0 < i < |g| :: g[i].slot - g[i - 1].slot >= ttl
  }

  /** Every grant carries the clock reading of its caller. */
  ghost predicate OwnReadings(g: seq<Grant>, readings: map<nat, int>) {
    forall i | 0 <= i < |g| :: g[i].caller in readings && g[i].slot == readings[g[i].caller]
  }

  ghost predicate GoodEpoch(e: Epoch, ttl: int, readings: map<nat, int>) {
    && e.grants != [] && Spaced(e.grants, ttl) && OwnReadings(e.grants, readings)
    && match e.removal
       case Cleared(c) => c in readings && readings[c] == e.grants[|e.grants| - 1].slot
       case Swept(seen, cutoff) => seen < cutoff
  }

  ghost predicate GoodCaller(p: Caller, reading: int, ttl: int) {
    match p
    case Reading(now) => now == reading
    case Contending(now, seen) => now == reading && now - seen >= ttl
    case Holding(slot) => slot == reading
    case Over => true
  }

  ghost predicate Inv(s: State) {
    && s.slot == (if s.grants == [] then None else Some(s.grants[|s.grants| - 1].slot))
    && Spaced(s.grants, s.ttl) && OwnReadings(s.grants, s.readings)
    && (forall i | 0 <= i < |s.past| :: GoodEpoch(s.past[i], s.ttl, s.readings))
    && s.callers.Keys == s.readings.Keys
    && (forall c | c in s.callers :: GoodCaller(s.callers[c], s.readings[c], s.ttl))
    && (s.sweeper.Condemned? ==> s.sweeper.seen < s.sweeper.cutoff)
  }

  lemma EpochsKeep(past: seq<Epoch>, ttl: int, readings: map<nat, int>, c: nat, now: int)
    requires forall i | 0 <= i < |past| :: GoodEpoch(past[i], ttl, readings)
    requires c !in readings
    ensures forall i | 0 <= i < |past| :: GoodEpoch(past[i], ttl, readings[c := now])
  {}

  lemma CallerMoves(s: State, c: nat, p: Caller)
    requires Inv(s) && c in s.callers && GoodCaller(p, s.readings[c], s.ttl)
    ensures Inv(s.(callers := s.callers[c := p]))
  {}

  lemma GrantKeepsInv(s: State, c: nat, now: int)
    requires Inv(s) && c in s.callers && s.readings[c] == now && (s.slot.Some? ==> now - s.slot.value >= s.ttl)
    ensures Inv(Granted(s, c, now))
  {
    CallerMoves(s, c, Holding(now));
  }

  lemma RemovalKeepsInv(s: State, removal: Removal)
    requires Inv(s) && s.slot.Some?
    requires match removal
             case Cleared(c) => c in s.readings && s.slot == Some(s.readings[c])
             case Swept(seen, cutoff) => seen < cutoff
    ensures Inv(Removed(s, removal))
  {
    assert GoodEpoch(Epoch(s.grants, removal), s.ttl, s.readings);
  }

  lemma StepKeepsInv(s: State, step: Step)
    requires Inv(s) && Enabled(s, step)
    ensures Inv(After(s, step)) && After(s, step).ttl == s.ttl
  {
    match step
    case Tick(_) =>
    case ReadClock(c) => EpochsKeep(s.past, s.ttl, s.readings, c, s.clock);
    case LoadOrStore(c) => LoadOrStoreKeepsInv(s, c);
    case CompareAndSwap(c) =>
      assert GoodCaller(s.callers[c], s.readings[c], s.ttl);
      if s.slot == Some(s.callers[c].seen) { GrantKeepsInv(s, c, s.callers[c].now); } else { CallerMoves(s, c, Over); }
    case WriteSucceeds(c) => CallerMoves(s, c, Over);
    case CompareAndDelete(c) =>
      assert GoodCaller(s.callers[c], s.readings[c], s.ttl);
      CallerMoves(s, c, Over);
      if s.slot == Some(s.callers[c].slot) { RemovalKeepsInv(s.(callers := s.callers[c := Over]), Cleared(c)); }
    case SweepBegins =>
    case SweepLoads =>
    case SweepDeletes =>
      if s.slot.Some? { RemovalKeepsInv(s.(sweeper := Resting), Swept(s.sweeper.seen, s.sweeper.cutoff)); }
  }

  lemma LoadOrStoreKeepsInv(s: State, c: nat)
    requires Inv(s) && Enabled(s, LoadOrStore(c))
    ensures Inv(After(s, LoadOrStore(c)))
  {
    var now := s.callers[c].now;
    assert GoodCaller(s.callers[c], s.readings[c], s.ttl);
    if s.slot.None? { GrantKeepsInv(s, c, now); }
    else if now - s.slot.value >= s.ttl { CallerMoves(s, c, Contending(now, s.slot.value)); }
    else { CallerMoves(s, c, Over); }
  }

  lemma {:induction false} RunsKeepInv(trace: seq<State>, steps: seq<Step>, n: nat)
    requires IsRun(trace, steps) && n < |trace|
    ensures Inv(trace[n]) && trace[n].ttl == trace[0].ttl
  {
    if n > 0 {
      RunsKeepInv(trace, steps, n - 1);
      StepKeepsInv(trace[n - 1], steps[n - 1]);
    }
  }

  /** A recorded reading is what the clock showed when the caller read it. */
  lemma {:induction false} ReadingIsTrue(trace: seq<State>, steps: seq<Step>, n: nat, c: nat) returns (k: nat)
    requires IsRun(trace, steps) && n < |trace| && c in trace[n].readings
    ensures k < n && steps[k] == ReadClock(c) && trace[k].clock == trace[n].readings[c]
  {
    if c in trace[n - 1].readings && !(steps[n - 1] == ReadClock(c)) {
      k := ReadingIsTrue(trace, steps, n - 1, c);
    } else {
      k := n - 1;
    }
  }

  /** The slot of a grant in the open epoch is what the clock showed when its caller read it. */
  lemma GrantIsReading(trace: seq<State>, steps: seq<Step>, n: nat, i: nat) returns (k: nat)
    requires IsRun(trace, steps) && n < |trace| && i < |trace[n].grants|
    ensures k < n && steps[k] == ReadClock(trace[n].grants[i].caller) && trace[k].clock == trace[n].grants[i].slot
  {
    RunsKeepInv(trace, steps, n);
    k := ReadingIsTrue(trace, steps, n, trace[n].grants[i].caller);
  }

  // ---------------------------------------------------------------- spacing within an epoch

  /** In every reachable state the grants of every epoch, the open one included, are a chain spaced by the TTL. */
  lemma EpochsSpaced(trace: seq<State>, steps: seq<Step>, n: nat)
    requires IsRun(trace, steps) && n < |trace|
    ensures Spaced(trace[n].grants, trace[0].ttl)
    ensures forall i | 0 <= i < |trace[n].past| :: Spaced(trace[n].past[i].grants, trace[0].ttl)
  {
    RunsKeepInv(trace, steps, n);
    forall i | 0 <= i < |trace[n].past| ensures Spaced(trace[n].past[i].grants, trace[0].ttl) {
      assert GoodEpoch(trace[n].past[i], trace[n].ttl, trace[n].readings);
    }
  }

  /** Any two grants of a chain are as many TTLs apart as there are grants between them. */
  lemma {:induction false} ChainSpread(g: seq<Grant>, ttl: int, i: nat, j: nat)
    requires Spaced(g, ttl) && i <= j < |g|
    ensures g[j].slot - g[i].slot >= (j - i) * ttl
    decreases j
  {
    if i < j {
      ChainSpread(g, ttl, i, j - 1);
      assert (j - i) * ttl == (j - 1 - i) * ttl + ttl;
    }
  }

  lemma {:induction false} ChainIncreases(g: seq<Grant>, ttl: int, i: nat, j: nat)
    requires Spaced(g, ttl) && ttl > 0 && i < j < |g|
    ensures g[i].slot < g[j].slot
    decreases j
  {
    if i < j - 1 { ChainIncreases(g, ttl, i, j - 1); }
  }

  // ---------------------------------------------------------------- clearing

  ghost predicate DistinctReadings(readings: map<nat, int>) {
    forall c, d | c in readings && d in readings && readings[c] == readings[d] :: c == d
  }

  /** The grant that caller `c` removes carries the reading of `c` as well as that of the caller it was made to. */
  ghost predicate RemovesReading(c: nat, victim: Grant, readings: map<nat, int>) {
    c in readings && victim.caller in readings && readings[c] == victim.slot == readings[victim.caller]
  }

  /** A failing writer's clear removes a slot equal to its own reading; with distinct readings, its own slot only. */
  lemma ClearsOwnSlot(trace: seq<State>, steps: seq<Step>, n: nat, i: nat)
    requires IsRun(trace, steps) && n < |trace| && i < |trace[n].past| && trace[n].past[i].removal.Cleared?
    ensures var e := trace[n].past[i];
            && e.grants != []
            && RemovesReading(e.removal.caller, e.grants[|e.grants| - 1], trace[n].readings)
            && (DistinctReadings(trace[n].readings) ==> e.grants[|e.grants| - 1].caller == e.removal.caller)
  {
    RunsKeepInv(trace, steps, n);
    assert GoodEpoch(trace[n].past[i], trace[n].ttl, trace[n].readings);
  }

  /** Even with equal readings, a writer whose own grant is in the open epoch removes that grant or nothing. */
  lemma ClearWithinEpoch(trace: seq<State>, steps: seq<Step>, n: nat, c: nat, k: nat)
    requires IsRun(trace, steps) && n < |trace| && trace[0].ttl > 0
    requires Enabled(trace[n], CompareAndDelete(c))
    requires k < |trace[n].grants| && trace[n].grants[k] == Grant(c, trace[n].callers[c].slot)
    ensures var s' := After(trace[n], CompareAndDelete(c));
            if k == |trace[n].grants| - 1 then s'.slot.None?
              else s'.slot == trace[n].slot && s'.grants == trace[n].grants
  {
    RunsKeepInv(trace, steps, n);
    var s := trace[n];
    var last := |s.grants| - 1;
    if k < last { ChainIncreases(s.grants, s.ttl, k, last); }
  }

  /** Clearing ends the open epoch, and the grant it removes was made to another caller. */
  ghost predicate RemovesAnothers(s: State, c: nat)
    requires Enabled(s, CompareAndDelete(c))
  {
    var s' := After(s, CompareAndDelete(c));
    |s'.past| == |s.past| + 1 && s.grants != [] && s.grants[|s.grants| - 1].caller != c
  }

  /**
   Exactly when a clear hits another caller: the entry equals the writer's slot, and its own
   grant is not in the open epoch.
   */
  lemma ClearsAnothersIff(trace: seq<State>, steps: seq<Step>, n: nat, c: nat)
    requires IsRun(trace, steps) && n < |trace| && trace[0].ttl > 0 && Enabled(trace[n], CompareAndDelete(c))
    ensures RemovesAnothers(trace[n], c) <==>
            && trace[n].slot == Some(trace[n].callers[c].slot)
            && forall k | 0 <= k < |trace[n].grants| :: trace[n].grants[k].caller != c
  {
    var s := trace[n];
    RunsKeepInv(trace, steps, n);
    assert GoodCaller(s.callers[c], s.readings[c], s.ttl);
    if s.slot == Some(s.callers[c].slot) {
      var last := |s.grants| - 1;
      forall k | 0 <= k < last ensures s.grants[k].caller != c { ChainIncreases(s.grants, s.ttl, k, last); }
    }
  }

  // ---------------------------------------------------------------- spacing across epochs

  /** The grants of all epochs, the open one last. */
  ghost function Epochs(s: State): seq<seq<Grant>> {
    seq(|s.past| + 1, i requires 0 <= i <= |s.past| => if i < |s.past| then s.past[i].grants else s.grants)
  }

  ghost function Concat(es: seq<seq<Grant>>): seq<Grant> {
    if es == [] then [] else Concat(es[..|es| - 1]) + es[|es| - 1]
  }

  /** All grants of the run, in order. */
  ghost function AllGrants(s: State): seq<Grant> { Concat(Epochs(s)) }

  /** Every reading that can still be granted, those already made included, is a TTL later than `v`. */
  ghost predicate LateEnough(s: State, v: int) {
    s.clock - v >= s.ttl && forall c | c in s.callers && s.callers[c].Reading? :: s.callers[c].now - v >= s.ttl
  }

  ghost function LastSlot(e: Epoch): int { if e.grants == [] then 0 else e.grants[|e.grants| - 1].slot }

  /** The grants of the epoch after epoch `k`. */
  ghost function Following(s: State, k: nat): seq<Grant>
    requires k < |s.past|
  {
    if k + 1 < |s.past| then s.past[k + 1].grants else s.grants
  }

  /** After an epoch ended by the sweep, the next grant is a TTL later: it was, or if still to come it will be. */
  ghost predicate Joints(s: State) {
    && (forall k | 0 <= k < |s.past| && s.past[k].removal.Swept? && Following(s, k) != [] ::
          Following(s, k)[0].slot - LastSlot(s.past[k]) >= s.ttl)
    && (s.past != [] && s.past[|s.past| - 1].removal.Swept? && s.grants == [] ==>
          LateEnough(s, LastSlot(s.past[|s.past| - 1])))
  }

  lemma GrantKeepsJoints(s: State, c: nat, now: int)
    requires Inv(s) && Joints(s) && c in s.callers && (s.callers[c] == Reading(now) || s.grants != [])
    ensures Joints(Granted(s, c, now))
  {
    var s' := Granted(s, c, now);
    forall k | 0 <= k < |s.past| && s.past[k].removal.Swept?
      ensures Following(s', k)[0].slot - LastSlot(s'.past[k]) >= s.ttl
    {
      if k + 1 < |s.past| { assert GoodEpoch(s.past[k + 1], s.ttl, s.readings); }
    }
  }

  lemma RemovalKeepsJoints(s: State, removal: Removal)
    requires Inv(s) && Joints(s) && s.slot.Some? && (removal.Swept? ==> LateEnough(s, s.slot.value))
    ensures Joints(Removed(s, removal))
  {
    var s' := Removed(s, removal);
    forall k | 0 <= k < |s'.past| && s'.past[k].removal.Swept? && Following(s', k) != []
      ensures Following(s', k)[0].slot - LastSlot(s'.past[k]) >= s.ttl
    {
      assert Following(s', k) == Following(s, k);
    }
  }

  /** The deletion finds a slot that no grant still to come can follow too closely. */
  ghost predicate Guarded(s: State, step: Step) {
    step.SweepDeletes? && s.slot.Some? ==> LateEnough(s, s.slot.value)
  }

  /** Nothing that could be granted gets earlier, and no epoch changes. */
  ghost predicate Later(s: State, s': State) {
    && s'.ttl == s.ttl && s'.past == s.past && s'.grants == s.grants
    && forall v | LateEnough(s, v) :: LateEnough(s', v)
  }

  lemma LaterKeepsJoints(s: State, s': State)
    requires Joints(s) && Later(s, s')
    ensures Joints(s')
  {
    assert forall k | 0 <= k < |s.past| :: Following(s', k) == Following(s, k);
  }

  lemma CallerMovesLater(s: State, c: nat, p: Caller)
    requires c in s.callers && !p.Reading?
    ensures Later(s, s.(callers := s.callers[c := p]))
  {}

  lemma ClockLater(s: State, step: Step)
    requires Enabled(s, step) && (step.Tick? || step.ReadClock? || step.SweepBegins? || step.SweepLoads?)
    ensures Later(s, After(s, step))
  {}

  lemma StepKeepsJoints(s: State, step: Step)
    requires Inv(s) && Joints(s) && Enabled(s, step) && Guarded(s, step)
    ensures Joints(After(s, step))
  {
    match step
    case LoadOrStore(c) => LoadOrStoreKeepsJoints(s, c);
    case CompareAndSwap(c) =>
      if s.slot == Some(s.callers[c].seen) {
        GrantKeepsJoints(s, c, s.callers[c].now);
      } else {
        MoveKeepsJoints(s, c, Over);
      }
    case WriteSucceeds(c) => MoveKeepsJoints(s, c, Over);
    case CompareAndDelete(c) =>
      CallerMoves(s, c, Over);
      MoveKeepsJoints(s, c, Over);
      if s.slot == Some(s.callers[c].slot) { RemovalKeepsJoints(s.(callers := s.callers[c := Over]), Cleared(c)); }
    case SweepDeletes => SweepKeepsJoints(s);
    case _ =>
      ClockLater(s, step);
      LaterKeepsJoints(s, After(s, step));
  }

  lemma MoveKeepsJoints(s: State, c: nat, p: Caller)
    requires Joints(s) && c in s.callers && !p.Reading?
    ensures Joints(s.(callers := s.callers[c := p]))
  {
    CallerMovesLater(s, c, p);
    LaterKeepsJoints(s, s.(callers := s.callers[c := p]));
  }

  lemma LoadOrStoreKeepsJoints(s: State, c: nat)
    requires Inv(s) && Joints(s) && Enabled(s, LoadOrStore(c))
    ensures Joints(After(s, LoadOrStore(c)))
  {
    var now := s.callers[c].now;
    if s.slot.None? {
      GrantKeepsJoints(s, c, now);
    } else if now - s.slot.value >= s.ttl {
      MoveKeepsJoints(s, c, Contending(now, s.slot.value));
    } else {
      MoveKeepsJoints(s, c, Over);
    }
  }

  lemma SweepKeepsJoints(s: State)
    requires Inv(s) && Joints(s) && Enabled(s, SweepDeletes) && Guarded(s, SweepDeletes)
    ensures Joints(After(s, SweepDeletes))
  {
    var s' := s.(sweeper := Resting);
    LaterKeepsJoints(s, s');
    if s.slot.Some? { RemovalKeepsJoints(s', Swept(s.sweeper.seen, s.sweeper.cutoff)); }
  }

  lemma {:induction false} RunsKeepJoints(trace: seq<State>, steps: seq<Step>, n: nat)
    requires IsRun(trace, steps) && n < |trace| && forall k | 0 <= k < n :: Guarded(trace[k], steps[k])
    ensures Joints(trace[n])
  {
    if n > 0 {
      RunsKeepJoints(trace, steps, n - 1);
      RunsKeepInv(trace, steps, n - 1);
      StepKeepsJoints(trace[n - 1], steps[n - 1]);
    }
  }

  /**
   When every deletion of the sweep is guarded, sweeping keeps the spacing: all
   grants between two clears, in however many epochs, are one chain spaced by
   the TTL. Without clears that is every grant of the run.
   */
  lemma GuardedSweepsKeepSpacing(trace: seq<State>, steps: seq<Step>, n: nat, i: nat, j: nat)
    requires IsRun(trace, steps) && n < |trace| && forall k | 0 <= k < n :: Guarded(trace[k], steps[k])
    requires i <= j <= |trace[n].past| && forall k | i <= k < j :: trace[n].past[k].removal.Swept?
    ensures Spaced(Concat(Epochs(trace[n])[i..j + 1]), trace[0].ttl)
  {
    RunsKeepInv(trace, steps, n);
    RunsKeepJoints(trace, steps, n);
    ChainsJoin(trace[n], i, j);
  }

  lemma EpochSpaced(s: State, m: nat)
    requires Inv(s) && m <= |s.past|
    ensures |Epochs(s)| == |s.past| + 1 && Spaced(Epochs(s)[m], s.ttl)
  {
    assert m < |s.past| ==> GoodEpoch(s.past[m], s.ttl, s.readings);
  }

  lemma EpochsAbut(s: State, m: nat)
    requires Inv(s) && Joints(s) && m < |s.past| && s.past[m].removal.Swept?
    ensures Abut(Epochs(s)[m], Epochs(s)[m + 1], s.ttl)
  {
    assert GoodEpoch(s.past[m], s.ttl, s.readings);
    assert Epochs(s)[m + 1] == Following(s, m);
  }

  lemma ChainsJoin(s: State, i: nat, j: nat)
    requires Inv(s) && Joints(s) && i <= j <= |s.past| && forall k | i <= k < j :: s.past[k].removal.Swept?
    ensures Spaced(Concat(Epochs(s)[i..j + 1]), s.ttl)
  {
    hide Inv, Joints, Spaced, Abut, Concat;
    EpochSpaced(s, j);
    var es := Epochs(s)[i..j + 1];
    forall k | 0 <= k < |es| ensures Spaced(es[k], s.ttl) { EpochSpaced(s, i + k); }
    forall k | 0 <= k < |es| - 1 ensures Abut(es[k], es[k + 1], s.ttl) { EpochsAbut(s, i + k); }
    ConcatSpaced(es, s.ttl);
  }

  ghost predicate Abut(a: seq<Grant>, b: seq<Grant>, ttl: int) {
    a != [] && (b != [] ==> b[0].slot - a[|a| - 1].slot >= ttl)
  }

  lemma {:induction false} ConcatSpaced(es: seq<seq<Grant>>, ttl: int)
    requires forall i | 0 <= i < |es| :: Spaced(es[i], ttl)
    requires forall i | 0 <= i < |es| - 1 :: Abut(es[i], es[i + 1], ttl)
    ensures Spaced(Concat(es), ttl)
    ensures es != [] && es[|es| - 1] != [] ==>
            Concat(es) != [] && Concat(es)[|Concat(es)| - 1] == es[|es| - 1][|es[|es| - 1]| - 1]
  {
    if es != [] {
      var n := |es| - 1;
      ConcatSpaced(es[..n], ttl);
      if n > 0 { assert Abut(es[n - 1], es[n - 1 + 1], ttl); }
      Joined(Concat(es[..n]), es[n], ttl);
    }
  }

  lemma Joined(a: seq<Grant>, b: seq<Grant>, ttl: int)
    requires Spaced(a, ttl) && Spaced(b, ttl)
    requires a != [] && b != [] ==> b[0].slot - a[|a| - 1].slot >= ttl
    ensures Spaced(a + b, ttl)
  {}

  // ---------------------------------------------------------------- what can be granted next

  /** Some continuation of `s` makes `g` its next grant, before any removal. */
  ghost predicate CanGrantNext(s: State, g: Grant) {
    exists trace, steps :: LeadsTo(trace, steps, s, g)
  }

  ghost predicate LeadsTo(trace: seq<State>, steps: seq<Step>, s: State, g: Grant) {
    && IsPath(trace, steps) && trace[0] == s
    && (forall k | 0 <= k < |steps| :: trace[k].grants == s.grants && trace[k].past == s.past)
    && trace[|steps|].grants == s.grants + [g] && trace[|steps|].past == s.past
  }

  /** The caller has read this clock value but not consulted the map, or is still to come. */
  ghost predicate Arrives(s: State, g: Grant) {
    if g.caller in s.callers then s.callers[g.caller] == Reading(g.slot) else g.slot >= s.clock
  }

  /** What the present state says about a grant: it arrives late enough for the slot, or is about to swap it. */
  ghost predicate Eligible(s: State, g: Grant) {
    || (Arrives(s, g) && (s.slot.Some? ==> g.slot - s.slot.value >= s.ttl))
    || (s.slot.Some? && g.caller in s.callers && s.callers[g.caller] == Contending(g.slot, s.slot.value))
  }

  /** Whatever `t` could still grant was already eligible in `s`. */
  ghost predicate Follows(s: State, t: State) {
    && t.slot == s.slot && t.ttl == s.ttl && t.clock >= s.clock && s.callers.Keys <= t.callers.Keys
    && (forall c | c in t.callers && t.callers[c].Reading? :: Arrives(s, Grant(c, t.callers[c].now)))
    && (forall c | c in t.callers && t.callers[c].Contending? && t.slot == Some(t.callers[c].seen) ::
          Eligible(s, Grant(c, t.callers[c].now)))
  }

  lemma StepFollows(s: State, t: State, step: Step)
    requires Follows(s, t) && Inv(t) && Enabled(t, step)
    requires After(t, step).grants == t.grants && After(t, step).past == t.past
    ensures Follows(s, After(t, step))
  {}

  lemma StepGrants(s: State, t: State, step: Step, g: Grant)
    requires Follows(s, t) && Inv(t) && Enabled(t, step)
    requires After(t, step).grants == t.grants + [g] && After(t, step).past == t.past
    ensures Eligible(s, g)
  {
    assert After(t, step).grants[|t.grants|] == g;
  }

  lemma {:induction false} PathFollows(trace: seq<State>, steps: seq<Step>, s: State, n: nat)
    requires IsPath(trace, steps) && trace[0] == s && Inv(s) && n < |trace|
    requires forall k | 0 <= k <= n :: trace[k].grants == s.grants && trace[k].past == s.past
    ensures Inv(trace[n]) && Follows(s, trace[n])
  {
    hide Inv, Follows, Enabled, After;
    if n == 0 {
      FollowsItself(s);
    } else {
      PathFollows(trace, steps, s, n - 1);
      assert trace[n - 1 + 1] == After(trace[n - 1], steps[n - 1]);
      StepKeepsInv(trace[n - 1], steps[n - 1]);
      StepFollows(s, trace[n - 1], steps[n - 1]);
    }
  }

  lemma FollowsItself(s: State)
    requires Inv(s)
    ensures Follows(s, s)
  {}

  lemma OneStepAway(s: State, step: Step, g: Grant)
    requires Enabled(s, step) && After(s, step).grants == s.grants + [g] && After(s, step).past == s.past
    ensures CanGrantNext(s, g)
  {
    assert LeadsTo([s, After(s, step)], [step], s, g);
  }

  lemma OneStepMore(s: State, step: Step, g: Grant)
    requires Enabled(s, step) && After(s, step).grants == s.grants && After(s, step).past == s.past
    requires CanGrantNext(After(s, step), g)
    ensures CanGrantNext(s, g)
  {
    hide Enabled, After;
    var trace, steps :| LeadsTo(trace, steps, After(s, step), g);
    var trace', steps' := [s] + trace, [step] + steps;
    forall i | 0 <= i < |steps'| ensures Enabled(trace'[i], steps'[i]) && trace'[i + 1] == After(trace'[i], steps'[i]) {
      if i > 0 { assert Enabled(trace[i - 1], steps[i - 1]) && trace[i] == After(trace[i - 1], steps[i - 1]); }
    }
    assert LeadsTo(trace', steps', s, g);
  }

  lemma ReadingGranted(s: State, g: Grant)
    requires Inv(s) && g.caller in s.callers && s.callers[g.caller] == Reading(g.slot) && Eligible(s, g)
    ensures CanGrantNext(s, g)
  {
    var c := g.caller;
    if s.slot.None? {
      OneStepAway(s, LoadOrStore(c), g);
    } else {
      OneStepAway(After(s, LoadOrStore(c)), CompareAndSwap(c), g);
      OneStepMore(s, LoadOrStore(c), g);
    }
  }

  lemma NewcomerGranted(s: State, g: Grant)
    requires Inv(s) && g.caller !in s.callers && Eligible(s, g)
    ensures CanGrantNext(s, g)
  {
    var s1 := After(s, Tick(g.slot));
    var s2 := After(s1, ReadClock(g.caller));
    StepKeepsInv(s, Tick(g.slot));
    StepKeepsInv(s1, ReadClock(g.caller));
    ReadingGranted(s2, g);
    OneStepMore(s1, ReadClock(g.caller), g);
    OneStepMore(s, Tick(g.slot), g);
  }

  /** The grants that can come next, over every continuation, are exactly the eligible ones. */
  lemma NextGrantIff(s: State, g: Grant)
    requires Inv(s)
    ensures CanGrantNext(s, g) <==> Eligible(s, g)
  {
    if CanGrantNext(s, g) {
      var trace, steps :| LeadsTo(trace, steps, s, g);
      var n := |steps| - 1;
      PathFollows(trace, steps, s, n);
      StepGrants(s, trace[n], steps[n], g);
    } else if Eligible(s, g) {
      if g.caller !in s.callers {
        NewcomerGranted(s, g);
      } else if s.callers[g.caller].Reading? {
        ReadingGranted(s, g);
      } else {
        OneStepAway(s, CompareAndSwap(g.caller), g);
      }
    }
  }

  // ---------------------------------------------------------------- the effect of a sweep's deletion

  /** No caller is about to swap this slot. */
  ghost predicate Unwatched(s: State, v: int) {
    forall c | c in s.callers && s.callers[c].Contending? :: s.callers[c].seen != v
  }

  ghost predicate Deletes(s: State) { Enabled(s, SweepDeletes) && s.slot.Some? }

  /** Whatever happens after the deletion, the next grant is a TTL after the deleted slot. */
  ghost predicate KeepsSpacing(s: State)
    requires Deletes(s)
  {
    forall g | CanGrantNext(After(s, SweepDeletes), g) :: g.slot - s.slot.value >= s.ttl
  }

  /** The swap of this caller would succeed. */
  ghost predicate SwapGranted(s: State, c: nat)
    requires Enabled(s, CompareAndSwap(c))
  {
    After(s, CompareAndSwap(c)).callers[c].Holding?
  }

  /** Every swap under way succeeds after the deletion exactly when it would have before. */
  ghost predicate KeepsSwaps(s: State)
    requires Deletes(s)
  {
    forall c | Enabled(s, CompareAndSwap(c)) :: SwapGranted(After(s, SweepDeletes), c) <==> SwapGranted(s, c)
  }

  /** The deletion changes nothing about which grants can come next. */
  ghost predicate Invisible(s: State)
    requires Deletes(s)
  {
    forall g :: CanGrantNext(After(s, SweepDeletes), g) <==> CanGrantNext(s, g)
  }

  lemma EligibleAfterDeletion(s: State, g: Grant)
    requires Inv(s) && Deletes(s)
    ensures CanGrantNext(After(s, SweepDeletes), g) <==> Arrives(s, g)
    ensures CanGrantNext(s, g) <==> Eligible(s, g)
  {
    StepKeepsInv(s, SweepDeletes);
    NextGrantIff(s, g);
    NextGrantIff(After(s, SweepDeletes), g);
  }

  /** Without `LateEnough`, someone who arrives is early. */
  lemma EarlyArrival(s: State, v: int) returns (g: Grant)
    requires !LateEnough(s, v)
    ensures Arrives(s, g) && g.slot - v < s.ttl
  {
    if c :| c in s.callers && s.callers[c].Reading? && s.callers[c].now - v < s.ttl {
      g := Grant(c, s.callers[c].now);
    } else {
      var c := Unused(s.callers.Keys);
      g := Grant(c, s.clock);
    }
  }

  /**
   Spacing survives a deletion, whatever happens next, if and only if the clock
   and every reading already made are a TTL after the deleted slot. The sweep
   looks at the slot it loaded, not at the one it deletes, and not at readings.
   */
  lemma DeletionKeepsSpacingIff(s: State)
    requires Inv(s) && Deletes(s)
    ensures KeepsSpacing(s) <==> LateEnough(s, s.slot.value)
  {
    forall g ensures CanGrantNext(After(s, SweepDeletes), g) <==> Arrives(s, g) { EligibleAfterDeletion(s, g); }
    if !LateEnough(s, s.slot.value) {
      var g := EarlyArrival(s, s.slot.value);
      assert CanGrantNext(After(s, SweepDeletes), g);
    }
  }

  /** A deletion refuses no swap that was due if and only if no caller is about to swap the deleted slot. */
  lemma DeletionKeepsSwapsIff(s: State)
    requires Inv(s) && Deletes(s)
    ensures KeepsSwaps(s) <==> Unwatched(s, s.slot.value)
  {
    var s' := After(s, SweepDeletes);
    forall c | Enabled(s, CompareAndSwap(c))
      ensures SwapGranted(s, c) <==> s.callers[c].seen == s.slot.value
      ensures Enabled(s', CompareAndSwap(c)) && !SwapGranted(s', c)
    {
    }
    if KeepsSwaps(s) {
      forall c | c in s.callers && s.callers[c].Contending? ensures s.callers[c].seen != s.slot.value {
        assert Enabled(s, CompareAndSwap(c));
      }
    }
  }

  /**
   The exact condition for a deletion to have no effect on what is granted next:
   both of the above, no arrival too early and no swap refused.
   */
  lemma DeletionInvisibleIff(s: State)
    requires Inv(s) && Deletes(s)
    ensures Invisible(s) <==> LateEnough(s, s.slot.value) && Unwatched(s, s.slot.value)
    ensures Invisible(s) <==> KeepsSpacing(s) && KeepsSwaps(s)
  {
    var v := s.slot.value;
    DeletionKeepsSpacingIff(s);
    DeletionKeepsSwapsIff(s);
    hide KeepsSpacing, KeepsSwaps;
    forall g
      ensures CanGrantNext(After(s, SweepDeletes), g) <==> Arrives(s, g)
      ensures CanGrantNext(s, g) <==> Eligible(s, g)
    {
      EligibleAfterDeletion(s, g);
    }
    hide CanGrantNext;
    if !LateEnough(s, v) {
      var g := EarlyArrival(s, v);
      assert !Eligible(s, g);
      assert CanGrantNext(After(s, SweepDeletes), g) && !CanGrantNext(s, g);
    } else if c :| c in s.callers && s.callers[c].Contending? && s.callers[c].seen == v {
      var g := Grant(c, s.callers[c].now);
      assert Eligible(s, g) && !Arrives(s, g);
      assert CanGrantNext(s, g) && !CanGrantNext(After(s, SweepDeletes), g);
    }
  }

  /** The condition, as a property of one step of a run. */
  ghost predicate Unnoticed(s: State, step: Step) {
    step.SweepDeletes? && s.slot.Some? ==> LateEnough(s, s.slot.value) && Unwatched(s, s.slot.value)
  }

  /** Of a whole run: all its deletions are invisible if and only if each meets the condition when it happens. */
  lemma SweepsInvisibleIff(trace: seq<State>, steps: seq<Step>, n: nat)
    requires IsRun(trace, steps) && n < |trace|
    ensures (forall k | 0 <= k < n && steps[k].SweepDeletes? && trace[k].slot.Some? :: Invisible(trace[k])) <==>
            (forall k | 0 <= k < n :: Unnoticed(trace[k], steps[k]))
  {
    hide Invisible;
    forall k | 0 <= k < n && steps[k].SweepDeletes? && trace[k].slot.Some?
      ensures Invisible(trace[k]) <==> Unnoticed(trace[k], steps[k])
    {
      RunsKeepInv(trace, steps, k);
      DeletionInvisibleIff(trace[k]);
    }
  }

  // ---------------------------------------------------------------- progress of a swap

  predicate Settled(p: Caller) { p.Holding? || p.Over? }

  lemma SettledStays(s: State, step: Step, c: nat)
    requires Enabled(s, step) && c in s.callers
    ensures c in After(s, step).callers
    ensures Settled(s.callers[c]) ==> Settled(After(s, step).callers[c])
    ensures s.callers[c].Contending? ==> After(s, step).callers[c] == s.callers[c] || Settled(After(s, step).callers[c])
  {}

  /** A caller that is contending later has been contending with the same values ever since it loaded. */
  lemma {:induction false} StillContending(trace: seq<State>, steps: seq<Step>, i: nat, k: nat, n: nat, c: nat)
    requires IsPath(trace, steps) && i <= k <= n < |trace|
    requires c in trace[i].callers && trace[i].callers[c].Contending?
    requires c in trace[n].callers && trace[n].callers[c].Contending?
    ensures c in trace[k].callers && trace[k].callers[c] == trace[i].callers[c]
    decreases n - i
  {
    if i < k {
      SettledStays(trace[i], steps[i], c);
      if Settled(trace[i + 1].callers[c]) { SettledForGood(trace, steps, i + 1, n, c); }
      StillContending(trace, steps, i + 1, k, n, c);
    }
  }

  lemma {:induction false} SettledForGood(trace: seq<State>, steps: seq<Step>, i: nat, n: nat, c: nat)
    requires IsPath(trace, steps) && i <= n < |trace| && c in trace[i].callers && Settled(trace[i].callers[c])
    ensures c in trace[n].callers && Settled(trace[n].callers[c])
    decreases n - i
  {
    if i < n {
      SettledStays(trace[i], steps[i], c);
      SettledForGood(trace, steps, i + 1, n, c);
    }
  }

  /** The step at which an entry first stops holding `v`. */
  lemma {:induction false} EntryChanges(trace: seq<State>, steps: seq<Step>, i: nat, n: nat, v: int) returns (k: nat)
    requires IsPath(trace, steps) && i <= n < |trace| && trace[i].slot == Some(v) && trace[n].slot != Some(v)
    ensures i <= k < n && trace[k].slot == Some(v) && trace[k + 1].slot != Some(v)
    decreases n - i
  {
    if trace[i + 1].slot == Some(v) { k := EntryChanges(trace, steps, i + 1, n, v); } else { k := i; }
  }

  /** What can take the slot away from a caller that is about to swap it. */
  ghost predicate Takes(s: State, step: Step, c: nat)
    requires Enabled(s, step)
  {
    || (step.CompareAndSwap? && step.c != c && After(s, step).callers[step.c].Holding?)
    || (step.CompareAndDelete? && |After(s, step).past| > |s.past|)
    || (step.SweepDeletes? && s.slot.Some? && !Unwatched(s, s.slot.value))
  }

  /**
   A swap is refused only because, between its load and its swap, another
   caller was granted, a failing writer cleared the entry, or the sweep deleted
   the very slot being swapped.
   */
  lemma RefusedOnlyIfTaken(trace: seq<State>, steps: seq<Step>, m: nat, n: nat, c: nat) returns (k: nat)
    requires IsRun(trace, steps) && m < n < |steps| && steps[m] == LoadOrStore(c) && steps[n] == CompareAndSwap(c)
    requires trace[m + 1].callers[c].Contending? && !SwapGranted(trace[n], c)
    ensures m < k < n && Takes(trace[k], steps[k], c)
  {
    var v := trace[m + 1].callers[c].seen;
    StillContending(trace, steps, m + 1, n, n, c);
    k := EntryChanges(trace, steps, m + 1, n, v);
    StillContending(trace, steps, m + 1, k, n, c);
    StillContending(trace, steps, m + 1, k + 1, n, c);
    EntryTaken(trace[k], steps[k], c);
  }

  lemma EntryTaken(s: State, step: Step, c: nat)
    requires Enabled(s, step) && c in s.callers && s.callers[c].Contending? && s.slot == Some(s.callers[c].seen)
    requires After(s, step).slot != s.slot && After(s, step).callers[c] == s.callers[c]
    ensures Takes(s, step, c)
  {}

  /** When every deletion meets the condition, the sweep never refuses a swap: another grant or a clear does. */
  lemma UnnoticedSweepsRefuseNothing(trace: seq<State>, steps: seq<Step>, m: nat, n: nat, c: nat) returns (k: nat)
    requires IsRun(trace, steps) && m < n < |steps| && steps[m] == LoadOrStore(c) && steps[n] == CompareAndSwap(c)
    requires trace[m + 1].callers[c].Contending? && !SwapGranted(trace[n], c)
    requires forall i | 0 <= i < n :: Unnoticed(trace[i], steps[i])
    ensures m < k < n && Takes(trace[k], steps[k], c) && !steps[k].SweepDeletes?
  {
    k := RefusedOnlyIfTaken(trace, steps, m, n, c);
    assert Unnoticed(trace[k], steps[k]);
  }

  lemma {:induction false} Unused(callers: set<nat>) returns (c: nat)
    ensures forall d | d in callers :: d < c
  {
    c := 0;
    if d :| d in callers {
      var e := Unused(callers - {d});
      c := if d < e then e else d + 1;
      assert forall x | x in callers :: x == d || x in callers - {d};
    }
  }

  // ---------------------------------------------------------------- three races

  /** A run with one more step. */
  lemma Extended(trace: seq<State>, steps: seq<Step>, step: Step) returns (trace': seq<State>, steps': seq<Step>)
    requires IsRun(trace, steps) && Enabled(trace[|steps|], step)
    ensures IsRun(trace', steps') && trace'[0] == trace[0] && trace'[|steps'|] == After(trace[|steps|], step)
    ensures trace' == trace + [trace'[|steps'|]] && steps' == steps + [step]
  {
    trace', steps' := trace + [After(trace[|steps|], step)], steps + [step];
  }

  /** A first caller was granted at time 0; at time 11, with a TTL of 10, the sweep has loaded its slot. */
  lemma StaleSlotLoaded() returns (trace: seq<State>, steps: seq<Step>)
    ensures IsRun(trace, steps) && trace[0].ttl == 10
    ensures trace[|steps|] ==
            State(10, 11, Some(0), map[0 := Holding(0), 1 := Reading(0)], Condemned(0, 1), map[0 := 0, 1 := 0],
                [Grant(0, 0)], [])
  {
    trace, steps := [State(10, 0, None, map[], Resting, map[], [], [])], [];
    trace, steps := Extended(trace, steps, ReadClock(0));
    trace, steps := Extended(trace, steps, ReadClock(1));
    trace, steps := Extended(trace, steps, LoadOrStore(0));
    trace, steps := Extended(trace, steps, Tick(11));
    trace, steps := Extended(trace, steps, SweepBegins);
    trace, steps := Extended(trace, steps, SweepLoads);
  }

  /**
   The sweep has loaded a stale slot, a caller refreshes it, and the bare Delete
   then removes the fresh slot: the next caller is granted one tick later.
   */
  lemma SweepRaceBreaksSpacing() returns (trace: seq<State>, steps: seq<Step>)
    ensures IsRun(trace, steps) && trace[0].ttl == 10
    ensures trace[|steps|].past == [Epoch([Grant(0, 0), Grant(2, 11)], Swept(0, 1))]
    ensures trace[|steps|].grants == [Grant(3, 12)]
    ensures !Spaced(AllGrants(trace[|steps|]), 10)
  {
    trace, steps := StaleSlotLoaded();
    trace, steps := Extended(trace, steps, ReadClock(2));
    trace, steps := Extended(trace, steps, LoadOrStore(2));
    trace, steps := Extended(trace, steps, CompareAndSwap(2));
    assert trace[|steps|].grants == [Grant(0, 0), Grant(2, 11)];
    trace, steps := Extended(trace, steps, SweepDeletes);
    trace, steps := Extended(trace, steps, Tick(12));
    trace, steps := Extended(trace, steps, ReadClock(3));
    trace, steps := Extended(trace, steps, LoadOrStore(3));
    assert trace[|steps|].past == [Epoch([Grant(0, 0), Grant(2, 11)], Swept(0, 1))] &&
      trace[|steps|].grants == [Grant(3, 12)];
    GrantedTooSoon(trace[|steps|]);
  }

  lemma GrantedTooSoon(s: State)
    requires s.past == [Epoch([Grant(0, 0), Grant(2, 11)], Swept(0, 1))] && s.grants == [Grant(3, 12)]
    ensures !Spaced(AllGrants(s), 10)
  {
    assert Epochs(s) == [s.past[0].grants, s.grants] && Epochs(s)[..1] == [s.past[0].grants];
    assert Concat([s.past[0].grants]) == Concat([]) + s.past[0].grants;
    assert AllGrants(s) == [Grant(0, 0), Grant(2, 11), Grant(3, 12)];
    assert AllGrants(s)[2].slot - AllGrants(s)[1].slot == 1;
  }

  /** A second caller has found the slot of the first old enough, and the sweep has loaded the same slot. */
  lemma DueSwapLoaded() returns (trace: seq<State>, steps: seq<Step>)
    ensures IsRun(trace, steps) && trace[0].ttl == 10
    ensures trace[|steps|] ==
            State(10, 11, Some(0), map[0 := Holding(0), 1 := Contending(11, 0)], Condemned(0, 1), map[0 := 0, 1 := 11],
                  [Grant(0, 0)], [])
  {
    trace, steps := [State(10, 0, None, map[], Resting, map[], [], [])], [];
    trace, steps := Extended(trace, steps, ReadClock(0));
    trace, steps := Extended(trace, steps, LoadOrStore(0));
    trace, steps := Extended(trace, steps, Tick(11));
    trace, steps := Extended(trace, steps, ReadClock(1));
    trace, steps := Extended(trace, steps, LoadOrStore(1));
    trace, steps := Extended(trace, steps, SweepBegins);
    trace, steps := Extended(trace, steps, SweepLoads);
  }

  /**
   A caller is about to swap an old slot, and nothing that arrives is early; the
   sweep, which has loaded the same slot, deletes it first. The swap is refused,
   and no write is made although one was due.
   */
  lemma SweepSuppressesWrite() returns (trace: seq<State>, steps: seq<Step>, n: nat)
    ensures IsRun(trace, steps) && trace[0].ttl == 10 && |steps| == n + 2
    ensures steps[n] == SweepDeletes && steps[n + 1] == CompareAndSwap(1)
    ensures trace[n].slot == Some(0) && LateEnough(trace[n], 0) && SwapGranted(trace[n], 1)
    ensures trace[n + 2].callers[1] == Over && trace[n + 2].grants == []
  {
    trace, steps := DueSwapLoaded();
    n := |steps|;
    trace, steps := Extended(trace, steps, SweepDeletes);
    trace, steps := Extended(trace, steps, CompareAndSwap(1));
  }

  /** With equal clock readings, a failing writer can remove the slot granted to another caller. */
  lemma EqualReadingsClearAnothersSlot() returns (trace: seq<State>, steps: seq<Step>)
    ensures IsRun(trace, steps) && trace[0].ttl == 10
    ensures trace[|steps|].past == [Epoch([Grant(0, 0)], Swept(0, 1)), Epoch([Grant(1, 0)], Cleared(0))]
  {
    trace, steps := StaleSlotLoaded();
    trace, steps := Extended(trace, steps, SweepDeletes);
    trace, steps := Extended(trace, steps, LoadOrStore(1));
    assert trace[|steps|].grants == [Grant(1, 0)];
    trace, steps := Extended(trace, steps, CompareAndDelete(0));
    assert trace[|steps|].past == [Epoch([Grant(0, 0)], Swept(0, 1)), Epoch([Grant(1, 0)], Cleared(0))];
  }

  // ---------------------------------------------------------------- undisturbed calls

  /** The slot an undisturbed call at `now` reserves, if any. */
  function Reserved(slot: Option<int>, now: int, ttl: int): Option<int> {
    if slot.None? || now - slot.value >= ttl then Some(now) else None
  }

  /** The steps of one caller, run without interruption, grant exactly the reserved slot. */
  lemma UndisturbedCall(s: State, c: nat)
    requires Inv(s) && c !in s.callers
    ensures var s1 := After(After(s, ReadClock(c)), LoadOrStore(c));
            var s2 := if s1.callers[c].Contending? then After(s1, CompareAndSwap(c)) else s1;
            var r := Reserved(s.slot, s.clock, s.ttl);
            && s2.slot == (if r.Some? then r else s.slot)
            && s2.callers[c] == (if r.Some? then Holding(r.value) else Over)
            && s2.grants == (if r.Some? then s.grants + [Grant(c, r.value)] else s.grants)
  {}

  /** The debounce state of the service, used by one caller at a time. */
  class Service {
    const ttl: int
    var lastUsedDebounce: map<string, int>

    constructor (ttl: int)
      ensures this.ttl == ttl && lastUsedDebounce == map[]
    {
      this.ttl := ttl;
      lastUsedDebounce := map[];
    }

    ghost function Slot(key: string): Option<int> reads this {
      if key in lastUsedDebounce then Some(lastUsedDebounce[key]) else None
    }

    method ShouldUpdateLastUsed(key: string, now: int) returns (proceed: bool, slot: Option<int>)
      modifies this
      ensures ttl == 0 ==> proceed && slot.None? && lastUsedDebounce == old(lastUsedDebounce)
      ensures ttl != 0 ==> slot == Reserved(old(Slot(key)), now, ttl) && proceed == slot.Some?
      ensures ttl != 0 ==>
              lastUsedDebounce == if proceed then old(lastUsedDebounce)[key := now] else old(lastUsedDebounce)
    {
      if ttl == 0 { return true, None; }
      if key !in lastUsedDebounce {
        lastUsedDebounce := lastUsedDebounce[key := now];
        return true, Some(now);
      }
      if now - lastUsedDebounce[key] >= ttl {
        lastUsedDebounce := lastUsedDebounce[key := now];
        return true, Some(now);
      }
      return false, None;
    }

    /** Undoes a reservation that is still in place, and touches nothing else. */
    method ClearDebounceSlot(key: string, slot: int)
      modifies this
      ensures lastUsedDebounce == if ttl != 0 && old(Slot(key)) == Some(slot) then old(lastUsedDebounce) - {key}
              else old(lastUsedDebounce)
    {
      if ttl == 0 { return; }
      if key in lastUsedDebounce && lastUsedDebounce[key] == slot { lastUsedDebounce := lastUsedDebounce - {key}; }
    }

    /** One undisturbed sweep keeps exactly the entries that can still suppress a write at the sweep's time. */
    method Sweep(now: int)
      modifies this
      ensures lastUsedDebounce == map k | k in old(lastUsedDebounce) && old(lastUsedDebounce)[k] >= now - ttl ::
              old(lastUsedDebounce)[k]
      ensures forall k, t | t >= now && ttl != 0 :: Reserved(Slot(k), t, ttl) == Reserved(old(Slot(k)), t, ttl)
    {
      var cutoff := now - ttl;
      var all := lastUsedDebounce;
      var todo := all.Keys;
      while todo != {}
        invariant todo <= all.Keys
        invariant lastUsedDebounce == map k | k in all && (k in todo || all[k] >= cutoff) :: all[k]
      {
        var key :| key in todo;
        if lastUsedDebounce[key] < cutoff { lastUsedDebounce := lastUsedDebounce - {key}; }
        todo := todo - {key};
      }
    }
  }
}
