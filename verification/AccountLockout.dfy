/**
 * The account lockout beside the rate limiter (rate-limit.ts).  Whether an account is locked is a
 * function of its history; the Map version and the PostgreSQL version both compute it.
 */
module AccountLockout {
  import opened Text
  import opened RateLimit

  datatype LockRule = LockRule(windowMs: nat, maxFailures: nat, lockMs: nat)

  datatype Event = Failure(key: string, time: int) | Check(key: string, time: int) | Clear(key: string, time: int)

  // ---- the answers, from history alone --------------------------------------

  /** A key's failures since it was last cleared. */
  ghost function FailureStamps(history: seq<Event>, key: string): seq<int> {
    if history == [] then []
    else
      var rest, last := FailureStamps(history[..|history| - 1], key), history[|history| - 1];
      if last.key != key then rest
      else match last
        case Failure(_, t) => rest + [t]
        case Check(_, _) => rest
        case Clear(_, _) => []
  }

  /** When the key last went from unlocked to locked, since it was last cleared. */
  ghost function LatestLock(rule: LockRule, history: seq<Event>, key: string): Option<int>
    decreases |history|, 0
  {
    if history == [] then None
    else
      var before, last := history[..|history| - 1], history[|history| - 1];
      if last.key != key then LatestLock(rule, before, key)
      else match last
        case Failure(_, t) => if JustLocks(rule, before, key, t) then Some(t) else LatestLock(rule, before, key)
        case Check(_, _) => LatestLock(rule, before, key)
        case Clear(_, _) => None
  }

  /** Locked: the latest such transition is less than lockMs old. */
  ghost predicate Locked(rule: LockRule, history: seq<Event>, key: string, now: int)
    decreases |history|, 1
  {
    var since := LatestLock(rule, history, key);
    since.Some? && now - since.value < rule.lockMs
  }

  /** A failure locks an unlocked key when, counting itself, its window holds maxFailures. */
  ghost predicate JustLocks(rule: LockRule, history: seq<Event>, key: string, now: int)
    decreases |history|, 2
  {
    && !Locked(rule, history, key, now)
    && |Recent(FailureStamps(history, key), now - rule.windowMs)| + 1 >= rule.maxFailures
  }

  // ---- a store's entry for one key ---------------------------------------------

  datatype Entry = Entry(stamps: seq<int>, lockedUntil: int)

  const NO_ENTRY := Entry([], 0)

  /** The entry answers every question about the key from `now` on as its history does. */
  ghost predicate Agrees(rule: LockRule, history: seq<Event>, key: string, entry: Entry, now: int) {
    && Recent(entry.stamps, now - rule.windowMs) == Recent(FailureStamps(history, key), now - rule.windowMs)
    && match LatestLock(rule, history, key)
       case None => entry.lockedUntil <= now
       case Some(since) =>
         entry.lockedUntil == since + rule.lockMs || (since + rule.lockMs <= now && entry.lockedUntil <= now)
  }

  lemma AgreesLater(rule: LockRule, history: seq<Event>, key: string, entry: Entry, now: int, later: int)
    requires now <= later && Agrees(rule, history, key, entry, now)
    ensures Agrees(rule, history, key, entry, later)
  {
    RecentLater(entry.stamps, now - rule.windowMs, later - rule.windowMs);
    RecentLater(FailureStamps(history, key), now - rule.windowMs, later - rule.windowMs);
  }

  lemma AgreesOnLocked(rule: LockRule, history: seq<Event>, key: string, entry: Entry, now: int)
    requires Agrees(rule, history, key, entry, now)
    ensures entry.lockedUntil > now <==> Locked(rule, history, key, now)
  {
  }

  function AfterFailure(rule: LockRule, entry: Entry, now: int): Entry {
    var stamps := Recent(entry.stamps, now - rule.windowMs) + [now];
    var locks := entry.lockedUntil <= now && |stamps| >= rule.maxFailures;
    Entry(stamps, if locks then now + rule.lockMs else entry.lockedUntil)
  }

  function Step(rule: LockRule, entry: Entry, e: Event): Entry {
    match e
    case Failure(_, now) => AfterFailure(rule, entry, now)
    case Check(_, _) => entry
    case Clear(_, _) => NO_ENTRY
  }

  lemma AgreesAfterFailure(rule: LockRule, history: seq<Event>, key: string, now: int, entry: Entry)
    requires Agrees(rule, history, key, entry, now)
    ensures Agrees(rule, history + [Failure(key, now)], key, AfterFailure(rule, entry, now), now)
  {
    hide Recent;
    var all := history + [Failure(key, now)];
    assert all[..|all| - 1] == history && all[|all| - 1] == Failure(key, now);
    var cutoff := now - rule.windowMs;
    RecentAppend(Recent(entry.stamps, cutoff), now, cutoff);
    RecentLater(entry.stamps, cutoff, cutoff);
    RecentAppend(FailureStamps(history, key), now, cutoff);
    FailureAnswer(rule, history, key, entry, now);
  }

  /** Recording an event keeps every key's entry in agreement; only its own key's entry moves. */
  lemma AgreesAfter(rule: LockRule, history: seq<Event>, e: Event, key: string, entry: Entry)
    requires 0 <= e.time && Agrees(rule, history, key, entry, e.time)
    ensures Agrees(rule, history + [e], key, if e.key == key then Step(rule, entry, e) else entry, e.time)
  {
    if e.key == key && e.Failure? {
      AgreesAfterFailure(rule, history, key, e.time, entry);
    } else {
      var all := history + [e];
      assert all[..|all| - 1] == history && all[|all| - 1] == e;
    }
  }

  lemma FailureAnswer(rule: LockRule, history: seq<Event>, key: string, entry: Entry, now: int)
    requires Agrees(rule, history, key, entry, now)
    ensures JustLocks(rule, history, key, now)
      <==> entry.lockedUntil <= now && |Recent(entry.stamps, now - rule.windowMs)| + 1 >= rule.maxFailures
  {
  }

  /** Forgetting stamps that left the window, or a lock that ran out, is unobservable. */
  lemma AgreesTrimmed(rule: LockRule, history: seq<Event>, key: string, entry: Entry, now: int, kept: Entry)
    requires 0 <= now && Agrees(rule, history, key, entry, now)
    requires Recent(kept.stamps, now - rule.windowMs) == Recent(entry.stamps, now - rule.windowMs)
    requires kept.lockedUntil == entry.lockedUntil || (entry.lockedUntil <= now && kept.lockedUntil == 0)
    ensures Agrees(rule, history, key, kept, now)
  {
  }

  // ---- the Map version -------------------------------------------------------------

  function EntryIn(failures: map<string, Entry>, key: string): Entry {
    if key in failures then failures[key] else NO_ENTRY
  }

  ghost predicate AllAgree(rule: LockRule, history: seq<Event>, failures: map<string, Entry>, now: int) {
    forall key :: Agrees(rule, history, key, EntryIn(failures, key), now)
  }

  predicate Dead(rule: LockRule, entry: Entry, now: int) {
    entry.lockedUntil <= now && forall s :: s in entry.stamps ==> s <= now - rule.windowMs
  }

  lemma AllAgreeSwept(
      rule: LockRule, history: seq<Event>, failures: map<string, Entry>, clock: int, now: int, kept: map<string, Entry>)
    requires 0 <= clock <= now && AllAgree(rule, history, failures, clock)
    requires kept == failures || kept == map key | key in failures && !Dead(rule, failures[key], now) :: failures[key]
    ensures AllAgree(rule, history, kept, now)
  {
    forall key ensures Agrees(rule, history, key, EntryIn(kept, key), now) {
      var entry := EntryIn(failures, key);
      AgreesLater(rule, history, key, entry, clock, now);
      NothingRecent(entry.stamps, now - rule.windowMs);
      AgreesTrimmed(rule, history, key, entry, now, EntryIn(kept, key));
    }
  }

  lemma AllAgreeAfter(
      rule: LockRule, history: seq<Event>, failures: map<string, Entry>, e: Event, after: map<string, Entry>)
    requires 0 <= e.time && AllAgree(rule, history, failures, e.time)
    requires forall key ::
      EntryIn(after, key) == if e.key == key then Step(rule, EntryIn(failures, key), e) else EntryIn(failures, key)
    ensures AllAgree(rule, history + [e], after, e.time)
  {
    forall key ensures Agrees(rule, history + [e], key, EntryIn(after, key), e.time) {
      AgreesAfter(rule, history, e, key, EntryIn(failures, key));
    }
  }

  class MapLockout {
    const rule: LockRule
    var failures: map<string, Entry>
    var lastSweep: int
    ghost var history: seq<Event>
    ghost var clock: nat

    ghost predicate Valid()
      reads this
    {
      AllAgree(rule, history, failures, clock)
    }

    constructor (rule: LockRule, clock: nat)
      ensures Valid() && this.rule == rule && history == [] && this.clock == clock
    {
      this.rule, this.clock := rule, clock;
      failures, lastSweep, history := map[], 0, [];
    }

    method Sweep(now: nat)
      requires Valid() && clock <= now
      modifies this`failures, this`lastSweep, this`clock
      ensures Valid() && clock == now
    {
      ghost var before := failures;
      if now - lastSweep > rule.windowMs {
        lastSweep := now;
        failures := map key | key in failures && !Dead(rule, failures[key], now) :: failures[key];
      }
      AllAgreeSwept(rule, history, before, clock, now, failures);
      clock := now;
    }

    method IsLocked(key: string, now: nat) returns (locked: bool)
      requires Valid() && clock <= now
      modifies this
      ensures Valid() && clock == now && history == old(history) + [Check(key, now)]
      ensures locked <==> Locked(rule, old(history), key, now)
    {
      Sweep(now);
      locked := key in failures && failures[key].lockedUntil > now;
      AgreesOnLocked(rule, history, key, EntryIn(failures, key), now);
      AllAgreeAfter(rule, history, failures, Check(key, now), failures);
      history := history + [Check(key, now)];
    }

    /** True exactly on the unlocked-to-locked transition. */
    method RecordFailure(key: string, now: nat) returns (justLocked: bool)
      requires Valid() && clock <= now
      modifies this
      ensures Valid() && clock == now && history == old(history) + [Failure(key, now)]
      ensures justLocked <==> JustLocks(rule, old(history), key, now)
    {
      Sweep(now);
      var entry := EntryIn(failures, key);
      FailureAnswer(rule, history, key, entry, now);
      var wasLocked := entry.lockedUntil > now;
      var stamps := Recent(entry.stamps, now - rule.windowMs) + [now];
      justLocked := !wasLocked && |stamps| >= rule.maxFailures;
      ghost var before := failures;
      failures := failures[key := Entry(stamps, if justLocked then now + rule.lockMs else entry.lockedUntil)];
      AllAgreeAfter(rule, history, before, Failure(key, now), failures);
      history := history + [Failure(key, now)];
    }

    method ClearKey(key: string, now: nat)
      requires Valid() && clock <= now
      modifies this
      ensures Valid() && clock == now && history == old(history) + [Clear(key, now)]
    {
      AllAgreeSwept(rule, history, failures, clock, now, failures);
      ghost var before := failures;
      failures := failures - {key};
      AllAgreeAfter(rule, history, before, Clear(key, now), failures);
      clock, history := now, history + [Clear(key, now)];
    }
  }

  // ---- the PostgreSQL version ------------------------------------------------------

  function RowEntry(rows: seq<Attempt>, locks: map<string, int>, key: string): Entry {
    Entry(RowStamps(rows, key), if key in locks then locks[key] else 0)
  }

  /** Whether the count of a failure's window can take in the failure itself, or need not. */
  predicate WindowCounts(rule: LockRule) { rule.windowMs > 0 || rule.maxFailures != 1 }

  /** No row is later than now. */
  ghost predicate NoneLater(rows: seq<Attempt>, now: int) {
    forall key :: Recent(RowStamps(rows, key), now) == []
  }

  /** The tables answer as the history does, unless the window can count nothing; then they hold no lock at all. */
  ghost predicate TablesHold(
      rule: LockRule, history: seq<Event>, rows: seq<Attempt>, locks: map<string, int>, now: int) {
    NoneLater(rows, now) && if WindowCounts(rule) then TablesAgree(rule, history, rows, locks, now) else locks == map[]
  }

  ghost predicate TablesAgree(
      rule: LockRule, history: seq<Event>, rows: seq<Attempt>, locks: map<string, int>, now: int) {
    forall key :: Agrees(rule, history, key, RowEntry(rows, locks, key), now)
  }

  /** delete ... where key_hash = key and occurred_at <= cutoff */
  function UndeletedOf(rows: seq<Attempt>, key: string, cutoff: int): seq<Attempt> {
    if rows == [] then []
    else
      var rest, last := UndeletedOf(rows[..|rows| - 1], key, cutoff), rows[|rows| - 1];
      if last.key == key && last.time <= cutoff then rest else rest + [last]
  }

  /** delete ... where key_hash = key */
  function Without(rows: seq<Attempt>, key: string): seq<Attempt> {
    if rows == [] then []
    else
      var rest, last := Without(rows[..|rows| - 1], key), rows[|rows| - 1];
      if last.key == key then rest else rest + [last]
  }

  lemma {:induction false} UndeletedOfStamps(rows: seq<Attempt>, key: string, cutoff: int, other: string)
    ensures RowStamps(UndeletedOf(rows, key, cutoff), other)
         == if other == key then Recent(RowStamps(rows, key), cutoff) else RowStamps(rows, other)
  {
    if rows != [] {
      var rest, last := rows[..|rows| - 1], rows[|rows| - 1];
      UndeletedOfStamps(rest, key, cutoff, other);
      RecentAppend(RowStamps(rest, key), last.time, cutoff);
    }
  }

  lemma {:induction false} WithoutStamps(rows: seq<Attempt>, key: string, other: string)
    ensures RowStamps(Without(rows, key), other) == if other == key then [] else RowStamps(rows, other)
  {
    if rows != [] {
      var rest, last := rows[..|rows| - 1], rows[|rows| - 1];
      WithoutStamps(rest, key, other);
    }
  }

  lemma TablesLater(
      rule: LockRule, history: seq<Event>, rows: seq<Attempt>, locks: map<string, int>, now: int, later: int)
    requires now <= later && TablesAgree(rule, history, rows, locks, now)
    ensures TablesAgree(rule, history, rows, locks, later)
  {
    hide Agrees;
    forall key ensures Agrees(rule, history, key, RowEntry(rows, locks, key), later) {
      AgreesLater(rule, history, key, RowEntry(rows, locks, key), now, later);
    }
  }

  lemma NoneLaterKept(rows: seq<Attempt>, now: int, later: int)
    requires now <= later && NoneLater(rows, now)
    ensures NoneLater(rows, later)
  {
    forall key ensures Recent(RowStamps(rows, key), later) == [] { RecentLater(RowStamps(rows, key), now, later); }
  }

  lemma HoldsLater(
      rule: LockRule, history: seq<Event>, rows: seq<Attempt>, locks: map<string, int>, now: int, later: int)
    requires now <= later && TablesHold(rule, history, rows, locks, now)
    ensures TablesHold(rule, history, rows, locks, later)
  {
    hide NoneLater, TablesAgree;
    NoneLaterKept(rows, now, later);
    if WindowCounts(rule) { TablesLater(rule, history, rows, locks, now, later); }
  }

  lemma TablesSwept(
      rule: LockRule, history: seq<Event>, rows: seq<Attempt>, locks: map<string, int>, now: int,
      kept: map<string, int>)
    requires 0 <= now && TablesHold(rule, history, rows, locks, now)
    requires kept == map key | key in locks && locks[key] > now :: locks[key]
    ensures TablesHold(rule, history, Undeleted(rows, now - rule.windowMs), kept, now)
  {
    hide Recent, RowStamps, Undeleted, Agrees;
    var cutoff := now - rule.windowMs;
    forall key
      ensures Recent(RowStamps(Undeleted(rows, cutoff), key), now) == []
      ensures WindowCounts(rule) ==> Agrees(rule, history, key, RowEntry(Undeleted(rows, cutoff), kept, key), now)
    {
      UndeletedStamps(rows, cutoff, key);
      RecentLater(RowStamps(rows, key), cutoff, now);
      RecentLater(RowStamps(rows, key), cutoff, cutoff);
      if WindowCounts(rule) {
        var after := RowEntry(Undeleted(rows, cutoff), kept, key);
        AgreesTrimmed(rule, history, key, RowEntry(rows, locks, key), now, after);
      }
    }
  }

  ghost predicate TablesMoved(
      rule: LockRule, rows: seq<Attempt>, locks: map<string, int>, e: Event,
      rows': seq<Attempt>, locks': map<string, int>)
  {
    forall key :: RowEntry(rows', locks', key) == MovedEntry(rule, RowEntry(rows, locks, key), e, key)
  }

  function MovedEntry(rule: LockRule, entry: Entry, e: Event, key: string): Entry {
    if e.key == key then Step(rule, entry, e) else entry
  }

  lemma TablesAfter(
      rule: LockRule, history: seq<Event>, rows: seq<Attempt>, locks: map<string, int>, e: Event,
      rows': seq<Attempt>, locks': map<string, int>)
    requires 0 <= e.time && TablesHold(rule, history, rows, locks, e.time) && NoneLater(rows', e.time)
    requires if WindowCounts(rule) then TablesMoved(rule, rows, locks, e, rows', locks') else locks' == map[]
    ensures TablesHold(rule, history + [e], rows', locks', e.time)
  {
    hide NoneLater, Agrees;
    if WindowCounts(rule) {
      forall key ensures Agrees(rule, history + [e], key, RowEntry(rows', locks', key), e.time) {
        AgreesAfter(rule, history, e, key, RowEntry(rows, locks, key));
      }
    }
  }

  /** The two shared tables; transactions on one key are serialised, so each is one step here. */
  class LockoutTables {
    const rule: LockRule
    var rows: seq<Attempt>
    var locks: map<string, int>
    ghost var history: seq<Event>
    ghost var clock: nat

    ghost predicate Valid()
      reads this
    {
      TablesHold(rule, history, rows, locks, clock)
    }

    constructor (rule: LockRule, clock: nat)
      ensures Valid() && this.rule == rule && history == [] && this.clock == clock
    {
      this.rule, this.clock := rule, clock;
      rows, locks, history := [], map[], [];
    }

    method DeleteExpired(now: nat)
      requires Valid() && clock <= now
      modifies this`rows, this`locks, this`clock
      ensures Valid() && clock == now
    {
      HoldsLater(rule, history, rows, locks, clock, now);
      var kept := map key | key in locks && locks[key] > now :: locks[key];
      TablesSwept(rule, history, rows, locks, now, kept);
      rows, locks, clock := Undeleted(rows, now - rule.windowMs), kept, now;
    }

    method ActiveLock(key: string, now: nat) returns (locked: bool)
      requires Valid() && clock <= now
      modifies this`history, this`clock
      ensures Valid() && clock == now && history == old(history) + [Check(key, now)]
      ensures locked <==> WindowCounts(rule) && Locked(rule, old(history), key, now)
    {
      HoldsLater(rule, history, rows, locks, clock, now);
      locked := key in locks && locks[key] > now;
      if WindowCounts(rule) { AgreesOnLocked(rule, history, key, RowEntry(rows, locks, key), now); }
      TablesAfter(rule, history, rows, locks, Check(key, now), rows, locks);
      clock, history := now, history + [Check(key, now)];
    }

    /** The count comes after the insert, in a window that may be too short to hold what was inserted. */
    method RecordFailure(key: string, now: nat) returns (justLocked: bool)
      requires Valid() && clock <= now
      modifies this
      ensures Valid() && clock == now && history == old(history) + [Failure(key, now)]
      ensures justLocked <==> WindowCounts(rule) && JustLocks(rule, old(history), key, now)
    {
      hide Recent, RowStamps, UndeletedOf, JustLocks, Agrees, TablesMoved, NoneLater;
      HoldsLater(rule, history, rows, locks, clock, now);
      FailureMovesTables(rule, rows, locks, key, now);
      if WindowCounts(rule) { FailureAnswer(rule, history, key, RowEntry(rows, locks, key), now); }
      ghost var rows0, locks0 := rows, locks;
      var wasLocked := key in locks && locks[key] > now;
      rows := UndeletedOf(rows, key, now - rule.windowMs);
      rows := rows + [Attempt(key, now)];
      var counted := |Recent(RowStamps(rows, key), now - rule.windowMs)|;
      justLocked := !wasLocked && counted >= rule.maxFailures;
      if justLocked { locks := locks[key := now + rule.lockMs]; }
      TablesAfter(rule, history, rows0, locks0, Failure(key, now), rows, locks);
      clock, history := now, history + [Failure(key, now)];
    }

    method ClearKey(key: string, now: nat)
      requires Valid() && clock <= now
      modifies this
      ensures Valid() && clock == now && history == old(history) + [Clear(key, now)]
    {
      HoldsLater(rule, history, rows, locks, clock, now);
      forall other ensures RowStamps(Without(rows, key), other) == if other == key then [] else RowStamps(rows, other) {
        WithoutStamps(rows, key, other);
      }
      TablesAfter(rule, history, rows, locks, Clear(key, now), Without(rows, key), locks - {key});
      rows, locks := Without(rows, key), locks - {key};
      clock, history := now, history + [Clear(key, now)];
    }
  }

  lemma RecordedRows(rule: LockRule, rows: seq<Attempt>, key: string, now: int)
    ensures var cutoff := now - rule.windowMs;
      var after := UndeletedOf(rows, key, cutoff) + [Attempt(key, now)];
      && RowStamps(after, key) == Recent(RowStamps(rows, key), cutoff) + [now]
      && forall other :: other != key ==> RowStamps(after, other) == RowStamps(rows, other)
  {
    var cutoff := now - rule.windowMs;
    var kept := UndeletedOf(rows, key, cutoff);
    forall other
      ensures RowStamps(kept + [Attempt(key, now)], other)
           == if other == key then Recent(RowStamps(rows, key), cutoff) + [now] else RowStamps(rows, other)
    {
      UndeletedOfStamps(rows, key, cutoff, other);
    }
  }

  /**
   * The table's count against the Map version's.  A window of nothing holds not even the failure just inserted, so
   * the table counts none where the Map version counts one.
   */
  lemma CountedRows(rule: LockRule, rows: seq<Attempt>, key: string, now: int)
    requires NoneLater(rows, now)
    ensures var cutoff := now - rule.windowMs;
      |Recent(RowStamps(UndeletedOf(rows, key, cutoff) + [Attempt(key, now)], key), cutoff)| >= rule.maxFailures
      <==> WindowCounts(rule) && |Recent(RowStamps(rows, key), cutoff)| + 1 >= rule.maxFailures
  {
    hide RowStamps, UndeletedOf;
    var cutoff := now - rule.windowMs;
    RecordedRows(rule, rows, key, now);
    RecentAppend(Recent(RowStamps(rows, key), cutoff), now, cutoff);
    RecentLater(RowStamps(rows, key), cutoff, cutoff);
  }

  lemma NoneLaterAfter(rule: LockRule, rows: seq<Attempt>, key: string, now: int)
    requires NoneLater(rows, now)
    ensures NoneLater(UndeletedOf(rows, key, now - rule.windowMs) + [Attempt(key, now)], now)
  {
    hide RowStamps, UndeletedOf;
    var cutoff := now - rule.windowMs;
    RecordedRows(rule, rows, key, now);
    RecentAppend(Recent(RowStamps(rows, key), cutoff), now, now);
    RecentLater(RowStamps(rows, key), cutoff, now);
  }

  /** The delete, insert, count and upsert of one failure move its key's entry as the Map version moves it. */
  lemma FailureMovesTables(rule: LockRule, rows: seq<Attempt>, locks: map<string, int>, key: string, now: int)
    requires 0 <= now && NoneLater(rows, now)
    ensures var cutoff := now - rule.windowMs;
      var after := UndeletedOf(rows, key, cutoff) + [Attempt(key, now)];
      var counted := |Recent(RowStamps(after, key), cutoff)| >= rule.maxFailures;
      var justLocked := !(key in locks && locks[key] > now) && counted;
      var locked := if justLocked then locks[key := now + rule.lockMs] else locks;
      && (counted <==> WindowCounts(rule) && |Recent(RowStamps(rows, key), cutoff)| + 1 >= rule.maxFailures)
      && NoneLater(after, now)
      && (WindowCounts(rule) ==> TablesMoved(rule, rows, locks, Failure(key, now), after, locked))
  {
    hide Recent, RowStamps, UndeletedOf, NoneLater;
    RecordedRows(rule, rows, key, now);
    CountedRows(rule, rows, key, now);
    NoneLaterAfter(rule, rows, key, now);
  }

  class PgLockout {
    const tables: LockoutTables
    var lastSweep: int

    constructor (tables: LockoutTables)
      ensures this.tables == tables
    {
      this.tables := tables;
      lastSweep := 0;
    }

    method Sweep(local: int, now: nat)
      requires tables.Valid() && tables.clock <= now
      modifies this, tables`rows, tables`locks, tables`clock
      ensures tables.Valid() && tables.clock <= now
    {
      if local - lastSweep <= tables.rule.windowMs { return; }
      lastSweep := local;
      tables.DeleteExpired(now);
    }

    /** One of the three calls; the answer to a clear is false. */
    method Handle(e: Event, local: int) returns (answer: bool)
      requires tables.Valid() && 0 <= e.time && tables.clock <= e.time
      modifies this, tables
      ensures tables.Valid() && tables.clock == e.time && tables.history == old(tables.history) + [e]
      ensures answer <==> WindowCounts(tables.rule) && Answer(tables.rule, old(tables.history), e)
    {
      match e {
        case Check(key, now) =>
          Sweep(local, now);
          answer := tables.ActiveLock(key, now);
        case Failure(key, now) =>
          Sweep(local, now);
          answer := tables.RecordFailure(key, now);
        case Clear(key, now) =>
          tables.ClearKey(key, now);
          answer := false;
      }
    }
  }

  ghost predicate Answer(rule: LockRule, history: seq<Event>, e: Event) {
    match e
    case Check(key, now) => Locked(rule, history, key, now)
    case Failure(key, now) => JustLocks(rule, history, key, now)
    case Clear(_, _) => false
  }

  predicate EventsInOrder(events: seq<Event>) {
    && (forall i :: 0 <= i < |events| ==> 0 <= events[i].time)
    && forall i, j :: 0 <= i < j < |events| ==> events[i].time <= events[j].time
  }

  method HandleBoth(inProcess: MapLockout, instance: PgLockout, e: Event, local: int) returns (inMap: bool, inPg: bool)
    requires inProcess.Valid() && instance.tables.Valid() && inProcess.rule == instance.tables.rule
    requires inProcess.history == instance.tables.history
    requires 0 <= e.time && inProcess.clock <= e.time && instance.tables.clock <= e.time
    modifies inProcess, instance, instance.tables
    ensures inProcess.Valid() && instance.tables.Valid() && inProcess.clock == instance.tables.clock == e.time
    ensures inProcess.history == instance.tables.history == old(inProcess.history) + [e]
    ensures inMap <==> Answer(inProcess.rule, old(inProcess.history), e)
    ensures inPg <==> WindowCounts(inProcess.rule) && inMap
  {
    match e {
      case Check(key, now) => inMap := inProcess.IsLocked(key, now);
      case Failure(key, now) => inMap := inProcess.RecordFailure(key, now);
      case Clear(key, now) => inProcess.ClearKey(key, now); inMap := false;
    }
    inPg := instance.Handle(e, local);
  }

  /**
   * One run of checks, failures and clears gets the same answers from the Map version and from two PostgreSQL
   * instances exactly when the window can count a failure, or one failure is not the limit, or none is recorded.
   */
  method ReplayLockouts(rule: LockRule, events: seq<Event>, turns: seq<bool>, locals: seq<int>)
    returns (inMap: seq<bool>, inPg: seq<bool>)
    requires EventsInOrder(events) && |turns| == |events| == |locals|
    ensures |inMap| == |inPg| == |events|
    ensures forall i :: 0 <= i < |events| ==> (inMap[i] <==> Answer(rule, events[..i], events[i]))
    ensures forall i :: 0 <= i < |events| ==> (inPg[i] <==> WindowCounts(rule) && inMap[i])
    ensures inMap == inPg <==> WindowCounts(rule) || NoFailures(events)
  {
    inMap, inPg := [], [];
    var inProcess := new MapLockout(rule, 0);
    var tables := new LockoutTables(rule, 0);
    var one := new PgLockout(tables);
    var two := new PgLockout(tables);
    for i := 0 to |events|
      invariant inProcess.Valid() && tables.Valid() && inProcess.rule == rule && tables.rule == rule
      invariant inProcess.history == events[..i] && tables.history == events[..i]
      invariant i < |events| ==> inProcess.clock <= events[i].time && tables.clock <= events[i].time
      invariant |inMap| == |inPg| == i
      invariant forall k :: 0 <= k < i ==> (inMap[k] <==> Answer(rule, events[..k], events[k]))
      invariant forall k :: 0 <= k < i ==> (inPg[k] <==> WindowCounts(rule) && inMap[k])
    {
      var x, y := HandleBoth(inProcess, if turns[i] then one else two, events[i], locals[i]);
      assert events[..i + 1] == events[..i] + [events[i]];
      inMap, inPg := inMap + [x], inPg + [y];
    }
    if !WindowCounts(rule) { SomethingAnswered(rule, events); }
    assert !WindowCounts(rule) ==> (inMap == inPg <==> forall k :: 0 <= k < |events| ==> !inMap[k]);
  }

  ghost predicate NoFailures(events: seq<Event>) { forall e :: e in events ==> !e.Failure? }

  lemma FirstAnswer(rule: LockRule, history: seq<Event>, e: Event)
    requires rule.maxFailures == 1 && LatestLock(rule, history, e.key) == None
    ensures Answer(rule, history, e) <==> e.Failure?
  {
    assert !Locked(rule, history, e.key, e.time);
  }

  /** Where one failure is the limit, some call of a run is answered true exactly when the run has a failure. */
  lemma {:induction false} SomethingAnswered(rule: LockRule, events: seq<Event>)
    requires rule.maxFailures == 1
    ensures (forall k :: 0 <= k < |events| ==> !Answer(rule, events[..k], events[k])) <==> NoFailures(events)
    ensures NoFailures(events) ==> forall key :: LatestLock(rule, events, key) == None
    decreases |events|
  {
    if events != [] {
      var n := |events| - 1;
      var init, last := events[..n], events[n];
      SomethingAnswered(rule, init);
      assert events == init + [last];
      assert forall k :: 0 <= k < n ==> init[..k] == events[..k] && init[k] == events[k];
      assert NoFailures(events) <==> NoFailures(init) && !last.Failure? by {
        assert forall e :: e in events <==> e in init || e == last;
      }
      assert (forall k :: 0 <= k < n ==> !Answer(rule, init[..k], init[k]))
         <==> (forall k :: 0 <= k < n ==> !Answer(rule, events[..k], events[k]));
      if NoFailures(init) { FirstAnswer(rule, init, last); }
    }
  }

  // ---- what the history says ----------------------------------------------------------

  /** A failure answers true only on an unlocked key, and leaves it locked whenever locks last at all. */
  lemma LocksOnTransition(rule: LockRule, history: seq<Event>, key: string, now: int)
    ensures JustLocks(rule, history, key, now) ==> !Locked(rule, history, key, now)
    ensures rule.lockMs > 0 ==>
      (JustLocks(rule, history, key, now)
       <==> !Locked(rule, history, key, now) && Locked(rule, history + [Failure(key, now)], key, now))
  {
    var all := history + [Failure(key, now)];
    assert all[..|all| - 1] == history && all[|all| - 1] == Failure(key, now);
  }

  /** Clearing forgets everything: the key answers as one never seen. */
  lemma ClearForgets(rule: LockRule, history: seq<Event>, key: string, time: int, now: int)
    ensures !Locked(rule, history + [Clear(key, time)], key, now)
    ensures JustLocks(rule, history + [Clear(key, time)], key, now) <==> rule.maxFailures <= 1
  {
    var all := history + [Clear(key, time)];
    assert all[..|all| - 1] == history && all[|all| - 1] == Clear(key, time);
  }
}
