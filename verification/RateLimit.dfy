/**
 * The sliding-window rate limiter (rate-limit.ts).  The specification is a function of the whole
 * history of attempts; the Map version and the PostgreSQL version are both proved to compute it.
 */
module RateLimit {

  datatype Rule = Rule(windowMs: nat, max: nat)

  datatype Attempt = Attempt(key: string, time: int)

  // ---- the answer, from history alone -------------------------------------

  /** The stamps later than a cutoff. */
  function Recent(stamps: seq<int>, cutoff: int): seq<int> {
    if stamps == [] then []
    else
      var rest, last := Recent(stamps[..|stamps| - 1], cutoff), stamps[|stamps| - 1];
      if last > cutoff then rest + [last] else rest
  }

  /** When the key's allowed attempts happened, oldest first. */
  ghost function AllowedStamps(rule: Rule, history: seq<Attempt>, key: string): seq<int>
    decreases |history|, 0
  {
    if history == [] then []
    else
      var before, last := history[..|history| - 1], history[|history| - 1];
      var rest := AllowedStamps(rule, before, key);
      if last.key == key && Allows(rule, before, key, last.time) then rest + [last.time] else rest
  }

  /** Whether an attempt at `now` is allowed after this history. */
  ghost predicate Allows(rule: Rule, history: seq<Attempt>, key: string, now: int)
    decreases |history|, 1
  {
    |Recent(AllowedStamps(rule, history, key), now - rule.windowMs)| < rule.max
  }

  predicate InOrder(history: seq<Attempt>) {
    forall i, j :: 0 <= i < j < |history| ==> history[i].time <= history[j].time
  }

  // ---- safety over every run ------------------------------------------------

  /** The stamps in (t - windowMs, t]. */
  function InWindow(stamps: seq<int>, windowMs: nat, t: int): seq<int> {
    if stamps == [] then []
    else
      var last := stamps[|stamps| - 1];
      var rest := InWindow(stamps[..|stamps| - 1], windowMs, t);
      if t - windowMs < last <= t then rest + [last] else rest
  }

  lemma {:induction false} RecentLater(stamps: seq<int>, cutoff: int, later: int)
    requires cutoff <= later
    ensures Recent(Recent(stamps, cutoff), later) == Recent(stamps, later)
    ensures |Recent(stamps, later)| <= |Recent(stamps, cutoff)|
  {
    if stamps != [] {
      var rest, last := stamps[..|stamps| - 1], stamps[|stamps| - 1];
      RecentLater(rest, cutoff, later);
      if last > cutoff {
        var kept := Recent(rest, cutoff) + [last];
        assert kept[..|kept| - 1] == Recent(rest, cutoff);
      }
    }
  }

  lemma {:induction false} WindowIsRecent(stamps: seq<int>, windowMs: nat, t: int)
    ensures |InWindow(stamps, windowMs, t)| <= |Recent(stamps, t - windowMs)|
    ensures (forall i :: 0 <= i < |stamps| ==> stamps[i] <= t) ==>
      InWindow(stamps, windowMs, t) == Recent(stamps, t - windowMs)
  {
    if stamps != [] { WindowIsRecent(stamps[..|stamps| - 1], windowMs, t); }
  }

  lemma {:induction false} AllowedAreAttempts(rule: Rule, history: seq<Attempt>, key: string, bound: int)
    requires forall i :: 0 <= i < |history| ==> history[i].time <= bound
    ensures forall s :: s in AllowedStamps(rule, history, key) ==> s <= bound
  {
    if history != [] { AllowedAreAttempts(rule, history[..|history| - 1], key, bound); }
  }

  lemma {:induction false} NeverMoreThanMax(rule: Rule, history: seq<Attempt>, key: string, t: int)
    requires InOrder(history)
    ensures |InWindow(AllowedStamps(rule, history, key), rule.windowMs, t)| <= rule.max
  {
    if history != [] {
      var before, last := history[..|history| - 1], history[|history| - 1];
      NeverMoreThanMax(rule, before, key, t);
      var stamps := AllowedStamps(rule, before, key);
      var all := AllowedStamps(rule, history, key);
      if all != stamps {
        assert all == stamps + [last.time] && all[..|all| - 1] == stamps;
        if last.time <= t {
          WindowIsRecent(stamps, rule.windowMs, t);
          RecentLater(stamps, last.time - rule.windowMs, t - rule.windowMs);
        }
      }
    }
  }

  /** An attempt is refused exactly when its window already holds `max` allowed ones. */
  lemma RefusedOnlyWhenFull(rule: Rule, history: seq<Attempt>, key: string, now: int)
    requires InOrder(history + [Attempt(key, now)])
    ensures !Allows(rule, history, key, now) <==>
      |InWindow(AllowedStamps(rule, history, key), rule.windowMs, now)| == rule.max
  {
    hide Recent, InWindow, AllowedStamps;
    var stamps := AllowedStamps(rule, history, key);
    var all := history + [Attempt(key, now)];
    assert forall i :: 0 <= i < |history| ==> history[i] == all[i] && all[i].time <= all[|history|].time;
    AllowedAreAttempts(rule, history, key, now);
    assert forall i :: 0 <= i < |stamps| ==> stamps[i] in stamps && stamps[i] <= now;
    WindowIsRecent(stamps, rule.windowMs, now);
    NeverMoreThanMax(rule, history, key, now);
  }

  /** What other keys did never changes an answer. */
  lemma {:induction false} OtherKeysUnseen(rule: Rule, history: seq<Attempt>, key: string, now: int)
    ensures AllowedStamps(rule, history, key) == AllowedStamps(rule, Of(history, key), key)
    ensures Allows(rule, history, key, now) <==> Allows(rule, Of(history, key), key, now)
    decreases |history|
  {
    if history != [] {
      var before, last := history[..|history| - 1], history[|history| - 1];
      OtherKeysUnseen(rule, before, key, last.time);
      if last.key == key {
        var own := Of(before, key) + [last];
        assert own[..|own| - 1] == Of(before, key);
      }
    }
  }

  /** A key's own attempts. */
  function Of(history: seq<Attempt>, key: string): seq<Attempt> {
    if history == [] then []
    else
      var last := history[|history| - 1];
      var rest := Of(history[..|history| - 1], key);
      if last.key == key then rest + [last] else rest
  }

  // ---- the Map version --------------------------------------------------------

  function Stamps(hits: map<string, seq<int>>, key: string): seq<int> {
    if key in hits then hits[key] else []
  }

  /** What is stored and what was allowed agree on everything later than the cutoff. */
  ghost predicate AgreesFrom(rule: Rule, history: seq<Attempt>, key: string, stored: seq<int>, cutoff: int) {
    Recent(stored, cutoff) == Recent(AllowedStamps(rule, history, key), cutoff)
  }

  lemma AgreesLater(rule: Rule, history: seq<Attempt>, key: string, stored: seq<int>, cutoff: int, later: int)
    requires cutoff <= later && AgreesFrom(rule, history, key, stored, cutoff)
    ensures AgreesFrom(rule, history, key, stored, later)
  {
    RecentLater(stored, cutoff, later);
    RecentLater(AllowedStamps(rule, history, key), cutoff, later);
  }

  lemma {:induction false} NothingRecent(stamps: seq<int>, cutoff: int)
    ensures Recent(stamps, cutoff) == [] <==> forall s :: s in stamps ==> s <= cutoff
  {
    if stamps != [] {
      var rest, last := stamps[..|stamps| - 1], stamps[|stamps| - 1];
      NothingRecent(rest, cutoff);
      assert stamps == rest + [last];
      assert last in stamps && forall s :: s in rest ==> s in stamps;
      if Recent(stamps, cutoff) == [] {
        forall s | s in stamps ensures s <= cutoff { assert s in rest || s == last; }
      }
    }
  }

  lemma RecentAppend(stamps: seq<int>, now: int, cutoff: int)
    ensures Recent(stamps + [now], cutoff) ==
      if now > cutoff then Recent(stamps, cutoff) + [now] else Recent(stamps, cutoff)
  {
    assert (stamps + [now])[..|stamps|] == stamps;
  }

  /** One more attempt on record, allowed or refused, keeps the store in agreement. */
  lemma AgreesAfter(rule: Rule, history: seq<Attempt>, key: string, now: int, other: string, stored: seq<int>)
    requires AgreesFrom(rule, history, other, stored, now - rule.windowMs)
    ensures AgreesFrom(rule, history + [Attempt(key, now)], other,
                       if other == key && Allows(rule, history, key, now) then stored + [now] else stored,
                       now - rule.windowMs)
  {
    assert (history + [Attempt(key, now)])[..|history|] == history;
    RecentAppend(stored, now, now - rule.windowMs);
    RecentAppend(AllowedStamps(rule, history, other), now, now - rule.windowMs);
  }

  ghost predicate HitsAgree(rule: Rule, history: seq<Attempt>, hits: map<string, seq<int>>, cutoff: int) {
    forall key :: AgreesFrom(rule, history, key, Stamps(hits, key), cutoff)
  }

  lemma HitsLater(rule: Rule, history: seq<Attempt>, hits: map<string, seq<int>>, cutoff: int, later: int)
    requires cutoff <= later && HitsAgree(rule, history, hits, cutoff)
    ensures HitsAgree(rule, history, hits, later)
  {
    forall key ensures AgreesFrom(rule, history, key, Stamps(hits, key), later) {
      AgreesLater(rule, history, key, Stamps(hits, key), cutoff, later);
    }
  }

  lemma HitsSwept(
      rule: Rule, history: seq<Attempt>, hits: map<string, seq<int>>, kept: map<string, seq<int>>, cutoff: int)
    requires HitsAgree(rule, history, hits, cutoff)
    requires kept == map key | key in hits && !(forall s :: s in hits[key] ==> s <= cutoff) :: hits[key]
    ensures HitsAgree(rule, history, kept, cutoff)
  {
    forall key ensures AgreesFrom(rule, history, key, Stamps(kept, key), cutoff) {
      NothingRecent(Stamps(hits, key), cutoff);
    }
  }

  lemma HitsAfter(rule: Rule, history: seq<Attempt>, hits: map<string, seq<int>>, key: string, now: int)
    requires HitsAgree(rule, history, hits, now - rule.windowMs)
    ensures var recent := Recent(Stamps(hits, key), now - rule.windowMs);
      && (|recent| < rule.max <==> Allows(rule, history, key, now))
      && HitsAgree(rule, history + [Attempt(key, now)],
           hits[key := if |recent| < rule.max then recent + [now] else recent], now - rule.windowMs)
  {
    hide Recent, AllowedStamps;
    var cutoff := now - rule.windowMs;
    var recent := Recent(Stamps(hits, key), cutoff);
    assert AgreesFrom(rule, history, key, Stamps(hits, key), cutoff);
    RecentLater(Stamps(hits, key), cutoff, cutoff);
    var after := hits[key := if |recent| < rule.max then recent + [now] else recent];
    forall other ensures AgreesFrom(rule, history + [Attempt(key, now)], other, Stamps(after, other), cutoff) {
      AgreesAfter(rule, history, key, now, other, if other == key then recent else Stamps(hits, other));
    }
  }

  class MapLimiter {
    const rule: Rule
    var hits: map<string, seq<int>>
    var lastSweep: int
    ghost var history: seq<Attempt>
    ghost var clock: int

    ghost predicate Valid()
      reads this
    {
      HitsAgree(rule, history, hits, clock - rule.windowMs)
    }

    constructor (rule: Rule, clock: int)
      ensures Valid() && this.rule == rule && history == [] && this.clock == clock
    {
      this.rule, this.clock := rule, clock;
      hits, lastSweep, history := map[], 0, [];
    }

    /** Abandoned keys are dropped; nothing later than the cutoff is. */
    method Sweep(now: int)
      requires Valid() && clock <= now
      modifies this`hits, this`lastSweep
      ensures HitsAgree(rule, history, hits, now - rule.windowMs)
    {
      var cutoff := now - rule.windowMs;
      HitsLater(rule, history, hits, clock - rule.windowMs, cutoff);
      if now - lastSweep > rule.windowMs {
        lastSweep := now;
        var kept := map key | key in hits && !(forall s :: s in hits[key] ==> s <= cutoff) :: hits[key];
        HitsSwept(rule, history, hits, kept, cutoff);
        hits := kept;
      }
    }

    method Allow(key: string, now: int) returns (allowed: bool)
      requires Valid() && clock <= now
      modifies this
      ensures Valid() && clock == now && history == old(history) + [Attempt(key, now)]
      ensures allowed <==> Allows(rule, old(history), key, now)
    {
      Sweep(now);
      var recent := Recent(Stamps(hits, key), now - rule.windowMs);
      allowed := |recent| < rule.max;
      HitsAfter(rule, history, hits, key, now);
      hits := hits[key := if allowed then recent + [now] else recent];
      clock, history := now, history + [Attempt(key, now)];
    }
  }

  // ---- the PostgreSQL version ---------------------------------------------------

  /** The rows of one scope in rate_limit_attempts that carry a key, as their stamps. */
  function RowStamps(rows: seq<Attempt>, key: string): seq<int> {
    if rows == [] then []
    else
      var last := rows[|rows| - 1];
      var rest := RowStamps(rows[..|rows| - 1], key);
      if last.key == key then rest + [last.time] else rest
  }

  /** delete ... where occurred_at <= cutoff */
  function Undeleted(rows: seq<Attempt>, cutoff: int): seq<Attempt> {
    if rows == [] then []
    else
      var last := rows[|rows| - 1];
      var rest := Undeleted(rows[..|rows| - 1], cutoff);
      if last.time > cutoff then rest + [last] else rest
  }

  lemma {:induction false} UndeletedStamps(rows: seq<Attempt>, cutoff: int, key: string)
    ensures RowStamps(Undeleted(rows, cutoff), key) == Recent(RowStamps(rows, key), cutoff)
  {
    if rows != [] {
      var rest, last := rows[..|rows| - 1], rows[|rows| - 1];
      UndeletedStamps(rest, cutoff, key);
      if last.key == key { RecentAppend(RowStamps(rest, key), last.time, cutoff); }
      if last.time > cutoff {
        var kept := Undeleted(rest, cutoff) + [last];
        assert kept[..|kept| - 1] == Undeleted(rest, cutoff);
      }
    }
  }

  ghost predicate RowsAgree(rule: Rule, history: seq<Attempt>, rows: seq<Attempt>, cutoff: int) {
    forall key :: AgreesFrom(rule, history, key, RowStamps(rows, key), cutoff)
  }

  lemma RowsLater(rule: Rule, history: seq<Attempt>, rows: seq<Attempt>, cutoff: int, later: int)
    requires cutoff <= later && RowsAgree(rule, history, rows, cutoff)
    ensures RowsAgree(rule, history, rows, later)
  {
    forall key ensures AgreesFrom(rule, history, key, RowStamps(rows, key), later) {
      AgreesLater(rule, history, key, RowStamps(rows, key), cutoff, later);
    }
  }

  lemma RowsDeleted(rule: Rule, history: seq<Attempt>, rows: seq<Attempt>, cutoff: int)
    requires RowsAgree(rule, history, rows, cutoff)
    ensures RowsAgree(rule, history, Undeleted(rows, cutoff), cutoff)
  {
    forall key ensures AgreesFrom(rule, history, key, RowStamps(Undeleted(rows, cutoff), key), cutoff) {
      UndeletedStamps(rows, cutoff, key);
      RecentLater(RowStamps(rows, key), cutoff, cutoff);
    }
  }

  lemma RowsAfterFor(
      rule: Rule, history: seq<Attempt>, rows: seq<Attempt>, key: string, now: int, other: string, room: bool)
    requires AgreesFrom(rule, history, other, RowStamps(rows, other), now - rule.windowMs)
    requires room <==> Allows(rule, history, key, now)
    ensures AgreesFrom(rule, history + [Attempt(key, now)], other,
                       RowStamps(if room then rows + [Attempt(key, now)] else rows, other), now - rule.windowMs)
  {
    AgreesAfter(rule, history, key, now, other, RowStamps(rows, other));
  }

  lemma RoomIsAllowed(rule: Rule, history: seq<Attempt>, rows: seq<Attempt>, key: string, now: int)
    requires AgreesFrom(rule, history, key, RowStamps(rows, key), now - rule.windowMs)
    ensures |Recent(RowStamps(rows, key), now - rule.windowMs)| < rule.max <==> Allows(rule, history, key, now)
  {
    hide Recent, RowStamps;
  }

  lemma RowsAfter(rule: Rule, history: seq<Attempt>, rows: seq<Attempt>, key: string, now: int)
    requires RowsAgree(rule, history, rows, now - rule.windowMs)
    ensures var room := |Recent(RowStamps(rows, key), now - rule.windowMs)| < rule.max;
      && (room <==> Allows(rule, history, key, now))
      && RowsAgree(
           rule, history + [Attempt(key, now)], if room then rows + [Attempt(key, now)] else rows, now - rule.windowMs)
  {
    hide AgreesFrom, Recent, Allows, RowStamps;
    var cutoff := now - rule.windowMs;
    assert AgreesFrom(rule, history, key, RowStamps(rows, key), cutoff);
    RoomIsAllowed(rule, history, rows, key, now);
    var room := |Recent(RowStamps(rows, key), cutoff)| < rule.max;
    var after := if room then rows + [Attempt(key, now)] else rows;
    forall other ensures AgreesFrom(rule, history + [Attempt(key, now)], other, RowStamps(after, other), cutoff) {
      RowsAfterFor(rule, history, rows, key, now, other, room);
    }
  }

  /** The shared table.  Transactions on one key are serialised, so each is one step here. */
  class AttemptTable {
    const rule: Rule
    var rows: seq<Attempt>
    ghost var history: seq<Attempt>
    ghost var clock: int

    ghost predicate Valid()
      reads this
    {
      RowsAgree(rule, history, rows, clock - rule.windowMs)
    }

    constructor (rule: Rule, clock: int)
      ensures Valid() && this.rule == rule && history == [] && this.clock == clock
    {
      this.rule, this.clock := rule, clock;
      rows, history := [], [];
    }

    /** Any instance may delete dead rows at any time. */
    method DeleteExpired(now: int)
      requires Valid() && clock <= now
      modifies this`rows, this`clock
      ensures Valid() && clock == now
    {
      hide Recent, RowStamps, Undeleted, AgreesFrom, RowsAgree;
      RowsLater(rule, history, rows, clock - rule.windowMs, now - rule.windowMs);
      RowsDeleted(rule, history, rows, now - rule.windowMs);
      rows, clock := Undeleted(rows, now - rule.windowMs), now;
    }

    /** insert ... where (select count(*) of the key's live rows) < max */
    method InsertIfRoom(key: string, now: int) returns (inserted: bool)
      requires Valid() && clock <= now
      modifies this
      ensures Valid() && clock == now && history == old(history) + [Attempt(key, now)]
      ensures inserted <==> Allows(rule, old(history), key, now)
    {
      hide Recent, RowStamps, Allows, AgreesFrom;
      inserted := |Recent(RowStamps(rows, key), now - rule.windowMs)| < rule.max;
      RowsLater(rule, history, rows, clock - rule.windowMs, now - rule.windowMs);
      RowsAfter(rule, history, rows, key, now);
      if inserted { rows := rows + [Attempt(key, now)]; }
      clock, history := now, history + [Attempt(key, now)];
    }
  }

  /** One API instance: it alone remembers when it last swept, by its own clock. */
  class PgLimiter {
    const table: AttemptTable
    var lastSweep: int

    constructor (table: AttemptTable)
      ensures this.table == table
    {
      this.table := table;
      lastSweep := 0;
    }

    method Allow(key: string, local: int, now: int) returns (allowed: bool)
      requires table.Valid() && table.clock <= now
      modifies this, table
      ensures table.Valid() && table.clock == now && table.history == old(table.history) + [Attempt(key, now)]
      ensures allowed <==> Allows(table.rule, old(table.history), key, now)
    {
      if local - lastSweep > table.rule.windowMs {
        lastSweep := local;
        table.DeleteExpired(now);
      }
      allowed := table.InsertIfRoom(key, now);
    }
  }

  method AllowBoth(limiter: MapLimiter, instance: PgLimiter, a: Attempt, local: int) returns (inMap: bool, inPg: bool)
    requires limiter.Valid() && instance.table.Valid() && limiter.rule == instance.table.rule
    requires limiter.history == instance.table.history
    requires limiter.clock <= a.time && instance.table.clock <= a.time
    modifies limiter, instance, instance.table
    ensures limiter.Valid() && instance.table.Valid() && limiter.clock == instance.table.clock == a.time
    ensures limiter.history == instance.table.history == old(limiter.history) + [a]
    ensures inMap == inPg && (inMap <==> Allows(limiter.rule, old(limiter.history), a.key, a.time))
  {
    inMap := limiter.Allow(a.key, a.time);
    inPg := instance.Allow(a.key, local, a.time);
  }

  /** One run of attempts gets the same answers from the Map version and from two PostgreSQL instances taking turns. */
  method ReplayLimiters(rule: Rule, attempts: seq<Attempt>, turns: seq<bool>, locals: seq<int>)
    returns (inMap: seq<bool>, inPg: seq<bool>)
    requires InOrder(attempts) && |turns| == |attempts| == |locals|
    ensures inMap == inPg && |inMap| == |attempts|
    ensures forall i :: 0 <= i < |attempts| ==>
      (inMap[i] <==> Allows(rule, attempts[..i], attempts[i].key, attempts[i].time))
  {
    inMap, inPg := [], [];
    var start := if attempts == [] then 0 else attempts[0].time;
    var limiter := new MapLimiter(rule, start);
    var table := new AttemptTable(rule, start);
    var one := new PgLimiter(table);
    var two := new PgLimiter(table);
    for i := 0 to |attempts|
      invariant limiter.Valid() && table.Valid() && limiter.rule == rule && table.rule == rule
      invariant limiter.history == attempts[..i] && table.history == attempts[..i]
      invariant i < |attempts| ==> limiter.clock <= attempts[i].time && table.clock <= attempts[i].time
      invariant inMap == inPg && |inMap| == i
      invariant forall k :: 0 <= k < i ==>
        (inMap[k] <==> Allows(rule, attempts[..k], attempts[k].key, attempts[k].time))
    {
      var x, y := AllowBoth(limiter, if turns[i] then one else two, attempts[i], locals[i]);
      assert attempts[..i + 1] == attempts[..i] + [attempts[i]];
      inMap, inPg := inMap + [x], inPg + [y];
    }
  }
}
