// rate_limiter.hpp: the fixed-window limiter, its table, and how far it is
// from the sliding window its comment speaks of.

module RateLimiting {
  // Clock readings are steady_clock nanoseconds since the clock's epoch.
  const NANOS: int := 1_000_000_000
  const WINDOW: int := 60 * NANOS

  datatype Entry = Entry(windowStart: int, count: nat)

  // A value-initialised entry: window start at the epoch, nothing counted.
  const FRESH: Entry := Entry(0, 0)

  // duration_cast<seconds> truncates toward zero.
  function Seconds(nanos: int): int {
    if nanos >= 0 then nanos / NANOS else -(-nanos / NANOS)
  }

  predicate Expired(e: Entry, now: int) { Seconds(now - e.windowStart) >= 60 }

  function Next(e: Entry, now: int): Entry {
    if Expired(e, now) then Entry(now, 1) else Entry(e.windowStart, e.count + 1)
  }

  // The entry of one address after its clock readings, in lock order.
  function EntryAfter(readings: seq<int>): Entry {
    if readings == [] then FRESH
    else Next(EntryAfter(readings[..|readings| - 1]), readings[|readings| - 1])
  }

  // Whether the last of these readings is let through.
  predicate LastAllowed(max: int, readings: seq<int>)
    requires readings != []
  {
    max <= 0 || EntryAfter(readings).count <= max ||
      Expired(EntryAfter(readings[..|readings| - 1]), readings[|readings| - 1])
  }

  datatype Request = Request(ip: string, now: int)

  function Readings(history: seq<Request>, ip: string): seq<int> {
    if history == [] then []
    else
      var n := |history| - 1;
      Readings(history[..n], ip) + (if history[n].ip == ip then [history[n].now] else [])
  }

  function Lookup(table: map<string, Entry>, ip: string): Entry {
    if ip in table then table[ip] else FRESH
  }

  // The whole table after a history, entry by entry as allow() updates it.
  function TableAfter(history: seq<Request>): map<string, Entry> {
    if history == [] then map[]
    else
      var n := |history| - 1;
      var before, r := TableAfter(history[..n]), history[n];
      before[r.ip := Next(Lookup(before, r.ip), r.now)]
  }

  class RateLimiter {
    const max: int
    var table: map<string, Entry>
    ghost var history: seq<Request>

    ghost predicate Valid()
      reads this
    {
      max > 0 ==> table == TableAfter(history)
    }

    constructor (maxPerMinute: int)
      ensures Valid() && max == maxPerMinute && history == []
    {
      max := maxPerMinute;
      table := map[];
      history := [];
    }

    method Allow(ip: string, now: int) returns (ok: bool)
      requires Valid()
      modifies this
      ensures Valid() && history == old(history) + [Request(ip, now)]
      ensures max <= 0 ==> table == old(table)
      ensures ok <==> LastAllowed(max, Readings(history, ip))
    {
      ghost var before := history;
      history := history + [Request(ip, now)];
      assert history[..|before|] == before;
      assert Readings(history, ip) == Readings(before, ip) + [now];
      assert Readings(history, ip)[..|Readings(before, ip)|] == Readings(before, ip);
      if max <= 0 { return true; }
      PerAddress(before, ip);
      var entry := Lookup(table, ip);
      var elapsed := Seconds(now - entry.windowStart);
      if elapsed >= 60 {
        table := table[ip := Entry(now, 1)];
        return true;
      }
      table := table[ip := Entry(entry.windowStart, entry.count + 1)];
      ok := entry.count + 1 <= max;
    }
  }

  // The shared table holds for each address what its own readings alone give:
  // requests from other addresses never change an outcome.
  lemma {:induction false} PerAddress(history: seq<Request>, ip: string)
    ensures Lookup(TableAfter(history), ip) == EntryAfter(Readings(history, ip))
  {
    if history == [] {
    } else {
      var n := |history| - 1;
      PerAddress(history[..n], ip);
      if history[n].ip == ip {
        var rs := Readings(history, ip);
        assert rs[..|rs| - 1] == Readings(history[..n], ip);
      } else {
        assert Readings(history, ip) == Readings(history[..n], ip);
      }
    }
  }

  // ---- Windows ----

  // The position of the request that opened the current window (0 for the epoch window).
  function Opener(readings: seq<int>): nat
    requires readings != []
  {
    var n := |readings| - 1;
    if n == 0 || Expired(EntryAfter(readings[..n]), readings[n]) then n else Opener(readings[..n])
  }

  lemma {:induction false} CountIsPosition(readings: seq<int>)
    requires readings != []
    ensures Opener(readings) < |readings|
    ensures EntryAfter(readings).count == |readings| - Opener(readings)
  {
    var n := |readings| - 1;
    if n > 0 && !Expired(EntryAfter(readings[..n]), readings[n]) { CountIsPosition(readings[..n]); }
  }

  // Each window lets exactly its first max requests through.
  lemma FirstMaxOfWindow(max: int, readings: seq<int>)
    requires max >= 1 && readings != []
    ensures LastAllowed(max, readings) <==> |readings| - Opener(readings) <= max
  {
    CountIsPosition(readings);
  }

  // ---- Bound over any interval ----

  // No reading reaches the lock after one that is more than d later: the clock
  // is read before the mutex is taken.
  ghost predicate Skewed(readings: seq<int>, d: nat) {
    && (forall i :: 0 <= i < |readings| ==> readings[i] >= 0)
    && (forall i, j :: 0 <= i <= j < |readings| ==> readings[i] - d <= readings[j])
  }

  // The readings reach the lock in the order of the clock.
  ghost predicate Ordered(readings: seq<int>) { Skewed(readings, 0) }

  // How many requests with a reading in the 60 seconds from a on are let through.
  function Admitted(max: int, readings: seq<int>, a: int): nat {
    if readings == [] then 0
    else
      var n := |readings| - 1;
      Admitted(max, readings[..n], a) +
        if a <= readings[n] < a + WINDOW && LastAllowed(max, readings) then 1 else 0
  }

  function Min(x: int, y: int): int { if x <= y then x else y }

  // What the window before the interval can still contribute.
  function Carried(max: int, readings: seq<int>): int {
    if readings != [] && readings[0] >= WINDOW then max - 1 else max
  }

  // What a window opened behind the interval can add by late readings.
  function Late(max: int, d: nat): int { if d >= 2 then max - 1 else 0 }

  // How many, n, were let through, by where the current window e opened.
  predicate Within(max: int, carried: int, e: Entry, n: nat, a: int, d: nat) {
    var used := Min(e.count, max);
    if e.windowStart <= a - WINDOW then n == 0
    else if e.windowStart < a then n <= used - (max - carried)
    else if e.windowStart == a then n <= used
    else if e.windowStart <= a + WINDOW then n <= carried + used
    else if e.windowStart < a + WINDOW + d then n <= carried + max + used - 1
    else n <= carried + max + Late(max, d)
  }

  // One more reading, at most d before the current window's start.
  lemma StepWithin(max: int, carried: int, e: Entry, n: nat, a: int, d: nat, now: int)
    requires max >= 1 && d <= WINDOW && max - 1 <= carried <= max
    requires Within(max, carried, e, n, a, d) && e.count >= 1 && now >= e.windowStart - d
    ensures var counts := a <= now < a + WINDOW && (Next(e, now).count <= max || Expired(e, now));
      Within(max, carried, Next(e, now), n + if counts then 1 else 0, a, d)
  {
    assert Expired(e, now) <==> now - e.windowStart >= WINDOW;
    hide Expired;
  }

  lemma FirstWithin(max: int, a: int, d: nat, now: int)
    requires max >= 1 && now >= 0
    ensures var counts := a <= now < a + WINDOW;
      Within(max, if now >= WINDOW then max - 1 else max, Next(FRESH, now), if counts then 1 else 0, a, d)
  {}

  // A window opens at a reading, so later readings lie at most d before it.
  lemma {:induction false} WindowStarts(readings: seq<int>, d: nat)
    requires Skewed(readings, d)
    ensures EntryAfter(readings).windowStart >= 0 && (readings != [] ==> EntryAfter(readings).count >= 1)
    ensures EntryAfter(readings).windowStart == 0 || EntryAfter(readings).windowStart in readings
  {
    if readings == [] {
    } else {
      WindowStarts(readings[..|readings| - 1], d);
    }
  }

  lemma {:induction false} IntervalInvariant(max: int, readings: seq<int>, a: int, d: nat)
    requires max >= 1 && d <= WINDOW && Skewed(readings, d) && readings != []
    ensures Within(max, Carried(max, readings), EntryAfter(readings), Admitted(max, readings, a), a, d)
  {
    var n := |readings| - 1;
    var before, now := readings[..n], readings[n];
    WindowStarts(before, d);
    assert now >= EntryAfter(before).windowStart - d;
    hide Skewed, Within, WINDOW;
    if n == 0 {
      FirstWithin(max, a, d, now);
    } else {
      SkewedFront(readings, d);
      IntervalInvariant(max, before, a, d);
      StepWithin(max, Carried(max, before), EntryAfter(before), Admitted(max, before, a), a, d, now);
    }
  }

  lemma SkewedFront(readings: seq<int>, d: nat)
    requires Skewed(readings, d) && readings != []
    ensures Skewed(readings[..|readings| - 1], d)
  {}

  // However late a reading reaches the lock, within a window's length: any 60
  // seconds let at most 2 max requests of one address through when no reading
  // is 2 ns or more late, and max - 1 more otherwise; one less each when the
  // first reading is at least a window past the clock's epoch.
  lemma SkewedBound(max: int, readings: seq<int>, a: int, d: nat)
    requires max >= 1 && d <= WINDOW && Skewed(readings, d)
    ensures Admitted(max, readings, a) <= 2 * max + Late(max, d)
    ensures readings != [] && readings[0] >= WINDOW ==> Admitted(max, readings, a) <= 2 * max - 1 + Late(max, d)
  {
    if readings != [] { IntervalInvariant(max, readings, a, d); }
  }

  // In clock order: at most 2 max, and 2 max - 1 past the first minute.
  lemma SlidingBound(max: int, readings: seq<int>, a: int)
    requires max >= 1 && Ordered(readings)
    ensures Admitted(max, readings, a) <= 2 * max
    ensures readings != [] && readings[0] >= WINDOW ==> Admitted(max, readings, a) <= 2 * max - 1
  {
    SkewedBound(max, readings, a, 0);
  }

  // ---- The bounds are reached ----

  function Repeat(x: int, k: nat): seq<int> { seq(k, _ => x) }

  // k further requests at the same moment inside an open window.
  lemma {:induction false} Burst(max: int, readings: seq<int>, now: int, k: nat, a: int)
    requires max >= 1 && readings != [] && a <= now < a + WINDOW
    requires now - EntryAfter(readings).windowStart < WINDOW
    requires EntryAfter(readings).count + k <= max
    ensures EntryAfter(readings + Repeat(now, k)) == EntryAfter(readings).(count := EntryAfter(readings).count + k)
    ensures Admitted(max, readings + Repeat(now, k), a) == Admitted(max, readings, a) + k
  {
    if k == 0 {
      assert readings + Repeat(now, 0) == readings;
    } else {
      Burst(max, readings, now, k - 1, a);
      var rs := readings + Repeat(now, k);
      assert rs[..|rs| - 1] == readings + Repeat(now, k - 1);
    }
  }

  // max - 1 requests at the end of a window and max at the start of the next.
  function TwoWindows(max: nat, t: int): seq<int>
    requires max >= 1
  {
    [t] + Repeat(t + WINDOW - 1, max - 1) + [t + WINDOW] + Repeat(t + WINDOW, max - 1)
  }

  lemma TwoWindowsFilled(max: nat, t: int)
    requires max >= 1 && t >= WINDOW
    ensures EntryAfter(TwoWindows(max, t)) == Entry(t + WINDOW, max)
    ensures Admitted(max, TwoWindows(max, t), t + WINDOW - 1) == 2 * max - 1
  {
    var a := t + WINDOW - 1;
    var r0 := [t];
    assert r0[..0] == [];
    assert EntryAfter(r0) == Entry(t, 1);
    assert Admitted(max, r0, a) == 0;
    var r1 := r0 + Repeat(a, max - 1);
    Burst(max, r0, a, max - 1, a);
    var r2 := r1 + [a + 1];
    assert r2[..|r1|] == r1;
    assert EntryAfter(r2) == Entry(a + 1, 1);
    assert Admitted(max, r2, a) == max;
    Burst(max, r2, a + 1, max - 1, a);
  }

  // Past the first minute the comment's promise, at most max in any 60 seconds,
  // fails for every max >= 2: these are all let through within one nanosecond.
  lemma PromiseFails(max: nat, t: int)
    requires max >= 1 && t >= WINDOW
    ensures var rs := TwoWindows(max, t);
      Ordered(rs) && rs[0] >= WINDOW && Admitted(max, rs, t + WINDOW - 1) == 2 * max - 1
  {
    TwoWindowsFilled(max, t);
  }

  // In the first minute of the clock the bound is 2 max, and it is reached: the
  // epoch's own window lets max requests through at its end, the next one max
  // more a nanosecond later.
  lemma FirstMinuteFails(max: int)
    requires max >= 1
    ensures var rs := Repeat(WINDOW - 1, max) + Repeat(WINDOW, max);
      Ordered(rs) && rs[0] == WINDOW - 1 && Admitted(max, rs, WINDOW - 1) == 2 * max
  {
    var a := WINDOW - 1;
    var r0 := [a];
    assert r0[..0] == [];
    assert EntryAfter(r0) == Entry(0, 1);
    assert Admitted(max, r0, a) == 1;
    var r1 := r0 + Repeat(a, max - 1);
    Burst(max, r0, a, max - 1, a);
    var r2 := r1 + [WINDOW];
    assert r2[..|r1|] == r1;
    assert EntryAfter(r2) == Entry(WINDOW, 1);
    assert Admitted(max, r2, a) == max + 1;
    Burst(max, r2, WINDOW, max - 1, a);
    assert r2 + Repeat(WINDOW, max - 1) == Repeat(a, max) + Repeat(WINDOW, max);
  }

  // The comment's promise, for the runs whose first reading is at or after `first`.
  ghost predicate Promised(max: int, first: int) {
    forall rs, a {:trigger Admitted(max, rs, a)} :: Ordered(rs) && rs != [] && rs[0] >= first ==>
      Admitted(max, rs, a) <= max
  }

  // It holds exactly when max is 1 and the first reading is a window past the clock's epoch.
  lemma PromiseExactly(max: int, first: int)
    requires max >= 1
    ensures Promised(max, first) <==> max == 1 && first >= WINDOW
  {
    if max == 1 && first >= WINDOW {
      forall rs, a {:trigger Admitted(max, rs, a)} | Ordered(rs) && rs != [] && rs[0] >= first
        ensures Admitted(max, rs, a) <= max
      {
        SlidingBound(max, rs, a);
      }
    }
    if Promised(max, first) {
      if first < WINDOW {
        FirstMinuteFails(max);
      } else {
        PromiseFails(max, first);
      }
    }
  }

  // ---- Readings that reach the lock late ----

  // Two full windows, the opening of a third, and max - 1 requests read 2 ns before it.
  function LateRun(max: nat, t: int): seq<int>
    requires max >= 1
  {
    TwoWindows(max, t) + [t + 2 * WINDOW] + Repeat(t + 2 * WINDOW - 2, max - 1)
  }

  // Readings 2 ns late let a third window serve the same 60 seconds.
  lemma LateReadings(max: nat, t: int)
    requires max >= 1 && t >= WINDOW
    ensures Skewed(LateRun(max, t), 2) && LateRun(max, t)[0] == t
    ensures Admitted(max, LateRun(max, t), t + WINDOW - 1) == 3 * max - 2
  {
    var a, two := t + WINDOW - 1, TwoWindows(max, t);
    TwoWindowsFilled(max, t);
    LateRunIsSkewed(max, t);
    hide TwoWindows, Skewed;
    var third := two + [t + 2 * WINDOW];
    assert third[..|two|] == two;
    assert EntryAfter(third) == Entry(t + 2 * WINDOW, 1);
    Burst(max, third, t + 2 * WINDOW - 2, max - 1, a);
  }

  lemma LateRunIsSkewed(max: nat, t: int)
    requires max >= 1 && t >= WINDOW
    ensures Skewed(LateRun(max, t), 2) && LateRun(max, t)[0] == t
  {}

  // Readings at most d late, within a window's length and past the first
  // minute, keep the bound of 2 max - 1 exactly when d is below 2 ns or max is 1.
  lemma LateExactly(max: nat, d: nat)
    requires max >= 1 && d <= WINDOW
    ensures (forall rs, a {:trigger Admitted(max, rs, a)} :: Skewed(rs, d) && rs != [] && rs[0] >= WINDOW ==>
               Admitted(max, rs, a) <= 2 * max - 1) <==> (d < 2 || max == 1)
  {
    if d < 2 || max == 1 {
      forall rs, a {:trigger Admitted(max, rs, a)} | Skewed(rs, d) && rs != [] && rs[0] >= WINDOW
        ensures Admitted(max, rs, a) <= 2 * max - 1
      {
        SkewedBound(max, rs, a, d);
      }
    } else {
      LateReadings(max, WINDOW);
      assert Skewed(LateRun(max, WINDOW), d);
    }
  }
}
