/** Probe counters: trailing runs of equal outcomes, stored by a probe that other calls may overlap. */
module Probes {
  import opened Common
  import opened Joining

  lemma WrapStep(n: nat)
    ensures WrapInt32(WrapInt32(n) + 1) == WrapInt32(n + 1)
  {
  }

  /** Two counters that differ by n wrap alike exactly if n is a multiple of 2^32. */
  lemma WrapSameIff(n: nat, k: nat)
    ensures WrapInt32(n + k) == WrapInt32(k) <==> n % TWO_32 == 0
  {
    var a, b := n + k + 0x8000_0000, k + 0x8000_0000;
    if a % TWO_32 == b % TWO_32 {
      assert n == TWO_32 * (a / TWO_32 - b / TWO_32);
    }
    if n % TWO_32 == 0 {
      assert a == b + TWO_32 * (n / TWO_32);
    }
  }

  datatype ProbeResult = ProbeResult(success: bool, successes: int, failures: int)

  /** Length of the run of `outcome` at the end of a history. */
  function Trailing(history: seq<bool>, outcome: bool): nat {
    if history == [] || history[|history| - 1] != outcome then 0
    else 1 + Trailing(history[..|history| - 1], outcome)
  }

  /** The result a history of probes amounts to. */
  function Tally(history: seq<bool>): ProbeResult
    requires history != []
  {
    ProbeResult(history[|history| - 1], WrapInt32(Trailing(history, true)), WrapInt32(Trailing(history, false)))
  }

  /** At most one counter of a history is positive. */
  lemma NeverBothPositive(history: seq<bool>)
    requires history != []
    ensures Trailing(history, true) == 0 || Trailing(history, false) == 0
    ensures Tally(history).failures <= Trailing(history, false)
    ensures Tally(history).success <==> Trailing(history, false) == 0
  {
  }

  lemma {:induction false} TrailingSplit(a: seq<bool>, b: seq<bool>, outcome: bool)
    ensures Trailing(a + b, outcome) == if Trailing(b, outcome) == |b| then |b| + Trailing(a, outcome) else Trailing(b, outcome)
    ensures Trailing(b, outcome) <= |b|
    decreases |b|
  {
    if b == [] {
      assert a + b == a;
    } else {
      assert (a + b)[..|a + b| - 1] == a + b[..|b| - 1];
      TrailingSplit(a, b[..|b| - 1], outcome);
    }
  }

  /** Counting probes from before a clear along with those since then shows exactly if all outcomes since are
      equal and the ones before end in a run of that outcome, up to wrap-around. */
  lemma LeftoverShowsIff(leftover: seq<bool>, since: seq<bool>)
    requires since != []
    ensures var last := since[|since| - 1];
            Tally(leftover + since) != Tally(since) <==>
            Trailing(since, last) == |since| && Trailing(leftover, last) % TWO_32 != 0
  {
    var last := since[|since| - 1];
    var all := leftover + since;
    assert all[|all| - 1] == last;
    TrailingSplit(leftover, since, last);
    WrapSameIff(Trailing(leftover, last), Trailing(since, last));
    assert Trailing(all, !last) == 0 == Trailing(since, !last);
  }

  function ProbeKey(container: string, kind: string): string {
    container + ":" + kind
  }

  /** Probes of one container are kept apart by their kinds, and those of different containers unless a colon inside a
      container ID can be read as the one before the kind. */
  lemma ProbeKeysIff(a: string, k: string, b: string, l: string)
    ensures a == b ==> (ProbeKey(a, k) == ProbeKey(b, l) <==> k == l)
    ensures ProbeKey(a, k) == ProbeKey(b, l) <==> (a == b && k == l) || Shifted(a, k, b, l, ':') || Shifted(b, l, a, k, ':')
    ensures ':' !in k && ':' !in l ==> (ProbeKey(a, k) == ProbeKey(b, l) <==> a == b && k == l)
  {
    JoinSameIff(a, k, b, l, ':');
    assert ProbeKey(a, k) == Join(a, ':', k) && ProbeKey(b, l) == Join(b, ':', l);
    if ':' !in k && ':' !in l {
      JoinUnique(a, k, b, l, ':');
    }
    if a == b && ProbeKey(a, k) == ProbeKey(b, l) {
      SameCut(a, k, b, l, ':');
    }
  }

  /** A liveness probe leaves the readiness of its container alone. */
  lemma LivenessIsNotReadiness(container: string)
    ensures ProbeKey(container, "liveness") != ProbeKey(container, "readiness")
  {
    ProbeKeysIff(container, "liveness", container, "readiness");
    assert "liveness"[0] != "readiness"[0];
  }

  /** ClearProbeResults drops every key that properly extends the container ID. */
  predicate Clears(container: string, key: string) {
    |key| > |container| && key[..|container|] == container
  }

  /** So it also clears the containers whose IDs extend the given one, and only those. */
  lemma ClearsIff(container: string, other: string, kind: string)
    requires ':' !in container
    ensures Clears(container, ProbeKey(other, kind)) <==> container <= other
  {
    var key := ProbeKey(other, kind);
    assert key[|other|] == ':';
    if |container| <= |other| {
      assert key[..|container|] == other[..|container|];
    } else if |container| < |key| {
      assert key[..|container|][|other|] == ':';
    }
  }

  function OrEmpty(m: map<string, seq<bool>>, key: string): seq<bool> {
    if key in m then m[key] else []
  }

  /** The probes the stored counters of a key count. */
  function CountedProbes(leftover: map<string, seq<bool>>, since: map<string, seq<bool>>, key: string): seq<bool> {
    OrEmpty(leftover, key) + OrEmpty(since, key)
  }

  ghost predicate TalliedAt(result: ProbeResult, leftover: seq<bool>, since: seq<bool>) {
    since != [] && result == Tally(leftover + since)
  }

  ghost predicate Tallied(results: map<string, ProbeResult>, leftover: map<string, seq<bool>>, since: map<string, seq<bool>>) {
    && results.Keys == since.Keys == leftover.Keys
    && forall key :: key in since ==> TalliedAt(results[key], leftover[key], since[key])
  }

  /** The entries left when all cleared keys outside `todo` are gone. */
  function Left<V>(m: map<string, V>, container: string, todo: set<string>): map<string, V> {
    map key | key in m && (key in todo || !Clears(container, key)) :: m[key]
  }

  lemma LeftTallied(results: map<string, ProbeResult>, leftover: map<string, seq<bool>>, since: map<string, seq<bool>>, container: string)
    requires Tallied(results, leftover, since)
    ensures Tallied(Left(results, container, {}), Left(leftover, container, {}), Left(since, container, {}))
  {
  }

  lemma ClearOne(m: map<string, ProbeResult>, container: string, todo: set<string>, key: string)
    requires key in todo
    ensures Left(m, container, todo - {key}) ==
              if Clears(container, key) then Left(m, container, todo) - {key} else Left(m, container, todo)
  {
  }

  /** A probe between reading the previous result and storing its own: the probes that result counts, and
      whether the key was cleared since. */
  datatype Flight = Flight(key: string, seen: seq<bool>, cleared: bool)

  ghost predicate InStep(flight: Option<Flight>, leftover: map<string, seq<bool>>, since: map<string, seq<bool>>) {
    flight.Some? ==>
      if flight.value.cleared then flight.value.key !in since
      else flight.value.seen == CountedProbes(leftover, since, flight.value.key)
  }

  /** The previous result a probe starts from. */
  function Previous(seen: seq<bool>): ProbeResult {
    if seen == [] then ProbeResult(false, 0, 0) else Tally(seen)
  }

  function NextResult(previous: ProbeResult, success: bool): ProbeResult {
    if success then ProbeResult(true, WrapInt32(previous.successes + 1), 0)
    else ProbeResult(false, 0, WrapInt32(previous.failures + 1))
  }

  lemma NextResultTallies(seen: seq<bool>, success: bool)
    ensures NextResult(Previous(seen), success) == Tally(seen + [success])
  {
    var all := seen + [success];
    assert all[..|all| - 1] == seen;
    WrapStep(Trailing(seen, true));
    WrapStep(Trailing(seen, false));
  }

  lemma CountOneMore(leftover: seq<bool>, since: seq<bool>, success: bool)
    ensures TalliedAt(Tally(leftover + since + [success]), leftover, since + [success])
  {
    assert leftover + (since + [success]) == leftover + since + [success];
  }

  lemma StoreTallied(results: map<string, ProbeResult>, leftover: map<string, seq<bool>>, since: map<string, seq<bool>>,
                     flight: Flight, success: bool)
    requires Tallied(results, leftover, since) && InStep(Some(flight), leftover, since)
    ensures Tallied(results[flight.key := Tally(flight.seen + [success])],
                    leftover[flight.key := if flight.cleared then flight.seen else OrEmpty(leftover, flight.key)],
                    since[flight.key := OrEmpty(since, flight.key) + [success]])
  {
    var before := if flight.cleared then flight.seen else OrEmpty(leftover, flight.key);
    assert flight.seen == before + OrEmpty(since, flight.key);
    CountOneMore(before, OrEmpty(since, flight.key), success);
    UpdateTallied(results, leftover, since, flight.key,
                  Tally(flight.seen + [success]), before, OrEmpty(since, flight.key) + [success]);
  }

  lemma UpdateTallied(results: map<string, ProbeResult>, leftover: map<string, seq<bool>>, since: map<string, seq<bool>>,
                      key: string, result: ProbeResult, before: seq<bool>, after: seq<bool>)
    requires Tallied(results, leftover, since) && TalliedAt(result, before, after)
    ensures Tallied(results[key := result], leftover[key := before], since[key := after])
  {
  }

  class ProbeExecutor {
    var probeResults: map<string, ProbeResult>
    /** The outcomes stored since the key was last cleared. */
    ghost var since: map<string, seq<bool>>
    /** The outcomes from before that clear which the counters still count. */
    ghost var leftover: map<string, seq<bool>>
    /** The probe the worker is executing; there is one worker. */
    ghost var flight: Option<Flight>

    /** Every stored result is the tally of the probes since the last clear, after what a probe that was in
        flight during that clear carried over it. */
    ghost predicate Valid()
      reads this
    {
      Tallied(probeResults, leftover, since) && InStep(flight, leftover, since)
    }

    constructor ()
      ensures Valid() && since == map[] && leftover == map[] && flight.None?
    {
      probeResults, since, leftover, flight := map[], map[], map[], None;
    }

    /** The first part of executeProbeInternal, under the read lock. */
    method BeginProbe(container: string, kind: string) returns (previous: ProbeResult)
      requires Valid() && flight.None?
      modifies this`flight
      ensures Valid()
      ensures var key := ProbeKey(container, kind);
              && flight == Some(Flight(key, CountedProbes(leftover, since, key), false))
              && previous == Previous(flight.value.seen)
    {
      var key := ProbeKey(container, kind);
      previous := ProbeResult(false, 0, 0);
      if key in probeResults {
        previous := probeResults[key];
      }
      flight := Some(Flight(key, CountedProbes(leftover, since, key), false));
    }

    /** The last part, under the write lock; the probe's outcome is an input. What was cleared meanwhile is
        counted again. */
    method FinishProbe(container: string, kind: string, previous: ProbeResult, success: bool) returns (result: ProbeResult)
      requires Valid() && flight.Some? && flight.value.key == ProbeKey(container, kind)
      requires previous == Previous(flight.value.seen)
      modifies this
      ensures Valid() && flight.None?
      ensures var key := ProbeKey(container, kind);
              && key in since && result == probeResults[key]
              && since == old(since)[key := OrEmpty(old(since), key) + [success]]
              && leftover == old(leftover)[key := if old(flight).value.cleared then old(flight).value.seen else OrEmpty(old(leftover), key)]
    {
      var key := ProbeKey(container, kind);
      result := NextResult(previous, success);
      NextResultTallies(flight.value.seen, success);
      StoreTallied(probeResults, leftover, since, flight.value, success);
      probeResults := probeResults[key := result];
      leftover := leftover[key := if flight.value.cleared then flight.value.seen else OrEmpty(leftover, key)];
      since := since[key := OrEmpty(since, key) + [success]];
      flight := None;
    }

    /** A probe that nothing overlaps. */
    method ExecuteProbe(container: string, kind: string, success: bool) returns (result: ProbeResult)
      requires Valid() && flight.None?
      modifies this
      ensures Valid() && flight.None?
      ensures var key := ProbeKey(container, kind);
              && key in since && result == probeResults[key]
              && since == old(since)[key := OrEmpty(old(since), key) + [success]]
              && leftover == old(leftover)[key := OrEmpty(old(leftover), key)]
    {
      var previous := BeginProbe(container, kind);
      result := FinishProbe(container, kind, previous, success);
    }

    /** The stored counters are the runs since the last clear exactly unless a probe that was in flight during
        the clear carried a run over it and only that outcome has been seen since. */
    lemma SinceClearIff(key: string)
      requires Valid() && key in since
      ensures var last := since[key][|since[key]| - 1];
              probeResults[key] == Tally(since[key]) <==>
              Trailing(since[key], last) < |since[key]| || Trailing(leftover[key], last) % TWO_32 == 0
    {
      TrailingSplit([], since[key], since[key][|since[key]| - 1]);
      LeftoverShowsIff(leftover[key], since[key]);
    }

    method GetProbeResult(container: string, kind: string) returns (r: Option<ProbeResult>)
      requires Valid()
      ensures var key := ProbeKey(container, kind);
              r == if key in since then Some(Tally(CountedProbes(leftover, since, key))) else None
    {
      var key := ProbeKey(container, kind);
      if key in probeResults {
        return Some(probeResults[key]);
      }
      return None;
    }

    method ClearProbeResults(container: string)
      requires Valid()
      modifies this
      ensures Valid()
      ensures since == Left(old(since), container, {}) && leftover == Left(old(leftover), container, {})
      ensures flight == if old(flight).Some? && Clears(container, old(flight).value.key)
                        then Some(old(flight).value.(cleared := true)) else old(flight)
    {
      var keys := probeResults.Keys;
      ghost var start := probeResults;
      LeftTallied(start, leftover, since, container);
      assert start == Left(start, container, keys);
      while keys != {}
        invariant unchanged(this`since) && unchanged(this`leftover) && unchanged(this`flight)
        invariant probeResults == Left(start, container, keys)
        decreases keys
      {
        var key :| key in keys;
        ClearOne(start, container, keys, key);
        keys := keys - {key};
        if Clears(container, key) {
          probeResults := probeResults - {key};
        }
      }
      if flight.Some? && Clears(container, flight.value.key) {
        flight := Some(flight.value.(cleared := true));
      }
      since, leftover := Left(since, container, {}), Left(leftover, container, {});
    }
  }

  /** What an executor's counters of a key count: probes from before the last clear, and since. */
  ghost predicate Counts(executor: ProbeExecutor, key: string, leftover: seq<bool>, since: seq<bool>)
    reads executor
  {
    key in executor.since && key in executor.leftover && executor.since[key] == since && executor.leftover[key] == leftover
  }

  method FailOnce(executor: ProbeExecutor, container: string, kind: string, ghost before: seq<bool>) returns (r: ProbeResult)
    requires executor.Valid() && executor.flight.None?
    requires if before == [] then ProbeKey(container, kind) !in executor.since else Counts(executor, ProbeKey(container, kind), [], before)
    modifies executor
    ensures executor.Valid() && executor.flight.None?
    ensures Counts(executor, ProbeKey(container, kind), [], before + [false])
  {
    r := executor.ExecuteProbe(container, kind, false);
  }

  lemma ClearsOwn(container: string, kind: string)
    ensures Clears(container, ProbeKey(container, kind))
  {
    assert ProbeKey(container, kind)[..|container|] == container;
  }

  /** A probe fails while its container is cleared: the cleared probes are counted again. */
  method FailWhileCleared(executor: ProbeExecutor, container: string, kind: string, ghost before: seq<bool>)
    returns (stored: ProbeResult)
    requires executor.Valid() && executor.flight.None? && Counts(executor, ProbeKey(container, kind), [], before)
    modifies executor
    ensures executor.Valid() && executor.flight.None?
    ensures Counts(executor, ProbeKey(container, kind), before, [false])
    ensures stored == executor.probeResults[ProbeKey(container, kind)]
  {
    var previous := executor.BeginProbe(container, kind);
    ClearsOwn(container, kind);
    executor.ClearProbeResults(container);
    stored := executor.FinishProbe(container, kind, previous, false);
  }

  /** A clear during the third failing probe is lost: three failures are stored, one probe has failed since. */
  method ClearedInFlight(container: string, kind: string) returns (stored: ProbeResult, executor: ProbeExecutor)
    ensures fresh(executor) && executor.Valid() && executor.flight.None?
    ensures Counts(executor, ProbeKey(container, kind), [false, false], [false])
    ensures stored == ProbeResult(false, 0, 3)
  {
    executor := new ProbeExecutor();
    var _ := FailOnce(executor, container, kind, []);
    var _ := FailOnce(executor, container, kind, [false]);
    stored := FailWhileCleared(executor, container, kind, [false, false]);
    assert TalliedAt(stored, [false, false], [false]);
    ThreeFailures();
  }

  lemma ThreeFailures()
    ensures Tally([false, false] + [false]) == ProbeResult(false, 0, 3)
  {
    var all := [false, false] + [false];
    assert all[..2] == [false, false] && all[..2][..1] == [false];
    assert Trailing([false], false) == 1;
    assert Trailing([false, false], false) == 2;
  }
}

/** Restart limiting and readiness reporting of the health monitor. */
module HealthMonitors {
  import opened Common
  import opened Probes

  // ---- Sliding windows over restart times ----

  ghost predicate Sorted(h: seq<int>) {
    forall i, j :: 0 <= i < j < |h| ==> h[i] <= h[j]
  }

  /** No m + 1 consecutive restarts lie within `window` of each other. */
  ghost predicate Spaced(h: seq<int>, window: int, m: nat) {
    forall i, j :: 0 <= i && j < |h| && j == i + m ==> h[j] - h[i] > window
  }

  /** The last n restarts are the ones the counter counts; the one before them is long past. */
  ghost predicate Counted(h: seq<int>, n: int, window: int) {
    && 0 <= n <= |h|
    && (h != [] ==> 1 <= n)
    && (n < |h| ==> h[|h| - n] - h[|h| - n - 1] > window)
  }

  function CountIn(h: seq<int>, a: int, b: int): nat {
    if h == [] then 0
    else CountIn(h[..|h| - 1], a, b) + if a <= h[|h| - 1] <= b then 1 else 0
  }

  /** k restarts inside an interval span at least k positions. */
  lemma {:induction false} Span(h: seq<int>, a: int, b: int) returns (i: nat, j: nat)
    requires CountIn(h, a, b) > 0
    ensures i <= j < |h| && a <= h[i] <= b && a <= h[j] <= b
    ensures CountIn(h, a, b) <= j - i + 1
  {
    var front, last := h[..|h| - 1], |h| - 1;
    if CountIn(front, a, b) == 0 {
      i, j := last, last;
    } else {
      i, j := Span(front, a, b);
      if a <= h[last] <= b {
        j := last;
      }
    }
  }

  /** Spaced restarts put at most m into any closed interval of the window's length. */
  lemma SpacedBoundsIntervals(h: seq<int>, window: int, m: nat, a: int)
    requires Sorted(h) && Spaced(h, window, m) && 1 <= m
    ensures CountIn(h, a, a + window) <= m
  {
    if CountIn(h, a, a + window) > 0 {
      var i, j := Span(h, a, a + window);
      if i + m < |h| {
        assert h[i + m] > h[j];
      }
    }
  }

  /** One more restart keeps the spacing if the counter was below the limit or had to start over. */
  lemma SpacingKept(h: seq<int>, n: int, window: int, m: nat, t: int, reset: bool)
    requires Sorted(h) && Spaced(h, window, m) && Counted(h, n, window) && 1 <= m
    requires h != [] ==> h[|h| - 1] <= t
    requires h == [] || (reset && t - h[|h| - 1] > window) || (!reset && n < m)
    ensures Sorted(h + [t]) && Spaced(h + [t], window, m)
    ensures Counted(h + [t], if h == [] || reset then 1 else n + 1, window)
  {
    if m <= |h| {
      NewestSpaced(h, n, window, m, t, reset);
    }
    SpacedExtends(h, window, m, t);
  }

  lemma SpacedExtends(h: seq<int>, window: int, m: nat, t: int)
    requires Spaced(h, window, m) && 1 <= m
    requires m <= |h| ==> t - h[|h| - m] > window
    ensures Spaced(h + [t], window, m)
  {
    var g := h + [t];
    forall i, j | 0 <= i && j < |g| && j == i + m
      ensures g[j] - g[i] > window
    {
      assert g[i] == h[i];
      assert j < |h| ==> g[j] == h[j];
    }
  }

  lemma NewestSpaced(h: seq<int>, n: int, window: int, m: nat, t: int, reset: bool)
    requires Sorted(h) && Counted(h, n, window) && 1 <= m <= |h|
    requires h[|h| - 1] <= t
    requires (reset && t - h[|h| - 1] > window) || (!reset && n < m)
    ensures t - h[|h| - m] > window
  {
    if reset {
      assert h[|h| - m] <= h[|h| - 1];
    } else {
      assert h[|h| - m] <= h[|h| - n - 1];
      assert h[|h| - n] <= t;
    }
  }

  // ---- Readiness reports ----

  /** The readings that differ from the one before. */
  function Changes(readings: seq<bool>): seq<bool> {
    if readings == [] then []
    else
      var front, last := readings[..|readings| - 1], readings[|readings| - 1];
      if front != [] && front[|front| - 1] == last then Changes(front) else Changes(front) + [last]
  }

  lemma ChangesExtend(readings: seq<bool>, next: bool)
    ensures Changes(readings + [next]) ==
            Changes(readings) + if readings == [] || readings[|readings| - 1] != next then [next] else []
  {
    var all := readings + [next];
    assert all[..|all| - 1] == readings && all[|all| - 1] == next;
    if readings != [] && readings[|readings| - 1] == next {
      assert Changes(all) == Changes(readings);
    } else {
      assert Changes(all) == Changes(readings) + [next];
    }
  }

  /** Reports alternate, and the last one is the latest reading. */
  lemma {:induction false} ChangesAlternate(readings: seq<bool>)
    requires readings != []
    ensures var c := Changes(readings);
            && c != [] && c[0] == readings[0] && c[|c| - 1] == readings[|readings| - 1]
            && forall i, j :: 0 <= i && j < |c| && j == i + 1 ==> c[i] != c[j]
  {
    var front := readings[..|readings| - 1];
    if front != [] {
      ChangesAlternate(front);
    }
  }

  // ---- The monitor ----

  /** A container's recorded restarts with the counter and time stamp the monitor keeps of them. */
  datatype Track = Track(history: seq<int>, attempts: int, last: int)

  ghost predicate Sound(t: Track, window: int, limit: nat) {
    && t.history != [] && Sorted(t.history)
    && t.last == t.history[|t.history| - 1]
    && t.attempts <= limit
    && Counted(t.history, t.attempts, window)
    && Spaced(t.history, window, limit)
  }

  /** recordRestart on a container with a history. */
  function Recorded(t: Track, reset: bool, stamped: int): Track {
    Track(t.history + [stamped], if reset then 1 else t.attempts + 1, stamped)
  }

  lemma RecordedSound(t: Track, window: int, limit: nat, reset: bool, stamped: int)
    requires Sound(t, window, limit) && 1 <= limit && t.last <= stamped
    requires (reset && stamped - t.last > window) || (!reset && t.attempts < limit)
    ensures Sound(Recorded(t, reset, stamped), window, limit)
  {
    SpacingKept(t.history, t.attempts, window, limit, stamped, reset);
  }

  /** recordRestart on a container without one. */
  function First(stamped: int): Track {
    Track([stamped], 1, stamped)
  }

  lemma FirstSound(window: int, limit: nat, stamped: int)
    requires 1 <= limit
    ensures Sound(First(stamped), window, limit)
  {
  }

  ghost predicate AllSound(tracks: map<string, Track>, clock: int, window: int, limit: nat) {
    forall id :: id in tracks ==> Sound(tracks[id], window, limit) && tracks[id].last <= clock
  }

  lemma AllSoundUpdate(tracks: map<string, Track>, clock: int, window: int, limit: nat, id: string, t: Track)
    requires AllSound(tracks, clock, window, limit) && Sound(t, window, limit) && clock <= t.last
    ensures AllSound(tracks[id := t], t.last, window, limit)
  {
  }

  function AttemptsOf(tracks: map<string, Track>): map<string, int> {
    map id | id in tracks :: tracks[id].attempts
  }

  function LastsOf(tracks: map<string, Track>): map<string, int> {
    map id | id in tracks :: tracks[id].last
  }

  lemma ViewsUpdate(tracks: map<string, Track>, id: string, t: Track)
    ensures AttemptsOf(tracks[id := t]) == AttemptsOf(tracks)[id := t.attempts]
    ensures LastsOf(tracks[id := t]) == LastsOf(tracks)[id := t.last]
  {
  }

  /** The two maps are views of the tracks, and every track is sound. */
  ghost predicate Tracked(attempts: map<string, int>, lasts: map<string, int>, tracks: map<string, Track>,
                          clock: int, window: int, limit: nat) {
    attempts == AttemptsOf(tracks) && lasts == LastsOf(tracks) && AllSound(tracks, clock, window, limit)
  }

  lemma TrackedUpdate(attempts: map<string, int>, lasts: map<string, int>, tracks: map<string, Track>,
                      clock: int, window: int, limit: nat, id: string, t: Track)
    requires Tracked(attempts, lasts, tracks, clock, window, limit)
    requires Sound(t, window, limit) && clock <= t.last
    ensures Tracked(attempts[id := t.attempts], lasts[id := t.last], tracks[id := t], t.last, window, limit)
  {
    AllSoundUpdate(tracks, clock, window, limit, id, t);
    ViewsUpdate(tracks, id, t);
  }

  /** The restart side of the health monitor. */
  class RestartLimiter {
    const maxRestarts: int
    const restartWindow: int
    var restartAttempts: map<string, int>
    var lastRestartTime: map<string, int>
    ghost var tracks: map<string, Track>
    ghost var clock: int

    ghost function Limit(): nat {
      Max(1, maxRestarts)
    }

    ghost predicate Valid()
      reads this
    {
      Tracked(restartAttempts, lastRestartTime, tracks, clock, restartWindow, Limit())
    }

    constructor (max: int, window: int, now: int)
      ensures Valid() && tracks == map[] && clock == now
      ensures maxRestarts == max && restartWindow == window
    {
      maxRestarts, restartWindow, clock := max, window, now;
      restartAttempts, lastRestartTime, tracks := map[], map[], map[];
    }

    /** In every reachable state, no closed interval of the window's length holds more recorded
        restarts of a container than the limit. */
    lemma RateLimited(id: string, a: int)
      requires Valid() && id in tracks
      ensures CountIn(tracks[id].history, a, a + restartWindow) <= Limit()
    {
      SpacedBoundsIntervals(tracks[id].history, restartWindow, Limit(), a);
    }

    predicate ShouldRestart(id: string, now: int)
      reads this
    {
      if id !in lastRestartTime then true
      else if now - lastRestartTime[id] > restartWindow then true
      else (if id in restartAttempts then restartAttempts[id] else 0) < maxRestarts
    }

    /** What recording a restart of `id` makes of its track. */
    ghost function Next(id: string, measured: int, stamped: int): Track
      reads this
    {
      if id in tracks then Recorded(tracks[id], measured - tracks[id].last > restartWindow, stamped) else First(stamped)
    }

    lemma NextSound(id: string, checked: int, measured: int, stamped: int)
      requires Valid() && clock <= checked <= measured <= stamped && ShouldRestart(id, checked)
      ensures Sound(Next(id, measured, stamped), restartWindow, Limit())
    {
      if id in tracks {
        RecordedSound(tracks[id], restartWindow, Limit(), measured - tracks[id].last > restartWindow, stamped);
      } else {
        FirstSound(restartWindow, Limit(), stamped);
      }
    }

    /** recordRestart reads the clock twice, after the check that allowed the restart. */
    method RecordRestart(id: string, checked: int, measured: int, stamped: int)
      requires Valid() && clock <= checked <= measured <= stamped && ShouldRestart(id, checked)
      modifies this
      ensures Valid() && clock == stamped
      ensures tracks == old(tracks)[id := old(Next(id, measured, stamped))]
      ensures lastRestartTime == old(lastRestartTime)[id := stamped]
      ensures restartAttempts == old(restartAttempts)
                [id := if id !in old(lastRestartTime) || measured - old(lastRestartTime)[id] > restartWindow then 1
                       else old(restartAttempts)[id] + 1]
    {
      NextSound(id, checked, measured, stamped);
      ghost var next := Next(id, measured, stamped);
      TrackedUpdate(restartAttempts, lastRestartTime, tracks, clock, restartWindow, Limit(), id, next);
      if id !in lastRestartTime || measured - lastRestartTime[id] > restartWindow {
        restartAttempts := restartAttempts[id := 1];
      } else {
        restartAttempts := restartAttempts[id := restartAttempts[id] + 1];
      }
      lastRestartTime := lastRestartTime[id := stamped];
      tracks, clock := tracks[id := next], stamped;
    }

    /** The stored result calls for a restart. */
    predicate Unhealthy(result: ProbeResult, failureThreshold: int) {
      !result.success && result.failures >= (if failureThreshold == 0 then 3 else failureThreshold)
    }

    /** handleLivenessResult: a restart that works is recorded; one that fails, or is refused, is not. */
    method HandleLivenessResult(id: string, result: ProbeResult, failureThreshold: int, restartWorks: bool,
                                checked: int, measured: int, stamped: int)
      returns (attempted: bool, restarted: bool)
      requires Valid() && clock <= checked <= measured <= stamped
      modifies this
      ensures Valid() && clock == if restarted then stamped else old(clock)
      ensures attempted <==> Unhealthy(result, failureThreshold) && old(ShouldRestart(id, checked))
      ensures restarted <==> attempted && restartWorks
      ensures tracks == if restarted then old(tracks)[id := old(Next(id, measured, stamped))] else old(tracks)
      ensures !restarted ==> unchanged(this)
    {
      if result.success {
        return false, false;
      }
      var threshold := failureThreshold;
      if threshold == 0 {
        threshold := 3;
      }
      if result.failures >= threshold {
        if ShouldRestart(id, checked) {
          if restartWorks {
            RecordRestart(id, checked, measured, stamped);
            return true, true;
          }
          return true, false;
        }
      }
      return false, false;
    }

    /** One liveness turn of the monitor loop over the executor's stored result: a restart is always preceded by
        at least the threshold of consecutive failed probes, ignoring clears that fall inside a probe. */
    method CheckLiveness(executor: ProbeExecutor, id: string, failureThreshold: int, restartWorks: bool,
                         checked: int, measured: int, stamped: int)
      returns (restarted: bool)
      requires Valid() && executor.Valid() && clock <= checked <= measured <= stamped
      modifies this
      ensures Valid() && clock == if restarted then stamped else old(clock)
      ensures restarted <==>
                && ProbeKey(id, "liveness") in executor.since
                && Unhealthy(Tally(CountedProbes(executor.leftover, executor.since, ProbeKey(id, "liveness"))), failureThreshold)
                && old(ShouldRestart(id, checked)) && restartWorks
      ensures restarted ==>
                var run := Trailing(CountedProbes(executor.leftover, executor.since, ProbeKey(id, "liveness")), false);
                1 <= run && (if failureThreshold == 0 then 3 else failureThreshold) <= run
      ensures tracks == if restarted then old(tracks)[id := old(Next(id, measured, stamped))] else old(tracks)
    {
      var result := executor.GetProbeResult(id, "liveness");
      if result.None? {
        return false;
      }
      NeverBothPositive(CountedProbes(executor.leftover, executor.since, ProbeKey(id, "liveness")));
      var _, done := HandleLivenessResult(id, result.value, failureThreshold, restartWorks, checked, measured, stamped);
      restarted := done;
    }

    /** A turn of the monitor in a run it has followed. */
    method TakeTurn(t: Turn, ghost turns: seq<Turn>, ghost restarted: seq<bool>) returns (done: bool)
      requires Valid() && clock <= t.checked <= t.measured <= t.stamped && Follows(tracks, turns, restarted)
      modifies this
      ensures Valid() && clock <= t.stamped
      ensures Follows(tracks, turns + [t], restarted + [done])
      ensures done <==> Unhealthy(t.result, t.threshold) && t.works && old(ShouldRestart(t.id, t.checked))
    {
      ghost var next := Next(t.id, t.measured, t.stamped);
      ghost var before := tracks;
      NextHistory(t.id, t.measured, t.stamped);
      var _, made := HandleLivenessResult(t.id, t.result, t.threshold, t.works, t.checked, t.measured, t.stamped);
      done := made;
      FollowsTurn(before, turns, restarted, t, done, next);
    }

    lemma NextHistory(id: string, measured: int, stamped: int)
      ensures Next(id, measured, stamped).history == HistoryOf(tracks, id) + [stamped]
    {
    }

    lemma TimesLimited(turns: seq<Turn>, restarted: seq<bool>, id: string)
      requires Valid() && Follows(tracks, turns, restarted)
      ensures Limited(RestartTimes(turns, restarted, id), restartWindow, Max(1, maxRestarts))
    {
      forall a: int
        ensures InWindow(RestartTimes(turns, restarted, id), a, restartWindow) <= Max(1, maxRestarts)
      {
        if id in tracks {
          RateLimited(id, a);
        }
      }
    }

    /** A restart that is due is allowed. */
    lemma DueIsAllowed(t: Turn)
      requires Valid() && Due(t, HistoryOf(tracks, t.id), maxRestarts, restartWindow)
      ensures ShouldRestart(t.id, t.checked)
    {
      if t.id in tracks {
        DueFor(t, tracks[t.id], maxRestarts, restartWindow, Limit());
      }
    }

    /** Attempts that fail are never recorded, so nothing limits them: at one moment the monitor tries n times,
        for every n, exactly if it tries once. */
    method RetryFailing(id: string, result: ProbeResult, failureThreshold: int, now: int, n: nat) returns (attempts: nat)
      requires Valid() && clock <= now
      modifies this
      ensures Valid() && unchanged(this)
      ensures attempts == if Unhealthy(result, failureThreshold) && ShouldRestart(id, now) then n else 0
    {
      attempts := 0;
      for k := 0 to n
        invariant Valid() && unchanged(this)
        invariant attempts == if Unhealthy(result, failureThreshold) && ShouldRestart(id, now) then k else 0
      {
        var attempted, _ := HandleLivenessResult(id, result, failureThreshold, false, now, now, now);
        if attempted {
          attempts := attempts + 1;
        }
      }
    }

    /** A restart leaves the stored failures in place. The next turn restarts again without a new probe exactly
        if the window has passed or the counter is still below the limit. */
    method RestartAgain(executor: ProbeExecutor, id: string, failureThreshold: int,
                        checked: int, measured: int, stamped: int, later: int)
      returns (first: bool, second: bool)
      requires Valid() && executor.Valid() && clock <= checked <= measured <= stamped <= later
      modifies this
      ensures Valid()
      ensures first <==>
                && ProbeKey(id, "liveness") in executor.since
                && Unhealthy(Tally(CountedProbes(executor.leftover, executor.since, ProbeKey(id, "liveness"))), failureThreshold)
                && old(ShouldRestart(id, checked))
      ensures first ==> (second <==> later - stamped > restartWindow || old(Next(id, measured, stamped)).attempts < maxRestarts)
    {
      first := CheckLiveness(executor, id, failureThreshold, true, checked, measured, stamped);
      second := CheckLiveness(executor, id, failureThreshold, true, later, later, later);
    }
  }

  // ---- Whole runs of the monitor ----

  /** One turn of the monitor on one container: what it sees, whether a restart would work, and its clock readings. */
  datatype Turn = Turn(id: string, result: ProbeResult, threshold: int, works: bool, checked: int, measured: int, stamped: int)

  /** The clock never goes back. */
  ghost predicate Timed(turns: seq<Turn>, start: int) {
    && (forall k :: 0 <= k < |turns| ==> start <= turns[k].checked <= turns[k].measured <= turns[k].stamped)
    && forall j, k :: 0 <= j < k < |turns| ==> turns[j].stamped <= turns[k].checked
  }

  /** The times at which a container was restarted. */
  function RestartTimes(turns: seq<Turn>, restarted: seq<bool>, id: string): seq<int>
    requires |restarted| == |turns|
  {
    if turns == [] then []
    else
      var last := |turns| - 1;
      RestartTimes(turns[..last], restarted[..last], id)
      + if restarted[last] && turns[last].id == id then [turns[last].stamped] else []
  }

  lemma RestartTimesLast(turns: seq<Turn>, restarted: seq<bool>, turn: Turn, done: bool, id: string)
    requires |restarted| == |turns|
    ensures RestartTimes(turns + [turn], restarted + [done], id) ==
            RestartTimes(turns, restarted, id) + if done && turn.id == id then [turn.stamped] else []
  {
    assert (turns + [turn])[..|turns|] == turns && (restarted + [done])[..|turns|] == restarted;
  }

  /** The tracks hold the restart times of all containers. */
  ghost predicate Follows(tracks: map<string, Track>, turns: seq<Turn>, restarted: seq<bool>) {
    && |restarted| == |turns|
    && forall id :: HistoryOf(tracks, id) == RestartTimes(turns, restarted, id)
  }

  function HistoryOf(tracks: map<string, Track>, id: string): seq<int> {
    if id in tracks then tracks[id].history else []
  }

  lemma FollowsTurn(tracks: map<string, Track>, turns: seq<Turn>, restarted: seq<bool>, turn: Turn, done: bool, next: Track)
    requires Follows(tracks, turns, restarted)
    requires next.history == HistoryOf(tracks, turn.id) + [turn.stamped]
    ensures Follows(if done then tracks[turn.id := next] else tracks, turns + [turn], restarted + [done])
  {
    forall id: string
      ensures HistoryOf(if done then tracks[turn.id := next] else tracks, id) == RestartTimes(turns + [turn], restarted + [done], id)
    {
      RestartTimesLast(turns, restarted, turn, done, id);
    }
  }

  lemma DueFor(t: Turn, track: Track, max: int, window: int, limit: nat)
    requires Sound(track, window, limit) && Due(t, track.history, max, window)
    ensures t.checked - track.last > window || track.attempts < max
  {
  }

  /** Every restart that is due is made: the container's first, one after a whole window, or one of the first
      maxRestarts. */
  ghost predicate RestartsDue(turns: seq<Turn>, restarted: seq<bool>, max: int, window: int)
    requires |restarted| == |turns|
  {
    forall k :: 0 <= k < |turns| ==> DueIsMade(turns, restarted, max, window, k)
  }

  ghost predicate DueIsMade(turns: seq<Turn>, restarted: seq<bool>, max: int, window: int, k: nat)
    requires |restarted| == |turns| && k < |turns|
  {
    Due(turns[k], RestartTimes(turns[..k], restarted[..k], turns[k].id), max, window) ==> restarted[k]
  }

  /** The container is unhealthy, a restart works, and the earlier restarts leave room for it. */
  predicate Due(t: Turn, times: seq<int>, max: int, window: int) {
    && !t.result.success && t.result.failures >= (if t.threshold == 0 then 3 else t.threshold) && t.works
    && (times == [] || t.checked - times[|times| - 1] > window || |times| < max)
  }

  lemma DueExtends(turns: seq<Turn>, restarted: seq<bool>, max: int, window: int, turn: Turn, done: bool)
    requires |restarted| == |turns| && RestartsDue(turns, restarted, max, window)
    requires Due(turn, RestartTimes(turns, restarted, turn.id), max, window) ==> done
    ensures RestartsDue(turns + [turn], restarted + [done], max, window)
  {
    var more, flags := turns + [turn], restarted + [done];
    forall k | 0 <= k < |more|
      ensures DueIsMade(more, flags, max, window, k)
    {
      assert more[..k] == turns[..k] && flags[..k] == restarted[..k];
      if k < |turns| {
        assert DueIsMade(turns, restarted, max, window, k);
      } else {
        assert turns[..k] == turns && restarted[..k] == restarted;
      }
    }
  }

  /** How many of the times lie in the closed interval of the window's length from a on. */
  function InWindow(times: seq<int>, a: int, window: int): nat {
    CountIn(times, a, a + window)
  }

  ghost predicate Limited(times: seq<int>, window: int, limit: int) {
    forall a :: InWindow(times, a, window) <= limit
  }

  /** Any run of the monitor over any containers: no closed interval of the window's length holds more restarts of a
      container than the limit, and every restart that is due is made. */
  method Monitor(max: int, window: int, start: int, turns: seq<Turn>) returns (restarted: seq<bool>)
    requires Timed(turns, start)
    ensures |restarted| == |turns|
    ensures forall id :: Limited(RestartTimes(turns, restarted, id), window, Max(1, max))
    ensures RestartsDue(turns, restarted, max, window)
  {
    restarted := [];
    var limiter := new RestartLimiter(max, window, start);
    for k := 0 to |turns|
      invariant limiter.Valid() && limiter.maxRestarts == max && limiter.restartWindow == window
      invariant fresh(limiter) && |restarted| == k && (k < |turns| ==> limiter.clock <= turns[k].checked)
      invariant Follows(limiter.tracks, turns[..k], restarted) && RestartsDue(turns[..k], restarted, max, window)
    {
      var t := turns[k];
      assert turns[..k + 1] == turns[..k] + [t];
      ghost var due := Due(t, RestartTimes(turns[..k], restarted, t.id), max, window);
      if due {
        limiter.DueIsAllowed(t);
      }
      var done := limiter.TakeTurn(t, turns[..k], restarted);
      DueExtends(turns[..k], restarted, max, window, t, done);
      restarted := restarted + [done];
    }
    assert turns[..|turns|] == turns;
    forall id: string
      ensures Limited(RestartTimes(turns, restarted, id), window, Max(1, max))
    {
      limiter.TimesLimited(turns, restarted, id);
    }
  }

  /** With a limit of two, one failing probe run restarts the container twice. */
  method OneRunTwoRestarts(id: string) returns (first: bool, second: bool)
    ensures first && second
  {
    var limiter := new RestartLimiter(2, 300, 0);
    var executor := new ProbeExecutor();
    var _ := executor.ExecuteProbe(id, "liveness", false);
    assert executor.since[ProbeKey(id, "liveness")] == [false] && executor.leftover[ProbeKey(id, "liveness")] == [];
    assert CountedProbes(executor.leftover, executor.since, ProbeKey(id, "liveness")) == [false];
    assert Trailing([false], false) == 1;
    first, second := limiter.RestartAgain(executor, id, 1, 1, 1, 1, 2);
  }

  /** A container whose results were cleared during a probe is restarted although one probe has failed since. */
  method RestartAfterClear(id: string) returns (restarted: bool, ghost since: seq<bool>)
    ensures restarted && since == [false]
  {
    var _, executor := ClearedInFlight(id, "liveness");
    var limiter := new RestartLimiter(5, 300, 0);
    since := executor.since[ProbeKey(id, "liveness")];
    assert CountedProbes(executor.leftover, executor.since, ProbeKey(id, "liveness")) == [false, false] + [false];
    ThreeFailures();
    restarted := limiter.CheckLiveness(executor, id, 0, true, 1, 1, 1);
  }

  ghost predicate TracksReadiness(readings: seq<bool>, previous: bool, reported: seq<bool>) {
    && readings != []
    && previous == readings[|readings| - 1]
    && reported == Changes(readings)
  }

  ghost predicate AllTracked(readings: map<string, seq<bool>>, previous: map<string, bool>, reported: map<string, seq<bool>>) {
    && readings.Keys == reported.Keys == previous.Keys
    && forall id :: id in readings ==> TracksReadiness(readings[id], previous[id], reported[id])
  }

  lemma NextReading(readings: map<string, seq<bool>>, previous: map<string, bool>, reported: map<string, seq<bool>>,
                    id: string, healthy: bool, more: seq<bool>)
    requires AllTracked(readings, previous, reported)
    requires more == OrEmpty(reported, id) + if id !in previous || previous[id] != healthy then [healthy] else []
    ensures AllTracked(readings[id := OrEmpty(readings, id) + [healthy]], previous[id := healthy], reported[id := more])
  {
    ChangesExtend(OrEmpty(readings, id), healthy);
    NextTracked(OrEmpty(readings, id), healthy, more);
  }

  lemma NextTracked(readings: seq<bool>, healthy: bool, more: seq<bool>)
    requires more == Changes(readings + [healthy])
    ensures TracksReadiness(readings + [healthy], healthy, more)
  {
  }

  /** The readiness side of the health monitor. */
  class ReadinessReporter {
    var previousReadiness: map<string, bool>
    ghost var readings: map<string, seq<bool>>
    ghost var reported: map<string, seq<bool>>

    ghost predicate Valid()
      reads this
    {
      AllTracked(readings, previousReadiness, reported)
    }

    constructor ()
      ensures Valid() && readings == map[]
    {
      previousReadiness, readings, reported := map[], map[], map[];
    }

    /** handleReadinessResult: the callback fires for the first reading and for every change. */
    method HandleReadinessResult(id: string, healthy: bool) returns (report: bool)
      requires Valid()
      modifies this
      ensures Valid()
      ensures readings == old(readings)[id := OrEmpty(old(readings), id) + [healthy]]
      ensures reported == old(reported)[id := OrEmpty(old(reported), id) + if report then [healthy] else []]
    {
      report := id !in previousReadiness || previousReadiness[id] != healthy;
      ghost var more := OrEmpty(reported, id) + if report then [healthy] else [];
      NextReading(readings, previousReadiness, reported, id, healthy, more);
      previousReadiness := previousReadiness[id := healthy];
      readings := readings[id := OrEmpty(readings, id) + [healthy]];
      reported := reported[id := more];
    }

    /** UnregisterContainer forgets the container: its next reading is a first one again. */
    method UnregisterContainer(id: string)
      requires Valid()
      modifies this
      ensures Valid()
      ensures readings == old(readings) - {id} && reported == old(reported) - {id}
    {
      previousReadiness := previousReadiness - {id};
      readings, reported := readings - {id}, reported - {id};
    }
  }
}
