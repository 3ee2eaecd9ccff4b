/** Rollout planning, and what every prefix of executing a plan keeps. */
module Rollout {
  import opened Common

  datatype Action = Start(count: int) | Stop(count: int) | Wait

  datatype Phase = ScalingUp | Updating | ScalingDown | Paused

  datatype PhaseAction = PhaseAction(phase: Phase, action: Action)

  datatype Strategy = Strategy(kind: string, maxSurge: int, maxUnavailable: int, minAvailable: int, pause: int)

  datatype Plan = Plan(kind: string, minAvailable: int, phases: seq<PhaseAction>)

  // ---- Executing a plan ----

  /** Replicas that serve, and replicas started but not yet waited for. */
  datatype Fleet = Fleet(ready: int, pending: int)

  function Step(f: Fleet, a: Action): Fleet {
    match a
    case Start(n) => f.(pending := f.pending + n)
    case Stop(n) => f.(ready := f.ready - n)
    case Wait => Fleet(f.ready + f.pending, 0)
  }

  function Exec(f: Fleet, phases: seq<PhaseAction>): Fleet {
    if phases == [] then f
    else Step(Exec(f, phases[..|phases| - 1]), phases[|phases| - 1].action)
  }

  /** At every prefix of the plan at least m replicas are ready. */
  ghost predicate KeepsAvailable(current: int, phases: seq<PhaseAction>, m: int) {
    forall k :: 0 <= k <= |phases| ==> m <= Exec(Fleet(current, 0), phases[..k]).ready
  }

  /** At every prefix of the plan at most m replicas exist. */
  ghost predicate NeverExceeds(current: int, phases: seq<PhaseAction>, m: int) {
    forall k :: 0 <= k <= |phases| ==>
      var f := Exec(Fleet(current, 0), phases[..k]);
      f.ready + f.pending <= m
  }

  lemma {:induction false} ExecSplit(f: Fleet, a: seq<PhaseAction>, b: seq<PhaseAction>)
    ensures Exec(f, a + b) == Exec(Exec(f, a), b)
  {
    if b == [] {
      assert a + b == a;
    } else {
      assert (a + b)[..|a + b| - 1] == a + b[..|b| - 1];
      ExecSplit(f, a, b[..|b| - 1]);
    }
  }

  predicate Between(f: Fleet, lo: int, hi: int) {
    lo <= f.ready && f.ready + f.pending <= hi
  }

  /** From fleet f every prefix keeps ready at or above lo, and total at or below hi. */
  ghost predicate Within(f: Fleet, phases: seq<PhaseAction>, lo: int, hi: int) {
    Between(Exec(f, phases), lo, hi) && (phases != [] ==> Within(f, phases[..|phases| - 1], lo, hi))
  }

  lemma {:induction false} WithinIff(f: Fleet, phases: seq<PhaseAction>, lo: int, hi: int)
    ensures Within(f, phases, lo, hi) <==> forall k :: 0 <= k <= |phases| ==> Between(Exec(f, phases[..k]), lo, hi)
  {
    assert phases[..|phases|] == phases;
    if phases != [] {
      var front := phases[..|phases| - 1];
      WithinIff(f, front, lo, hi);
      forall k | 0 <= k <= |front|
        ensures phases[..k] == front[..k]
      {
      }
    }
  }

  lemma {:induction false} WithinSplit(f: Fleet, a: seq<PhaseAction>, b: seq<PhaseAction>, lo: int, hi: int)
    ensures Within(f, a + b, lo, hi) <==> Within(f, a, lo, hi) && Within(Exec(f, a), b, lo, hi)
    decreases |b|
  {
    ExecSplit(f, a, b);
    if b == [] {
      assert a + b == a;
    } else {
      assert (a + b)[..|a + b| - 1] == a + b[..|b| - 1];
      WithinSplit(f, a, b[..|b| - 1], lo, hi);
    }
  }

  lemma ThreeParts(f: Fleet, a: seq<PhaseAction>, b: seq<PhaseAction>, c: seq<PhaseAction>, lo: int, hi: int)
    ensures Exec(f, a + b + c) == Exec(Exec(Exec(f, a), b), c)
    ensures Within(f, a + b + c, lo, hi) <==>
            Within(f, a, lo, hi) && Within(Exec(f, a), b, lo, hi) && Within(Exec(Exec(f, a), b), c, lo, hi)
  {
    WithinSplit(f, a + b, c, lo, hi);
    WithinSplit(f, a, b, lo, hi);
    ExecSplit(f, a + b, c);
    ExecSplit(f, a, b);
  }

  // ---- The planner's numbers ----

  /** The minimum the plan is made for, clamped to 0 .. desired. */
  function EffectiveMinAvailable(desired: int, s: Strategy): (m: int)
    ensures 0 <= m && (0 <= desired ==> m <= desired) && (desired < 0 ==> m == 0)
  {
    var wanted :=
      if s.minAvailable != 0 then s.minAvailable
      else if s.maxUnavailable > 0 then desired - s.maxUnavailable
      else Max(1, desired - 1);
    Max(0, Min(wanted, desired))
  }

  /** Replicas started ahead of the update; 0 unless scaling up. */
  function SurgeStep(current: int, desired: int, s: Strategy): int {
    if desired > current then Min(desired - current, if s.maxSurge == 0 then 1 else s.maxSurge) else 0
  }

  function BatchSize(current: int, m: int, s: Strategy): (b: int)
    ensures 1 <= b
    ensures b <= current - m || b == 1
  {
    Max(1, Min(if s.maxUnavailable == 0 then 1 else s.maxUnavailable, current - m))
  }

  // ---- A reference for the plan: take what is left, batch by batch ----

  function Batch(n: int): seq<PhaseAction> {
    [PhaseAction(Updating, Stop(n)), PhaseAction(Updating, Start(n)), PhaseAction(Updating, Wait)]
  }

  function Batches(remaining: int, b: int): seq<PhaseAction>
    requires 1 <= b
    decreases remaining
  {
    if remaining <= 0 then []
    else Batch(Min(b, remaining)) + Batches(remaining - Min(b, remaining), b)
  }

  function ScaleUp(n: int): seq<PhaseAction> {
    [PhaseAction(ScalingUp, Start(n)), PhaseAction(ScalingUp, Wait)]
  }

  function RollingPhases(current: int, desired: int, m: int, s: Strategy): seq<PhaseAction> {
    (if desired > current then ScaleUp(SurgeStep(current, desired, s)) else [])
    + Batches(current, BatchSize(current, m, s))
    + (if desired < current then [PhaseAction(ScalingDown, Stop(current - desired))] else [])
  }

  // ---- The planner ----

  /** i full batches of b. */
  function Times(i: nat, b: int): int {
    if i == 0 then 0 else Times(i - 1, b) + b
  }

  lemma {:induction false} TimesIsProduct(i: nat, b: int)
    ensures Times(i, b) == i * b
  {
    if i > 0 {
      TimesIsProduct(i - 1, b);
      assert (i - 1) * b + b == i * b;
    }
  }

  lemma {:induction false} TimesMonotone(i: nat, j: nat, b: int)
    requires i <= j && 0 <= b
    ensures Times(i, b) <= Times(j, b)
  {
    if i < j {
      TimesMonotone(i, j - 1, b);
    }
  }

  /** ceil(n / b) batches of b cover n, and the last one is needed. */
  method BatchCount(n: int, b: int) returns (batches: nat)
    requires 1 <= n && 1 <= b
    ensures 1 <= batches && Times(batches - 1, b) < n <= Times(batches, b)
  {
    batches := (n + b - 1) / b;
    assert (batches - 1) * b < n <= batches * b;
    TimesIsProduct(batches, b);
    TimesIsProduct(batches - 1, b);
  }

  /** The size of batch i: a full one, or what is left. */
  method StopCount(n: int, b: int, i: nat) returns (count: int)
    ensures count == Min(b, n - Times(i, b))
  {
    TimesIsProduct(i, b);
    count := Min(b, n - i * b);
  }

  lemma {:induction false} BatchesSplit(n: int, b: int)
    requires 1 <= b && 1 <= n
    ensures Batches(n, b) == Batch(Min(b, n)) + Batches(n - Min(b, n), b)
  {
  }

  /** Taking a full batch off what is left, or the rest if that is less. */
  lemma BatchTurn(left: int, b: int)
    requires 1 <= left && 1 <= b
    ensures Batches(left, b) == Batch(Min(b, left)) + Batches(left - b, b)
  {
    BatchesSplit(left, b);
  }

  /** The phases planned so far, with the batches for what is left, make up the whole. */
  ghost predicate Progress(phases: seq<PhaseAction>, left: int, n: int, b: int)
    requires 1 <= b
  {
    phases + Batches(left, b) == Batches(n, b)
  }

  lemma AppendBatch(phases: seq<PhaseAction>, left: int, n: int, b: int)
    requires 1 <= left && 1 <= b && Progress(phases, left, n, b)
    ensures Progress(phases + Batch(Min(b, left)), left - b, n, b)
  {
    BatchTurn(left, b);
    var batch, rest := Batch(Min(b, left)), Batches(left - b, b);
    assert phases + (batch + rest) == (phases + batch) + rest;
  }

  lemma BatchPieces(phases: seq<PhaseAction>, n: int)
    ensures phases + [PhaseAction(Updating, Stop(n))] + [PhaseAction(Updating, Start(n))] + [PhaseAction(Updating, Wait)]
            == phases + Batch(n)
  {
  }

  /** The update loop: ceil(n / b) batches, the last one smaller if need be. */
  method PlanBatches(n: int, b: int) returns (phases: seq<PhaseAction>)
    requires 1 <= n && 1 <= b
    ensures phases == Batches(n, b)
  {
    phases := [];
    var batches := BatchCount(n, b);
    ghost var left := n;
    NothingPlanned(n, b);
    for i := 0 to batches
      invariant left == n - Times(i, b)
      invariant Progress(phases, left, n, b)
    {
      TimesMonotone(i, batches - 1, b);
      var stopCount := StopCount(n, b, i);
      AppendBatch(phases, left, n, b);
      BatchPieces(phases, stopCount);
      phases := phases + [PhaseAction(Updating, Stop(stopCount))];
      phases := phases + [PhaseAction(Updating, Start(stopCount))];
      phases := phases + [PhaseAction(Updating, Wait)];
      left := left - b;
    }
    AllPlanned(phases, left, n, b);
  }

  lemma NothingPlanned(n: int, b: int)
    requires 1 <= b
    ensures Progress([], n, n, b)
  {
  }

  lemma AllPlanned(phases: seq<PhaseAction>, left: int, n: int, b: int)
    requires left <= 0 && 1 <= b && Progress(phases, left, n, b)
    ensures phases == Batches(n, b)
  {
  }

  method PlanRollingUpdate(current: int, desired: int, m: int, s: Strategy) returns (plan: Plan)
    ensures plan == Plan("RollingUpdate", m, RollingPhases(current, desired, m, s))
  {
    var phases: seq<PhaseAction> := [];
    if desired > current {
      var maxSurge := s.maxSurge;
      if maxSurge == 0 {
        maxSurge := 1;
      }
      var newReplicas := Min(desired - current, maxSurge);
      phases := phases + [PhaseAction(ScalingUp, Start(newReplicas))];
      phases := phases + [PhaseAction(ScalingUp, Wait)];
    }
    if current > 0 {
      var maxUnavailable := s.maxUnavailable;
      if maxUnavailable == 0 {
        maxUnavailable := 1;
      }
      var batchSize := Min(maxUnavailable, current - m);
      if batchSize < 1 {
        batchSize := 1;
      }
      var updates := PlanBatches(current, batchSize);
      phases := phases + updates;
    }
    if desired < current {
      phases := phases + [PhaseAction(ScalingDown, Stop(current - desired))];
    }
    plan := Plan("RollingUpdate", m, phases);
  }

  function RecreatePhases(current: int, desired: int): seq<PhaseAction> {
    (if current > 0 then [PhaseAction(ScalingDown, Stop(current)), PhaseAction(ScalingDown, Wait)] else [])
    + ScaleUp(desired)
  }

  function BlueGreenPhases(current: int, desired: int, s: Strategy): seq<PhaseAction> {
    ScaleUp(desired)
    + (if s.pause > 0 then [PhaseAction(Paused, Wait)] else [])
    + (if current > 0 then [PhaseAction(ScalingDown, Stop(current))] else [])
  }

  /** Where both plans end: a fleet that was not there cannot be stopped. */
  function EndSize(current: int, desired: int): int {
    if current > 0 then desired else current + desired
  }

  method PlanRecreate(current: int, desired: int, m: int) returns (plan: Plan)
    ensures plan == Plan("Recreate", m, RecreatePhases(current, desired))
    ensures var end := EndSize(current, desired);
            && (KeepsAvailable(current, plan.phases, m) <==> m <= current && m <= end && (1 <= current ==> m <= 0))
            && NeverExceeds(current, plan.phases, Max(current, end))
            && Exec(Fleet(current, 0), plan.phases) == Fleet(end, 0)
  {
    var phases := [];
    if current > 0 {
      phases := phases + [PhaseAction(ScalingDown, Stop(current))];
      phases := phases + [PhaseAction(ScalingDown, Wait)];
    }
    phases := phases + [PhaseAction(ScalingUp, Start(desired))];
    phases := phases + [PhaseAction(ScalingUp, Wait)];
    plan := Plan("Recreate", m, phases);
    RecreateKeepsIff(current, desired, m);
  }

  method PlanBlueGreen(current: int, desired: int, m: int, s: Strategy) returns (plan: Plan)
    ensures plan == Plan("BlueGreen", m, BlueGreenPhases(current, desired, s))
    ensures var end := EndSize(current, desired);
            && (KeepsAvailable(current, plan.phases, m) <==> m <= current && m <= current + desired && m <= end)
            && NeverExceeds(current, plan.phases, Max(current, current + desired))
            && Exec(Fleet(current, 0), plan.phases) == Fleet(end, 0)
    ensures PausesAtBoth(current, desired, plan.phases, s.pause > 0)
  {
    var phases := [PhaseAction(ScalingUp, Start(desired))];
    phases := phases + [PhaseAction(ScalingUp, Wait)];
    if s.pause > 0 {
      phases := phases + [PhaseAction(Paused, Wait)];
    }
    if current > 0 {
      phases := phases + [PhaseAction(ScalingDown, Stop(current))];
    }
    plan := Plan("BlueGreen", m, phases);
    BlueGreenKeepsIff(current, desired, m, s);
    BlueGreenPauses(current, desired, s);
  }

  /** PlanRollout; None is the unsupported-strategy error. */
  method PlanRollout(current: int, desired: int, s: Strategy) returns (plan: Option<Plan>)
    ensures plan.None? <==> s.kind !in {"RollingUpdate", "Recreate", "BlueGreen"}
    ensures plan.Some? ==>
              var m := EffectiveMinAvailable(desired, s);
              plan.value == Plan(s.kind, m,
                                 if s.kind == "RollingUpdate" then RollingPhases(current, desired, m, s)
                                 else if s.kind == "Recreate" then RecreatePhases(current, desired)
                                 else BlueGreenPhases(current, desired, s))
    ensures plan.Some? && 0 <= desired ==>
              var m := plan.value.minAvailable;
              && (s.minAvailable > 0 ==> m == Min(s.minAvailable, desired))
              && (s.minAvailable < 0 ==> m == 0)
              && (s.minAvailable == 0 && s.maxUnavailable > 0 ==> m == Max(0, desired - s.maxUnavailable))
              && (s.minAvailable == 0 && s.maxUnavailable <= 0 ==> m == if desired <= 1 then desired else desired - 1)
    ensures plan.Some? && s.kind == "RollingUpdate" && 1 <= current && 0 <= s.maxSurge && plan.value.minAvailable <= current && 0 <= desired ==>
              (KeepsAvailable(current, plan.value.phases, plan.value.minAvailable)
               <==> !(plan.value.minAvailable == current == desired))
    ensures plan.Some? && s.kind == "Recreate" && 1 <= current && 0 <= desired ==>
              (KeepsAvailable(current, plan.value.phases, plan.value.minAvailable) <==> plan.value.minAvailable == 0)
    ensures plan.Some? && s.kind == "BlueGreen" && 1 <= current && 0 <= desired ==>
              (KeepsAvailable(current, plan.value.phases, plan.value.minAvailable) <==> plan.value.minAvailable <= current)
  {
    var m := s.minAvailable;
    if m == 0 {
      if s.maxUnavailable > 0 {
        m := desired - s.maxUnavailable;
      } else {
        m := Max(1, desired - 1);
      }
    }
    m := Max(0, Min(m, desired));
    assert m == EffectiveMinAvailable(desired, s);
    var made;
    if s.kind == "RollingUpdate" {
      made := PlanRollingUpdate(current, desired, m, s);
      RollingKeepsIff(current, desired, m, s);
    } else if s.kind == "Recreate" {
      made := PlanRecreate(current, desired, m);
    } else if s.kind == "BlueGreen" {
      made := PlanBlueGreen(current, desired, m, s);
    } else {
      return None;
    }
    return Some(made);
  }

  // ---- Rolling update: what every prefix keeps ----

  lemma ExecOne(f: Fleet, a: PhaseAction)
    ensures Exec(f, [a]) == Step(f, a.action)
  {
    assert [a][..0] == [];
  }

  lemma WithinEmpty(f: Fleet, lo: int, hi: int)
    ensures Within(f, [], lo, hi) <==> Between(f, lo, hi)
  {
  }

  /** One action keeps the bounds if they hold before and after it. */
  lemma WithinOne(f: Fleet, a: PhaseAction, lo: int, hi: int)
    ensures Within(f, [a], lo, hi) <==> Between(f, lo, hi) && Between(Step(f, a.action), lo, hi)
  {
    ExecOne(f, a);
    assert [a][..0] == [];
  }

  lemma TwoActions(f: Fleet, a: PhaseAction, b: PhaseAction, lo: int, hi: int)
    ensures Exec(f, [a, b]) == Step(Step(f, a.action), b.action)
    ensures Within(f, [a, b], lo, hi) <==>
            Between(f, lo, hi) && Between(Step(f, a.action), lo, hi) && Between(Step(Step(f, a.action), b.action), lo, hi)
  {
    assert [a, b][..1] == [a];
    ExecOne(f, a);
    WithinOne(f, a, lo, hi);
  }

  /** A batch dips by its size and comes back. */
  lemma BatchEffect(ready: int, n: int, lo: int, hi: int)
    ensures Exec(Fleet(ready, 0), Batch(n)) == Fleet(ready, 0)
    ensures 0 <= n ==> (Within(Fleet(ready, 0), Batch(n), lo, hi) <==> lo <= ready - n && ready <= hi)
  {
    var f := Fleet(ready, 0);
    var stop, start, wait := PhaseAction(Updating, Stop(n)), PhaseAction(Updating, Start(n)), PhaseAction(Updating, Wait);
    assert Batch(n) == [stop] + ([start] + [wait]);
    ExecSplit(f, [stop], [start] + [wait]);
    ExecOne(f, stop);
    var g := Fleet(ready - n, 0);
    ExecSplit(g, [start], [wait]);
    ExecOne(g, start);
    var h := Fleet(ready - n, n);
    ExecOne(h, wait);
    WithinSplit(f, [stop], [start] + [wait], lo, hi);
    WithinSplit(g, [start], [wait], lo, hi);
    WithinOne(f, stop, lo, hi);
    WithinOne(g, start, lo, hi);
    WithinOne(h, wait, lo, hi);
  }

  /** All batches together stop and restart every old replica, dipping by the largest batch. */
  lemma {:induction false} BatchesEffect(ready: int, n: int, b: int, lo: int, hi: int)
    requires 1 <= b
    ensures Exec(Fleet(ready, 0), Batches(n, b)) == Fleet(ready, 0)
    ensures 1 <= n ==> (Within(Fleet(ready, 0), Batches(n, b), lo, hi) <==> lo <= ready - Min(b, n) && ready <= hi)
    ensures n <= 0 ==> (Within(Fleet(ready, 0), Batches(n, b), lo, hi) <==> lo <= ready && ready <= hi)
    decreases n
  {
    if n <= 0 {
      WithinEmpty(Fleet(ready, 0), lo, hi);
    } else {
      var k := Min(b, n);
      BatchEffect(ready, k, lo, hi);
      BatchesEffect(ready, n - k, b, lo, hi);
      BatchesSplit(n, b);
      ExecSplit(Fleet(ready, 0), Batch(k), Batches(n - k, b));
      WithinSplit(Fleet(ready, 0), Batch(k), Batches(n - k, b), lo, hi);
    }
  }

  lemma ScaleUpEffect(ready: int, n: int, lo: int, hi: int)
    ensures Exec(Fleet(ready, 0), ScaleUp(n)) == Fleet(ready + n, 0)
    ensures Within(Fleet(ready, 0), ScaleUp(n), lo, hi) <==>
            lo <= ready && lo <= ready + n && ready <= hi && ready + n <= hi
  {
    TwoActions(Fleet(ready, 0), PhaseAction(ScalingUp, Start(n)), PhaseAction(ScalingUp, Wait), lo, hi);
  }

  /** The whole rolling plan: where it ends, and exactly which bounds all its prefixes respect. */
  lemma RollingEffect(current: int, desired: int, m: int, s: Strategy, lo: int, hi: int)
    ensures var up := SurgeStep(current, desired, s);
            var b := BatchSize(current, m, s);
            var dip := if 1 <= current then Min(b, current) else 0;
            var end := if desired < current then desired else current + up;
            && Exec(Fleet(current, 0), RollingPhases(current, desired, m, s)) == Fleet(end, 0)
            && (Within(Fleet(current, 0), RollingPhases(current, desired, m, s), lo, hi) <==>
                lo <= current && lo <= current + up - dip && lo <= current + up && lo <= end && current <= hi && current + up <= hi)
  {
    var up, b := SurgeStep(current, desired, s), BatchSize(current, m, s);
    var first := if desired > current then ScaleUp(up) else [];
    var last := if desired < current then [PhaseAction(ScalingDown, Stop(current - desired))] else [];
    ScaleUpIfNeeded(current, up, desired > current, lo, hi);
    BatchesEffect(current + up, current, b, lo, hi);
    ScaleDownIfNeeded(current + up, current - desired, desired < current, lo, hi);
    Compose(Fleet(current, 0), first, Batches(current, b), last, Fleet(current + up, 0), lo, hi);
  }

  /** Three parts in a row, the middle one returning to where it began. */
  lemma Compose(f: Fleet, a: seq<PhaseAction>, b: seq<PhaseAction>, c: seq<PhaseAction>, g: Fleet, lo: int, hi: int)
    requires Exec(f, a) == g == Exec(g, b)
    ensures Exec(f, a + b + c) == Exec(g, c)
    ensures Within(f, a + b + c, lo, hi) <==> Within(f, a, lo, hi) && Within(g, b, lo, hi) && Within(g, c, lo, hi)
  {
    ThreeParts(f, a, b, c, lo, hi);
  }

  lemma ScaleUpIfNeeded(ready: int, n: int, needed: bool, lo: int, hi: int)
    requires !needed ==> n == 0
    ensures var part := if needed then ScaleUp(n) else [];
            && Exec(Fleet(ready, 0), part) == Fleet(ready + n, 0)
            && (Within(Fleet(ready, 0), part, lo, hi) <==> lo <= ready && lo <= ready + n && ready <= hi && ready + n <= hi)
  {
    ScaleUpEffect(ready, n, lo, hi);
    WithinEmpty(Fleet(ready, 0), lo, hi);
  }

  lemma ScaleDownIfNeeded(ready: int, n: int, needed: bool, lo: int, hi: int)
    ensures var part := if needed then [PhaseAction(ScalingDown, Stop(n))] else [];
            var end := if needed then ready - n else ready;
            && Exec(Fleet(ready, 0), part) == Fleet(end, 0)
            && (Within(Fleet(ready, 0), part, lo, hi) <==> lo <= ready && lo <= end && ready <= hi && end <= hi)
  {
    ExecOne(Fleet(ready, 0), PhaseAction(ScalingDown, Stop(n)));
    WithinOne(Fleet(ready, 0), PhaseAction(ScalingDown, Stop(n)), lo, hi);
    WithinEmpty(Fleet(ready, 0), lo, hi);
  }

  /** With an upper bound that is no constraint, and as large as wanted, the two notions agree. */
  lemma KeepsIsWithin(current: int, phases: seq<PhaseAction>, m: int, atLeast: int) returns (hi: int)
    ensures atLeast <= hi
    ensures KeepsAvailable(current, phases, m) <==> Within(Fleet(current, 0), phases, m, hi)
  {
    var high := HighWater(Fleet(current, 0), phases, |phases|);
    hi := Max(high, atLeast);
    WithinIff(Fleet(current, 0), phases, m, hi);
  }

  lemma WithinNeverExceeds(current: int, phases: seq<PhaseAction>, lo: int, hi: int)
    requires Within(Fleet(current, 0), phases, lo, hi)
    ensures NeverExceeds(current, phases, hi)
  {
    WithinIff(Fleet(current, 0), phases, lo, hi);
  }

  /** An upper bound of the totals over all prefixes. */
  lemma {:induction false} HighWater(f: Fleet, phases: seq<PhaseAction>, n: nat) returns (hi: int)
    requires n <= |phases|
    ensures forall k :: 0 <= k <= n ==> var g := Exec(f, phases[..k]); g.ready + g.pending <= hi
  {
    var g := Exec(f, phases[..n]);
    if n == 0 {
      hi := g.ready + g.pending;
    } else {
      var below := HighWater(f, phases, n - 1);
      hi := Max(below, g.ready + g.pending);
    }
  }

  /** For every combination of integers, minAvailable holds throughout exactly under this condition. */
  predicate AvailabilityCondition(current: int, desired: int, m: int, s: Strategy) {
    && m <= current
    && (desired < current ==> 0 <= desired)
    && (desired == current ==> current < 1 || m < current)
    && (desired > current && s.maxSurge < 0 ==>
          1 <= current && Max(1, if s.maxUnavailable == 0 then 1 else s.maxUnavailable) <= current + s.maxSurge - m)
  }

  lemma RollingKeepsIff(current: int, desired: int, m: int, s: Strategy)
    requires m == EffectiveMinAvailable(desired, s)
    ensures KeepsAvailable(current, RollingPhases(current, desired, m, s), m)
            <==> AvailabilityCondition(current, desired, m, s)
  {
    var phases := RollingPhases(current, desired, m, s);
    var hi := KeepsIsWithin(current, phases, m, Max(current, current + SurgeStep(current, desired, s)));
    RollingEffect(current, desired, m, s, m, hi);
  }

  /** The clamp of the batch size to one breaks the minimum when nothing may be missing. */
  lemma ClampBreaksMinimum(n: int, s: Strategy)
    requires 1 <= n && s.minAvailable == n
    ensures !KeepsAvailable(n, RollingPhases(n, n, EffectiveMinAvailable(n, s), s), EffectiveMinAvailable(n, s))
  {
    RollingKeepsIff(n, n, EffectiveMinAvailable(n, s), s);
  }

  /** The fleet never exceeds the current size plus the surge step, and ends at the target exactly
      when the target is within one surge step. */
  lemma RollingTotals(current: int, desired: int, s: Strategy)
    requires 0 <= s.maxSurge
    ensures var m := EffectiveMinAvailable(desired, s);
            var phases := RollingPhases(current, desired, m, s);
            && NeverExceeds(current, phases, current + SurgeStep(current, desired, s))
            && (Exec(Fleet(current, 0), phases) == Fleet(desired, 0)
                <==> desired - current <= Max(1, s.maxSurge))
            && (desired > current ==>
                  Exec(Fleet(current, 0), phases) == Fleet(current + Min(desired - current, Max(1, s.maxSurge)), 0))
  {
    var m := EffectiveMinAvailable(desired, s);
    var up := SurgeStep(current, desired, s);
    var dip := if 1 <= current then Min(BatchSize(current, m, s), current) else 0;
    var lo := Min(Min(current - dip, desired), current);
    RollingEffect(current, desired, m, s, lo, current + up);
    WithinNeverExceeds(current, RollingPhases(current, desired, m, s), lo, current + up);
  }

  // ---- Rolling update: conservation of old replicas ----

  ghost function Stopped(phases: seq<PhaseAction>): int {
    if phases == [] then 0
    else (if phases[0].phase == Updating && phases[0].action.Stop? then phases[0].action.count else 0) + Stopped(phases[1..])
  }

  ghost function Started(phases: seq<PhaseAction>): int {
    if phases == [] then 0
    else (if phases[0].phase == Updating && phases[0].action.Start? then phases[0].action.count else 0) + Started(phases[1..])
  }

  lemma {:induction false} UpdateCountsSplit(a: seq<PhaseAction>, b: seq<PhaseAction>)
    ensures Stopped(a + b) == Stopped(a) + Stopped(b) && Started(a + b) == Started(a) + Started(b)
  {
    if a == [] {
      assert a + b == b;
    } else {
      assert (a + b)[1..] == a[1..] + b;
      UpdateCountsSplit(a[1..], b);
    }
  }

  lemma CountOne(a: PhaseAction)
    ensures Stopped([a]) == if a.phase == Updating && a.action.Stop? then a.action.count else 0
    ensures Started([a]) == if a.phase == Updating && a.action.Start? then a.action.count else 0
  {
    assert [a][1..] == [];
  }

  lemma BatchCounts(n: int)
    ensures Stopped(Batch(n)) == n == Started(Batch(n))
  {
    var stop, start, wait := PhaseAction(Updating, Stop(n)), PhaseAction(Updating, Start(n)), PhaseAction(Updating, Wait);
    assert Batch(n) == [stop] + ([start] + [wait]);
    UpdateCountsSplit([stop], [start] + [wait]);
    UpdateCountsSplit([start], [wait]);
    CountOne(stop);
    CountOne(start);
    CountOne(wait);
  }

  lemma {:induction false} BatchesCounts(n: int, b: int)
    requires 1 <= b
    ensures Stopped(Batches(n, b)) == Max(n, 0) == Started(Batches(n, b))
    decreases n
  {
    if n > 0 {
      var k := Min(b, n);
      BatchCounts(k);
      BatchesCounts(n - k, b);
      UpdateCountsSplit(Batch(k), Batches(n - k, b));
    }
  }

  /** Every update batch stops between one and batch-size replicas. */
  lemma {:induction false} BatchesBounded(n: int, b: int, i: nat)
    requires 1 <= b && i < |Batches(n, b)|
    ensures var a := Batches(n, b)[i];
            a.phase == Updating && (!a.action.Wait? ==> 1 <= a.action.count <= b)
    decreases n
  {
    var k := Min(b, n);
    assert Batches(n, b) == Batch(k) + Batches(n - k, b);
    if i >= 3 {
      BatchesBounded(n - k, b, i - 3);
    }
  }

  /** A rolling update replaces exactly the old replicas, in batches of 1 .. batch size. */
  lemma RollingReplacesAll(current: int, desired: int, s: Strategy)
    ensures var m := EffectiveMinAvailable(desired, s);
            var phases := RollingPhases(current, desired, m, s);
            && Stopped(phases) == Max(current, 0) == Started(phases)
            && forall i :: 0 <= i < |phases| && phases[i].phase == Updating && !phases[i].action.Wait? ==>
                 1 <= phases[i].action.count <= BatchSize(current, m, s)
  {
    var m := EffectiveMinAvailable(desired, s);
    var b := BatchSize(current, m, s);
    var first := if desired > current then ScaleUp(SurgeStep(current, desired, s)) else [];
    var middle := Batches(current, b);
    var last := if desired < current then [PhaseAction(ScalingDown, Stop(current - desired))] else [];
    BatchesCounts(current, b);
    UpdateCountsSplit(first + middle, last);
    UpdateCountsSplit(first, middle);
    if desired > current {
      assert first == [first[0]] + [first[1]];
      UpdateCountsSplit([first[0]], [first[1]]);
      CountOne(first[0]);
      CountOne(first[1]);
    } else if desired < current {
      CountOne(last[0]);
    }
    var phases := first + middle + last;
    forall i | 0 <= i < |phases| && phases[i].phase == Updating && !phases[i].action.Wait?
      ensures 1 <= phases[i].action.count <= b
    {
      if |first| <= i < |first| + |middle| {
        BatchesBounded(current, b, i - |first|);
      }
    }
  }

  // ---- The other strategies ----

  /** Recreate leaves nothing running in between, so it keeps no positive minimum of a running fleet. */
  lemma RecreateKeepsIff(current: int, desired: int, m: int)
    ensures var phases, end := RecreatePhases(current, desired), EndSize(current, desired);
            && (KeepsAvailable(current, phases, m) <==> m <= current && m <= end && (1 <= current ==> m <= 0))
            && NeverExceeds(current, phases, Max(current, end))
            && Exec(Fleet(current, 0), phases) == Fleet(end, 0)
  {
    var phases, peak := RecreatePhases(current, desired), Max(current, EndSize(current, desired));
    var hi := KeepsIsWithin(current, phases, m, peak);
    RecreateEffect(current, desired, m, hi);
    var low := Min(Min(current, 0), EndSize(current, desired));
    RecreateEffect(current, desired, low, peak);
    WithinNeverExceeds(current, phases, low, peak);
  }

  lemma RecreateEffect(current: int, desired: int, lo: int, hi: int)
    ensures var phases, end := RecreatePhases(current, desired), EndSize(current, desired);
            && Exec(Fleet(current, 0), phases) == Fleet(end, 0)
            && (Within(Fleet(current, 0), phases, lo, hi) <==>
                lo <= current <= hi && lo <= end <= hi && (1 <= current ==> lo <= 0))
  {
    var stopped := if current > 0 then current else 0;
    StopAllIfNeeded(current, stopped, current > 0, lo, hi);
    var down := if current > 0 then [PhaseAction(ScalingDown, Stop(stopped)), PhaseAction(ScalingDown, Wait)] else [];
    ScaleUpEffect(current - stopped, desired, lo, hi);
    ExecSplit(Fleet(current, 0), down, ScaleUp(desired));
    WithinSplit(Fleet(current, 0), down, ScaleUp(desired), lo, hi);
  }

  lemma StopAllIfNeeded(ready: int, n: int, needed: bool, lo: int, hi: int)
    requires if needed then 0 <= n else n == 0
    ensures var part := if needed then [PhaseAction(ScalingDown, Stop(n)), PhaseAction(ScalingDown, Wait)] else [];
            && Exec(Fleet(ready, 0), part) == Fleet(ready - n, 0)
            && (Within(Fleet(ready, 0), part, lo, hi) <==> ready <= hi && lo <= ready - n)
  {
    TwoActions(Fleet(ready, 0), PhaseAction(ScalingDown, Stop(n)), PhaseAction(ScalingDown, Wait), lo, hi);
    WithinEmpty(Fleet(ready, 0), lo, hi);
  }

  /** Blue-green keeps every minimum that the old fleet, the new one and both together meet, peaks at both
      fleets together and ends with the new one. */
  lemma BlueGreenKeepsIff(current: int, desired: int, m: int, s: Strategy)
    ensures var phases, end := BlueGreenPhases(current, desired, s), EndSize(current, desired);
            && (KeepsAvailable(current, phases, m) <==> m <= current && m <= current + desired && m <= end)
            && NeverExceeds(current, phases, Max(current, current + desired))
            && Exec(Fleet(current, 0), phases) == Fleet(end, 0)
  {
    var phases, peak := BlueGreenPhases(current, desired, s), Max(current, current + desired);
    var hi := KeepsIsWithin(current, phases, m, peak);
    BlueGreenEffect(current, desired, s, m, hi);
    var low := Min(Min(current, current + desired), EndSize(current, desired));
    BlueGreenEffect(current, desired, s, low, peak);
    WithinNeverExceeds(current, phases, low, peak);
  }

  lemma BlueGreenEffect(current: int, desired: int, s: Strategy, lo: int, hi: int)
    ensures var phases, end := BlueGreenPhases(current, desired, s), EndSize(current, desired);
            && Exec(Fleet(current, 0), phases) == Fleet(end, 0)
            && (Within(Fleet(current, 0), phases, lo, hi) <==>
                lo <= current <= hi && lo <= current + desired <= hi && lo <= end <= hi)
  {
    var pause := if s.pause > 0 then [PhaseAction(Paused, Wait)] else [];
    var stop := if current > 0 then [PhaseAction(ScalingDown, Stop(current))] else [];
    var f, g := Fleet(current, 0), Fleet(current + desired, 0);
    ScaleUpEffect(current, desired, lo, hi);
    WithinEmpty(g, lo, hi);
    WithinOne(g, PhaseAction(Paused, Wait), lo, hi);
    ExecOne(g, PhaseAction(Paused, Wait));
    ScaleDownIfNeeded(current + desired, current, current > 0, lo, hi);
    ThreeParts(f, ScaleUp(desired), pause, stop, lo, hi);
  }

  /** The plan pauses exactly if asked to, and does so while both fleets are up, before it stops anything. */
  ghost predicate PausesAtBoth(current: int, desired: int, phases: seq<PhaseAction>, asked: bool) {
    && (asked <==> exists i :: 0 <= i < |phases| && phases[i].phase == Paused)
    && forall i :: 0 <= i < |phases| && phases[i].phase == Paused ==>
         && Exec(Fleet(current, 0), phases[..i]) == Fleet(current + desired, 0)
         && forall j :: 0 <= j < i ==> !phases[j].action.Stop?
  }

  lemma BlueGreenPauses(current: int, desired: int, s: Strategy)
    ensures PausesAtBoth(current, desired, BlueGreenPhases(current, desired, s), s.pause > 0)
  {
    var phases := BlueGreenPhases(current, desired, s);
    ScaleUpEffect(current, desired, 0, 0);
    assert phases[..2] == ScaleUp(desired);
    if s.pause > 0 {
      assert phases[2].phase == Paused;
    }
    forall i | 0 <= i < |phases| && phases[i].phase == Paused
      ensures i == 2
    {
    }
  }

  /** CalculateMaxReplicasToStop: stopping that many is safe, one more is not. */
  method CalculateMaxReplicasToStop(total: int, ready: int, m: int) returns (n: int)
    ensures m == 0 ==> n == total
    ensures m != 0 ==> 0 <= n && (m <= ready ==> m <= ready - n && ready - (n + 1) < m)
    ensures m != 0 && ready < m ==> n == 0
  {
    if m == 0 {
      return total;
    }
    var canStop := ready - m;
    if canStop < 0 {
      return 0;
    }
    return canStop;
  }
}
