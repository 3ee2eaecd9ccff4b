/** Layer-4 load balancing: selection by round robin, weights and connection counts. */
module LoadBalancer {
  import opened Common

  const TWO_64 := 0x1_0000_0000_0000_0000

  datatype Endpoint = Endpoint(id: string, weight: int)

  /** A weight that is not positive counts as one. */
  function Effective(w: int): (n: nat)
    ensures 1 <= n
  {
    if w <= 0 then 1 else w
  }

  function Weights(es: seq<Endpoint>): (ws: seq<nat>)
    ensures |ws| == |es|
    ensures forall i :: 0 <= i < |es| ==> ws[i] == Effective(es[i].weight)
  {
    seq(|es|, i requires 0 <= i < |es| => Effective(es[i].weight))
  }

  /** The weights of endpoints added up, a weight that is not positive counting as one. */
  function Share(es: seq<Endpoint>): nat {
    if es == [] then 0
    else
      var w := es[|es| - 1].weight;
      Share(es[..|es| - 1]) + if w >= 1 then w else 1
  }

  lemma {:induction false} ShareIsSum(es: seq<Endpoint>, i: nat)
    requires i <= |es|
    ensures Share(es[..i]) == Sum(Weights(es)[..i])
  {
    if i > 0 {
      ShareIsSum(es, i - 1);
      assert es[..i][..i - 1] == es[..i - 1];
      assert Weights(es)[..i][..i - 1] == Weights(es)[..i - 1];
    }
  }

  /** It is the turn of endpoint i, told by the endpoints' own weights. */
  ghost predicate TurnOf(es: seq<Endpoint>, i: nat, counter: nat) {
    && 0 < Share(es) && i < |es|
    && Share(es[..i]) <= Residue(counter, Share(es)) < Share(es[..i + 1])
  }

  /** Owning a target, told by the endpoints' own weights. */
  lemma OwnsByShare(es: seq<Endpoint>, i: nat, target: int)
    requires Owns(Weights(es), i, target)
    ensures i < |es| && Share(es[..i]) <= target < Share(es[..i + 1])
  {
    ShareIsSum(es, i);
    ShareIsSum(es, i + 1);
    PrefixSum(Weights(es), i);
  }

  lemma ShareTotal(es: seq<Endpoint>)
    ensures Share(es) == Sum(Weights(es))
  {
    ShareIsSum(es, |es|);
    assert es[..|es|] == es && Weights(es)[..|es|] == Weights(es);
  }

  ghost predicate Positive(ws: seq<nat>) {
    forall i :: 0 <= i < |ws| ==> 1 <= ws[i]
  }

  /** Endpoint i owns the targets from the weights before it up to its own. */
  ghost predicate Owns(ws: seq<nat>, i: nat, target: int) {
    i < |ws| && Sum(ws[..i]) <= target < Sum(ws[..i]) + ws[i]
  }

  lemma {:induction false} PrefixSum(ws: seq<nat>, i: nat)
    requires i < |ws|
    ensures Sum(ws[..i + 1]) == Sum(ws[..i]) + ws[i]
  {
    assert ws[..i + 1][..i] == ws[..i];
  }

  lemma {:induction false} PrefixMonotone(ws: seq<nat>, i: nat, j: nat)
    requires i <= j <= |ws|
    ensures Sum(ws[..i]) <= Sum(ws[..j])
  {
    if i < j {
      PrefixMonotone(ws, i, j - 1);
      PrefixSum(ws, j - 1);
    }
  }

  lemma OwnerUnique(ws: seq<nat>, i: nat, j: nat, target: int)
    requires Owns(ws, i, target) && Owns(ws, j, target)
    ensures i == j
  {
    if i < j {
      PrefixSum(ws, i);
      PrefixMonotone(ws, i + 1, j);
    } else if j < i {
      PrefixSum(ws, j);
      PrefixMonotone(ws, j + 1, i);
    }
  }

  lemma SumPositive(ws: seq<nat>)
    requires Positive(ws) && ws != []
    ensures 0 < Sum(ws)
  {
  }

  // ---- Fairness ----

  /** The counter's position in its cycle of w selections. */
  function Residue(c: nat, w: nat): (r: nat)
    requires 0 < w
    ensures r < w
  {
    if c < w then c else Residue(c - w, w)
  }

  lemma {:induction false} ResidueIsMod(c: nat, w: nat)
    requires 0 < w
    ensures Residue(c, w) == c % w
  {
    if c >= w {
      ResidueIsMod(c - w, w);
      ModStep(c, w);
    }
  }

  lemma ModStep(c: nat, w: nat)
    requires 0 < w <= c
    ensures c % w == (c - w) % w
  {
    var q, r := (c - w) / w, (c - w) % w;
    assert (q + 1) * w == q * w + w;
    RemainderUnique(c, w, q + 1, r);
  }

  lemma RemainderUnique(x: int, w: int, q: int, r: int)
    requires 0 < w && 0 <= r < w && x == q * w + r
    ensures x % w == r
  {
    var p := x / w;
    assert x == p * w + x % w;
    if p < q {
      MulGap(p, q, w);
    } else if q < p {
      MulGap(q, p, w);
    }
  }

  lemma MulGap(a: int, b: int, w: int)
    requires a < b && 0 < w
    ensures a * w + w <= b * w
  {
    var gap := b - a - 1;
    assert b * w == a * w + w + gap * w;
    assert 0 <= gap * w;
  }

  /** How many of the n selections from counter c on go to endpoint i. */
  ghost function TimesChosen(ws: seq<nat>, c: nat, n: nat, i: nat): nat
    requires 0 < Sum(ws)
  {
    if n == 0 then 0
    else TimesChosen(ws, c, n - 1, i) + if Owns(ws, i, Residue(c + n - 1, Sum(ws))) then 1 else 0
  }

  lemma {:induction false} FirstSelection(ws: seq<nat>, c: nat, n: nat, i: nat)
    requires 0 < Sum(ws)
    ensures TimesChosen(ws, c, n + 1, i) == (if Owns(ws, i, Residue(c, Sum(ws))) then 1 else 0) + TimesChosen(ws, c + 1, n, i)
  {
    if n > 0 {
      FirstSelection(ws, c, n - 1, i);
    }
  }

  /** A whole cycle may start anywhere. */
  lemma {:induction false} CycleShifts(ws: seq<nat>, c: nat, i: nat)
    requires 0 < Sum(ws)
    ensures TimesChosen(ws, c, Sum(ws), i) == TimesChosen(ws, 0, Sum(ws), i)
  {
    if c > 0 {
      CycleShifts(ws, c - 1, i);
      FirstSelection(ws, c - 1, Sum(ws), i);
      assert Residue(c - 1 + Sum(ws), Sum(ws)) == Residue(c - 1, Sum(ws));
    }
  }

  lemma {:induction false} CountFromZero(ws: seq<nat>, n: nat, i: nat)
    requires 0 < Sum(ws) && n <= Sum(ws) && i < |ws|
    ensures TimesChosen(ws, 0, n, i) == Min(ws[i], Max(0, n - Sum(ws[..i])))
  {
    if n > 0 {
      CountFromZero(ws, n - 1, i);
    }
  }

  /** Any cycle of total-weight selections chooses endpoint i exactly weight times. */
  lemma WeightedFair(ws: seq<nat>, c: nat, i: nat)
    requires 0 < Sum(ws) && i < |ws|
    ensures TimesChosen(ws, c, Sum(ws), i) == ws[i]
  {
    CycleShifts(ws, c, i);
    CountFromZero(ws, Sum(ws), i);
    PrefixSum(ws, i);
    PrefixMonotone(ws, i + 1, |ws|);
    assert ws[..|ws|] == ws;
  }

  ghost function Occurrences(s: seq<nat>, i: nat): nat {
    if s == [] then 0 else Occurrences(s[..|s| - 1], i) + if s[|s| - 1] == i then 1 else 0
  }

  /** The selections made so far from counter c are the ones counted by TimesChosen. */
  ghost predicate Tallies(ws: seq<nat>, c: nat, chosen: seq<nat>)
    requires 0 < Sum(ws)
  {
    forall i :: 0 <= i < |ws| ==> Occurrences(chosen, i) == TimesChosen(ws, c, |chosen|, i)
  }

  lemma OneMore(ws: seq<nat>, c: nat, chosen: seq<nat>, index: nat)
    requires 0 < Sum(ws) && Tallies(ws, c, chosen)
    requires Owns(ws, index, Residue(c + |chosen|, Sum(ws)))
    ensures Tallies(ws, c, chosen + [index])
  {
    var more := chosen + [index];
    assert more[..|chosen|] == chosen;
    forall i | 0 <= i < |ws|
      ensures Occurrences(more, i) == TimesChosen(ws, c, |more|, i)
    {
      if Owns(ws, i, Residue(c + |chosen|, Sum(ws))) {
        OwnerUnique(ws, i, index, Residue(c + |chosen|, Sum(ws)));
      }
    }
  }

  lemma TurnsFair(ws: seq<nat>, c: nat, chosen: seq<nat>)
    requires 0 < Sum(ws) && |chosen| == Sum(ws) && Tallies(ws, c, chosen)
    ensures forall i :: 0 <= i < |ws| ==> Occurrences(chosen, i) == ws[i]
  {
    forall i | 0 <= i < |ws|
      ensures Occurrences(chosen, i) == ws[i]
    {
      WeightedFair(ws, c, i);
    }
  }

  // ---- Equal weights ----

  ghost function Ones(n: nat): (ws: seq<nat>)
    ensures |ws| == n && forall i :: 0 <= i < n ==> ws[i] == 1
  {
    seq(n, i => 1)
  }

  lemma {:induction false} OnesSum(n: nat, i: nat)
    requires i <= n
    ensures Sum(Ones(n)[..i]) == i
  {
    if i > 0 {
      OnesSum(n, i - 1);
      PrefixSum(Ones(n), i - 1);
    }
  }

  /** With equal weights the owner of a counter is its remainder. */
  lemma OnesOwner(n: nat, c: nat)
    requires 0 < n
    ensures Sum(Ones(n)) == n
    ensures Owns(Ones(n), c % n, Residue(c, n))
  {
    OnesSum(n, n);
    assert Ones(n)[..n] == Ones(n);
    ResidueIsMod(c, n);
    OnesSum(n, c % n);
  }

  lemma RoundStep(n: nat, c: nat, chosen: seq<nat>, index: nat)
    requires 0 < n && Sum(Ones(n)) == n && Tallies(Ones(n), c, chosen) && index == (c + |chosen|) % n
    ensures Tallies(Ones(n), c, chosen + [index])
  {
    OnesOwner(n, c + |chosen|);
    OneMore(Ones(n), c, chosen, index);
  }

  lemma RoundFair(n: nat, c: nat, chosen: seq<nat>)
    requires 0 < n && Sum(Ones(n)) == n && |chosen| == n && Tallies(Ones(n), c, chosen)
    ensures forall i :: 0 <= i < n ==> Occurrences(chosen, i) == 1
  {
    TurnsFair(Ones(n), c, chosen);
  }

  // ---- Selection ----

  class L4LoadBalancer {
    var rrCounters: map<string, int>

    ghost predicate Valid()
      reads this
    {
      forall s :: s in rrCounters ==> 0 <= rrCounters[s] < TWO_64
    }

    constructor ()
      ensures Valid() && rrCounters == map[]
    {
      rrCounters := map[];
    }

    function Counter(service: string): (c: int)
      reads this
      ensures Valid() ==> 0 <= c < TWO_64
    {
      if service in rrCounters then rrCounters[service] else 0
    }

    /** The shared counter step: the value used and the stored successor, in uint64. */
    method NextCount(service: string) returns (used: int)
      requires Valid()
      modifies this
      ensures Valid()
      ensures used == old(Counter(service))
      ensures rrCounters == old(rrCounters)[service := (used + 1) % TWO_64]
    {
      var counter := 0;
      if service in rrCounters {
        counter := rrCounters[service];
      }
      var next := (counter + 1) % TWO_64;
      rrCounters := rrCounters[service := next];
      used := (next - 1) % TWO_64;
    }

    method SelectRoundRobin(service: string, endpoints: seq<Endpoint>) returns (index: Option<nat>)
      requires Valid()
      modifies this
      ensures Valid()
      ensures endpoints == [] ==> index.None? && rrCounters == old(rrCounters)
      ensures endpoints != [] ==>
                && index == Some(old(Counter(service)) % |endpoints|)
                && rrCounters == old(rrCounters)[service := (old(Counter(service)) + 1) % TWO_64]
    {
      if |endpoints| == 0 {
        return None;
      }
      var used := NextCount(service);
      index := Some(used % |endpoints|);
    }

    /** As many calls in a row as there are endpoints choose each exactly once. */
    method SelectRound(service: string, endpoints: seq<Endpoint>) returns (chosen: seq<nat>)
      requires Valid() && endpoints != []
      requires Counter(service) + |endpoints| <= TWO_64
      modifies this
      ensures Valid()
      ensures |chosen| == |endpoints|
      ensures forall i :: 0 <= i < |endpoints| ==> Occurrences(chosen, i) == 1
    {
      ghost var c := Counter(service);
      OnesOwner(|endpoints|, c);
      chosen := [];
      for n := 0 to |endpoints|
        invariant Valid() && |chosen| == n
        invariant n < |endpoints| ==> Counter(service) == c + n
        invariant Tallies(Ones(|endpoints|), c, chosen)
      {
        var index := SelectRoundRobin(service, endpoints);
        RoundStep(|endpoints|, c, chosen, index.value);
        chosen := chosen + [index.value];
      }
      RoundFair(|endpoints|, c, chosen);
    }

    /** Missing weights are set to one in the caller's slice. */
    method NormalizeWeights(endpoints: array<Endpoint>) returns (total: nat)
      modifies endpoints
      ensures forall k :: 0 <= k < endpoints.Length ==>
                endpoints[k] == old(endpoints[k]).(weight := Effective(old(endpoints[k].weight)))
      ensures forall k :: 0 <= k < endpoints.Length && old(endpoints[k].weight) >= 1 ==> endpoints[k] == old(endpoints[k])
      ensures forall k :: 0 <= k < endpoints.Length && old(endpoints[k].weight) < 1 ==>
                endpoints[k] == old(endpoints[k]).(weight := 1)
      ensures Weights(endpoints[..]) == Weights(old(endpoints[..]))
      ensures total == Sum(Weights(old(endpoints[..])))
    {
      total := 0;
      ghost var ws := Weights(endpoints[..]);
      for i := 0 to endpoints.Length
        invariant forall k :: 0 <= k < i ==>
                    endpoints[k] == old(endpoints[k]).(weight := Effective(old(endpoints[k].weight)))
        invariant forall k :: i <= k < endpoints.Length ==> endpoints[k] == old(endpoints[k])
        invariant total == Sum(ws[..i])
      {
        if endpoints[i].weight <= 0 {
          endpoints[i] := endpoints[i].(weight := 1);
        }
        PrefixSum(ws, i);
        total := total + endpoints[i].weight;
      }
      assert ws[..|ws|] == ws;
      assert Weights(endpoints[..]) == ws;
    }

    /** The chosen endpoint owns the counter's residue modulo the total weight. */
    method SelectWeightedRoundRobin(service: string, endpoints: array<Endpoint>) returns (index: Option<nat>)
      requires Valid()
      modifies this, endpoints
      ensures Valid()
      ensures endpoints.Length == 0 ==> index.None? && rrCounters == old(rrCounters)
      ensures Weights(endpoints[..]) == Weights(old(endpoints[..]))
      ensures endpoints.Length > 0 ==>
                var ws := Weights(old(endpoints[..]));
                && 0 < Sum(ws)
                && index.Some? && Owns(ws, index.value, Residue(old(Counter(service)), Sum(ws)))
                && rrCounters == old(rrCounters)[service := (old(Counter(service)) + 1) % TWO_64]
      ensures endpoints.Length > 0 ==>
                var es, i := old(endpoints[..]), index.value;
                TurnOf(es, i, old(Counter(service)))
    {
      ghost var es := endpoints[..];
      if endpoints.Length == 0 {
        return None;
      }
      var totalWeight := NormalizeWeights(endpoints);
      ghost var ws := Weights(endpoints[..]);
      SumPositive(ws);
      if totalWeight == 0 {
        assert false; // every weight is at least one now
      }
      var used := NextCount(service);
      ResidueIsMod(used, totalWeight);
      var i := FindOwner(endpoints, used % totalWeight);
      OwnsByShare(es, i, used % totalWeight);
      ShareTotal(es);
      index := Some(i);
    }

    /** The running sum over the weights reaches every target below the total. */
    method FindOwner(endpoints: array<Endpoint>, target: int) returns (i: nat)
      requires forall k :: 0 <= k < endpoints.Length ==> 1 <= endpoints[k].weight
      requires 0 <= target < Sum(Weights(endpoints[..]))
      ensures Owns(Weights(endpoints[..]), i, target)
    {
      ghost var ws := Weights(endpoints[..]);
      assert ws[..|ws|] == ws;
      var current := 0;
      i := 0;
      while i < endpoints.Length
        invariant 0 <= i <= endpoints.Length
        invariant current == Sum(ws[..i]) && current <= target
      {
        PrefixSum(ws, i);
        current := current + endpoints[i].weight;
        if target < current {
          return;
        }
        i := i + 1;
      }
      assert false; // falling back to the first endpoint cannot happen
    }

    /** As many selections as the weights add up to, with unchanged endpoints. */
    method SelectTurns(service: string, endpoints: array<Endpoint>) returns (chosen: seq<nat>)
      requires Valid() && endpoints.Length > 0
      requires Counter(service) + Sum(Weights(endpoints[..])) <= TWO_64
      modifies this, endpoints
      ensures Valid()
      ensures |chosen| == Sum(Weights(old(endpoints[..])))
      ensures forall i :: 0 <= i < endpoints.Length ==> Occurrences(chosen, i) == Weights(old(endpoints[..]))[i]
    {
      ghost var c := Counter(service);
      ghost var ws := Weights(endpoints[..]);
      SumPositive(ws);
      chosen := [];
      var total := NormalizeWeights(endpoints);
      for n := 0 to total
        invariant Valid() && |chosen| == n
        invariant Weights(endpoints[..]) == ws
        invariant n < total ==> Counter(service) == c + n
        invariant Tallies(ws, c, chosen)
      {
        ghost var counter := Counter(service);
        var index := SelectWeightedRoundRobin(service, endpoints);
        assert counter == c + n;
        OneMore(ws, c, chosen, index.value);
        chosen := chosen + [index.value];
      }
      TurnsFair(ws, c, chosen);
    }

    /** A whole cycle of selections with unchanged endpoints serves each exactly its weight, or once if its weight is
        not positive. */
    method SelectCycle(service: string, endpoints: array<Endpoint>) returns (chosen: seq<nat>)
      requires Valid() && endpoints.Length > 0
      requires Counter(service) + Share(endpoints[..]) <= TWO_64
      modifies this, endpoints
      ensures Valid()
      ensures |chosen| == Share(old(endpoints[..]))
      ensures forall i :: 0 <= i < endpoints.Length ==>
                Occurrences(chosen, i) == if old(endpoints[i].weight) >= 1 then old(endpoints[i].weight) else 1
    {
      ShareTotal(endpoints[..]);
      chosen := SelectTurns(service, endpoints);
    }

    /** The first endpoint with the fewest connections; None only if all are at the int32 maximum. */
    method SelectLeastConnections(endpoints: seq<Endpoint>, connections: map<string, int>) returns (best: Option<nat>)
      requires forall id :: id in connections ==> connections[id] <= MAX_INT32
      ensures best.None? <==> forall k :: 0 <= k < |endpoints| ==> Active(connections, endpoints[k].id) == MAX_INT32
      ensures best.Some? ==>
                && best.value < |endpoints|
                && (forall k :: 0 <= k < |endpoints| ==>
                      Active(connections, endpoints[best.value].id) <= Active(connections, endpoints[k].id))
                && forall k :: 0 <= k < best.value ==>
                     Active(connections, endpoints[best.value].id) < Active(connections, endpoints[k].id)
      ensures best.Some? ==>
                var id := endpoints[best.value].id;
                forall k :: 0 <= k < |endpoints| ==>
                  (if id in connections then connections[id] else 0)
                  <= if endpoints[k].id in connections then connections[endpoints[k].id] else 0
    {
      best := None;
      var minConnections := MAX_INT32;
      for i := 0 to |endpoints|
        invariant best.None? ==> minConnections == MAX_INT32
                                 && forall k :: 0 <= k < i ==> Active(connections, endpoints[k].id) == MAX_INT32
        invariant best.Some? ==> best.value < i && minConnections == Active(connections, endpoints[best.value].id) < MAX_INT32
        invariant forall k :: 0 <= k < i ==> minConnections <= Active(connections, endpoints[k].id)
        invariant best.Some? ==> forall k :: 0 <= k < best.value ==> minConnections < Active(connections, endpoints[k].id)
      {
        var active := Active(connections, endpoints[i].id);
        if active < minConnections {
          minConnections := active;
          best := Some(i);
        }
      }
    }
  }

  function Active(connections: map<string, int>, id: string): int {
    if id in connections then connections[id] else 0
  }
}
