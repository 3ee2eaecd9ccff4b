/** Cluster nodes as the scheduler sees them. */
module Nodes {

  datatype Resources = Resources(cpu: int, memory: int, storage: int)

  datatype Taint = Taint(key: string, value: string, effect: string)

  datatype Node = Node(
    id: string, name: string, region: string, zone: string, state: string,
    labels: map<string, string>, taints: seq<Taint>,
    capacity: Resources, usage: Resources)

  /** A candidate with the scorer's verdict; the score is an abstract real. */
  datatype ScoredNode = ScoredNode(node: Node, score: real)

  function Minus(a: Resources, b: Resources): Resources {
    Resources(a.cpu - b.cpu, a.memory - b.memory, a.storage - b.storage)
  }

  function Available(n: Node): Resources {
    Minus(n.capacity, n.usage)
  }

  /** The request fits in all three dimensions. */
  predicate Fits(req: Resources, avail: Resources) {
    req.cpu <= avail.cpu && req.memory <= avail.memory && req.storage <= avail.storage
  }

  /** The membership manager keeps nodes in a map keyed by ID. */
  ghost predicate UniqueIDs(nodes: seq<ScoredNode>) {
    forall i, j :: 0 <= i < j < |nodes| ==> nodes[i].node.id != nodes[j].node.id
  }
}

/** What identical replicas can do to bins, independent of any packing order. */
module Capacity {
  import opened Common
  import opened Permutations
  import opened Nodes

  const MAX_INT64 := 0x7fff_ffff_ffff_ffff

  /** Two's-complement truncation to 64 bits. */
  function ToInt64(x: int): (r: int)
    ensures -MAX_INT64 - 1 <= r <= MAX_INT64
    ensures -MAX_INT64 - 1 <= x <= MAX_INT64 ==> r == x
  {
    (x + 0x8000_0000_0000_0000) % 0x1_0000_0000_0000_0000 - 0x8000_0000_0000_0000
  }

  /** Leftover after a placement: millicores plus megabytes plus gigabytes, in int64.
      Only called on bins the request fits, so the quotients are of non-negative numbers. */
  function Waste(req: Resources, avail: Resources): int {
    var left := Minus(avail, req);
    ToInt64(left.cpu + left.memory / 1_000_000 + left.storage / 1_000_000_000)
  }

  /** The two packers differ in which bin they take, and best-fit never takes a bin whose
      waste equals its initial minimum. */
  datatype Rule = FirstFit | BestFit

  predicate Accepts(rule: Rule, req: Resources, avail: Resources) {
    Fits(req, avail) && (rule.BestFit? ==> Waste(req, avail) < MAX_INT64)
  }

  /** Availability after k replicas. */
  function After(avail: Resources, req: Resources, k: nat): Resources {
    if k == 0 then avail else Minus(After(avail, req, k - 1), req)
  }

  /** The bin takes k replicas, one at a time. */
  ghost predicate Takes(rule: Rule, avail: Resources, req: Resources, k: nat) {
    forall j :: 0 <= j < k ==> Accepts(rule, req, After(avail, req, j))
  }

  ghost predicate Hosts(avail: Resources, req: Resources, k: nat) {
    Takes(FirstFit, avail, req, k)
  }

  /** How many of at most `limit` replicas the bin takes. */
  function Room(rule: Rule, avail: Resources, req: Resources, limit: nat): (r: nat)
    ensures r <= limit
  {
    if limit == 0 then 0
    else
      var r := Room(rule, avail, req, limit - 1);
      if r == limit - 1 && Accepts(rule, req, After(avail, req, limit - 1)) then limit else r
  }

  lemma {:induction false} AfterLinear(avail: Resources, req: Resources, k: nat)
    ensures After(avail, req, k) ==
            Resources(avail.cpu - k * req.cpu, avail.memory - k * req.memory, avail.storage - k * req.storage)
  {
    if k > 0 {
      AfterLinear(avail, req, k - 1);
      MulStep(k - 1, req.cpu);
      MulStep(k - 1, req.memory);
      MulStep(k - 1, req.storage);
    }
  }

  /** For requests without negative components, hosting k replicas is three inequalities. */
  lemma HostsClosedForm(avail: Resources, req: Resources, k: nat)
    requires 0 <= req.cpu && 0 <= req.memory && 0 <= req.storage
    ensures Hosts(avail, req, k) <==>
            k == 0 || (k * req.cpu <= avail.cpu && k * req.memory <= avail.memory && k * req.storage <= avail.storage)
  {
    if k > 0 {
      AfterLinear(avail, req, k - 1);
      assert After(avail, req, k) == Minus(After(avail, req, k - 1), req);
      AfterLinear(avail, req, k);
      if Fits(req, After(avail, req, k - 1)) {
        forall j | 0 <= j < k
          ensures Accepts(FirstFit, req, After(avail, req, j))
        {
          AfterLinear(avail, req, j);
          MulMonotone(j, k - 1, req.cpu);
          MulMonotone(j, k - 1, req.memory);
          MulMonotone(j, k - 1, req.storage);
        }
      }
    }
  }

  /** Whatever the sign of the request, no bin that took k >= 1 replicas is over-committed. */
  lemma TakenNeverOvercommits(rule: Rule, avail: Resources, req: Resources, k: nat)
    requires 0 < k && Takes(rule, avail, req, k)
    ensures k * req.cpu <= avail.cpu && k * req.memory <= avail.memory && k * req.storage <= avail.storage
  {
    assert Accepts(rule, req, After(avail, req, k - 1));
    AfterLinear(avail, req, k);
  }

  /** Room is the largest number of replicas the bin takes. */
  lemma {:induction false} RoomIsLargest(rule: Rule, avail: Resources, req: Resources, limit: nat, k: nat)
    requires k <= limit
    ensures Takes(rule, avail, req, k) <==> k <= Room(rule, avail, req, limit)
  {
    if limit > 0 {
      var r := Room(rule, avail, req, limit - 1);
      RoomIsLargest(rule, avail, req, limit - 1, if k < limit then k else limit - 1);
      if k == limit {
        RoomIsLargest(rule, avail, req, limit - 1, limit - 1);
      }
    }
  }

  function Rooms(rule: Rule, avails: seq<Resources>, req: Resources, limit: nat): (r: seq<nat>)
    ensures |r| == |avails|
    ensures forall i :: 0 <= i < |avails| ==> r[i] == Room(rule, avails[i], req, limit)
  {
    seq(|avails|, i requires 0 <= i < |avails| => Room(rule, avails[i], req, limit))
  }

  /** Replicas all bins take together, each bin capped at `limit`. */
  function TotalRoom(rule: Rule, avails: seq<Resources>, req: Resources, limit: nat): nat {
    Sum(Rooms(rule, avails, req, limit))
  }

  /** An assignment of replica counts that every bin can host. */
  ghost predicate Feasible(avails: seq<Resources>, req: Resources, counts: seq<nat>) {
    && |counts| == |avails|
    && forall i :: 0 <= i < |avails| ==> Hosts(avails[i], req, counts[i])
  }

  /** The bins can host k replicas between them. */
  ghost predicate JointlyHost(avails: seq<Resources>, req: Resources, k: nat) {
    exists counts :: Feasible(avails, req, counts) && Sum(counts) == k
  }

  /** No feasible assignment of at most `replicas` beats the closed form. */
  lemma NoAssignmentBeats(avails: seq<Resources>, req: Resources, counts: seq<nat>, replicas: nat)
    requires Feasible(avails, req, counts) && Sum(counts) <= replicas
    ensures Sum(counts) <= Min(replicas, TotalRoom(FirstFit, avails, req, replicas))
  {
    forall i | 0 <= i < |avails|
      ensures counts[i] <= Room(FirstFit, avails[i], req, replicas)
    {
      SumBounds(counts, i);
      RoomIsLargest(FirstFit, avails[i], req, replicas, counts[i]);
    }
    SumMonotone(counts, Rooms(FirstFit, avails, req, replicas));
  }

  /** Lowering the counts one by one reaches every smaller total. */
  lemma {:induction false} Trim(s: seq<nat>, k: nat) returns (t: seq<nat>)
    requires k <= Sum(s)
    ensures |t| == |s| && Sum(t) == k
    ensures forall i :: 0 <= i < |s| ==> t[i] <= s[i]
  {
    if s == [] {
      t := [];
    } else {
      var front, last := s[..|s| - 1], s[|s| - 1];
      if k <= Sum(front) {
        var u := Trim(front, k);
        t := u + [0];
        assert t[..|t| - 1] == u;
      } else {
        t := front + [k - Sum(front)];
        assert t[..|t| - 1] == front;
      }
    }
  }

  // ---- Told by what nodes have and use ----

  /** The node's capacity covers what it uses already and k replicas more. */
  predicate Covers(n: Node, req: Resources, k: int) {
    && n.usage.cpu + k * req.cpu <= n.capacity.cpu
    && n.usage.memory + k * req.memory <= n.capacity.memory
    && n.usage.storage + k * req.storage <= n.capacity.storage
  }

  /** Replica counts that every node used covers. */
  ghost predicate CanHost(nodes: seq<Node>, req: Resources, counts: seq<nat>) {
    |counts| == |nodes| && forall i :: 0 <= i < |nodes| && 0 < counts[i] ==> Covers(nodes[i], req, counts[i])
  }

  lemma TakenIsCovered(n: Node, req: Resources, k: nat)
    requires 0 < k && Hosts(Available(n), req, k)
    ensures Covers(n, req, k)
  {
    TakenNeverOvercommits(FirstFit, Available(n), req, k);
  }

  /** For requests without negative components, taking k replicas one by one is being able to cover them. */
  lemma HostsIffCovers(n: Node, req: Resources, k: nat)
    requires 0 <= req.cpu && 0 <= req.memory && 0 <= req.storage
    ensures Hosts(Available(n), req, k) <==> k == 0 || Covers(n, req, k)
  {
    HostsClosedForm(Available(n), req, k);
  }

  lemma FeasibleIffCanHost(nodes: seq<Node>, avails: seq<Resources>, req: Resources, counts: seq<nat>)
    requires 0 <= req.cpu && 0 <= req.memory && 0 <= req.storage
    requires |avails| == |nodes| && forall i :: 0 <= i < |nodes| ==> avails[i] == Available(nodes[i])
    ensures Feasible(avails, req, counts) <==> CanHost(nodes, req, counts)
  {
    if |counts| == |nodes| {
      forall i | 0 <= i < |nodes|
        ensures Hosts(avails[i], req, counts[i]) <==> counts[i] == 0 || Covers(nodes[i], req, counts[i])
      {
        HostsIffCovers(nodes[i], req, counts[i]);
      }
    }
  }

  /** Some counts that every node used covers add up to k. */
  ghost predicate NodesCanHost(nodes: seq<Node>, req: Resources, k: nat) {
    exists counts :: CanHost(nodes, req, counts) && Sum(counts) == k
  }

  lemma JointlyHostIffCanHost(nodes: seq<Node>, avails: seq<Resources>, req: Resources, k: nat)
    requires 0 <= req.cpu && 0 <= req.memory && 0 <= req.storage
    requires |avails| == |nodes| && forall i :: 0 <= i < |nodes| ==> avails[i] == Available(nodes[i])
    ensures JointlyHost(avails, req, k) <==> NodesCanHost(nodes, req, k)
  {
    if JointlyHost(avails, req, k) {
      var counts :| Feasible(avails, req, counts) && Sum(counts) == k;
      FeasibleIffCanHost(nodes, avails, req, counts);
    }
    if NodesCanHost(nodes, req, k) {
      var counts :| CanHost(nodes, req, counts) && Sum(counts) == k;
      FeasibleIffCanHost(nodes, avails, req, counts);
    }
  }

  /** The waste of a placement that fits, where it does not overflow: millicores, megabytes and gigabytes left. */
  lemma WasteIs(n: Node, req: Resources, cpu: nat, memory: nat, storage: nat)
    requires n.usage.cpu + req.cpu + cpu == n.capacity.cpu
    requires n.usage.memory + req.memory + memory == n.capacity.memory
    requires n.usage.storage + req.storage + storage == n.capacity.storage
    requires cpu + memory / 1_000_000 + storage / 1_000_000_000 <= MAX_INT64
    ensures Waste(req, Available(n)) == cpu + memory / 1_000_000 + storage / 1_000_000_000
  {
    assert Minus(Available(n), req) == Resources(cpu, memory, storage);
  }

  /** Joint capacity is exactly the closed form. */
  lemma JointlyHostIff(avails: seq<Resources>, req: Resources, k: nat)
    ensures JointlyHost(avails, req, k) <==> k <= TotalRoom(FirstFit, avails, req, k)
  {
    if JointlyHost(avails, req, k) {
      var counts :| Feasible(avails, req, counts) && Sum(counts) == k;
      NoAssignmentBeats(avails, req, counts, k);
    }
    if k <= TotalRoom(FirstFit, avails, req, k) {
      var counts := Trim(Rooms(FirstFit, avails, req, k), k);
      forall i | 0 <= i < |avails|
        ensures Hosts(avails[i], req, counts[i])
      {
        RoomIsLargest(FirstFit, avails[i], req, k, counts[i]);
      }
      assert Feasible(avails, req, counts);
    }
  }

  /** Total room does not depend on the order of the bins. */
  lemma {:induction false} TotalRoomPermutes(rule: Rule, a: seq<Resources>, b: seq<Resources>, req: Resources, limit: nat)
    requires multiset(a) == multiset(b)
    ensures TotalRoom(rule, a, req, limit) == TotalRoom(rule, b, req, limit)
    decreases |a|
  {
    if a == [] {
      assert |multiset(b)| == |b|;
    } else {
      var i := RemoveLast(a, b);
      var front, last := a[..|a| - 1], a[|a| - 1];
      TotalRoomPermutes(rule, front, b[..i] + b[i + 1..], req, limit);
      assert a == front + [last];
      TotalRoomSplit(rule, front, [last], req, limit);
      TotalRoomSplit(rule, b[..i], b[i + 1..], req, limit);
      TotalRoomSplit(rule, b[..i] + [last], b[i + 1..], req, limit);
      TotalRoomSplit(rule, b[..i], [last], req, limit);
    }
  }

  lemma {:induction false} TotalRoomSplit(rule: Rule, a: seq<Resources>, b: seq<Resources>, req: Resources, limit: nat)
    ensures TotalRoom(rule, a + b, req, limit) == TotalRoom(rule, a, req, limit) + TotalRoom(rule, b, req, limit)
  {
    if b == [] {
      assert a + b == a;
    } else {
      var front := b[..|b| - 1];
      TotalRoomSplit(rule, a, front, req, limit);
      var whole := Rooms(rule, a + b, req, limit);
      assert whole[..|whole| - 1] == Rooms(rule, a + front, req, limit);
      var part := Rooms(rule, b, req, limit);
      assert part[..|part| - 1] == Rooms(rule, front, req, limit);
    }
  }

  /** A bin the first replica does not fit has no room. */
  lemma NoRoom(avail: Resources, req: Resources, limit: nat)
    requires !Fits(req, avail)
    ensures TotalRoom(FirstFit, [avail], req, limit) == 0
  {
    if 1 <= limit {
      RoomIsLargest(FirstFit, avail, req, limit, 1);
      assert !Accepts(FirstFit, req, After(avail, req, 0));
    }
    SumOfOne(Rooms(FirstFit, [avail], req, limit));
  }

  lemma {:induction false} AfterShrinks(avail: Resources, req: Resources, k: nat)
    requires 0 <= req.cpu && 0 <= req.memory && 0 <= req.storage
    ensures Fits(After(avail, req, k), avail)
  {
    if k > 0 {
      AfterShrinks(avail, req, k - 1);
    }
  }

  lemma WasteBelow(avail: Resources, now: Resources, req: Resources)
    requires 0 <= req.cpu && 0 <= req.memory && 0 <= req.storage
    requires Fits(req, now) && Fits(now, avail)
    requires avail.cpu + avail.memory / 1_000_000 + avail.storage / 1_000_000_000 < MAX_INT64
    ensures Waste(req, now) < MAX_INT64
  {
    var left := Minus(now, req);
    assert left.memory / 1_000_000 <= avail.memory / 1_000_000;
    assert left.storage / 1_000_000_000 <= avail.storage / 1_000_000_000;
    assert 0 <= left.cpu + left.memory / 1_000_000 + left.storage / 1_000_000_000 < MAX_INT64;
  }

  /** Best-fit finds as much room as first-fit in a bin whose waste stays below the int64 maximum. */
  lemma SameRoom(avail: Resources, req: Resources, limit: nat)
    requires 0 <= req.cpu && 0 <= req.memory && 0 <= req.storage
    requires avail.cpu + avail.memory / 1_000_000 + avail.storage / 1_000_000_000 < MAX_INT64
    ensures Room(BestFit, avail, req, limit) == Room(FirstFit, avail, req, limit)
  {
    var k := Room(FirstFit, avail, req, limit);
    RoomIsLargest(FirstFit, avail, req, limit, k);
    forall j | 0 <= j < k
      ensures Accepts(BestFit, req, After(avail, req, j))
    {
      assert Accepts(FirstFit, req, After(avail, req, j));
      AfterShrinks(avail, req, j);
      WasteBelow(avail, After(avail, req, j), req);
    }
    RoomIsLargest(BestFit, avail, req, limit, k);
    RoomOrdered(avail, req, limit);
  }

  lemma RoomOrdered(avail: Resources, req: Resources, limit: nat)
    ensures Room(BestFit, avail, req, limit) <= Room(FirstFit, avail, req, limit)
  {
    var k := Room(BestFit, avail, req, limit);
    RoomIsLargest(BestFit, avail, req, limit, k);
    assert forall j :: 0 <= j < k ==> Accepts(BestFit, req, After(avail, req, j)) ==> Accepts(FirstFit, req, After(avail, req, j));
    RoomIsLargest(FirstFit, avail, req, limit, k);
  }

  /** Best-fit stalls at the k-th replica: it fits, but its waste equals the initial minimum. */
  predicate StallsAt(avail: Resources, req: Resources, k: nat) {
    Waste(req, After(avail, req, k)) == MAX_INT64
  }

  /** How many of the replicas first-fit would take come before the first stall. */
  function UntilStall(avail: Resources, req: Resources, limit: nat, k: nat := 0): (r: nat)
    requires k <= Room(FirstFit, avail, req, limit)
    ensures k <= r <= Room(FirstFit, avail, req, limit)
    ensures forall j :: k <= j < r ==> !StallsAt(avail, req, j)
    ensures r < Room(FirstFit, avail, req, limit) ==> StallsAt(avail, req, r)
    decreases Room(FirstFit, avail, req, limit) - k
  {
    if k == Room(FirstFit, avail, req, limit) || StallsAt(avail, req, k) then k
    else UntilStall(avail, req, limit, k + 1)
  }

  /** The stalls are all that separates the two packers. */
  lemma RoomUntilStall(avail: Resources, req: Resources, limit: nat)
    ensures Room(BestFit, avail, req, limit) == UntilStall(avail, req, limit)
  {
    var first, r := Room(FirstFit, avail, req, limit), UntilStall(avail, req, limit);
    RoomIsLargest(FirstFit, avail, req, limit, first);
    assert Takes(BestFit, avail, req, r) by {
      forall j | 0 <= j < r
        ensures Accepts(BestFit, req, After(avail, req, j))
      {
        assert Accepts(FirstFit, req, After(avail, req, j)) && !StallsAt(avail, req, j);
      }
    }
    RoomIsLargest(BestFit, avail, req, limit, r);
    RoomOrdered(avail, req, limit);
    if r < first {
      assert !Accepts(BestFit, req, After(avail, req, r));
      RoomIsLargest(BestFit, avail, req, limit, r + 1);
    }
  }

  function UntilStalls(avails: seq<Resources>, req: Resources, limit: nat): (r: seq<nat>)
    ensures |r| == |avails|
    ensures forall i :: 0 <= i < |avails| ==> r[i] == UntilStall(avails[i], req, limit)
  {
    seq(|avails|, i requires 0 <= i < |avails| => UntilStall(avails[i], req, limit))
  }

  /** No bin reaches the maximal waste while first-fit would still use it. */
  ghost predicate NeverStalls(avails: seq<Resources>, req: Resources, limit: nat) {
    forall i, j :: 0 <= i < |avails| && 0 <= j < Room(FirstFit, avails[i], req, limit) ==> !StallsAt(avails[i], req, j)
  }

  lemma NeverStallsIff(avails: seq<Resources>, req: Resources, limit: nat)
    ensures NeverStalls(avails, req, limit) <==> UntilStalls(avails, req, limit) == Rooms(FirstFit, avails, req, limit)
  {
    var until, first := UntilStalls(avails, req, limit), Rooms(FirstFit, avails, req, limit);
    if NeverStalls(avails, req, limit) {
      forall i | 0 <= i < |avails|
        ensures until[i] == first[i]
      {
        var k := UntilStall(avails[i], req, limit);
        assert !StallsAt(avails[i], req, k) || k == Room(FirstFit, avails[i], req, limit);
      }
    } else {
      var i, j :| 0 <= i < |avails| && 0 <= j < Room(FirstFit, avails[i], req, limit) && StallsAt(avails[i], req, j);
      assert until[i] <= j < first[i];
    }
  }

  /** The two packers place equally many replicas exactly when no bin stalls at the maximal waste
      before first-fit has filled it, or the bins hold all replicas before their stalls. */
  lemma SameCountIff(avails: seq<Resources>, req: Resources, replicas: nat)
    ensures Min(replicas, TotalRoom(BestFit, avails, req, replicas))
            == Min(replicas, TotalRoom(FirstFit, avails, req, replicas))
            <==> NeverStalls(avails, req, replicas) || replicas <= Sum(UntilStalls(avails, req, replicas))
  {
    var until, first := UntilStalls(avails, req, replicas), Rooms(FirstFit, avails, req, replicas);
    forall i | 0 <= i < |avails|
      ensures Room(BestFit, avails[i], req, replicas) == until[i] <= first[i]
    {
      RoomUntilStall(avails[i], req, replicas);
    }
    assert Rooms(BestFit, avails, req, replicas) == until;
    SumMonotone(until, first);
    NeverStallsIff(avails, req, replicas);
    if Sum(until) == Sum(first) {
      SumEqual(until, first);
    }
  }

  /** On every input whose waste sums stay below the int64 maximum the two packers agree on the count. */
  lemma SameCount(avails: seq<Resources>, req: Resources, replicas: nat)
    requires 0 <= req.cpu && 0 <= req.memory && 0 <= req.storage
    requires forall i :: 0 <= i < |avails| ==>
               avails[i].cpu + avails[i].memory / 1_000_000 + avails[i].storage / 1_000_000_000 < MAX_INT64
    ensures Min(replicas, TotalRoom(BestFit, avails, req, replicas))
            == Min(replicas, TotalRoom(FirstFit, avails, req, replicas))
  {
    forall i | 0 <= i < |avails|
      ensures Room(BestFit, avails[i], req, replicas) == Room(FirstFit, avails[i], req, replicas)
    {
      SameRoom(avails[i], req, replicas);
    }
    assert Rooms(BestFit, avails, req, replicas) == Rooms(FirstFit, avails, req, replicas);
  }

  /** A node offering exactly the maximal waste is refused by best-fit and used by first-fit. */
  lemma BestFitCanStall(avail: Resources, req: Resources)
    requires Fits(req, avail) && Waste(req, avail) == MAX_INT64
    ensures TotalRoom(BestFit, [avail], req, 1) == 0 && TotalRoom(FirstFit, [avail], req, 1) == 1
  {
    assert After(avail, req, 0) == avail;
    RoomIsLargest(BestFit, avail, req, 1, 1);
    RoomIsLargest(FirstFit, avail, req, 1, 1);
    SumOfOne(Rooms(BestFit, [avail], req, 1));
    SumOfOne(Rooms(FirstFit, [avail], req, 1));
  }

  /** Such a node exists. */
  lemma MaximalWasteExists(avail: Resources, req: Resources)
    requires avail == Resources(MAX_INT64, 0, 0) && req == Resources(0, 0, 0)
    ensures Fits(req, avail) && Waste(req, avail) == MAX_INT64
  {
    assert Minus(avail, req) == avail;
  }

  lemma SumOfOne(s: seq<nat>)
    requires |s| == 1
    ensures Sum(s) == s[0]
  {
    assert s[..0] == [];
  }
}
