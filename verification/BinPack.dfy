/** First-fit and best-fit packing of identical replicas over three-dimensional capacity. */
module BinPack {
  import opened Common
  import opened Permutations
  import opened Mapping
  import opened Sorting
  import opened Nodes
  import opened Capacity

  datatype Bin = Bin(nodeID: string, nodeName: string, avail: Resources, score: real)

  /** The ID is a one-character string, given by its code point. */
  datatype Item = Item(id: int, req: Resources)

  datatype Placement = Placement(nodeID: string, nodeName: string, itemID: int, score: real)

  // ---- Packing runs ----

  function BinOf(n: ScoredNode): Bin {
    Bin(n.node.id, n.node.name, Available(n.node), n.score)
  }

  function BinsOf(nodes: seq<ScoredNode>): (bins: seq<Bin>)
    ensures |bins| == |nodes|
    ensures forall i :: 0 <= i < |nodes| ==> bins[i] == BinOf(nodes[i])
  {
    seq(|nodes|, i requires 0 <= i < |nodes| => BinOf(nodes[i]))
  }

  function Avails(bins: seq<Bin>): (avails: seq<Resources>)
    ensures |avails| == |bins|
    ensures forall i :: 0 <= i < |bins| ==> avails[i] == bins[i].avail
  {
    seq(|bins|, i requires 0 <= i < |bins| => bins[i].avail)
  }

  ghost predicate InRange(bins: seq<Bin>, picks: seq<nat>) {
    forall k :: 0 <= k < |picks| ==> picks[k] < |bins|
  }

  /** The bins after one replica went to each bin of `picks`, in order. */
  ghost function Packed(bins: seq<Bin>, req: Resources, picks: seq<nat>): (r: seq<Bin>)
    requires InRange(bins, picks)
    ensures |r| == |bins|
  {
    if picks == [] then bins
    else
      var before := Packed(bins, req, picks[..|picks| - 1]);
      var i := picks[|picks| - 1];
      before[i := before[i].(avail := Minus(before[i].avail, req))]
  }

  ghost function CountPicks(picks: seq<nat>, i: nat): nat {
    if picks == [] then 0
    else CountPicks(picks[..|picks| - 1], i) + if picks[|picks| - 1] == i then 1 else 0
  }

  /** First-fit takes the first bin that accepts; best-fit the first of least waste. */
  ghost predicate Chooses(rule: Rule, bins: seq<Bin>, req: Resources, i: nat) {
    && i < |bins|
    && Accepts(rule, req, bins[i].avail)
    && match rule
       case FirstFit => forall j :: 0 <= j < i ==> !Accepts(rule, req, bins[j].avail)
       case BestFit => forall j :: 0 <= j < |bins| && Accepts(rule, req, bins[j].avail) ==>
         Waste(req, bins[i].avail) <= Waste(req, bins[j].avail)
         && (j < i ==> Waste(req, bins[i].avail) < Waste(req, bins[j].avail))
  }

  ghost predicate Stuck(rule: Rule, bins: seq<Bin>, req: Resources) {
    forall j :: 0 <= j < |bins| ==> !Accepts(rule, req, bins[j].avail)
  }

  /** Every pick was the rule's choice at its moment. */
  ghost predicate Run(rule: Rule, bins: seq<Bin>, req: Resources, picks: seq<nat>) {
    && InRange(bins, picks)
    && forall k :: 0 <= k < |picks| ==> Chooses(rule, Packed(bins, req, picks[..k]), req, picks[k])
  }

  /** A run that stopped because all replicas were placed or no bin accepts another. */
  ghost predicate Complete(rule: Rule, bins: seq<Bin>, req: Resources, picks: seq<nat>, replicas: nat) {
    && Run(rule, bins, req, picks)
    && |picks| <= replicas
    && (|picks| < replicas ==> Stuck(rule, Packed(bins, req, picks), req))
  }

  lemma RunExtends(rule: Rule, bins: seq<Bin>, req: Resources, picks: seq<nat>, i: nat)
    requires Run(rule, bins, req, picks)
    requires Chooses(rule, Packed(bins, req, picks), req, i)
    ensures Run(rule, bins, req, picks + [i])
    ensures Packed(bins, req, picks + [i]) ==
            var before := Packed(bins, req, picks);
            before[i := before[i].(avail := Minus(before[i].avail, req))]
  {
    var more := picks + [i];
    assert more[..|picks|] == picks;
    forall k | 0 <= k < |more|
      ensures Chooses(rule, Packed(bins, req, more[..k]), req, more[k])
    {
      if k < |picks| {
        assert more[..k] == picks[..k];
      }
    }
  }

  lemma RunPrefix(rule: Rule, bins: seq<Bin>, req: Resources, picks: seq<nat>)
    requires Run(rule, bins, req, picks) && picks != []
    ensures Run(rule, bins, req, picks[..|picks| - 1])
  {
    var front := picks[..|picks| - 1];
    forall k | 0 <= k < |front|
      ensures Chooses(rule, Packed(bins, req, front[..k]), req, front[k])
    {
      assert front[..k] == picks[..k];
    }
  }

  /** In any run each bin has taken its replicas one at a time and is only that much smaller. */
  lemma {:induction false} RunState(rule: Rule, bins: seq<Bin>, req: Resources, picks: seq<nat>, i: nat)
    requires Run(rule, bins, req, picks) && i < |bins|
    ensures Packed(bins, req, picks)[i] == bins[i].(avail := After(bins[i].avail, req, CountPicks(picks, i)))
    ensures Takes(rule, bins[i].avail, req, CountPicks(picks, i))
  {
    if picks != [] {
      var front := picks[..|picks| - 1];
      RunPrefix(rule, bins, req, picks);
      RunState(rule, bins, req, front, i);
      assert Chooses(rule, Packed(bins, req, front), req, picks[|picks| - 1]);
    }
  }

  ghost function Counts(picks: seq<nat>, n: nat): (c: seq<nat>)
    ensures |c| == n
    ensures forall i :: 0 <= i < n ==> c[i] == CountPicks(picks, i)
  {
    seq(n, i requires 0 <= i < n => CountPicks(picks, i))
  }

  /** Every pick is counted on exactly one bin. */
  lemma {:induction false} CountsAddUp(picks: seq<nat>, n: nat)
    requires forall k :: 0 <= k < |picks| ==> picks[k] < n
    ensures Sum(Counts(picks, n)) == |picks|
  {
    if picks == [] {
      SumZeros(Counts(picks, n));
    } else {
      var front, last := picks[..|picks| - 1], picks[|picks| - 1];
      CountsAddUp(front, n);
      var c := Counts(front, n);
      assert Counts(picks, n) == c[last := c[last] + 1];
      SumUpdate(c, last, c[last] + 1);
    }
  }

  /** Any rule that stops only when stuck places min(replicas, total room), whatever bins it prefers. */
  lemma CompleteRunLength(rule: Rule, bins: seq<Bin>, req: Resources, picks: seq<nat>, replicas: nat)
    requires Complete(rule, bins, req, picks, replicas)
    ensures |picks| == Min(replicas, TotalRoom(rule, Avails(bins), req, replicas))
  {
    var counts, rooms := Counts(picks, |bins|), Rooms(rule, Avails(bins), req, replicas);
    CountsAddUp(picks, |bins|);
    forall i | 0 <= i < |bins|
      ensures counts[i] <= rooms[i]
      ensures |picks| < replicas ==> counts[i] == rooms[i]
    {
      SumBounds(counts, i);
      RunState(rule, bins, req, picks, i);
      RoomIsLargest(rule, bins[i].avail, req, replicas, counts[i]);
      if |picks| < replicas {
        assert !Accepts(rule, req, After(bins[i].avail, req, counts[i]));
        RoomIsLargest(rule, bins[i].avail, req, replicas, counts[i] + 1);
      }
    }
    SumMonotone(counts, rooms);
    if |picks| < replicas {
      assert counts == rooms;
    }
  }

  /** First-fit moves past a bin only when it is full, and a full bin stays full. */
  lemma {:induction false} FirstFitSaturates(bins: seq<Bin>, req: Resources, picks: seq<nat>, i: nat, j: nat)
    requires Run(FirstFit, bins, req, picks)
    requires j < i < |bins| && 0 < CountPicks(picks, i)
    ensures !Fits(req, Packed(bins, req, picks)[j].avail)
  {
    var front, last := picks[..|picks| - 1], picks[|picks| - 1];
    RunPrefix(FirstFit, bins, req, picks);
    var before := Packed(bins, req, front);
    assert Chooses(FirstFit, before, req, last);
    if 0 < CountPicks(front, i) {
      FirstFitSaturates(bins, req, front, i, j);
      assert !Accepts(FirstFit, req, before[j].avail);
      assert last != j;
    } else {
      assert last == i;
    }
  }

  // ---- Placements by node ----

  function CountOn(placements: seq<Placement>, id: string): nat {
    if placements == [] then 0
    else CountOn(placements[..|placements| - 1], id)
         + if placements[|placements| - 1].nodeID == id then 1 else 0
  }

  ghost predicate DistinctBins(bins: seq<Bin>) {
    forall i, j :: 0 <= i < j < |bins| ==> bins[i].nodeID != bins[j].nodeID
  }

  /** Each placement names the bin that was picked for it. */
  ghost predicate Records(bins: seq<Bin>, picks: seq<nat>, placements: seq<Placement>) {
    && InRange(bins, picks)
    && |placements| == |picks|
    && forall k :: 0 <= k < |picks| ==>
         && placements[k].nodeID == bins[picks[k]].nodeID
         && placements[k].nodeName == bins[picks[k]].nodeName
         && placements[k].score == bins[picks[k]].score
  }

  lemma {:induction false} CountOnIsCountPicks(bins: seq<Bin>, picks: seq<nat>, placements: seq<Placement>, i: nat)
    requires DistinctBins(bins) && Records(bins, picks, placements) && i < |bins|
    ensures CountOn(placements, bins[i].nodeID) == CountPicks(picks, i)
  {
    if picks != [] {
      CountOnIsCountPicks(bins, picks[..|picks| - 1], placements[..|placements| - 1], i);
    }
  }

  /** No node is asked for more than it has free. */
  ghost predicate NeverOvercommits(nodes: seq<ScoredNode>, req: Resources, placements: seq<Placement>) {
    forall n :: n in nodes ==> Hosts(Available(n.node), req, CountOn(placements, n.node.id))
  }

  function NodesOf(nodes: seq<ScoredNode>): (r: seq<Node>)
    ensures |r| == |nodes| && forall i :: 0 <= i < |nodes| ==> r[i] == nodes[i].node
  {
    seq(|nodes|, i requires 0 <= i < |nodes| => nodes[i].node)
  }

  /** Every node's capacity covers what it used before and what was placed on it. */
  ghost predicate AllCovered(nodes: seq<ScoredNode>, req: Resources, placements: seq<Placement>) {
    forall n :: n in nodes && 0 < CountOn(placements, n.node.id) ==>
      Covers(n.node, req, CountOn(placements, n.node.id))
  }

  lemma HostedAreCovered(nodes: seq<ScoredNode>, req: Resources, placements: seq<Placement>)
    ensures NeverOvercommits(nodes, req, placements) ==> AllCovered(nodes, req, placements)
  {
    if NeverOvercommits(nodes, req, placements) {
      forall n | n in nodes && 0 < CountOn(placements, n.node.id)
        ensures Covers(n.node, req, CountOn(placements, n.node.id))
      {
        TakenIsCovered(n.node, req, CountOn(placements, n.node.id));
      }
    }
  }

  /** One more replica: the run, the record of placements and the bins move together. */
  lemma PlaceOne(rule: Rule, bins: seq<Bin>, req: Resources, picks: seq<nat>, placements: seq<Placement>, i: nat, itemID: int)
    requires Run(rule, bins, req, picks) && Records(bins, picks, placements)
    requires Chooses(rule, Packed(bins, req, picks), req, i)
    ensures var now := Packed(bins, req, picks)[i];
            && Run(rule, bins, req, picks + [i])
            && Records(bins, picks + [i], placements + [Placement(now.nodeID, now.nodeName, itemID, now.score)])
            && Packed(bins, req, picks + [i]) == Packed(bins, req, picks)[i := now.(avail := Minus(now.avail, req))]
  {
    RunState(rule, bins, req, picks, i);
    RunExtends(rule, bins, req, picks, i);
  }

  /** A node is used only once every strictly better-scored node is full. */
  ghost predicate GreedyByScore(nodes: seq<ScoredNode>, req: Resources, placements: seq<Placement>) {
    forall m, n :: m in nodes && n in nodes && m.score > n.score && 0 < CountOn(placements, n.node.id) ==>
      !Fits(req, After(Available(m.node), req, CountOn(placements, m.node.id)))
  }

  /** Every placement names a node of the input, with its name and score. */
  ghost predicate OnNodes(nodes: seq<ScoredNode>, placements: seq<Placement>) {
    forall p :: p in placements ==>
      exists n :: n in nodes && p.nodeID == n.node.id && p.nodeName == n.node.name && p.score == n.score
  }

  // ---- Item IDs ----

  const REPLACEMENT := 0xFFFD
  /** The most replicas whose IDs are all different. */
  const MAX_DISTINCT := 0xD801

  /** string(rune(i)): what is no Unicode scalar value becomes U+FFFD. */
  function RuneID(i: nat): int {
    var r := WrapInt32(i);
    if 0 <= r < 0xD800 || 0xE000 <= r <= 0x10FFFF then r else REPLACEMENT
  }

  ghost predicate DistinctRunes(n: nat) {
    forall i, j :: 0 <= i < j < n ==> RuneID(i) != RuneID(j)
  }

  /** The IDs of n replicas are different exactly up to the second surrogate. */
  lemma DistinctRunesIff(n: nat)
    ensures DistinctRunes(n) <==> n <= MAX_DISTINCT
  {
    assert RuneID(0xD800) == RuneID(0xD801) == REPLACEMENT;
    if n <= MAX_DISTINCT {
      assert forall i :: 0 <= i < n ==> RuneID(i) == if i < 0xD800 then i else REPLACEMENT;
    }
  }

  ghost predicate DistinctItems(placements: seq<Placement>) {
    forall a, b :: 0 <= a < b < |placements| ==> placements[a].itemID != placements[b].itemID
  }

  /** Placements that number the replicas in order have different IDs exactly up to the limit. */
  lemma NumberedDistinctIff(placements: seq<Placement>)
    requires forall k :: 0 <= k < |placements| ==> placements[k].itemID == RuneID(k)
    ensures DistinctItems(placements) <==> |placements| <= MAX_DISTINCT
  {
    DistinctRunesIff(|placements|);
    if DistinctItems(placements) {
      forall i, j | 0 <= i < j < |placements|
        ensures RuneID(i) != RuneID(j)
      {
        assert placements[i].itemID == RuneID(i) && placements[j].itemID == RuneID(j);
      }
    }
  }

  /** A rearrangement of the input's bins. */
  ghost predicate Rearranges(bins: seq<Bin>, nodes: seq<ScoredNode>) {
    multiset(bins) == multiset(BinsOf(nodes))
  }

  lemma RearrangedHas(bins: seq<Bin>, nodes: seq<ScoredNode>, n: ScoredNode) returns (i: nat)
    requires Rearranges(bins, nodes) && n in nodes
    ensures i < |bins| && bins[i] == BinOf(n)
  {
    var k :| 0 <= k < |nodes| && nodes[k] == n;
    assert BinsOf(nodes)[k] in multiset(BinsOf(nodes));
    assert BinOf(n) in multiset(bins);
    i :| 0 <= i < |bins| && bins[i] == BinOf(n);
  }

  lemma AvailsPermute(a: seq<Bin>, b: seq<Bin>)
    requires multiset(a) == multiset(b)
    ensures multiset(Avails(a)) == multiset(Avails(b))
  {
    var avail := (b: Bin) => b.avail;
    ApplyPermutes(a, b, avail);
    assert Avails(a) == Apply(a, avail) && Avails(b) == Apply(b, avail);
  }

  lemma DistinctRearranged(bins: seq<Bin>, nodes: seq<ScoredNode>)
    requires Rearranges(bins, nodes) && UniqueIDs(nodes)
    ensures DistinctBins(bins)
  {
    var id := (b: Bin) => b.nodeID;
    assert DistinctBy(BinsOf(nodes), id);
    DistinctPermutes(BinsOf(nodes), bins, id);
    assert forall i, j :: 0 <= i < j < |bins| ==> id(bins[i]) != id(bins[j]);
  }

  /** What a complete run means for the nodes it packed. */
  lemma RunPacksNodes(rule: Rule, nodes: seq<ScoredNode>, bins: seq<Bin>, req: Resources,
                      picks: seq<nat>, placements: seq<Placement>, replicas: nat)
    requires Rearranges(bins, nodes)
    requires Complete(rule, bins, req, picks, replicas) && Records(bins, picks, placements)
    ensures |placements| == Min(replicas, TotalRoom(rule, Avails(BinsOf(nodes)), req, replicas))
    ensures OnNodes(nodes, placements)
    ensures UniqueIDs(nodes) ==> NeverOvercommits(nodes, req, placements)
  {
    CompleteRunLength(rule, bins, req, picks, replicas);
    AvailsPermute(bins, BinsOf(nodes));
    TotalRoomPermutes(rule, Avails(bins), Avails(BinsOf(nodes)), req, replicas);
    forall k | 0 <= k < |placements|
      ensures exists n :: n in nodes && placements[k].nodeID == n.node.id
                          && placements[k].nodeName == n.node.name && placements[k].score == n.score
    {
      assert bins[picks[k]] in multiset(BinsOf(nodes));
      var i :| 0 <= i < |nodes| && BinsOf(nodes)[i] == bins[picks[k]];
      assert nodes[i] in nodes;
    }
    if UniqueIDs(nodes) {
      DistinctRearranged(bins, nodes);
      forall n | n in nodes
        ensures Hosts(Available(n.node), req, CountOn(placements, n.node.id))
      {
        var i := RearrangedHas(bins, nodes, n);
        CountOnIsCountPicks(bins, picks, placements, i);
        RunState(rule, bins, req, picks, i);
        assert forall j :: 0 <= j < CountPicks(picks, i) ==>
          Accepts(rule, req, After(bins[i].avail, req, j)) ==> Accepts(FirstFit, req, After(bins[i].avail, req, j));
      }
    }
  }

  lemma FirstFitIsGreedy(nodes: seq<ScoredNode>, bins: seq<Bin>, req: Resources, picks: seq<nat>, placements: seq<Placement>)
    requires UniqueIDs(nodes) && Rearranges(bins, nodes) && Descending(bins, (b: Bin) => b.score)
    requires Run(FirstFit, bins, req, picks) && Records(bins, picks, placements)
    ensures GreedyByScore(nodes, req, placements)
  {
    DistinctRearranged(bins, nodes);
    forall m, n | m in nodes && n in nodes && m.score > n.score && 0 < CountOn(placements, n.node.id)
      ensures !Fits(req, After(Available(m.node), req, CountOn(placements, m.node.id)))
    {
      var j := RearrangedHas(bins, nodes, m);
      var i := RearrangedHas(bins, nodes, n);
      var key := (b: Bin) => b.score;
      assert key(bins[j]) == m.score && key(bins[i]) == n.score;
      assert j < i;
      CountOnIsCountPicks(bins, picks, placements, i);
      CountOnIsCountPicks(bins, picks, placements, j);
      FirstFitSaturates(bins, req, picks, i, j);
      RunState(FirstFit, bins, req, picks, j);
    }
  }

  // ---- The packers ----

  method CreateBins(nodes: seq<ScoredNode>) returns (bins: seq<Bin>)
    ensures bins == BinsOf(nodes)
    ensures forall i :: 0 <= i < |nodes| ==>
              var n, b := nodes[i].node, bins[i];
              && b.nodeID == n.id && b.nodeName == n.name && b.score == nodes[i].score
              && b.avail.cpu == n.capacity.cpu - n.usage.cpu
              && b.avail.memory == n.capacity.memory - n.usage.memory
              && b.avail.storage == n.capacity.storage - n.usage.storage
  {
    bins := [];
    for i := 0 to |nodes|
      invariant bins == BinsOf(nodes)[..i]
    {
      bins := bins + [BinOf(nodes[i])];
    }
  }

  method CreateItems(req: Resources, replicas: int) returns (items: seq<Item>)
    ensures |items| == Max(replicas, 0)
    ensures forall i :: 0 <= i < |items| ==> items[i] == Item(RuneID(i), req)
  {
    items := [];
    var i := 0;
    while i < replicas
      invariant 0 <= i <= Max(replicas, 0) && |items| == i
      invariant forall k :: 0 <= k < i ==> items[k] == Item(RuneID(k), req)
    {
      items := items + [Item(RuneID(i), req)];
      i := i + 1;
    }
  }

  function ItemSize(item: Item): int {
    item.req.cpu + item.req.memory / 1_000_000
  }

  /** Sorting equal-sized items may shuffle them; their IDs stay as different as they were. */
  lemma ShuffledItems(items: seq<Item>, sorted: seq<Item>, req: Resources)
    requires forall i :: 0 <= i < |items| ==> items[i] == Item(RuneID(i), req)
    requires multiset(items) == multiset(sorted)
    ensures forall i :: 0 <= i < |sorted| ==> sorted[i].req == req
    ensures DistinctBy(sorted, ItemID()) <==> |items| <= MAX_DISTINCT
  {
    forall i | 0 <= i < |sorted|
      ensures sorted[i].req == req
    {
      assert sorted[i] in multiset(items);
    }
    DistinctRunesIff(|items|);
    if DistinctBy(sorted, ItemID()) {
      DistinctPermutes(sorted, items, ItemID());
      forall i, j | 0 <= i < j < |items|
        ensures RuneID(i) != RuneID(j)
      {
        assert ItemID()(items[i]) != ItemID()(items[j]);
      }
    }
    if |items| <= MAX_DISTINCT {
      DistinctPermutes(items, sorted, ItemID());
    }
  }

  function ItemID(): Item -> int {
    (t: Item) => t.id
  }

  /** Placements carry the IDs of the first items. */
  lemma PlacedDistinct(items: seq<Item>, placements: seq<Placement>)
    requires |placements| <= |items|
    requires forall k :: 0 <= k < |placements| ==> placements[k].itemID == items[k].id
    ensures DistinctBy(items, ItemID()) ==> DistinctItems(placements)
    ensures |placements| == |items| ==> (DistinctItems(placements) <==> DistinctBy(items, ItemID()))
  {
    if DistinctBy(items, ItemID()) {
      forall a, b | 0 <= a < b < |placements|
        ensures placements[a].itemID != placements[b].itemID
      {
        assert ItemID()(items[a]) != ItemID()(items[b]);
      }
    }
    if |placements| == |items| && DistinctItems(placements) {
      forall a, b | 0 <= a < b < |items|
        ensures ItemID()(items[a]) != ItemID()(items[b])
      {
        assert placements[a].itemID != placements[b].itemID;
      }
    }
  }

  /** The packing loops: bins shrink in place as items go into the first bin that fits. */
  method FillBins(bins: array<Bin>, items: seq<Item>, req: Resources)
    returns (placements: seq<Placement>, ghost picks: seq<nat>)
    requires forall i :: 0 <= i < |items| ==> items[i].req == req
    modifies bins
    ensures Complete(FirstFit, old(bins[..]), req, picks, |items|)
    ensures bins[..] == Packed(old(bins[..]), req, picks)
    ensures Records(old(bins[..]), picks, placements)
    ensures forall k :: 0 <= k < |placements| ==> placements[k].itemID == items[k].id
  {
    placements, picks := [], [];
    ghost var start := bins[..];
    for n := 0 to |items|
      invariant Run(FirstFit, start, req, picks) && bins[..] == Packed(start, req, picks)
      invariant Records(start, picks, placements)
      invariant |picks| <= n && (|picks| < n ==> Stuck(FirstFit, bins[..], req))
      invariant forall k :: 0 <= k < |placements| ==> placements[k].itemID == items[k].id
    {
      var item := items[n];
      for i := 0 to bins.Length
        invariant bins[..] == Packed(start, req, picks)
        invariant forall j :: 0 <= j < i ==> !Accepts(FirstFit, req, bins[..][j].avail)
      {
        if Fits(item.req, bins[i].avail) {
          PlaceOne(FirstFit, start, req, picks, placements, i, item.id);
          placements := placements + [Placement(bins[i].nodeID, bins[i].nodeName, item.id, bins[i].score)];
          picks := picks + [i];
          bins[i] := bins[i].(avail := Minus(bins[i].avail, item.req));
          break;
        }
      }
    }
  }

  /** First-fit decreasing. It is optimal, never over-commits, and fills by score. */
  method Pack(nodes: seq<ScoredNode>, req: Resources, replicas: int) returns (placements: seq<Placement>)
    ensures |placements| == Min(Max(replicas, 0), TotalRoom(FirstFit, Avails(BinsOf(nodes)), req, Max(replicas, 0)))
    ensures forall counts :: Feasible(Avails(BinsOf(nodes)), req, counts) && Sum(counts) <= replicas ==>
              Sum(counts) <= |placements|
    ensures OnNodes(nodes, placements)
    ensures replicas <= MAX_DISTINCT || |placements| == replicas ==>
              (DistinctItems(placements) <==> replicas <= MAX_DISTINCT)
    ensures UniqueIDs(nodes) ==> NeverOvercommits(nodes, req, placements) && GreedyByScore(nodes, req, placements)
    ensures UniqueIDs(nodes) ==> AllCovered(nodes, req, placements)
    ensures 0 <= req.cpu && 0 <= req.memory && 0 <= req.storage ==> NoneBetter(nodes, req, replicas, |placements|)
  {
    var unsorted := CreateBins(nodes);
    var sorted := SortSlice(unsorted, (b: Bin) => b.score);
    var bins := new Bin[|sorted|](i requires 0 <= i < |sorted| => sorted[i]);
    var created := CreateItems(req, replicas);
    var items := SortSlice(created, (t: Item) => ItemSize(t) as real);
    ShuffledItems(created, items, req);
    assert bins[..] == sorted;

    ghost var picks;
    placements, picks := FillBins(bins, items, req);
    PlacedDistinct(items, placements);
    RunPacksNodes(FirstFit, nodes, sorted, req, picks, placements, |items|);
    if UniqueIDs(nodes) {
      FirstFitIsGreedy(nodes, sorted, req, picks, placements);
    }
    MostPlaced(nodes, req, replicas, |placements|);
    HostedAreCovered(nodes, req, placements);
  }

  /** No assignment of at most `replicas` replicas places more than `placed`. */
  ghost predicate NoneBetter(nodes: seq<ScoredNode>, req: Resources, replicas: int, placed: nat) {
    forall counts :: CanHost(NodesOf(nodes), req, counts) && Sum(counts) <= replicas ==> Sum(counts) <= placed
  }

  lemma MostPlaced(nodes: seq<ScoredNode>, req: Resources, replicas: int, placed: nat)
    requires placed == Min(Max(replicas, 0), TotalRoom(FirstFit, Avails(BinsOf(nodes)), req, Max(replicas, 0)))
    ensures forall counts :: Feasible(Avails(BinsOf(nodes)), req, counts) && Sum(counts) <= replicas ==> Sum(counts) <= placed
    ensures 0 <= req.cpu && 0 <= req.memory && 0 <= req.storage ==> NoneBetter(nodes, req, replicas, placed)
  {
    forall counts | Feasible(Avails(BinsOf(nodes)), req, counts) && Sum(counts) <= replicas
      ensures Sum(counts) <= placed
    {
      NoAssignmentBeats(Avails(BinsOf(nodes)), req, counts, replicas);
    }
    if 0 <= req.cpu && 0 <= req.memory && 0 <= req.storage {
      forall counts | CanHost(NodesOf(nodes), req, counts) && Sum(counts) <= replicas
        ensures Sum(counts) <= placed
      {
        FeasibleIffCanHost(NodesOf(nodes), Avails(BinsOf(nodes)), req, counts);
      }
    }
  }

  /** The scan of the best-fit loop: the first bin of least waste, or -1 if none accepts. */
  method LeastWaste(bins: array<Bin>, req: Resources) returns (bestBin: int)
    ensures bestBin == -1 <==> Stuck(BestFit, bins[..], req)
    ensures bestBin != -1 ==> 0 <= bestBin && Chooses(BestFit, bins[..], req, bestBin)
  {
    bestBin := -1;
    var minWaste := MAX_INT64;
    for j := 0 to bins.Length
      invariant -1 <= bestBin < j
      invariant bestBin == -1 ==> minWaste == MAX_INT64
                                  && forall k :: 0 <= k < j ==> !Accepts(BestFit, req, bins[k].avail)
      invariant bestBin >= 0 ==> minWaste == Waste(req, bins[bestBin].avail) && Accepts(BestFit, req, bins[bestBin].avail)
      invariant bestBin >= 0 ==>
                  forall k :: 0 <= k < j && Accepts(BestFit, req, bins[k].avail) ==>
                    minWaste <= Waste(req, bins[k].avail) && (k < bestBin ==> minWaste < Waste(req, bins[k].avail))
    {
      if Fits(req, bins[j].avail) {
        var waste := Waste(req, bins[j].avail);
        if waste < minWaste {
          minWaste := waste;
          bestBin := j;
        }
      }
    }
    assert bestBin >= 0 ==> Accepts(BestFit, req, bins[..][bestBin].avail);
  }

  /** The best-fit loop: each replica goes to the bin with least waste, which shrinks in place. */
  method FillLeastWaste(bins: array<Bin>, req: Resources, replicas: int)
    returns (placements: seq<Placement>, ghost picks: seq<nat>)
    modifies bins
    ensures Complete(BestFit, old(bins[..]), req, picks, Max(replicas, 0))
    ensures Records(old(bins[..]), picks, placements)
    ensures forall k :: 0 <= k < |placements| ==> placements[k].itemID == RuneID(k)
  {
    placements, picks := [], [];
    ghost var start := bins[..];
    var n := 0;
    while n < replicas
      invariant 0 <= n <= Max(replicas, 0)
      invariant Run(BestFit, start, req, picks) && bins[..] == Packed(start, req, picks)
      invariant Records(start, picks, placements)
      invariant |picks| <= n && (|picks| < n ==> Stuck(BestFit, bins[..], req))
      invariant forall k :: 0 <= k < |placements| ==> placements[k].itemID == RuneID(k)
    {
      var bestBin := LeastWaste(bins, req);
      if bestBin >= 0 {
        PlaceOne(BestFit, start, req, picks, placements, bestBin, RuneID(n));
        placements := placements + [Placement(bins[bestBin].nodeID, bins[bestBin].nodeName, RuneID(n), bins[bestBin].score)];
        picks := picks + [bestBin];
        bins[bestBin] := bins[bestBin].(avail := Minus(bins[bestBin].avail, req));
      }
      n := n + 1;
    }
  }

  /** Best-fit packing. */
  method PackBestFit(nodes: seq<ScoredNode>, req: Resources, replicas: int)
    returns (placements: seq<Placement>, ghost picks: seq<nat>)
    ensures |placements| == Min(Max(replicas, 0), TotalRoom(BestFit, Avails(BinsOf(nodes)), req, Max(replicas, 0)))
    ensures Complete(BestFit, BinsOf(nodes), req, picks, Max(replicas, 0)) && Records(BinsOf(nodes), picks, placements)
    ensures OnNodes(nodes, placements)
    ensures DistinctItems(placements) <==> |placements| <= MAX_DISTINCT
    ensures UniqueIDs(nodes) ==> NeverOvercommits(nodes, req, placements) && AllCovered(nodes, req, placements)
  {
    var created := CreateBins(nodes);
    var bins := new Bin[|created|](i requires 0 <= i < |created| => created[i]);
    assert bins[..] == created;
    placements, picks := FillLeastWaste(bins, req, replicas);
    NumberedDistinctIff(placements);
    RunPacksNodes(BestFit, nodes, created, req, picks, placements, Max(replicas, 0));
    HostedAreCovered(nodes, req, placements);
  }
}
