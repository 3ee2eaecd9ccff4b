/** Spreading replicas over topology groups, one per group first, then one per remaining node. */
module Spread {
  import opened Common
  import opened Sorting
  import opened Nodes
  import opened Capacity
  import opened BinPack

  function GroupKey(spreadKey: string, n: Node): string {
    if spreadKey == "zone" then n.zone
    else if spreadKey == "region" then n.region
    else if spreadKey == "node" then n.id
    else "default"
  }

  /** The packer checks capacity; the scheduler spreads nodes it has filtered already. */
  predicate Capable(need: Option<Resources>, n: Node) {
    need.Some? ==> Fits(need.value, Available(n))
  }

  /** The packer labels its k-th replica string(rune(k)), the scheduler by the number itself. */
  function ReplicaID(need: Option<Resources>, k: nat): int {
    if need.Some? then RuneID(k) else k
  }

  ghost function CapableIDs(nodes: seq<ScoredNode>, need: Option<Resources>): set<string> {
    set n | n in nodes && Capable(need, n.node) :: n.node.id
  }

  ghost function CapableGroups(nodes: seq<ScoredNode>, need: Option<Resources>, key: string): set<string> {
    set n | n in nodes && Capable(need, n.node) :: GroupKey(key, n.node)
  }

  ghost function UsedIDs(placements: seq<Placement>): set<string> {
    set p | p in placements :: p.nodeID
  }

  ghost function UsedGroups(nodes: seq<ScoredNode>, placements: seq<Placement>, key: string): set<string> {
    set n | n in nodes && n.node.id in UsedIDs(placements) :: GroupKey(key, n.node)
  }

  /** n is a best-scored capable node of its group. */
  ghost predicate BestOfGroup(nodes: seq<ScoredNode>, need: Option<Resources>, key: string, n: ScoredNode) {
    forall m :: m in nodes && Capable(need, m.node) && GroupKey(key, m.node) == GroupKey(key, n.node) ==> m.score <= n.score
  }

  /** Each node at most once, as many nodes as possible, as many groups as possible, and the
      best node of every group used. */
  ghost predicate SpreadsWidely(nodes: seq<ScoredNode>, need: Option<Resources>, key: string, replicas: nat, placements: seq<Placement>) {
    && (forall a, b :: 0 <= a < b < |placements| ==> placements[a].nodeID != placements[b].nodeID)
    && UsedIDs(placements) <= CapableIDs(nodes, need)
    && |placements| == Min(replicas, |CapableIDs(nodes, need)|)
    && |UsedGroups(nodes, placements, key)| == Min(replicas, |CapableGroups(nodes, need, key)|)
    && forall g :: g in UsedGroups(nodes, placements, key) ==>
         exists n :: n in nodes && n.node.id in UsedIDs(placements) && GroupKey(key, n.node) == g && BestOfGroup(nodes, need, key, n)
  }

  // ---- Told by the nodes' own fields ----

  /** The attribute a spread policy looks at. */
  lemma GroupsIff(m: Node, n: Node)
    ensures GroupKey("zone", m) == GroupKey("zone", n) <==> m.zone == n.zone
    ensures GroupKey("region", m) == GroupKey("region", n) <==> m.region == n.region
    ensures GroupKey("node", m) == GroupKey("node", n) <==> m.id == n.id
    ensures forall key :: key !in {"zone", "region", "node"} ==> GroupKey(key, m) == GroupKey(key, n)
  {
  }

  /** The nodes with room for one more replica. */
  lemma CapableIff(req: Resources, n: Node)
    ensures Capable(Some(req), n) <==> Covers(n, req, 1)
  {
  }

  ghost function UsedNodes(nodes: seq<ScoredNode>, placements: seq<Placement>): set<Node> {
    set n | n in nodes && exists p :: p in placements && p.nodeID == n.node.id :: n.node
  }

  /** As many zones, and as many regions, as there are replicas for. */
  ghost predicate SpreadsPlaces(nodes: set<Node>, used: set<Node>, key: string, replicas: nat) {
    && (key == "zone" ==> |set n | n in used :: n.zone| == Min(replicas, |set n | n in nodes :: n.zone|))
    && (key == "region" ==> |set n | n in used :: n.region| == Min(replicas, |set n | n in nodes :: n.region|))
  }

  ghost function CapableNodes(nodes: seq<ScoredNode>, need: Option<Resources>): set<Node> {
    set n | n in nodes && (need.Some? ==> Covers(n.node, need.value, 1)) :: n.node
  }

  lemma SpreadsZones(nodes: seq<ScoredNode>, need: Option<Resources>, replicas: nat, placements: seq<Placement>)
    requires SpreadsWidely(nodes, need, "zone", replicas, placements)
    ensures SpreadsPlaces(CapableNodes(nodes, need), UsedNodes(nodes, placements), "zone", replicas)
  {
    var used, capable := UsedNodes(nodes, placements), CapableNodes(nodes, need);
    assert (set n | n in used :: n.zone) == UsedGroups(nodes, placements, "zone");
    assert (set n | n in capable :: n.zone) == CapableGroups(nodes, need, "zone");
  }

  lemma SpreadsRegions(nodes: seq<ScoredNode>, need: Option<Resources>, replicas: nat, placements: seq<Placement>)
    requires SpreadsWidely(nodes, need, "region", replicas, placements)
    ensures SpreadsPlaces(CapableNodes(nodes, need), UsedNodes(nodes, placements), "region", replicas)
  {
    var used, capable := UsedNodes(nodes, placements), CapableNodes(nodes, need);
    assert (set n | n in used :: n.region) == UsedGroups(nodes, placements, "region");
    assert (set n | n in capable :: n.region) == CapableGroups(nodes, need, "region");
  }

  lemma SpreadsByPlace(nodes: seq<ScoredNode>, need: Option<Resources>, key: string, replicas: nat, placements: seq<Placement>)
    requires SpreadsWidely(nodes, need, key, replicas, placements)
    ensures SpreadsPlaces(CapableNodes(nodes, need), UsedNodes(nodes, placements), key, replicas)
  {
    if key == "zone" {
      SpreadsZones(nodes, need, replicas, placements);
    } else if key == "region" {
      SpreadsRegions(nodes, need, replicas, placements);
    }
  }

  // ---- What the passes maintain ----

  ghost predicate Chosen(nodes: seq<ScoredNode>, need: Option<Resources>, chosen: seq<ScoredNode>, placements: seq<Placement>) {
    && |placements| == |chosen|
    && (forall k :: 0 <= k < |chosen| ==>
          && chosen[k] in nodes && Capable(need, chosen[k].node)
          && placements[k] == Placement(chosen[k].node.id, chosen[k].node.name, ReplicaID(need, k), chosen[k].score))
    && forall a, b :: 0 <= a < b < |chosen| ==> chosen[a].node.id != chosen[b].node.id
  }

  /** The first `first` choices are best nodes of pairwise different groups. */
  ghost predicate FirstPass(nodes: seq<ScoredNode>, need: Option<Resources>, key: string, chosen: seq<ScoredNode>, first: nat) {
    && first <= |chosen|
    && (forall k :: 0 <= k < first ==> BestOfGroup(nodes, need, key, chosen[k]))
    && forall a, b :: 0 <= a < b < first ==> GroupKey(key, chosen[a].node) != GroupKey(key, chosen[b].node)
  }

  ghost function GroupSet(key: string, chosen: seq<ScoredNode>): set<string> {
    set n | n in chosen :: GroupKey(key, n.node)
  }

  lemma GroupSetExtends(key: string, chosen: seq<ScoredNode>, n: ScoredNode)
    ensures GroupSet(key, chosen + [n]) == GroupSet(key, chosen) + {GroupKey(key, n.node)}
  {
    assert n in chosen + [n];
    assert forall m :: m in chosen + [n] <==> m in chosen || m == n;
  }

  lemma {:induction false} DistinctCount(s: seq<string>)
    requires forall a, b :: 0 <= a < b < |s| ==> s[a] != s[b]
    ensures |set x | x in s| == |s|
  {
    if s != [] {
      var front, last := s[..|s| - 1], s[|s| - 1];
      DistinctCount(front);
      assert (set x | x in s) == (set x | x in front) + {last};
      assert last !in front;
    }
  }

  ghost function ChosenIDs(chosen: seq<ScoredNode>): (ids: seq<string>)
    ensures |ids| == |chosen|
    ensures forall k :: 0 <= k < |chosen| ==> ids[k] == chosen[k].node.id
  {
    seq(|chosen|, k requires 0 <= k < |chosen| => chosen[k].node.id)
  }

  /** Nodes of pairwise different groups make as many groups as nodes. */
  lemma {:induction false} GroupSetSize(key: string, chosen: seq<ScoredNode>)
    requires forall a, b :: 0 <= a < b < |chosen| ==> GroupKey(key, chosen[a].node) != GroupKey(key, chosen[b].node)
    ensures |GroupSet(key, chosen)| == |chosen|
  {
    if chosen != [] {
      var front, last := chosen[..|chosen| - 1], chosen[|chosen| - 1];
      GroupSetSize(key, front);
      assert chosen == front + [last];
      GroupSetExtends(key, front, last);
    }
  }

  lemma UsedIDsAre(nodes: seq<ScoredNode>, need: Option<Resources>, chosen: seq<ScoredNode>, placements: seq<Placement>)
    requires Chosen(nodes, need, chosen, placements)
    ensures UsedIDs(placements) == set x | x in ChosenIDs(chosen)
    ensures |UsedIDs(placements)| == |placements|
    ensures UsedIDs(placements) <= CapableIDs(nodes, need)
  {
    var ids := ChosenIDs(chosen);
    DistinctCount(ids);
    forall id
      ensures id in UsedIDs(placements) <==> id in ids
    {
      if id in ids {
        var k :| 0 <= k < |ids| && ids[k] == id;
        assert placements[k] in placements;
      }
      if id in UsedIDs(placements) {
        var k :| 0 <= k < |placements| && placements[k].nodeID == id;
        assert ids[k] == id;
      }
    }
  }

  lemma SameIDSameNode(nodes: seq<ScoredNode>, m: ScoredNode, n: ScoredNode)
    requires UniqueIDs(nodes) && m in nodes && n in nodes && m.node.id == n.node.id
    ensures m == n
  {
    var i :| 0 <= i < |nodes| && nodes[i] == m;
    var j :| 0 <= j < |nodes| && nodes[j] == n;
    assert i == j;
  }

  /** With unique IDs, the groups used are the groups of the chosen nodes. */
  lemma UsedGroupsAre(nodes: seq<ScoredNode>, need: Option<Resources>, key: string, chosen: seq<ScoredNode>, placements: seq<Placement>)
    requires UniqueIDs(nodes) && Chosen(nodes, need, chosen, placements)
    ensures UsedGroups(nodes, placements, key) == GroupSet(key, chosen) <= CapableGroups(nodes, need, key)
  {
    forall g | g in UsedGroups(nodes, placements, key)
      ensures g in GroupSet(key, chosen)
    {
      var n :| n in nodes && n.node.id in UsedIDs(placements) && GroupKey(key, n.node) == g;
      var k :| 0 <= k < |placements| && placements[k].nodeID == n.node.id;
      SameIDSameNode(nodes, chosen[k], n);
    }
    forall g | g in GroupSet(key, chosen)
      ensures g in UsedGroups(nodes, placements, key) && g in CapableGroups(nodes, need, key)
    {
      var k :| 0 <= k < |chosen| && GroupKey(key, chosen[k].node) == g;
      assert chosen[k] in nodes && placements[k] in placements;
    }
  }

  /** What the first pass guarantees survives the second. */
  lemma FirstPassSpreads(nodes: seq<ScoredNode>, need: Option<Resources>, key: string, replicas: nat,
                         chosen: seq<ScoredNode>, placements: seq<Placement>, first: nat)
    requires UniqueIDs(nodes) && Chosen(nodes, need, chosen, placements) && |chosen| <= replicas
    requires FirstPass(nodes, need, key, chosen, first)
    requires first < replicas ==> CapableGroups(nodes, need, key) <= GroupSet(key, chosen[..first])
    ensures |UsedGroups(nodes, placements, key)| == Min(replicas, |CapableGroups(nodes, need, key)|)
    ensures UsedGroups(nodes, placements, key) == GroupSet(key, chosen[..first])
  {
    UsedGroupsAre(nodes, need, key, chosen, placements);
    var lead := GroupSet(key, chosen[..first]);
    assert lead <= GroupSet(key, chosen);
    GroupSetSize(key, chosen[..first]);
    SubsetSize(lead, CapableGroups(nodes, need, key));
    if first == replicas {
      assert chosen[..first] == chosen;
    } else {
      assert CapableGroups(nodes, need, key) == lead;
      assert UsedGroups(nodes, placements, key) == lead;
      assert |lead| == first < replicas;
    }
  }

  /** The two passes together spread as widely as possible. */
  lemma PassesSpread(nodes: seq<ScoredNode>, need: Option<Resources>, key: string, replicas: nat,
                     chosen: seq<ScoredNode>, placements: seq<Placement>, first: nat)
    requires UniqueIDs(nodes) && Chosen(nodes, need, chosen, placements) && |chosen| <= replicas
    requires FirstPass(nodes, need, key, chosen, first)
    requires first < replicas ==> CapableGroups(nodes, need, key) <= GroupSet(key, chosen[..first])
    requires |chosen| < replicas ==> CapableIDs(nodes, need) <= UsedIDs(placements)
    ensures SpreadsWidely(nodes, need, key, replicas, placements)
  {
    UsedIDsAre(nodes, need, chosen, placements);
    SubsetSize(UsedIDs(placements), CapableIDs(nodes, need));
    FirstPassSpreads(nodes, need, key, replicas, chosen, placements, first);
    if |chosen| < replicas {
      assert UsedIDs(placements) == CapableIDs(nodes, need);
    }
    forall g | g in UsedGroups(nodes, placements, key)
      ensures exists n :: n in nodes && n.node.id in UsedIDs(placements) && GroupKey(key, n.node) == g && BestOfGroup(nodes, need, key, n)
    {
      var _ := BestUsed(nodes, need, key, chosen, placements, first, g);
    }
  }

  lemma BestUsed(nodes: seq<ScoredNode>, need: Option<Resources>, key: string,
                 chosen: seq<ScoredNode>, placements: seq<Placement>, first: nat, g: string) returns (n: ScoredNode)
    requires Chosen(nodes, need, chosen, placements) && FirstPass(nodes, need, key, chosen, first)
    requires g in GroupSet(key, chosen[..first])
    ensures n in nodes && n.node.id in UsedIDs(placements) && GroupKey(key, n.node) == g && BestOfGroup(nodes, need, key, n)
  {
    var k :| 0 <= k < first && GroupKey(key, chosen[..first][k].node) == g;
    n := chosen[k];
    assert placements[k] in placements;
  }

  // ---- Grouping and the two passes ----

  /** Every node is in the list of its group and nowhere else, best score first. */
  ghost predicate Grouped(nodes: seq<ScoredNode>, key: string, groups: map<string, seq<ScoredNode>>) {
    && (forall n :: n in nodes ==> GroupKey(key, n.node) in groups && n in groups[GroupKey(key, n.node)])
    && (forall g, n :: g in groups && n in groups[g] ==> n in nodes && GroupKey(key, n.node) == g)
    && forall g :: g in groups ==> Descending(groups[g], (n: ScoredNode) => n.score)
  }

  method GroupNodes(nodes: seq<ScoredNode>, key: string) returns (groups: map<string, seq<ScoredNode>>)
    ensures Grouped(nodes, key, groups)
  {
    groups := map[];
    for i := 0 to |nodes|
      invariant forall n :: n in nodes[..i] ==> GroupKey(key, n.node) in groups && n in groups[GroupKey(key, n.node)]
      invariant forall g, n :: g in groups && n in groups[g] ==> n in nodes && GroupKey(key, n.node) == g
    {
      var g := GroupKey(key, nodes[i].node);
      groups := groups[g := (if g in groups then groups[g] else []) + [nodes[i]]];
    }
    var unsorted := groups.Keys;
    ghost var built := groups;
    while unsorted != {}
      invariant unsorted <= groups.Keys == built.Keys
      invariant forall g :: g in groups ==> multiset(groups[g]) == multiset(built[g])
      invariant forall g :: g in groups && g !in unsorted ==> Descending(groups[g], (n: ScoredNode) => n.score)
      decreases unsorted
    {
      var g :| g in unsorted;
      var sorted := SortSlice(groups[g], (n: ScoredNode) => n.score);
      groups := groups[g := sorted];
      unsorted := unsorted - {g};
    }
    forall g, n | g in groups
      ensures n in groups[g] <==> n in built[g]
    {
      assert n in groups[g] <==> n in multiset(groups[g]);
      assert n in built[g] <==> n in multiset(built[g]);
    }
  }

  /** selectBestNode: the first capable node of a list sorted by score. */
  method SelectBestNode(group: seq<ScoredNode>, need: Option<Resources>) returns (best: Option<ScoredNode>)
    requires Descending(group, (n: ScoredNode) => n.score)
    ensures best.None? ==> forall n :: n in group ==> !Capable(need, n.node)
    ensures best.Some? ==> best.value in group && Capable(need, best.value.node)
    ensures best.Some? ==> forall n :: n in group && Capable(need, n.node) ==> n.score <= best.value.score
  {
    ghost var score := (n: ScoredNode) => n.score;
    for i := 0 to |group|
      invariant forall k :: 0 <= k < i ==> !Capable(need, group[k].node)
    {
      if Capable(need, group[i].node) {
        assert forall k :: i < k < |group| ==> score(group[i]) >= score(group[k]);
        return Some(group[i]);
      }
    }
    return None;
  }

  /** First pass: one replica per group, visiting the groups in any order. */
  method OnePerGroup(nodes: seq<ScoredNode>, groups: map<string, seq<ScoredNode>>, need: Option<Resources>, key: string, replicas: int)
    returns (placements: seq<Placement>, ghost chosen: seq<ScoredNode>)
    requires UniqueIDs(nodes) && Grouped(nodes, key, groups)
    ensures Chosen(nodes, need, chosen, placements) && |chosen| <= Max(replicas, 0)
    ensures FirstPass(nodes, need, key, chosen, |chosen|)
    ensures |chosen| < replicas ==> CapableGroups(nodes, need, key) <= GroupSet(key, chosen)
  {
    placements, chosen := [], [];
    var unvisited := groups.Keys;
    while unvisited != {} && |placements| < replicas
      invariant unvisited <= groups.Keys
      invariant Chosen(nodes, need, chosen, placements) && |chosen| <= Max(replicas, 0)
      invariant FirstPass(nodes, need, key, chosen, |chosen|)
      invariant GroupSet(key, chosen) !! unvisited
      invariant CapableGroups(nodes, need, key) - unvisited <= GroupSet(key, chosen)
      decreases unvisited
    {
      var g :| g in unvisited;
      var best := SelectBestNode(groups[g], need);
      unvisited := unvisited - {g};
      if best.Some? {
        NewGroup(nodes, need, key, chosen, placements, best.value);
        placements := placements + [Placement(best.value.node.id, best.value.node.name, ReplicaID(need, |placements|), best.value.score)];
        chosen := chosen + [best.value];
      } else {
        assert g !in CapableGroups(nodes, need, key);
      }
    }
    assert CapableGroups(nodes, need, key) <= groups.Keys;
  }

  /** The best node of a group not used yet can join the first pass. */
  lemma NewGroup(nodes: seq<ScoredNode>, need: Option<Resources>, key: string,
                 chosen: seq<ScoredNode>, placements: seq<Placement>, n: ScoredNode)
    requires UniqueIDs(nodes) && Chosen(nodes, need, chosen, placements)
    requires FirstPass(nodes, need, key, chosen, |chosen|)
    requires n in nodes && Capable(need, n.node) && BestOfGroup(nodes, need, key, n)
    requires GroupKey(key, n.node) !in GroupSet(key, chosen)
    ensures Chosen(nodes, need, chosen + [n], placements + [Placement(n.node.id, n.node.name, ReplicaID(need, |placements|), n.score)])
    ensures FirstPass(nodes, need, key, chosen + [n], |chosen| + 1)
    ensures GroupSet(key, chosen + [n]) == GroupSet(key, chosen) + {GroupKey(key, n.node)}
  {
    forall k | 0 <= k < |chosen|
      ensures chosen[k].node.id != n.node.id && GroupKey(key, chosen[k].node) != GroupKey(key, n.node)
    {
      assert GroupKey(key, chosen[k].node) in GroupSet(key, chosen);
      if chosen[k].node.id == n.node.id {
        SameIDSameNode(nodes, chosen[k], n);
      }
    }
    GroupSetExtends(key, chosen, n);
  }

  /** Second pass: remaining nodes in the given order, one replica each. */
  method FillRest(nodes: seq<ScoredNode>, order: seq<ScoredNode>, need: Option<Resources>, replicas: int,
                  start: seq<Placement>, ghost picked: seq<ScoredNode>)
    returns (placements: seq<Placement>, ghost chosen: seq<ScoredNode>)
    requires Chosen(nodes, need, picked, start) && |picked| <= Max(replicas, 0)
    requires forall n :: n in order <==> n in nodes
    ensures Chosen(nodes, need, chosen, placements) && |chosen| <= Max(replicas, 0)
    ensures picked <= chosen
    ensures |chosen| < replicas ==> CapableIDs(nodes, need) <= UsedIDs(placements)
  {
    placements, chosen := start, picked;
    for i := 0 to |order|
      invariant Chosen(nodes, need, chosen, placements) && |chosen| <= Max(replicas, 0)
      invariant picked <= chosen
      invariant forall n :: n in order[..i] && Capable(need, n.node) ==> n.node.id in UsedIDs(placements)
    {
      if |placements| >= replicas {
        break;
      }
      var node := order[i];
      var hasReplica := false;
      for k := 0 to |placements|
        invariant !hasReplica
        invariant forall j :: 0 <= j < k ==> placements[j].nodeID != node.node.id
      {
        if placements[k].nodeID == node.node.id {
          hasReplica := true;
          break;
        }
      }
      ghost var before := UsedIDs(placements);
      if !hasReplica && Capable(need, node.node) {
        assert node in nodes;
        var p := Placement(node.node.id, node.node.name, ReplicaID(need, |placements|), node.score);
        assert p in placements + [p];
        placements := placements + [p];
        chosen := chosen + [node];
      }
      assert before <= UsedIDs(placements);
    }
  }

  /** Spreading with capacity checks. */
  method PackWithSpread(nodes: seq<ScoredNode>, req: Resources, replicas: int, key: string) returns (placements: seq<Placement>)
    requires UniqueIDs(nodes)
    ensures SpreadsWidely(nodes, Some(req), key, Max(replicas, 0), placements)
    ensures SpreadsPlaces(CapableNodes(nodes, Some(req)), UsedNodes(nodes, placements), key, Max(replicas, 0))
    ensures DistinctItems(placements) <==> |placements| <= MAX_DISTINCT
  {
    var groups := GroupNodes(nodes, key);
    ghost var chosen;
    placements, chosen := OnePerGroup(nodes, groups, Some(req), key, replicas);
    ghost var first := |chosen|;
    if |placements| < replicas {
      var all := Flatten(nodes, key, groups);
      var sorted := SortSlice(all, (n: ScoredNode) => n.score);
      forall n
        ensures n in sorted <==> n in nodes
      {
        assert n in sorted <==> n in multiset(sorted);
        assert n in all <==> n in multiset(all);
      }
      ghost var picked := chosen;
      placements, chosen := FillRest(nodes, sorted, Some(req), replicas, placements, picked);
      FirstPassExtends(nodes, Some(req), key, picked, chosen);
    } else {
      assert chosen[..first] == chosen;
    }
    PassesSpread(nodes, Some(req), key, Max(replicas, 0), chosen, placements, first);
    NumberedDistinctIff(placements);
    SpreadsByPlace(nodes, Some(req), key, Max(replicas, 0), placements);
  }

  lemma FirstPassExtends(nodes: seq<ScoredNode>, need: Option<Resources>, key: string, picked: seq<ScoredNode>, chosen: seq<ScoredNode>)
    requires FirstPass(nodes, need, key, picked, |picked|) && picked <= chosen
    ensures FirstPass(nodes, need, key, chosen, |picked|) && chosen[..|picked|] == picked
  {
    assert forall k :: 0 <= k < |picked| ==> chosen[k] == picked[k];
  }

  method Flatten(ghost nodes: seq<ScoredNode>, ghost key: string, groups: map<string, seq<ScoredNode>>) returns (all: seq<ScoredNode>)
    requires Grouped(nodes, key, groups)
    ensures forall n :: n in all <==> n in nodes
  {
    all := [];
    var unvisited := groups.Keys;
    while unvisited != {}
      invariant unvisited <= groups.Keys
      invariant forall n :: n in all <==> n in nodes && GroupKey(key, n.node) !in unvisited
      decreases unvisited
    {
      var g :| g in unvisited;
      all := all + groups[g];
      unvisited := unvisited - {g};
    }
  }

  /** The scheduler's spread strategy: the same two passes without a capacity check, the second
      in the order the nodes were given. */
  method SpreadSchedule(nodes: seq<ScoredNode>, replicas: int, key: string) returns (placements: seq<Placement>)
    requires UniqueIDs(nodes)
    ensures SpreadsWidely(nodes, None, key, Max(replicas, 0), placements)
    ensures SpreadsPlaces(CapableNodes(nodes, None), UsedNodes(nodes, placements), key, Max(replicas, 0))
  {
    var groups := GroupNodes(nodes, key);
    ghost var picked;
    placements, picked := OnePerGroup(nodes, groups, None, key, replicas);
    ghost var chosen;
    placements, chosen := FillRest(nodes, nodes, None, replicas, placements, picked);
    FirstPassExtends(nodes, None, key, picked, chosen);
    PassesSpread(nodes, None, key, Max(replicas, 0), chosen, placements, |picked|);
    SpreadsByPlace(nodes, None, key, Max(replicas, 0), placements);
  }
}
