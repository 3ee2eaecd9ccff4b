/** Workload scheduling: filtering, scoring, packing and rescheduling after failures. */
module Scheduler {
  import opened Common
  import opened Permutations
  import opened Mapping
  import opened Sorting
  import opened Nodes
  import opened Capacity
  import opened BinPack
  import opened Spread

  datatype AffinityRule = AffinityRule(kind: string, matchLabels: map<string, string>, required: bool)

  datatype Toleration = Toleration(key: string, value: string, operator: string, effect: string)

  datatype PlacementPolicy = PlacementPolicy(
    regions: seq<string>, zones: seq<string>, nodeSelector: map<string, string>,
    affinity: seq<AffinityRule>, antiAffinity: seq<AffinityRule>, tolerations: seq<Toleration>)

  datatype Workload = Workload(replicas: int, requests: Resources, policy: PlacementPolicy, minAvailable: int)

  /** Packing strategy and spread policy of the scheduler configuration. */
  datatype Config = Config(packingStrategy: string, spreadPolicy: string)

  datatype ScheduleResult = ScheduleResult(decisions: seq<Placement>, success: bool, unscheduled: int)

  // ---- Which nodes may run the workload ----

  predicate HasLabels(n: Node, labels: map<string, string>) {
    forall key :: key in labels ==> key in n.labels && n.labels[key] == labels[key]
  }

  /** Affinity to other workloads is not decided on nodes and never matches. */
  predicate MatchesAffinity(n: Node, rule: AffinityRule) {
    rule.kind == "node" && HasLabels(n, rule.matchLabels)
  }

  predicate MatchesPlacementPolicy(n: Node, policy: PlacementPolicy) {
    && (|policy.regions| > 0 ==> n.region in policy.regions)
    && (|policy.zones| > 0 ==> n.zone in policy.zones)
    && HasLabels(n, policy.nodeSelector)
    && (forall rule :: rule in policy.affinity && rule.required ==> MatchesAffinity(n, rule))
    && (forall rule :: rule in policy.antiAffinity && rule.required ==> !MatchesAffinity(n, rule))
  }

  predicate MatchesToleration(taint: Taint, t: Toleration) {
    && t.key == taint.key
    && (t.operator == "Exists"
        || (t.operator == "Equal" && t.value == taint.value && (t.effect == "" || t.effect == taint.effect)))
  }

  predicate ToleratesTaints(n: Node, tolerations: seq<Toleration>) {
    forall taint :: taint in n.taints && taint.effect == "NoSchedule" ==>
      exists t :: t in tolerations && MatchesToleration(taint, t)
  }

  /** Ready, policy-matching and tolerated, whatever its free resources. */
  predicate Eligible(n: Node, w: Workload) {
    n.state == "ready" && MatchesPlacementPolicy(n, w.policy) && ToleratesTaints(n, w.policy.tolerations)
  }

  predicate Healthy(n: Node, failed: seq<string>) {
    n.id !in failed && n.state != "failed" && n.state != "offline"
  }

  /** A label the rule asks for is missing on the node or has another value. */
  predicate LacksLabel(n: Node, labels: map<string, string>) {
    exists key :: key in labels && (key !in n.labels || n.labels[key] != labels[key])
  }

  /** The toleration leaves the taint in place. */
  predicate Ignores(t: Toleration, taint: Taint) {
    || t.key != taint.key
    || (t.operator != "Exists" && t.operator != "Equal")
    || (t.operator == "Equal" && (t.value != taint.value || (t.effect != "" && t.effect != taint.effect)))
  }

  /** All the reasons to leave a node out, apart from its resources. */
  lemma IneligibleIff(n: Node, w: Workload)
    ensures !Eligible(n, w) <==>
            || n.state != "ready"
            || (w.policy.regions != [] && forall i :: 0 <= i < |w.policy.regions| ==> w.policy.regions[i] != n.region)
            || (w.policy.zones != [] && forall i :: 0 <= i < |w.policy.zones| ==> w.policy.zones[i] != n.zone)
            || LacksLabel(n, w.policy.nodeSelector)
            || (exists a :: a in w.policy.affinity && a.required && (a.kind != "node" || LacksLabel(n, a.matchLabels)))
            || (exists a :: a in w.policy.antiAffinity && a.required && a.kind == "node" && !LacksLabel(n, a.matchLabels))
            || (exists x :: x in n.taints && x.effect == "NoSchedule" && forall t :: t in w.policy.tolerations ==> Ignores(t, x))
  {
    assert forall labels :: HasLabels(n, labels) <==> !LacksLabel(n, labels);
    assert forall x, t :: MatchesToleration(x, t) <==> !Ignores(t, x);
  }

  ghost function Where(nodes: seq<Node>, p: Node -> bool): seq<Node> {
    if nodes == [] then []
    else
      var front, last := Where(nodes[..|nodes| - 1], p), nodes[|nodes| - 1];
      if p(last) then front + [last] else front
  }

  lemma {:induction false} WhereMember(nodes: seq<Node>, p: Node -> bool)
    ensures forall n :: n in Where(nodes, p) <==> n in nodes && p(n)
  {
    if nodes != [] {
      WhereMember(nodes[..|nodes| - 1], p);
      assert nodes == nodes[..|nodes| - 1] + [nodes[|nodes| - 1]];
    }
  }

  lemma CandidateMember(nodes: seq<Node>, w: Workload)
    ensures forall n :: n in Candidates(nodes, w) <==> n in nodes && Eligible(n, w) && Fits(w.requests, Available(n))
  {
    WhereMember(nodes, (n: Node) => Eligible(n, w) && Fits(w.requests, Available(n)));
  }

  ghost function EligibleNodes(nodes: seq<Node>, w: Workload): seq<Node> {
    Where(nodes, (n: Node) => Eligible(n, w))
  }

  ghost function Candidates(nodes: seq<Node>, w: Workload): seq<Node> {
    Where(nodes, (n: Node) => Eligible(n, w) && Fits(w.requests, Available(n)))
  }

  ghost function FreeOf(nodes: seq<Node>): seq<Resources> {
    Apply(nodes, (n: Node) => Available(n))
  }

  ghost predicate UniqueNodes(nodes: seq<Node>) {
    forall i, j :: 0 <= i < j < |nodes| ==> nodes[i].id != nodes[j].id
  }

  lemma {:induction false} WhereUnique(nodes: seq<Node>, p: Node -> bool)
    requires UniqueNodes(nodes)
    ensures UniqueNodes(Where(nodes, p))
  {
    if nodes != [] {
      var front, last := nodes[..|nodes| - 1], nodes[|nodes| - 1];
      WhereUnique(front, p);
      WhereMember(front, p);
      forall n | n in Where(front, p)
        ensures n.id != last.id
      {
        var i :| 0 <= i < |front| && front[i] == n;
        assert nodes[i] == n;
      }
    }
  }

  lemma DifferentNodesDifferentIDs(nodes: seq<Node>, m: Node, n: Node)
    requires UniqueNodes(nodes) && m in nodes && n in nodes && m != n
    ensures m.id != n.id
  {
    var i :| 0 <= i < |nodes| && nodes[i] == m;
    var j :| 0 <= j < |nodes| && nodes[j] == n;
    assert i != j;
  }

  lemma WhereSnoc(nodes: seq<Node>, i: nat, p: Node -> bool)
    requires i < |nodes|
    ensures Where(nodes[..i + 1], p) == Where(nodes[..i], p) + if p(nodes[i]) then [nodes[i]] else []
  {
    assert nodes[..i + 1][..i] == nodes[..i];
  }

  lemma RoomSnoc(nodes: seq<Node>, n: Node, req: Resources, limit: nat)
    ensures TotalRoom(FirstFit, FreeOf(nodes + [n]), req, limit)
            == TotalRoom(FirstFit, FreeOf(nodes), req, limit) + TotalRoom(FirstFit, [Available(n)], req, limit)
  {
    assert FreeOf(nodes + [n]) == FreeOf(nodes) + [Available(n)];
    TotalRoomSplit(FirstFit, FreeOf(nodes), [Available(n)], req, limit);
  }

  /** Nodes filtered out for lack of resources had no room to offer. */
  lemma {:induction false} FilteredRoom(nodes: seq<Node>, w: Workload, limit: nat)
    ensures TotalRoom(FirstFit, FreeOf(EligibleNodes(nodes, w)), w.requests, limit)
            == TotalRoom(FirstFit, FreeOf(Candidates(nodes, w)), w.requests, limit)
  {
    if nodes != [] {
      var front, last := nodes[..|nodes| - 1], nodes[|nodes| - 1];
      FilteredRoom(front, w, limit);
      RoomSnoc(EligibleNodes(front, w), last, w.requests, limit);
      RoomSnoc(Candidates(front, w), last, w.requests, limit);
      if !Fits(w.requests, Available(last)) {
        NoRoom(Available(last), w.requests, limit);
      }
    }
  }

  /** filterNodes */
  method FilterNodes(nodes: seq<Node>, w: Workload) returns (filtered: seq<Node>)
    ensures filtered == Candidates(nodes, w)
    ensures forall n :: n in filtered <==> n in nodes && Eligible(n, w) && Covers(n, w.requests, 1)
  {
    CandidateMember(nodes, w);
    filtered := [];
    ghost var p := (n: Node) => Eligible(n, w) && Fits(w.requests, Available(n));
    for i := 0 to |nodes|
      invariant filtered == Where(nodes[..i], p)
    {
      WhereSnoc(nodes, i, p);
      var node := nodes[i];
      if node.state != "ready" {
        continue;
      }
      if !Fits(w.requests, Available(node)) {
        continue;
      }
      if !MatchesPlacementPolicy(node, w.policy) {
        continue;
      }
      if !ToleratesTaints(node, w.policy.tolerations) {
        continue;
      }
      filtered := filtered + [node];
    }
    assert nodes[..|nodes|] == nodes;
  }

  /** filterFailedNodes */
  method FilterFailedNodes(nodes: seq<Node>, failed: seq<string>) returns (filtered: seq<Node>)
    ensures filtered == Where(nodes, (n: Node) => Healthy(n, failed))
    ensures forall n :: n in filtered <==> n in nodes && n.id !in failed && n.state != "failed" && n.state != "offline"
  {
    WhereMember(nodes, (n: Node) => Healthy(n, failed));
    filtered := [];
    ghost var p := (n: Node) => Healthy(n, failed);
    for i := 0 to |nodes|
      invariant filtered == Where(nodes[..i], p)
    {
      WhereSnoc(nodes, i, p);
      var node := nodes[i];
      if node.id in failed {
        continue;
      }
      if node.state == "failed" || node.state == "offline" {
        continue;
      }
      filtered := filtered + [node];
    }
    assert nodes[..|nodes|] == nodes;
  }

  // ---- Scoring and strategies ----

  function Scored(nodes: seq<Node>, scorer: Node -> real): (scored: seq<ScoredNode>)
    ensures |scored| == |nodes|
    ensures forall i :: 0 <= i < |nodes| ==> scored[i] == ScoredNode(nodes[i], scorer(nodes[i]))
  {
    seq(|nodes|, i requires 0 <= i < |nodes| => ScoredNode(nodes[i], scorer(nodes[i])))
  }

  /** Candidates with their scores, in a sorted order. */
  ghost predicate Ranks(nodes: seq<Node>, scorer: Node -> real, ranked: seq<ScoredNode>) {
    multiset(ranked) == multiset(Scored(nodes, scorer))
  }

  lemma RankedUnique(nodes: seq<Node>, scorer: Node -> real, ranked: seq<ScoredNode>)
    requires UniqueNodes(nodes) && Ranks(nodes, scorer, ranked)
    ensures UniqueIDs(ranked)
  {
    var id := (n: ScoredNode) => n.node.id;
    assert DistinctBy(Scored(nodes, scorer), id);
    DistinctPermutes(Scored(nodes, scorer), ranked, id);
    assert forall i, j :: 0 <= i < j < |ranked| ==> id(ranked[i]) != id(ranked[j]);
  }

  lemma RankedMembers(nodes: seq<Node>, scorer: Node -> real, ranked: seq<ScoredNode>)
    requires Ranks(nodes, scorer, ranked)
    ensures forall n :: n in ranked <==> n.node in nodes && n.score == scorer(n.node)
  {
    forall n
      ensures n in ranked <==> n.node in nodes && n.score == scorer(n.node)
    {
      assert n in ranked <==> n in multiset(ranked);
      assert n in Scored(nodes, scorer) <==> n in multiset(Scored(nodes, scorer));
      if n.node in nodes && n.score == scorer(n.node) {
        var i :| 0 <= i < |nodes| && nodes[i] == n.node;
        assert Scored(nodes, scorer)[i] == n;
      }
    }
  }

  lemma RankedRoom(nodes: seq<Node>, scorer: Node -> real, ranked: seq<ScoredNode>, req: Resources, limit: nat)
    requires Ranks(nodes, scorer, ranked)
    ensures TotalRoom(FirstFit, Avails(BinsOf(ranked)), req, limit) == TotalRoom(FirstFit, FreeOf(nodes), req, limit)
  {
    var free := (n: ScoredNode) => Available(n.node);
    ApplyPermutes(ranked, Scored(nodes, scorer), free);
    assert Avails(BinsOf(ranked)) == Apply(ranked, free);
    assert FreeOf(nodes) == Apply(Scored(nodes, scorer), free);
    TotalRoomPermutes(FirstFit, Avails(BinsOf(ranked)), FreeOf(nodes), req, limit);
  }

  /** Decisions number the replicas in placement order and stay on their nodes. */
  ghost predicate Renumbers(placements: seq<Placement>, decisions: seq<Placement>) {
    && |decisions| == |placements|
    && forall k :: 0 <= k < |decisions| ==> decisions[k] == placements[k].(itemID := k)
  }

  lemma {:induction false} RenumberedCount(placements: seq<Placement>, decisions: seq<Placement>, id: string)
    requires Renumbers(placements, decisions)
    ensures CountOn(decisions, id) == CountOn(placements, id)
  {
    if decisions != [] {
      RenumberedCount(placements[..|placements| - 1], decisions[..|decisions| - 1], id);
    }
  }

  lemma {:induction false} CountZero(placements: seq<Placement>, id: string)
    requires forall p :: p in placements ==> p.nodeID != id
    ensures CountOn(placements, id) == 0
  {
    if placements != [] {
      CountZero(placements[..|placements| - 1], id);
    }
  }

  /** binPackSchedule */
  method BinPackSchedule(nodes: seq<ScoredNode>, w: Workload) returns (decisions: seq<Placement>)
    ensures |decisions| == Min(Max(w.replicas, 0), TotalRoom(FirstFit, Avails(BinsOf(nodes)), w.requests, Max(w.replicas, 0)))
    ensures OnNodes(nodes, decisions)
    ensures UniqueIDs(nodes) ==> NeverOvercommits(nodes, w.requests, decisions) && GreedyByScore(nodes, w.requests, decisions)
  {
    var packing := Pack(nodes, w.requests, w.replicas);
    decisions := [];
    var scheduled := 0;
    for i := 0 to |packing|
      invariant scheduled == i && |decisions| == i
      invariant forall k :: 0 <= k < i ==> decisions[k] == packing[k].(itemID := k)
    {
      decisions := decisions + [packing[i].(itemID := scheduled)];
      scheduled := scheduled + 1;
      if scheduled >= w.replicas {
        break;
      }
    }
    RenumberedPacks(nodes, w.requests, packing, decisions);
  }

  /** Renumbering changes nothing about where replicas are. */
  lemma RenumberedPacks(nodes: seq<ScoredNode>, req: Resources, packing: seq<Placement>, decisions: seq<Placement>)
    requires Renumbers(packing, decisions) && OnNodes(nodes, packing)
    ensures OnNodes(nodes, decisions)
    ensures NeverOvercommits(nodes, req, packing) ==> NeverOvercommits(nodes, req, decisions)
    ensures GreedyByScore(nodes, req, packing) ==> GreedyByScore(nodes, req, decisions)
  {
    forall id: string
      ensures CountOn(decisions, id) == CountOn(packing, id)
    {
      RenumberedCount(packing, decisions, id);
    }
    forall p | p in decisions
      ensures exists n :: n in nodes && p.nodeID == n.node.id && p.nodeName == n.node.name && p.score == n.score
    {
      var k :| 0 <= k < |decisions| && decisions[k] == p;
      assert packing[k] in packing;
    }
  }

  /** defaultSchedule: one replica on each of the best-ranked nodes. */
  method DefaultSchedule(nodes: seq<ScoredNode>, replicas: int) returns (decisions: seq<Placement>)
    ensures |decisions| == Min(Max(replicas, 0), |nodes|)
    ensures forall k :: 0 <= k < |decisions| ==>
              decisions[k] == Placement(nodes[k].node.id, nodes[k].node.name, k, nodes[k].score)
  {
    decisions := [];
    var i := 0;
    while i < replicas && i < |nodes|
      invariant 0 <= i <= |nodes| && i <= Max(replicas, 0) && |decisions| == i
      invariant forall k :: 0 <= k < i ==>
                  decisions[k] == Placement(nodes[k].node.id, nodes[k].node.name, k, nodes[k].score)
    {
      decisions := decisions + [Placement(nodes[i].node.id, nodes[i].node.name, i, nodes[i].score)];
      i := i + 1;
    }
  }

  /** What scheduling a workload onto `nodes` promises. */
  ghost predicate Scheduled(nodes: seq<Node>, w: Workload, config: Config, scorer: Node -> real, r: ScheduleResult) {
    && |r.decisions| + r.unscheduled == w.replicas
    && (r.success <==> r.unscheduled == 0)
    && DecisionsCovered(nodes, w.requests, r.decisions)
    && (forall d :: d in r.decisions ==> exists n :: n in nodes && n.id == d.nodeID && Eligible(n, w))
    && (config.packingStrategy == "binpack" ==>
          // all or nothing is decided exactly by joint capacity
          && (w.replicas >= 1 ==> (r.success <==> JointlyHost(FreeOf(EligibleNodes(nodes, w)), w.requests, w.replicas)))
          && (w.replicas <= 0 ==> (r.success <==> w.replicas == 0 && Candidates(nodes, w) != []))
          && (forall n :: n in nodes ==> Hosts(Available(n), w.requests, CountOn(r.decisions, n.id)))
          && GreedyByScore(Scored(Candidates(nodes, w), scorer), w.requests, r.decisions))
    && (config.packingStrategy == "spread" ==>
          SpreadsWidely(Scored(Candidates(nodes, w), scorer), None, config.spreadPolicy, Max(w.replicas, 0), r.decisions))
    && (config.packingStrategy != "binpack" && config.packingStrategy != "spread" ==>
          TakesBest(Candidates(nodes, w), scorer, Max(w.replicas, 0), r.decisions))
  }

  /** Every node's capacity covers what it uses already and what was decided for it. */
  ghost predicate DecisionsCovered(nodes: seq<Node>, req: Resources, decisions: seq<Placement>) {
    forall n :: n in nodes && 0 < CountOn(decisions, n.id) ==> Covers(n, req, CountOn(decisions, n.id))
  }

  /** One replica on each of as many nodes as possible, none scored below a node left out. */
  ghost predicate TakesBest(nodes: seq<Node>, scorer: Node -> real, replicas: nat, decisions: seq<Placement>) {
    && |decisions| == Min(replicas, |nodes|)
    && (forall a, b :: 0 <= a < b < |decisions| ==> decisions[a].nodeID != decisions[b].nodeID)
    && (forall d :: d in decisions ==> exists n :: n in nodes && n.id == d.nodeID && d.score == scorer(n))
    && forall d, n :: d in decisions && n in nodes && n.id !in UsedIDs(decisions) ==> d.score >= scorer(n)
  }

  lemma DefaultTakesBest(nodes: seq<Node>, scorer: Node -> real, ranked: seq<ScoredNode>, replicas: nat, decisions: seq<Placement>)
    requires Ranks(nodes, scorer, ranked) && UniqueIDs(ranked) && Descending(ranked, (n: ScoredNode) => n.score)
    requires |decisions| == Min(replicas, |ranked|)
    requires forall k :: 0 <= k < |decisions| ==>
               decisions[k] == Placement(ranked[k].node.id, ranked[k].node.name, k, ranked[k].score)
    ensures TakesBest(nodes, scorer, replicas, decisions)
  {
    RankedMembers(nodes, scorer, ranked);
    assert |multiset(ranked)| == |ranked| && |multiset(Scored(nodes, scorer))| == |nodes|;
    forall d | d in decisions
      ensures exists n :: n in nodes && n.id == d.nodeID && d.score == scorer(n)
    {
      var k :| 0 <= k < |decisions| && decisions[k] == d;
      assert ranked[k] in ranked && ranked[k].node in nodes;
    }
    forall d, n | d in decisions && n in nodes && n.id !in UsedIDs(decisions)
      ensures d.score >= scorer(n)
    {
      var k :| 0 <= k < |decisions| && decisions[k] == d;
      assert ScoredNode(n, scorer(n)) in ranked;
      var j :| 0 <= j < |ranked| && ranked[j] == ScoredNode(n, scorer(n));
      RankedAfter(ranked, decisions, k, j);
    }
  }

  lemma RankedAfter(ranked: seq<ScoredNode>, decisions: seq<Placement>, k: nat, j: nat)
    requires Descending(ranked, (n: ScoredNode) => n.score) && |decisions| <= |ranked|
    requires forall i :: 0 <= i < |decisions| ==> decisions[i].nodeID == ranked[i].node.id
    requires k < |decisions| && j < |ranked| && ranked[j].node.id !in UsedIDs(decisions)
    ensures ranked[k].score >= ranked[j].score
  {
    var score := (n: ScoredNode) => n.score;
    assert forall i :: 0 <= i < |decisions| ==> decisions[i] in decisions && ranked[i].node.id in UsedIDs(decisions);
    assert score(ranked[k]) >= score(ranked[j]);
  }

  lemma {:induction false} CountOnce(decisions: seq<Placement>, id: string)
    requires forall a, b :: 0 <= a < b < |decisions| ==> decisions[a].nodeID != decisions[b].nodeID
    ensures CountOn(decisions, id) <= 1
    ensures 0 < CountOn(decisions, id) ==> id in UsedIDs(decisions)
  {
    if decisions != [] {
      var front, last := decisions[..|decisions| - 1], decisions[|decisions| - 1];
      CountOnce(front, id);
      if last.nodeID == id {
        CountZero(front, id);
      }
      assert forall p :: p in front ==> p in decisions;
    }
  }

  /** Replicas on different candidates are covered: each candidate has room for one. */
  lemma OnceCovered(nodes: seq<Node>, w: Workload, decisions: seq<Placement>)
    requires UniqueNodes(nodes)
    requires forall a, b :: 0 <= a < b < |decisions| ==> decisions[a].nodeID != decisions[b].nodeID
    requires forall d :: d in decisions ==> exists n :: n in Candidates(nodes, w) && n.id == d.nodeID
    ensures DecisionsCovered(nodes, w.requests, decisions)
  {
    CandidateMember(nodes, w);
    forall n | n in nodes && 0 < CountOn(decisions, n.id)
      ensures Covers(n, w.requests, CountOn(decisions, n.id))
    {
      CountOnce(decisions, n.id);
      var d :| d in decisions && d.nodeID == n.id;
      var m :| m in Candidates(nodes, w) && m.id == d.nodeID;
      if m != n {
        DifferentNodesDifferentIDs(nodes, m, n);
      }
    }
  }

  /** Spreading looks only at which nodes there are. */
  lemma SpreadsSameNodes(a: seq<ScoredNode>, b: seq<ScoredNode>, key: string, replicas: nat, placements: seq<Placement>)
    requires forall n :: n in a <==> n in b
    requires SpreadsWidely(a, None, key, replicas, placements)
    ensures SpreadsWidely(b, None, key, replicas, placements)
  {
    assert CapableIDs(a, None) == CapableIDs(b, None);
    assert CapableGroups(a, None, key) == CapableGroups(b, None, key);
    assert UsedGroups(a, placements, key) == UsedGroups(b, placements, key);
    forall g | g in UsedGroups(b, placements, key)
      ensures exists n :: n in b && n.node.id in UsedIDs(placements) && GroupKey(key, n.node) == g && BestOfGroup(b, None, key, n)
    {
      var n :| n in a && n.node.id in UsedIDs(placements) && GroupKey(key, n.node) == g && BestOfGroup(a, None, key, n);
      assert n in b && BestOfGroup(b, None, key, n);
    }
  }

  /** The strategy switch shared by Schedule and Reschedule. */
  method Place(ghost nodes: seq<Node>, candidates: seq<Node>, w: Workload, config: Config, scorer: Node -> real)
    returns (r: ScheduleResult)
    requires UniqueNodes(nodes) && candidates == Candidates(nodes, w) && candidates != []
    ensures Scheduled(nodes, w, config, scorer, r)
  {
    WhereUnique(nodes, (n: Node) => Eligible(n, w) && Fits(w.requests, Available(n)));
    CandidateMember(nodes, w);
    var ranked := SortSlice(Scored(candidates, scorer), (n: ScoredNode) => n.score);
    RankedUnique(candidates, scorer, ranked);
    RankedMembers(candidates, scorer, ranked);
    var decisions;
    if config.packingStrategy == "binpack" {
      decisions := BinPackSchedule(ranked, w);
      PackedDecisions(nodes, w, scorer, ranked, decisions);
      PackedCovered(nodes, w.requests, decisions);
    } else if config.packingStrategy == "spread" {
      decisions := SpreadSchedule(ranked, w.replicas, config.spreadPolicy);
      SpreadsSameNodes(ranked, Scored(candidates, scorer), config.spreadPolicy, Max(w.replicas, 0), decisions);
      SpreadDecisions(nodes, w, ranked, decisions);
      OnceCovered(nodes, w, decisions);
    } else {
      decisions := DefaultSchedule(ranked, w.replicas);
      DefaultTakesBest(candidates, scorer, ranked, Max(w.replicas, 0), decisions);
      OnceCovered(nodes, w, decisions);
    }
    r := ScheduleResult(decisions, |decisions| == w.replicas, w.replicas - |decisions|);
  }

  lemma SpreadDecisions(nodes: seq<Node>, w: Workload, ranked: seq<ScoredNode>, decisions: seq<Placement>)
    requires forall n :: n in ranked ==> n.node in Candidates(nodes, w)
    requires UsedIDs(decisions) <= CapableIDs(ranked, None)
    ensures forall d :: d in decisions ==> exists n :: n in Candidates(nodes, w) && n.id == d.nodeID
    ensures forall d :: d in decisions ==> exists n :: n in nodes && n.id == d.nodeID && Eligible(n, w)
  {
    CandidateMember(nodes, w);
    forall d | d in decisions
      ensures exists n :: n in Candidates(nodes, w) && n.id == d.nodeID
      ensures exists n :: n in nodes && n.id == d.nodeID && Eligible(n, w)
    {
      assert d.nodeID in UsedIDs(decisions);
      var m :| m in ranked && m.node.id == d.nodeID;
      assert m.node in Candidates(nodes, w);
    }
  }

  /** First-fit over the ranked candidates decides joint capacity of all eligible nodes. */
  lemma PackedDecisions(nodes: seq<Node>, w: Workload, scorer: Node -> real, ranked: seq<ScoredNode>, decisions: seq<Placement>)
    requires UniqueNodes(nodes) && Ranks(Candidates(nodes, w), scorer, ranked)
    requires |decisions| == Min(Max(w.replicas, 0), TotalRoom(FirstFit, Avails(BinsOf(ranked)), w.requests, Max(w.replicas, 0)))
    requires OnNodes(ranked, decisions) && NeverOvercommits(ranked, w.requests, decisions)
    ensures w.replicas >= 1 ==>
              (|decisions| == w.replicas <==> JointlyHost(FreeOf(EligibleNodes(nodes, w)), w.requests, w.replicas))
    ensures forall d :: d in decisions ==> exists n :: n in nodes && n.id == d.nodeID && Eligible(n, w)
    ensures forall n :: n in nodes ==> Hosts(Available(n), w.requests, CountOn(decisions, n.id))
    ensures GreedyByScore(ranked, w.requests, decisions) ==> GreedyByScore(Scored(Candidates(nodes, w), scorer), w.requests, decisions)
  {
    CandidateMember(nodes, w);
    RankedMembers(Candidates(nodes, w), scorer, ranked);
    RankedMembers(Candidates(nodes, w), scorer, Scored(Candidates(nodes, w), scorer));
    if w.replicas >= 1 {
      RankedRoom(Candidates(nodes, w), scorer, ranked, w.requests, w.replicas);
      FilteredRoom(nodes, w, w.replicas);
      JointlyHostIff(FreeOf(EligibleNodes(nodes, w)), w.requests, w.replicas);
    }
    forall d | d in decisions
      ensures exists n :: n in nodes && n.id == d.nodeID && Eligible(n, w)
      ensures exists n :: n in Candidates(nodes, w) && n.id == d.nodeID
    {
      var m :| m in ranked && d.nodeID == m.node.id;
      assert m.node in Candidates(nodes, w);
    }
    forall n | n in nodes
      ensures Hosts(Available(n), w.requests, CountOn(decisions, n.id))
    {
      if n in Candidates(nodes, w) {
        assert ScoredNode(n, scorer(n)) in ranked;
      } else {
        forall d | d in decisions
          ensures d.nodeID != n.id
        {
          var m :| m in Candidates(nodes, w) && m.id == d.nodeID;
          DifferentNodesDifferentIDs(nodes, m, n);
        }
        CountZero(decisions, n.id);
      }
    }
  }

  lemma PackedCovered(nodes: seq<Node>, req: Resources, decisions: seq<Placement>)
    requires forall n :: n in nodes ==> Hosts(Available(n), req, CountOn(decisions, n.id))
    ensures DecisionsCovered(nodes, req, decisions)
  {
    forall n | n in nodes && 0 < CountOn(decisions, n.id)
      ensures Covers(n, req, CountOn(decisions, n.id))
    {
      TakenIsCovered(n, req, CountOn(decisions, n.id));
    }
  }

  /** Joint capacity, told by what the eligible nodes have and use. */
  lemma EligibleCanHost(nodes: seq<Node>, w: Workload)
    requires 0 <= w.requests.cpu && 0 <= w.requests.memory && 0 <= w.requests.storage && 1 <= w.replicas
    ensures JointlyHost(FreeOf(EligibleNodes(nodes, w)), w.requests, w.replicas)
            <==> NodesCanHost(EligibleNodes(nodes, w), w.requests, w.replicas)
  {
    JointlyHostIffCanHost(EligibleNodes(nodes, w), FreeOf(EligibleNodes(nodes, w)), w.requests, w.replicas);
  }

  /** Without candidates nothing can be hosted. */
  lemma NoCandidates(nodes: seq<Node>, w: Workload)
    requires Candidates(nodes, w) == [] && w.replicas >= 1
    ensures !JointlyHost(FreeOf(EligibleNodes(nodes, w)), w.requests, w.replicas)
  {
    FilteredRoom(nodes, w, w.replicas);
    JointlyHostIff(FreeOf(EligibleNodes(nodes, w)), w.requests, w.replicas);
  }

  /** Schedule. With no candidate the result is a failure without decisions. */
  method Schedule(nodes: seq<Node>, w: Workload, config: Config, scorer: Node -> real) returns (r: ScheduleResult)
    requires UniqueNodes(nodes)
    ensures Candidates(nodes, w) == [] ==> r == ScheduleResult([], false, w.replicas)
    ensures Candidates(nodes, w) != [] ==> Scheduled(nodes, w, config, scorer, r)
    ensures config.packingStrategy == "binpack" && w.replicas >= 1 ==>
              (r.success <==> JointlyHost(FreeOf(EligibleNodes(nodes, w)), w.requests, w.replicas))
    ensures config.packingStrategy == "binpack" && w.replicas >= 1
            && 0 <= w.requests.cpu && 0 <= w.requests.memory && 0 <= w.requests.storage ==>
              (r.success <==> NodesCanHost(EligibleNodes(nodes, w), w.requests, w.replicas))
    ensures DecisionsCovered(nodes, w.requests, r.decisions)
  {
    if w.replicas >= 1 && 0 <= w.requests.cpu && 0 <= w.requests.memory && 0 <= w.requests.storage {
      EligibleCanHost(nodes, w);
    }
    var candidates := FilterNodes(nodes, w);
    if |candidates| == 0 {
      if w.replicas >= 1 {
        NoCandidates(nodes, w);
      }
      return ScheduleResult([], false, w.replicas);
    }
    r := Place(nodes, candidates, w, config, scorer);
  }

  /** Reschedule after node failures; None is the refusal because of minAvailable. */
  method Reschedule(nodes: seq<Node>, w: Workload, failed: seq<string>, ready: int, config: Config, scorer: Node -> real)
    returns (r: Option<ScheduleResult>)
    requires UniqueNodes(nodes)
    ensures r.None? <==> 0 < w.minAvailable && ready < w.minAvailable
    ensures r.Some? ==> forall d :: d in r.value.decisions ==>
              d.nodeID !in failed && exists n :: n in nodes && n.id == d.nodeID && Healthy(n, failed) && Eligible(n, w)
    ensures r.Some? ==>
              var healthy := Where(nodes, (n: Node) => Healthy(n, failed));
              if Candidates(healthy, w) == [] then r.value == ScheduleResult([], false, w.replicas)
              else Scheduled(healthy, w, config, scorer, r.value)
    ensures r.Some? && config.packingStrategy == "binpack" && w.replicas >= 1 ==>
              (r.value.success <==>
               JointlyHost(FreeOf(EligibleNodes(Where(nodes, (n: Node) => Healthy(n, failed)), w)), w.requests, w.replicas))
  {
    if w.minAvailable > 0 {
      if ready < w.minAvailable {
        return None;
      }
    }
    var healthy := FilterFailedNodes(nodes, failed);
    WhereUnique(nodes, (n: Node) => Healthy(n, failed));
    WhereMember(nodes, (n: Node) => Healthy(n, failed));
    if |healthy| == 0 {
      if w.replicas >= 1 {
        NoCandidates(healthy, w);
      }
      return Some(ScheduleResult([], false, w.replicas));
    }
    var candidates := FilterNodes(healthy, w);
    CandidateMember(healthy, w);
    if |candidates| == 0 {
      if w.replicas >= 1 {
        NoCandidates(healthy, w);
      }
      return Some(ScheduleResult([], false, w.replicas));
    }
    var hasCapacity := false;
    for i := 0 to |candidates|
      invariant i > 0 ==> hasCapacity
    {
      assert candidates[i] in candidates;
      if Fits(w.requests, Available(candidates[i])) {
        hasCapacity := true;
        break;
      }
    }
    if !hasCapacity {
      assert false; // filterNodes has checked the same resources already
    }
    var placed := Place(healthy, candidates, w, config, scorer);
    return Some(placed);
  }
}
