/** The partial mesh: which peers one maintenance round dials and which it drops. */
module Mesh {
  import opened Common
  import opened Permutations
  import opened Sorting
  import opened Gathering

  datatype Status = Connected | Connecting | Disconnected | Unreachable

  datatype Peer = Peer(id: string, status: Status, latency: int, bandwidth: int, lastSeen: int)

  datatype ScoredPeer = ScoredPeer(peer: Peer, score: real)

  function PeerID(): Peer -> string {
    (p: Peer) => p.id
  }

  function EntryID(): ScoredPeer -> string {
    (s: ScoredPeer) => s.peer.id
  }

  function Best(): ScoredPeer -> real {
    (s: ScoredPeer) => s.score
  }

  function Worst(): ScoredPeer -> real {
    (s: ScoredPeer) => 0.0 - s.score
  }

  predicate IsConnected(p: Peer) {
    p.status == Connected
  }

  predicate IsDialing(p: Peer) {
    p.status == Connecting
  }

  predicate IsIdle(p: Peer) {
    p.status != Connected && p.status != Connecting
  }

  // ---- The exchange sort ----

  /** The entries before i are in order and none is below a later entry. */
  ghost predicate Settled(s: seq<ScoredPeer>, i: int, key: ScoredPeer -> real) {
    forall p, q :: 0 <= p < q < |s| && p < i ==> key(s[p]) >= key(s[q])
  }

  /** The entry at i is at least as high as those from i + 1 up to j. */
  ghost predicate Leads(s: seq<ScoredPeer>, i: int, j: int, key: ScoredPeer -> real)
    requires 0 <= i < |s|
  {
    forall q :: i < q < j && q < |s| ==> key(s[i]) >= key(s[q])
  }

  function Swapped(s: seq<ScoredPeer>, i: nat, j: nat): (r: seq<ScoredPeer>)
    requires i < j < |s|
    ensures multiset(r) == multiset(s)
  {
    SwapKeepsElements(s, i, j);
    s[i := s[j]][j := s[i]]
  }

  lemma SwapKeepsElements(s: seq<ScoredPeer>, i: nat, j: nat)
    requires i < j < |s|
    ensures multiset(s[i := s[j]][j := s[i]]) == multiset(s)
  {
    assert s == s[..i] + [s[i]] + s[i + 1..j] + [s[j]] + s[j + 1..];
    assert s[i := s[j]][j := s[i]] == s[..i] + [s[j]] + s[i + 1..j] + [s[i]] + s[j + 1..];
  }

  lemma SwapProgress(s: seq<ScoredPeer>, i: nat, j: nat, key: ScoredPeer -> real)
    requires i < j < |s| && Settled(s, i, key) && Leads(s, i, j, key) && key(s[j]) > key(s[i])
    ensures Settled(Swapped(s, i, j), i, key) && Leads(Swapped(s, i, j), i, j + 1, key)
  {
    var r := Swapped(s, i, j);
    forall p, q | 0 <= p < q < |r| && p < i
      ensures key(r[p]) >= key(r[q])
    {
      assert r[p] == s[p];
      assert r[q] == if q == i then s[j] else if q == j then s[i] else s[q];
    }
  }

  method ExchangeSort(a: array<ScoredPeer>, key: ScoredPeer -> real)
    modifies a
    ensures multiset(a[..]) == multiset(old(a[..]))
    ensures Descending(a[..], key)
  {
    var i := 0;
    while i < a.Length
      invariant 0 <= i <= a.Length
      invariant multiset(a[..]) == multiset(old(a[..])) && Settled(a[..], i, key)
    {
      var j := i + 1;
      while j < a.Length
        invariant i < j <= a.Length
        invariant multiset(a[..]) == multiset(old(a[..])) && Settled(a[..], i, key)
        invariant Leads(a[..], i, j, key)
      {
        ghost var s := a[..];
        if key(a[j]) > key(a[i]) {
          SwapProgress(s, i, j, key);
          a[i], a[j] := a[j], a[i];
          assert a[..] == Swapped(s, i, j);
        }
        j := j + 1;
      }
      i := i + 1;
    }
  }

  // ---- Selection ----

  function Entry(eligible: Peer -> bool, score: Peer -> real): Peer -> seq<ScoredPeer> {
    p => if eligible(p) then [ScoredPeer(p, score(p))] else []
  }

  lemma {:induction false} EntriesAre(peers: seq<Peer>, eligible: Peer -> bool, score: Peer -> real)
    ensures forall s :: s in Gather(peers, Entry(eligible, score)) <==>
                          s.peer in peers && eligible(s.peer) && s.score == score(s.peer)
  {
    if peers != [] {
      var front, last := peers[..|peers| - 1], peers[|peers| - 1];
      EntriesAre(front, eligible, score);
      assert peers == front + [last];
    }
  }

  lemma {:induction false} EntriesDistinct(peers: seq<Peer>, eligible: Peer -> bool, score: Peer -> real)
    requires DistinctBy(peers, PeerID())
    ensures DistinctBy(Gather(peers, Entry(eligible, score)), EntryID())
  {
    if peers != [] {
      var front, last := peers[..|peers| - 1], peers[|peers| - 1];
      var entries := Gather(front, Entry(eligible, score));
      EntriesDistinct(front, eligible, score);
      EntriesAre(front, eligible, score);
      forall k | 0 <= k < |entries|
        ensures EntryID()(entries[k]) != last.id
      {
        assert entries[k] in entries;
        var m :| 0 <= m < |front| && front[m] == entries[k].peer;
        assert PeerID()(peers[m]) != PeerID()(peers[|peers| - 1]);
      }
    }
  }

  function IDs(entries: seq<ScoredPeer>): set<string> {
    set s | s in entries :: s.peer.id
  }

  lemma LastIsNew(front: seq<ScoredPeer>, last: ScoredPeer)
    requires DistinctBy(front + [last], EntryID())
    ensures last.peer.id !in IDs(front)
  {
    var entries := front + [last];
    forall s | s in front
      ensures s.peer.id != last.peer.id
    {
      var m :| 0 <= m < |front| && front[m] == s;
      assert EntryID()(entries[m]) != EntryID()(entries[|front|]);
    }
  }

  lemma {:induction false} CountIDs(entries: seq<ScoredPeer>)
    requires DistinctBy(entries, EntryID())
    ensures |IDs(entries)| == |entries|
  {
    if entries != [] {
      var front, last := entries[..|entries| - 1], entries[|entries| - 1];
      CountIDs(front);
      assert entries == front + [last];
      LastIsNew(front, last);
      assert IDs(entries) == IDs(front) + {last.peer.id};
    }
  }

  function Among(peers: map<string, Peer>, eligible: Peer -> bool): set<string> {
    set id | id in peers && eligible(peers[id])
  }

  /** A selection of `count` eligible peers, or all if there are fewer, none ranked below one left out. */
  ghost predicate Selects(ids: set<string>, peers: map<string, Peer>, eligible: Peer -> bool,
                          score: Peer -> real, key: ScoredPeer -> real, count: int) {
    && ids <= Among(peers, eligible)
    && |ids| == Min(Max(count, 0), |Among(peers, eligible)|)
    && forall a, b :: a in ids && b in Among(peers, eligible) - ids ==>
                        key(ScoredPeer(peers[a], score(peers[a]))) >= key(ScoredPeer(peers[b], score(peers[b])))
  }

  /** `list` holds exactly the peers of the table. */
  ghost predicate Lists(list: seq<Peer>, peers: map<string, Peer>) {
    && DistinctBy(list, PeerID())
    && (forall p :: p in list ==> p.id in peers && peers[p.id] == p)
    && forall id :: id in peers ==> peers[id] in list && peers[id].id == id
  }

  lemma {:induction false} ListLength(list: seq<Peer>, peers: map<string, Peer>)
    requires Lists(list, peers)
    ensures |list| == |peers.Keys|
  {
    var all := (p: Peer) => true;
    var score := (p: Peer) => 0.0;
    EntryIDs(list, peers, all, score);
    EntriesDistinct(list, all, score);
    CountIDs(Gather(list, Entry(all, score)));
    AllEntries(list, all, score);
    assert Among(peers, all) == peers.Keys;
  }

  lemma {:induction false} AllEntries(list: seq<Peer>, eligible: Peer -> bool, score: Peer -> real)
    requires forall p :: eligible(p)
    ensures |Gather(list, Entry(eligible, score))| == |list|
  {
    if list != [] {
      AllEntries(list[..|list| - 1], eligible, score);
    }
  }

  lemma EntryIDs(list: seq<Peer>, peers: map<string, Peer>, eligible: Peer -> bool, score: Peer -> real)
    requires Lists(list, peers)
    ensures IDs(Gather(list, Entry(eligible, score))) == Among(peers, eligible)
  {
    var entries := Gather(list, Entry(eligible, score));
    EntriesAre(list, eligible, score);
    forall id | id in Among(peers, eligible)
      ensures id in IDs(entries)
    {
      assert ScoredPeer(peers[id], score(peers[id])) in entries;
    }
  }

  lemma SameEntries(a: seq<ScoredPeer>, b: seq<ScoredPeer>)
    requires multiset(a) == multiset(b)
    ensures |a| == |b|
    ensures forall s :: s in a <==> s in b
  {
    assert |multiset(a)| == |a| && |multiset(b)| == |b|;
    forall s
      ensures s in a <==> s in b
    {
      assert s in a <==> s in multiset(a);
      assert s in b <==> s in multiset(b);
    }
  }

  /** The first k of the sorted entries are a best selection. */
  lemma FrontSelects(sorted: seq<ScoredPeer>, k: nat, list: seq<Peer>, peers: map<string, Peer>,
                     eligible: Peer -> bool, score: Peer -> real, key: ScoredPeer -> real, count: int)
    requires Lists(list, peers) && multiset(sorted) == multiset(Gather(list, Entry(eligible, score)))
    requires Descending(sorted, key) && k == Min(Max(count, 0), |sorted|)
    ensures Selects(IDs(sorted[..k]), peers, eligible, score, key, count)
    ensures DistinctBy(sorted[..k], EntryID())
    ensures forall s :: s in sorted[..k] ==> s.peer in list && eligible(s.peer)
  {
    var entries := Gather(list, Entry(eligible, score));
    EntriesAre(list, eligible, score);
    EntriesDistinct(list, eligible, score);
    EntryIDs(list, peers, eligible, score);
    SameEntries(sorted, entries);
    DistinctPermutes(entries, sorted, EntryID());
    CountIDs(entries);
    CountIDs(sorted[..k]);
    assert forall s :: s in sorted[..k] ==> s in sorted;
    forall a, b | a in IDs(sorted[..k]) && b in Among(peers, eligible) - IDs(sorted[..k])
      ensures key(ScoredPeer(peers[a], score(peers[a]))) >= key(ScoredPeer(peers[b], score(peers[b])))
    {
      var x := ScoredPeer(peers[a], score(peers[a]));
      var i :| 0 <= i < k && sorted[i].peer.id == a;
      assert sorted[i] in sorted && sorted[i] == x;
      var y := ScoredPeer(peers[b], score(peers[b]));
      assert y in entries && y in sorted;
      var j :| 0 <= j < |sorted| && sorted[j] == y;
      assert key(sorted[i]) >= key(sorted[j]);
    }
  }

  /** Score the eligible peers into a new array. */
  method ScoreEligible(list: seq<Peer>, eligible: Peer -> bool, score: Peer -> real) returns (a: array<ScoredPeer>)
    ensures fresh(a) && a[..] == Gather(list, Entry(eligible, score))
  {
    var scored := [];
    for n := 0 to |list|
      invariant scored == Gather(list[..n], Entry(eligible, score))
    {
      assert list[..n + 1] == list[..n] + [list[n]];
      GatherLast(list[..n], list[n], Entry(eligible, score));
      if eligible(list[n]) {
        scored := scored + [ScoredPeer(list[n], score(list[n]))];
      }
    }
    assert list[..|list|] == list;
    a := new ScoredPeer[|scored|](i requires 0 <= i < |scored| => scored[i]);
    assert a[..] == scored;
  }

  /** Score the eligible peers, sort them in place and keep the first `count`. */
  method Select(list: seq<Peer>, ghost peers: map<string, Peer>, eligible: Peer -> bool,
                score: Peer -> real, key: ScoredPeer -> real, count: int)
    returns (chosen: seq<ScoredPeer>)
    requires Lists(list, peers)
    ensures Selects(IDs(chosen), peers, eligible, score, key, count)
    ensures Descending(chosen, key) && DistinctBy(chosen, EntryID())
    ensures forall s :: s in chosen ==> s.peer in list && eligible(s.peer)
  {
    var a := ScoreEligible(list, eligible, score);
    ExchangeSort(a, key);
    var sorted := a[..];
    var k := Min(Max(count, 0), |sorted|);
    FrontSelects(sorted, k, list, peers, eligible, score, key, count);
    chosen := sorted[..k];
  }

  // ---- A maintenance round ----

  /** The peers that are neither connected nor connecting, by their own status. */
  function IdleIDs(peers: map<string, Peer>): set<string> {
    set id | id in peers && peers[id].status != Connected && peers[id].status != Connecting
  }

  function ConnectedIDs(peers: map<string, Peer>): set<string> {
    set id | id in peers && peers[id].status == Connected
  }

  /** `count` idle peers, or all if there are fewer; none of them scores below an idle peer left out. */
  ghost predicate DialsBest(dialed: set<string>, peers: map<string, Peer>, score: Peer -> real, count: int) {
    && dialed <= IdleIDs(peers)
    && |dialed| == Min(Max(count, 0), |IdleIDs(peers)|)
    && forall a, b :: a in dialed && b in IdleIDs(peers) && b !in dialed ==> score(peers[a]) >= score(peers[b])
  }

  /** `count` connected peers, or all if there are fewer; none of them scores above a connected peer that stays. */
  ghost predicate DropsWorst(removed: set<string>, peers: map<string, Peer>, score: Peer -> real, count: int) {
    && removed <= ConnectedIDs(peers)
    && |removed| == Min(Max(count, 0), |ConnectedIDs(peers)|)
    && forall a, b :: a in removed && b in ConnectedIDs(peers) && b !in removed ==> score(peers[a]) <= score(peers[b])
  }

  lemma SelectsIdle(dialed: set<string>, peers: map<string, Peer>, score: Peer -> real, count: int)
    requires Selects(dialed, peers, IsIdle, score, Best(), count)
    ensures DialsBest(dialed, peers, score, count)
  {
    assert Among(peers, IsIdle) == IdleIDs(peers);
    forall a, b | a in dialed && b in IdleIDs(peers) && b !in dialed
      ensures score(peers[a]) >= score(peers[b])
    {
      assert Best()(ScoredPeer(peers[a], score(peers[a]))) >= Best()(ScoredPeer(peers[b], score(peers[b])));
    }
  }

  lemma SelectsConnected(removed: set<string>, peers: map<string, Peer>, score: Peer -> real, count: int)
    requires Selects(removed, peers, IsConnected, score, Worst(), count)
    ensures DropsWorst(removed, peers, score, count)
  {
    assert Among(peers, IsConnected) == ConnectedIDs(peers);
    forall a, b | a in removed && b in ConnectedIDs(peers) && b !in removed
      ensures score(peers[a]) <= score(peers[b])
    {
      assert Worst()(ScoredPeer(peers[a], score(peers[a]))) >= Worst()(ScoredPeer(peers[b], score(peers[b])));
    }
  }

  /** What a round does, told by statuses and scores alone. */
  lemma RoundByScore(was: map<string, Peer>, now: map<string, Peer>, dialed: set<string>, removed: set<string>,
                     score: Peer -> real, max: int)
    requires Round(was, now, dialed, removed, score, max)
    ensures DialsBest(dialed, was, score, max - |ConnectedIDs(was)|)
    ensures DropsWorst(removed, was, score, |ConnectedIDs(was)| - max)
  {
    assert Among(was, IsConnected) == ConnectedIDs(was);
    SelectsIdle(dialed, was, score, max - |ConnectedIDs(was)|);
    SelectsConnected(removed, was, score, |ConnectedIDs(was)| - max);
  }

  /** `now` is the table `was` after the peers in `ids` were stored again with a new time of the last attempt. */
  ghost predicate Touched(was: map<string, Peer>, now: map<string, Peer>, ids: set<string>) {
    && now.Keys == was.Keys
    && (forall id :: id in was && id !in ids ==> now[id] == was[id])
    && forall id :: id in was && id in ids ==> now[id] == was[id].(lastSeen := now[id].lastSeen)
  }

  /** Below the limit a round dials the best idle peers, as many as there is room for beside the connected ones;
      above the limit it drops the worst connected peers, down to the limit. Nothing else changes. */
  ghost predicate Round(was: map<string, Peer>, now: map<string, Peer>, dialed: set<string>, removed: set<string>,
                        score: Peer -> real, max: int) {
    var connected := |Among(was, IsConnected)|;
    && Selects(dialed, was, IsIdle, score, Best(), max - connected)
    && Selects(removed, was, IsConnected, score, Worst(), connected - max)
    && (removed == {} ==> Touched(was, now, dialed))
    && (removed != {} ==> dialed == {} && now == was - removed)
  }

  lemma Limits(ids: set<string>, peers: map<string, Peer>, eligible: Peer -> bool,
               score: Peer -> real, key: ScoredPeer -> real, count: int)
    requires Selects(ids, peers, eligible, score, key, count)
    ensures |ids| <= Max(count, 0)
    ensures count <= 0 ==> ids == {}
  {
  }

  lemma NoneSelected(peers: map<string, Peer>, eligible: Peer -> bool,
                     score: Peer -> real, key: ScoredPeer -> real, count: int)
    requires count <= 0 || Among(peers, eligible) == {}
    ensures Selects({}, peers, eligible, score, key, count)
  {
  }

  /** A table with no more peers than connected ones has none to dial. */
  lemma NothingToDial(list: seq<Peer>, peers: map<string, Peer>, score: Peer -> real, count: int)
    requires Lists(list, peers) && (count <= 0 || |list| <= |Among(peers, IsConnected)|)
    ensures Selects({}, peers, IsIdle, score, Best(), count)
  {
    if count > 0 {
      ListLength(list, peers);
      SubsetSize(Among(peers, IsConnected), peers.Keys);
      assert Among(peers, IsIdle) == {};
    }
    NoneSelected(peers, IsIdle, score, Best(), count);
  }

  lemma GrowRound(was: map<string, Peer>, now: map<string, Peer>, dialed: set<string>, score: Peer -> real, max: int)
    requires |Among(was, IsConnected)| <= max && Touched(was, now, dialed)
    requires Selects(dialed, was, IsIdle, score, Best(), max - |Among(was, IsConnected)|)
    ensures Round(was, now, dialed, {}, score, max)
  {
    NoneSelected(was, IsConnected, score, Worst(), |Among(was, IsConnected)| - max);
  }

  lemma PruneRound(was: map<string, Peer>, now: map<string, Peer>, dialed: set<string>, removed: set<string>,
                   score: Peer -> real, max: int)
    requires |Among(was, IsConnected)| > max && now == was - removed
    requires Selects(dialed, was, IsIdle, score, Best(), max - |Among(was, IsConnected)|)
    requires Selects(removed, was, IsConnected, score, Worst(), |Among(was, IsConnected)| - max)
    ensures Round(was, now, dialed, removed, score, max)
  {
    Limits(dialed, was, IsIdle, score, Best(), max - |Among(was, IsConnected)|);
    if removed == {} {
      assert was - removed == was;
    }
  }

  /** What a round does to the connected and the idle peers. */
  lemma RoundSets(was: map<string, Peer>, now: map<string, Peer>, dialed: set<string>, removed: set<string>,
                  score: Peer -> real, max: int)
    requires Round(was, now, dialed, removed, score, max)
    ensures Among(now, IsConnected) == Among(was, IsConnected) - removed
    ensures removed <= Among(was, IsConnected) && dialed <= Among(now, IsIdle)
  {
    if removed == {} {
      assert Among(now, IsConnected) == Among(was, IsConnected);
      assert Among(now, IsIdle) == Among(was, IsIdle);
    } else {
      assert Among(now, IsConnected) == Among(was, IsConnected) - removed;
    }
  }

  lemma UnionSize(a: set<string>, b: set<string>)
    requires a !! b
    ensures |a + b| == |a| + |b|
  {
  }

  /** A round leaves at most the allowed number of peers connected, exactly that many if there were more, and even if
      every dial of the round succeeds the limit still holds. */
  lemma RoundKeepsLimit(was: map<string, Peer>, now: map<string, Peer>, dialed: set<string>, removed: set<string>,
                        score: Peer -> real, max: int)
    requires Round(was, now, dialed, removed, score, max)
    ensures |Among(now, IsConnected)| == Min(|Among(was, IsConnected)|, Max(max, 0))
    ensures dialed <= Among(now, IsIdle)
    ensures |Among(now, IsConnected) + dialed| <= Max(max, 0)
  {
    var connected := |Among(was, IsConnected)|;
    RoundSets(was, now, dialed, removed, score, max);
    SubsetSize(removed, Among(was, IsConnected));
    UnionSize(Among(now, IsConnected), dialed);
    Limits(dialed, was, IsIdle, score, Best(), max - connected);
  }

  /** Dials still in progress are not counted, so with them a round oversteps the limit exactly when some dial was in
      progress and the room beside the connected peers was too small for those and the idle ones. */
  lemma OverstepsIff(was: map<string, Peer>, now: map<string, Peer>, dialed: set<string>, removed: set<string>,
                     score: Peer -> real, max: int)
    requires Round(was, now, dialed, removed, score, max) && |Among(was, IsConnected)| <= max
    ensures |Among(was, IsConnected)| + |Among(was, IsDialing)| + |dialed| > max <==>
              Among(was, IsDialing) != {}
              && |Among(was, IsDialing)| + |Among(was, IsIdle)| > max - |Among(was, IsConnected)|
  {
    assert |dialed| == Min(max - |Among(was, IsConnected)|, |Among(was, IsIdle)|);
  }

  // ---- Two rounds before a dial completes ----

  /** The table after the status of the peers in `ids` was updated. */
  function WithStatus(peers: map<string, Peer>, ids: set<string>, status: Status, now: int): map<string, Peer> {
    map id | id in peers :: if id in ids then peers[id].(status := status, lastSeen := now) else peers[id]
  }

  /** Peers that have begun to connect are no longer idle. */
  lemma DialingSets(peers: map<string, Peer>, ids: set<string>, now: int)
    requires ids <= Among(peers, IsIdle)
    ensures var after := WithStatus(peers, ids, Connecting, now);
            && Among(after, IsConnected) == Among(peers, IsConnected)
            && Among(after, IsIdle) == Among(peers, IsIdle) - ids
            && Among(after, IsDialing) == Among(peers, IsDialing) + ids
  {
  }

  lemma TouchedSets(was: map<string, Peer>, now: map<string, Peer>, ids: set<string>)
    requires Touched(was, now, ids)
    ensures Among(now, IsConnected) == Among(was, IsConnected)
    ensures Among(now, IsIdle) == Among(was, IsIdle)
    ensures Among(now, IsDialing) == Among(was, IsDialing)
  {
  }

  /** Below the limit a round removes nobody, and the peers it dials begin to connect. */
  lemma GrowingRound(was: map<string, Peer>, now: map<string, Peer>, dialed: set<string>, removed: set<string>,
                     score: Peer -> real, max: int, time: int)
    requires Round(was, now, dialed, removed, score, max) && |Among(was, IsConnected)| < max
    ensures var after := WithStatus(now, dialed, Connecting, time);
            && Among(after, IsConnected) == Among(was, IsConnected)
            && Among(after, IsIdle) == Among(was, IsIdle) - dialed
            && Among(after, IsDialing) == Among(was, IsDialing) + dialed
    ensures dialed <= Among(was, IsIdle) && |dialed| == Min(max - |Among(was, IsConnected)|, |Among(was, IsIdle)|)
  {
    Limits(removed, was, IsConnected, score, Worst(), |Among(was, IsConnected)| - max);
    TouchedSets(was, now, dialed);
    DialingSets(now, dialed, time);
  }

  /** At or above the limit a round dials nobody and leaves the limit connected. */
  lemma FullRound(was: map<string, Peer>, now: map<string, Peer>, dialed: set<string>, removed: set<string>,
                  score: Peer -> real, max: int, time: int)
    requires Round(was, now, dialed, removed, score, max) && |Among(was, IsConnected)| >= max
    requires Among(was, IsDialing) == {}
    ensures dialed == {} && WithStatus(now, dialed, Connecting, time) == now
    ensures Among(now, IsDialing) == {} && |Among(now, IsConnected)| == Max(max, 0)
  {
    Limits(dialed, was, IsIdle, score, Best(), max - |Among(was, IsConnected)|);
    RoundKeepsLimit(was, now, dialed, removed, score, max);
    if removed == {} {
      TouchedSets(was, now, dialed);
    }
  }

  /** Connected peers and those about to be. */
  ghost function InUse(peers: map<string, Peer>): nat {
    |Among(peers, IsConnected)| + |Among(peers, IsDialing)|
  }

  /** Dialing twice into the same room takes more than the room exactly if the idle peers do not fit it. */
  lemma TwoDials(idle: set<string>, first: set<string>, second: set<string>, room: int)
    requires 0 < room && first <= idle && second <= idle - first
    requires |first| == Min(room, |idle|) && |second| == Min(room, |idle - first|)
    ensures |first + second| > room <==> room < |idle|
  {
    SubsetSize(first, idle);
    UnionSize(first, second);
  }

  lemma DialingTotal(was: map<string, Peer>, now: map<string, Peer>, first: set<string>, second: set<string>)
    requires Among(was, IsDialing) == {} && Among(now, IsDialing) == Among(was, IsDialing) + first + second
    requires Among(now, IsConnected) == Among(was, IsConnected)
    ensures InUse(now) == |Among(was, IsConnected)| + |first + second|
  {
    assert Among(now, IsDialing) == first + second;
  }

  /** Two rounds in a row, the dials of each begun and none completed, overstep the limit exactly if there were
      more idle peers than there was room, and some room. */
  lemma TwoRoundsOverstepIff(was: map<string, Peer>, mid: map<string, Peer>, now: map<string, Peer>,
                             first: set<string>, dropped: set<string>, second: set<string>, removed: set<string>,
                             score: Peer -> real, max: int, time: int)
    requires Among(was, IsDialing) == {}
    requires Round(was, mid, first, dropped, score, max)
    requires Round(WithStatus(mid, first, Connecting, time), now, second, removed, score, max)
    ensures InUse(WithStatus(now, second, Connecting, time)) > Max(max, 0) <==>
            0 < max - |Among(was, IsConnected)| < |Among(was, IsIdle)|
  {
    var after := WithStatus(mid, first, Connecting, time);
    if |Among(was, IsConnected)| < max {
      GrowingRound(was, mid, first, dropped, score, max, time);
      GrowingRound(after, now, second, removed, score, max, time);
      TwoDials(Among(was, IsIdle), first, second, max - |Among(was, IsConnected)|);
      DialingTotal(was, WithStatus(now, second, Connecting, time), first, second);
    } else {
      FullRound(was, mid, first, dropped, score, max, time);
      FullRound(after, now, second, removed, score, max, time);
    }
  }

  class MeshManager {
    const maxPeers: int
    var peers: map<string, Peer>

    ghost predicate Valid()
      reads this
    {
      forall id :: id in peers ==> peers[id].id == id
    }

    constructor (max: int)
      ensures Valid() && maxPeers == max && peers == map[]
    {
      maxPeers, peers := max, map[];
    }

    /** ListPeers walks the table in any order. */
    method ListPeers() returns (list: seq<Peer>)
      requires Valid()
      ensures Lists(list, peers)
    {
      list := [];
      var ids := peers.Keys;
      while ids != {}
        invariant ids <= peers.Keys && DistinctBy(list, PeerID())
        invariant forall p :: p in list ==> p.id in peers && p.id !in ids && peers[p.id] == p
        invariant forall id :: id in peers && id !in ids ==> peers[id] in list
        decreases |ids|
      {
        var id :| id in ids;
        list := list + [peers[id]];
        ids := ids - {id};
      }
    }

    /** AddPeer: the peer's entry is stored again with the time of the attempt. */
    method AddPeer(peer: Peer, now: int)
      requires Valid()
      modifies this
      ensures Valid() && peers == old(peers)[peer.id := peer.(lastSeen := now)]
    {
      peers := peers[peer.id := peer.(lastSeen := now)];
    }

    method DialAll(chosen: seq<ScoredPeer>, now: int)
      requires Valid()
      requires forall s :: s in chosen ==> s.peer.id in peers && peers[s.peer.id] == s.peer
      requires DistinctBy(chosen, EntryID())
      modifies this
      ensures Valid() && Touched(old(peers), peers, IDs(chosen))
    {
      for n := 0 to |chosen|
        invariant Valid() && Touched(old(peers), peers, IDs(chosen[..n]))
      {
        assert chosen[n] in chosen && chosen[..n + 1] == chosen[..n] + [chosen[n]];
        assert IDs(chosen[..n + 1]) == IDs(chosen[..n]) + {chosen[n].peer.id};
        AddPeer(chosen[n].peer, now);
      }
      assert chosen[..|chosen|] == chosen;
    }

    method RemoveAll(chosen: seq<ScoredPeer>)
      requires Valid()
      modifies this
      ensures Valid() && peers == old(peers) - IDs(chosen)
    {
      for n := 0 to |chosen|
        invariant Valid() && peers == old(peers) - IDs(chosen[..n])
      {
        assert chosen[..n + 1] == chosen[..n] + [chosen[n]];
        assert IDs(chosen[..n + 1]) == IDs(chosen[..n]) + {chosen[n].peer.id};
        peers := peers - {chosen[n].peer.id};
      }
      assert chosen[..|chosen|] == chosen;
    }

    /** pruneExcessPeers: exactly `count` connected peers go, and none of them scores above one that stays. */
    method PruneExcessPeers(list: seq<Peer>, score: Peer -> real, count: int) returns (ghost removed: set<string>)
      requires Valid() && Lists(list, peers)
      modifies this
      ensures Valid() && peers == old(peers) - removed
      ensures Selects(removed, old(peers), IsConnected, score, Worst(), count)
      ensures DropsWorst(removed, old(peers), score, count)
    {
      var chosen := Select(list, peers, IsConnected, score, Worst(), count);
      removed := IDs(chosen);
      SelectsConnected(removed, peers, score, count);
      RemoveAll(chosen);
    }

    method ConnectedCount() returns (n: nat)
      ensures n == |Among(peers, IsConnected)|
    {
      n := 0;
      var ids := peers.Keys;
      ghost var counted := {};
      while ids != {}
        invariant ids <= peers.Keys && n == |counted|
        invariant counted == Among(peers, IsConnected) - ids
        decreases |ids|
      {
        var id :| id in ids;
        if peers[id].status == Connected {
          n := n + 1;
          counted := counted + {id};
        }
        ids := ids - {id};
      }
      assert Among(peers, IsConnected) - ids == counted;
    }

    /** The first half of maintainPartialMesh. */
    method Grow(list: seq<Peer>, connected: nat, score: Peer -> real, now: int) returns (dialed: set<string>)
      requires Valid() && Lists(list, peers) && connected == |Among(peers, IsConnected)|
      modifies this
      ensures Valid() && Touched(old(peers), peers, dialed)
      ensures Selects(dialed, old(peers), IsIdle, score, Best(), maxPeers - connected)
      ensures DialsBest(dialed, old(peers), score, maxPeers - connected)
      ensures connected >= maxPeers ==> peers == old(peers)
    {
      dialed := {};
      if connected < maxPeers && |list| > connected {
        var chosen := Select(list, peers, IsIdle, score, Best(), maxPeers - connected);
        dialed := IDs(chosen);
        DialAll(chosen, now);
      } else {
        NothingToDial(list, peers, score, maxPeers - connected);
      }
      SelectsIdle(dialed, old(peers), score, maxPeers - connected);
    }

    /** The two halves of maintainPartialMesh over one listing. */
    method GrowOrPrune(list: seq<Peer>, connected: nat, score: Peer -> real, now: int)
      returns (dialed: set<string>, ghost removed: set<string>)
      requires Valid() && Lists(list, peers) && connected == |Among(peers, IsConnected)|
      modifies this
      ensures Valid() && Round(old(peers), peers, dialed, removed, score, maxPeers)
    {
      dialed := Grow(list, connected, score, now);
      if connected > maxPeers {
        removed := PruneExcessPeers(list, score, connected - maxPeers);
        PruneRound(old(peers), peers, dialed, removed, score, maxPeers);
      } else {
        removed := {};
        GrowRound(old(peers), peers, dialed, score, maxPeers);
      }
    }

    /** One round of maintainPartialMesh. */
    method MaintainPartialMesh(score: Peer -> real, now: int)
      returns (dialed: set<string>, ghost removed: set<string>)
      requires Valid()
      modifies this
      ensures Valid() && Round(old(peers), peers, dialed, removed, score, maxPeers)
      ensures DialsBest(dialed, old(peers), score, maxPeers - |ConnectedIDs(old(peers))|)
      ensures DropsWorst(removed, old(peers), score, |ConnectedIDs(old(peers))| - maxPeers)
    {
      var list := ListPeers();
      var connected := ConnectedCount();
      dialed, removed := GrowOrPrune(list, connected, score, now);
      RoundByScore(old(peers), peers, dialed, removed, score, maxPeers);
    }

    /** updatePeerStatus for each of a set of peers. */
    method UpdateStatus(ids: set<string>, status: Status, now: int)
      requires Valid()
      modifies this
      ensures Valid() && peers == WithStatus(old(peers), ids, status, now)
    {
      var todo := ids;
      assert WithStatus(peers, {}, status, now) == peers;
      while todo != {}
        invariant Valid() && todo <= ids && peers == WithStatus(old(peers), ids - todo, status, now)
        decreases todo
      {
        var id :| id in todo;
        StatusOne(old(peers), ids - todo, id, status, now);
        todo := todo - {id};
        if id in peers {
          peers := peers[id := peers[id].(status := status, lastSeen := now)];
        }
        assert ids - todo == (ids - (todo + {id})) + {id};
      }
      assert ids - todo == ids;
    }

    /** Two rounds of maintenance, each followed by its dials beginning. */
    method TwoRounds(score: Peer -> real, now: int)
      requires Valid() && Among(peers, IsDialing) == {}
      modifies this
      ensures Valid()
      ensures InUse(peers) > Max(maxPeers, 0) <==>
              0 < maxPeers - |Among(old(peers), IsConnected)| < |Among(old(peers), IsIdle)|
    {
      var first, dropped := MaintainPartialMesh(score, now);
      ghost var mid := peers;
      UpdateStatus(first, Connecting, now);
      var second, removed := MaintainPartialMesh(score, now);
      ghost var end := peers;
      UpdateStatus(second, Connecting, now);
      TwoRoundsOverstepIff(old(peers), mid, end, first, dropped, second, removed, score, maxPeers, now);
    }
  }

  lemma StatusOne(peers: map<string, Peer>, done: set<string>, id: string, status: Status, now: int)
    ensures var before := WithStatus(peers, done, status, now);
            WithStatus(peers, done + {id}, status, now) ==
            if id in before then before[id := before[id].(status := status, lastSeen := now)] else before
  {
  }

  /** With a limit of one and two idle peers, two rounds leave two peers connecting. */
  method DialsBoth(score: Peer -> real) returns (mesh: MeshManager)
    ensures mesh.maxPeers == 1 && InUse(mesh.peers) > 1
  {
    mesh := new MeshManager(1);
    mesh.AddPeer(Peer("a", Disconnected, 0, 0, 0), 0);
    mesh.AddPeer(Peer("b", Disconnected, 0, 0, 0), 0);
    assert Among(mesh.peers, IsIdle) == {"a", "b"};
    assert Among(mesh.peers, IsConnected) == {} && Among(mesh.peers, IsDialing) == {};
    mesh.TwoRounds(score, 0);
  }
}
