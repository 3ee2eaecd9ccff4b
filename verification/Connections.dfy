/** Concurrent counting of one endpoint's active connections. The stats object is looked up or created without
    atomicity; its counter changes by atomic additions and compare-and-swap. */
module Connections {
  import opened Common

  type Thread = nat

  /** What a thread wants the stats object for: IncrementActiveConnections, DecrementActiveConnections,
      RecordFailure, which registers the object again, or any use that leaves registration and count alone. */
  datatype Purpose = Increment | Decrement | Fail | Observe

  /** Between calls; after a lookup that found nothing; with the object in hand; or between the load and the
      compare-and-swap of a decrement. */
  datatype Pc =
    | Idle
    | Missed(purpose: Purpose)
    | Holding(purpose: Purpose, stats: nat)
    | Loaded(stats: nat, value: int, at: nat)

  datatype Event =
    | Lookup(thread: Thread, purpose: Purpose)
    | Store(thread: Thread)
    | Add(thread: Thread)
    | Load(thread: Thread)
    | Cas(thread: Thread)
    | Release(thread: Thread)

  /** Every stats object ever created, by its count, and the one the table holds. */
  datatype State = State(objects: seq<int>, registered: Option<nat>, pcs: map<Thread, Pc>, increments: nat, decrements: nat)

  const INITIAL := State([], None, map[], 0, 0)

  function PcOf(s: State, t: Thread): Pc {
    if t in s.pcs then s.pcs[t] else Idle
  }

  /** Threads and the table refer to objects that exist. */
  ghost predicate Formed(s: State) {
    && (s.registered.None? <==> s.objects == [])
    && (s.registered.Some? ==> s.registered.value < |s.objects|)
    && forall t :: t in s.pcs && (s.pcs[t].Holding? || s.pcs[t].Loaded?) ==> s.pcs[t].stats < |s.objects|
  }

  /** A thread in the middle of a call does nothing but go on with it. */
  predicate Enabled(s: State, e: Event) {
    var pc := PcOf(s, e.thread);
    match e
    case Lookup(_, _) => pc.Idle?
    case Store(_) => pc.Missed?
    case Add(_) => pc.Holding? && pc.purpose.Increment?
    case Load(_) => pc.Holding? && pc.purpose.Decrement?
    case Cas(_) => pc.Loaded?
    case Release(_) => pc.Holding? && (pc.purpose.Fail? || pc.purpose.Observe?)
  }

  function SetPc(s: State, t: Thread, pc: Pc): State {
    s.(pcs := s.pcs[t := pc])
  }

  /** The store replaces whatever was registered meanwhile. A failed compare-and-swap goes back to loading; a load
      of zero or less returns. */
  ghost function Step(s: State, e: Event, now: nat): (r: State)
    requires Formed(s) && Enabled(s, e)
    ensures Formed(r)
  {
    var t, pc := e.thread, PcOf(s, e.thread);
    match e
    case Lookup(_, purpose) =>
      SetPc(s, t, if s.registered.Some? then Holding(purpose, s.registered.value) else Missed(purpose))
    case Store(_) =>
      SetPc(s.(objects := s.objects + [0], registered := Some(|s.objects|)), t, Holding(pc.purpose, |s.objects|))
    case Add(_) =>
      SetPc(s.(objects := s.objects[pc.stats := WrapInt32(s.objects[pc.stats] + 1)], increments := s.increments + 1), t, Idle)
    case Load(_) =>
      SetPc(s, t, if s.objects[pc.stats] <= 0 then Idle else Loaded(pc.stats, s.objects[pc.stats], now))
    case Cas(_) =>
      if s.objects[pc.stats] == pc.value
      then SetPc(s.(objects := s.objects[pc.stats := pc.value - 1], decrements := s.decrements + 1), t, Idle)
      else SetPc(s, t, Holding(Decrement, pc.stats))
    case Release(_) =>
      SetPc(if pc.purpose.Fail? then s.(registered := Some(pc.stats)) else s, t, Idle)
  }

  /** An interleaving in which every event was possible when it happened. */
  ghost predicate Interleaving(run: seq<Event>)
    decreases |run|, 0
  {
    run == [] || (Interleaving(run[..|run| - 1]) && Enabled(After(run[..|run| - 1]), run[|run| - 1]))
  }

  ghost function After(run: seq<Event>): (s: State)
    requires Interleaving(run)
    ensures Formed(s)
    decreases |run|, 1
  {
    if run == [] then INITIAL else Step(After(run[..|run| - 1]), run[|run| - 1], |run| - 1)
  }

  lemma Extends(run: seq<Event>, e: Event)
    requires Interleaving(run) && Enabled(After(run), e)
    ensures Interleaving(run + [e]) && After(run + [e]) == Step(After(run), e, |run|)
    ensures NoOverflow(run) && HasRoom(After(run), e) ==> NoOverflow(run + [e])
  {
    assert (run + [e])[..|run|] == run;
  }

  // ---- Conservation ----

  function Total(counts: seq<int>): int {
    if counts == [] then 0 else Total(counts[..|counts| - 1]) + counts[|counts| - 1]
  }

  lemma {:induction false} TotalUpdate(counts: seq<int>, i: nat, v: int)
    requires i < |counts|
    ensures Total(counts[i := v]) == Total(counts) - counts[i] + v
  {
    var last := |counts| - 1;
    if i == last {
      assert counts[i := v][..last] == counts[..last];
    } else {
      assert counts[i := v][..last] == counts[..last][i := v];
      TotalUpdate(counts[..last], i, v);
    }
  }

  lemma TotalAppend(counts: seq<int>, v: int)
    ensures Total(counts + [v]) == Total(counts) + v
  {
    assert (counts + [v])[..|counts|] == counts;
  }

  predicate NonNegative(counts: seq<int>) {
    forall o :: 0 <= o < |counts| ==> 0 <= counts[o]
  }

  /** Only the object r counts anything. */
  predicate OnlyAt(counts: seq<int>, r: int) {
    forall o :: 0 <= o < |counts| && o != r ==> counts[o] == 0
  }

  lemma {:induction false} TotalIsOne(counts: seq<int>, r: int)
    requires NonNegative(counts)
    ensures var mine := if 0 <= r < |counts| then counts[r] else 0;
            mine <= Total(counts) && (Total(counts) == mine <==> OnlyAt(counts, r))
  {
    if counts != [] {
      var front, last := counts[..|counts| - 1], counts[|counts| - 1];
      TotalIsOne(front, r);
      assert counts == front + [last];
      assert OnlyAt(counts, r) <==> OnlyAt(front, r) && (r == |front| || last == 0);
    }
  }

  /** An increment does not overflow. */
  ghost predicate HasRoom(s: State, e: Event)
    requires Formed(s) && Enabled(s, e)
  {
    e.Add? ==> s.objects[PcOf(s, e.thread).stats] < MAX_INT32
  }

  /** Every increment found room. */
  ghost predicate NoOverflow(run: seq<Event>)
    requires Interleaving(run)
  {
    run == [] || (NoOverflow(run[..|run| - 1]) && HasRoom(After(run[..|run| - 1]), run[|run| - 1]))
  }

  /** Counts within int32 that are not negative and add up to `net`. */
  predicate AddUp(counts: seq<int>, net: int) {
    NonNegative(counts) && (forall o :: 0 <= o < |counts| ==> counts[o] <= MAX_INT32) && Total(counts) == net
  }

  lemma AddUpSet(counts: seq<int>, net: int, i: nat, v: int)
    requires AddUp(counts, net) && i < |counts| && 0 <= v <= MAX_INT32
    ensures AddUp(counts[i := v], net + v - counts[i])
  {
    TotalUpdate(counts, i, v);
  }

  lemma AddUpNew(counts: seq<int>, net: int)
    requires AddUp(counts, net)
    ensures AddUp(counts + [0], net)
  {
    TotalAppend(counts, 0);
  }

  ghost predicate PositiveLoads(pcs: map<Thread, Pc>) {
    forall t :: t in pcs && pcs[t].Loaded? ==> 0 < pcs[t].value
  }

  /** No object counts below zero, and all together count the increments that were not undone. */
  ghost predicate Balanced(s: State) {
    AddUp(s.objects, s.increments - s.decrements) && PositiveLoads(s.pcs)
  }

  lemma StepLoads(s: State, e: Event, now: nat)
    requires Formed(s) && Enabled(s, e) && PositiveLoads(s.pcs)
    ensures PositiveLoads(Step(s, e, now).pcs)
  {
  }

  lemma StepCounts(s: State, e: Event, now: nat)
    requires Formed(s) && Enabled(s, e) && Balanced(s) && HasRoom(s, e)
    ensures var r := Step(s, e, now); AddUp(r.objects, r.increments - r.decrements)
  {
    var pc, net := PcOf(s, e.thread), s.increments - s.decrements;
    match e
    case Store(_) => AddUpNew(s.objects, net);
    case Add(_) => AddUpSet(s.objects, net, pc.stats, s.objects[pc.stats] + 1);
    case Cas(_) =>
      if s.objects[pc.stats] == pc.value {
        AddUpSet(s.objects, net, pc.stats, pc.value - 1);
      }
    case _ =>
  }

  /** Without overflow the objects never count below zero, and together they count increments minus successful
      decrements, in every interleaving. */
  lemma {:induction false} Conserved(run: seq<Event>)
    requires Interleaving(run) && NoOverflow(run)
    ensures Balanced(After(run))
  {
    if run != [] {
      var front := run[..|run| - 1];
      Conserved(front);
      StepCounts(After(front), run[|run| - 1], |front|);
      StepLoads(After(front), run[|run| - 1], |front|);
    }
  }

  ghost predicate NeverNegative(run: seq<Event>)
    requires Interleaving(run)
  {
    NonNegative(After(run).objects) && (run != [] ==> NeverNegative(run[..|run| - 1]))
  }

  /** The counts stay non-negative throughout exactly if no increment overflows. */
  lemma {:induction false} NonNegativeIff(run: seq<Event>)
    requires Interleaving(run)
    ensures NeverNegative(run) <==> NoOverflow(run)
  {
    if run != [] {
      var front := run[..|run| - 1];
      NonNegativeIff(front);
      if NoOverflow(run) {
        Conserved(run);
      } else if NoOverflow(front) {
        Conserved(front);
        Overflows(After(front), run[|run| - 1], |front|);
      }
    }
  }

  lemma Overflows(s: State, e: Event, now: nat)
    requires Formed(s) && Enabled(s, e) && !HasRoom(s, e) && Balanced(s)
    ensures !NonNegative(Step(s, e, now).objects)
  {
    var o := PcOf(s, e.thread).stats;
    assert WrapInt32(MAX_INT32 + 1) < 0;
    assert Step(s, e, now).objects[o] < 0;
  }

  // ---- Which object carries the count ----

  function RegisteredCount(s: State): int {
    if s.registered.Some? && s.registered.value < |s.objects| then s.objects[s.registered.value] else 0
  }

  /** What callers see of the endpoint is the whole count. */
  predicate Carried(s: State) {
    RegisteredCount(s) == s.increments - s.decrements
  }

  /** However the run goes on without overflow, the registered object carries the whole count. */
  ghost predicate AlwaysCarried(run: seq<Event>) {
    forall more :: run <= more && Interleaving(more) && NoOverflow(more) ==> Carried(After(more))
  }

  /** The thread is about to count on, or to register, another object than r. */
  predicate Strays(pc: Pc, r: nat) {
    pc.Missed? || (pc.Holding? && pc.stats != r && (pc.purpose.Increment? || pc.purpose.Fail?))
  }

  /** Some object is registered, no other counts anything, and no thread strays from it. */
  ghost predicate Sealed(s: State) {
    && s.registered.Some?
    && OnlyAt(s.objects, s.registered.value)
    && forall t :: t in s.pcs ==> !Strays(s.pcs[t], s.registered.value)
  }

  lemma SealedStep(s: State, e: Event, now: nat)
    requires Formed(s) && Enabled(s, e) && Balanced(s) && Sealed(s)
    ensures Sealed(Step(s, e, now))
  {
    var pc := PcOf(s, e.thread);
    assert pc != Idle ==> e.thread in s.pcs;
  }

  lemma SealedCarries(s: State)
    requires Formed(s) && Balanced(s) && Sealed(s)
    ensures Carried(s)
  {
    TotalIsOne(s.objects, s.registered.value);
  }

  lemma {:induction false} SealedForever(run: seq<Event>, more: seq<Event>)
    requires Interleaving(run) && Sealed(After(run)) && run <= more && Interleaving(more) && NoOverflow(more)
    ensures Sealed(After(more))
    decreases |more|
  {
    if |more| > |run| {
      var front := more[..|more| - 1];
      SealedForever(run, front);
      Conserved(front);
      SealedStep(After(front), more[|more| - 1], |front|);
    } else {
      assert more == run;
    }
  }

  lemma {:induction false} Unused(threads: set<Thread>) returns (u: Thread)
    ensures forall t :: t in threads ==> t < u
    decreases |threads|
  {
    u := 0;
    if threads != {} {
      var some :| some in threads;
      var v := Unused(threads - {some});
      u := if v > some then v else some + 1;
      assert forall t :: t in threads ==> t == some || t in threads - {some};
    }
  }

  /** u and v have both looked the object up and found none. */
  lemma BothMiss(run: seq<Event>, u: Thread, v: Thread) returns (more: seq<Event>)
    requires Interleaving(run) && NoOverflow(run) && After(run).registered.None?
    requires u != v && u !in After(run).pcs && v !in After(run).pcs
    ensures run <= more && Interleaving(more) && NoOverflow(more)
    ensures var s, m := After(run), After(more);
            && m == s.(pcs := m.pcs) && PcOf(m, u) == PcOf(m, v) == Missed(Increment)
  {
    Extends(run, Lookup(u, Increment));
    var one := run + [Lookup(u, Increment)];
    Extends(one, Lookup(v, Increment));
    more := one + [Lookup(v, Increment)];
  }

  lemma BothStore(run: seq<Event>, u: Thread, v: Thread) returns (more: seq<Event>)
    requires Interleaving(run) && NoOverflow(run) && After(run).registered.None? && u != v
    requires PcOf(After(run), u) == PcOf(After(run), v) == Missed(Increment)
    ensures run <= more && Interleaving(more) && NoOverflow(more)
    ensures var s, m := After(run), After(more);
            && m == s.(objects := [0, 0], registered := Some(1), pcs := m.pcs)
            && PcOf(m, u) == Holding(Increment, 0) && PcOf(m, v) == Holding(Increment, 1)
  {
    Extends(run, Store(u));
    var one := run + [Store(u)];
    assert After(one).objects == [0];
    Extends(one, Store(v));
    more := one + [Store(v)];
    assert After(more).objects == [0, 0];
  }

  lemma BothAdd(run: seq<Event>, u: Thread, v: Thread) returns (more: seq<Event>)
    requires Interleaving(run) && NoOverflow(run) && After(run).objects == [0, 0] && u != v
    requires PcOf(After(run), u) == Holding(Increment, 0) && PcOf(After(run), v) == Holding(Increment, 1)
    ensures run <= more && Interleaving(more) && NoOverflow(more)
    ensures var s, m := After(run), After(more);
            m == s.(objects := [1, 1], pcs := m.pcs, increments := s.increments + 2)
  {
    Extends(run, Add(u));
    var one := run + [Add(u)];
    assert After(one).objects == [1, 0];
    Extends(one, Add(v));
    more := one + [Add(v)];
    assert After(more).objects == [1, 1];
  }

  /** Two first calls that both miss create two objects, and the table keeps one of them. */
  lemma LostIncrement(run: seq<Event>) returns (more: seq<Event>)
    requires Interleaving(run) && NoOverflow(run) && After(run).registered.None?
    ensures run <= more && Interleaving(more) && NoOverflow(more)
    ensures var s := After(more); RegisteredCount(s) == 1 && s.increments - s.decrements == 2
  {
    NothingCounted(run);
    var u := Unused(After(run).pcs.Keys);
    var missed := BothMiss(run, u, u + 1);
    more := StoreAndAdd(missed, u, u + 1);
  }

  lemma StoreAndAdd(run: seq<Event>, u: Thread, v: Thread) returns (more: seq<Event>)
    requires Interleaving(run) && NoOverflow(run) && After(run).registered.None? && u != v
    requires PcOf(After(run), u) == PcOf(After(run), v) == Missed(Increment)
    ensures run <= more && Interleaving(more) && NoOverflow(more)
    ensures var s, m := After(run), After(more);
            RegisteredCount(m) == 1 && m.increments == s.increments + 2 && m.decrements == s.decrements
  {
    var stored := BothStore(run, u, v);
    more := BothAdd(stored, u, v);
  }

  lemma NothingCounted(run: seq<Event>)
    requires Interleaving(run) && NoOverflow(run) && After(run).registered.None?
    ensures After(run).increments == After(run).decrements
  {
    Conserved(run);
  }

  /** The registered object can be made to count something. */
  lemma WithConnection(run: seq<Event>) returns (more: seq<Event>)
    requires Interleaving(run) && NoOverflow(run) && After(run).registered.Some?
    ensures run <= more && Interleaving(more) && NoOverflow(more)
    ensures var s, m := After(run), After(more);
            && m.registered == s.registered && 1 <= RegisteredCount(m)
            && m.objects == s.objects[s.registered.value := RegisteredCount(m)]
            && forall t :: t in s.pcs ==> t in m.pcs && m.pcs[t] == s.pcs[t]
  {
    Conserved(run);
    more := run;
    if RegisteredCount(After(run)) == 0 {
      var u := Unused(After(run).pcs.Keys);
      Extends(run, Lookup(u, Increment));
      more := run + [Lookup(u, Increment)];
      Extends(more, Add(u));
      more := more + [Add(u)];
    }
  }

  /** A connection counted on an object that is not registered is lost. */
  lemma NotCarried(run: seq<Event>, o: nat)
    requires Interleaving(run) && NoOverflow(run) && o < |After(run).objects| && 0 < After(run).objects[o]
    requires After(run).registered != Some(o)
    ensures !Carried(After(run))
  {
    Conserved(run);
    var s := After(run);
    TotalIsOne(s.objects, s.registered.value);
  }

  /** From a state that is not sealed the count can be lost. */
  lemma UnsealedLoses(run: seq<Event>) returns (more: seq<Event>)
    requires Interleaving(run) && NoOverflow(run) && !Sealed(After(run))
    ensures run <= more && Interleaving(more) && NoOverflow(more) && !Carried(After(more))
  {
    var s := After(run);
    if s.registered.None? {
      more := LostIncrement(run);
    } else if !OnlyAt(s.objects, s.registered.value) {
      more := run;
      OthersCount(run);
    } else {
      var t :| t in s.pcs && Strays(s.pcs[t], s.registered.value);
      more := StrayingLoses(run, t);
    }
  }

  lemma OthersCount(run: seq<Event>)
    requires Interleaving(run) && NoOverflow(run) && After(run).registered.Some?
    requires !OnlyAt(After(run).objects, After(run).registered.value)
    ensures !Carried(After(run))
  {
    Conserved(run);
    TotalIsOne(After(run).objects, After(run).registered.value);
  }

  lemma StrayingLoses(run: seq<Event>, t: Thread) returns (more: seq<Event>)
    requires Interleaving(run) && NoOverflow(run) && After(run).registered.Some?
    requires OnlyAt(After(run).objects, After(run).registered.value)
    requires t in After(run).pcs && Strays(After(run).pcs[t], After(run).registered.value)
    ensures run <= more && Interleaving(more) && NoOverflow(more) && !Carried(After(more))
  {
    var pc, r := After(run).pcs[t], After(run).registered.value;
    if pc.Holding? && pc.purpose.Increment? {
      Extends(run, Add(t));
      more := run + [Add(t)];
      NotCarried(more, pc.stats);
    } else {
      var busy := WithConnection(run);
      var e := if pc.Missed? then Store(t) else Release(t);
      Extends(busy, e);
      more := busy + [e];
      NotCarried(more, r);
    }
  }

  /** The registered object carries the whole count from now on, in every continuation, exactly if the state is
      sealed. */
  lemma AlwaysCarriedIff(run: seq<Event>)
    requires Interleaving(run) && NoOverflow(run)
    ensures AlwaysCarried(run) <==> Sealed(After(run))
  {
    if Sealed(After(run)) {
      forall more | run <= more && Interleaving(more) && NoOverflow(more)
        ensures Carried(After(more))
      {
        SealedForever(run, more);
        Conserved(more);
        SealedCarries(After(more));
      }
    } else {
      var more := UnsealedLoses(run);
      assert !Carried(After(more));
    }
  }

  /** One call that creates the object before any other looks it up seals the count for good. */
  lemma QuietStart(t: Thread, purpose: Purpose)
    ensures Interleaving([Lookup(t, purpose), Store(t)]) && AlwaysCarried([Lookup(t, purpose), Store(t)])
  {
    var first, run := [Lookup(t, purpose)], [Lookup(t, purpose), Store(t)];
    assert first == [] + first;
    Extends([], Lookup(t, purpose));
    assert run == first + [Store(t)];
    Extends(first, Store(t));
    AlwaysCarriedIff(run);
  }
}

// When DecrementConnections has to try again.
module CompareAndSwap {
  import opened Connections

  /** Event k leads from one state of the trace to the next. */
  ghost predicate StepAt(run: seq<Event>, ss: seq<State>, k: nat) {
    && k < |run| && k + 1 < |ss|
    && Formed(ss[k]) && Enabled(ss[k], run[k]) && ss[k + 1] == Step(ss[k], run[k], k)
  }

  /** The states a run goes through. */
  ghost predicate Trace(run: seq<Event>, ss: seq<State>) {
    && |ss| == |run| + 1 && ss[0] == INITIAL
    && forall k :: 0 <= k < |run| ==> StepAt(run, ss, k)
  }

  /** Every interleaving has a trace, which ends in the state after it. */
  lemma {:induction false} TraceOf(run: seq<Event>) returns (ss: seq<State>)
    requires Interleaving(run)
    ensures Trace(run, ss) && ss[|run|] == After(run)
  {
    if run == [] {
      ss := [INITIAL];
    } else {
      var last := |run| - 1;
      var before := TraceOf(run[..last]);
      ss := before + [After(run)];
      forall k | 0 <= k < |run|
        ensures StepAt(run, ss, k)
      {
        if k < last {
          assert StepAt(run[..last], before, k);
        }
      }
    }
  }

  function CountOf(s: State, o: nat): int {
    if o < |s.objects| then s.objects[o] else 0
  }

  /** A thread comes to hold a loaded value by its own load and keeps it while others act. */
  lemma LoadStep(s: State, e: Event, now: nat, t: Thread)
    requires Formed(s) && Enabled(s, e) && PcOf(Step(s, e, now), t).Loaded?
    ensures var pc := PcOf(Step(s, e, now), t);
            if e.thread == t then e == Load(t) && pc.at == now && CountOf(s, pc.stats) == pc.value
            else pc == PcOf(s, t)
  {
  }

  /** The value was read by the thread's own load, and the thread has waited since. */
  ghost predicate Remembers(run: seq<Event>, ss: seq<State>, n: nat, t: Thread, pc: Pc)
    requires |ss| == |run| + 1 && n <= |run| && pc.Loaded?
  {
    && pc.at < n && run[pc.at] == Load(t) && CountOf(ss[pc.at], pc.stats) == pc.value
    && forall j :: pc.at < j < n ==> run[j].thread != t
  }

  /** What a loaded value remembers: when it was loaded, and that the thread has waited since. */
  lemma {:induction false} LoadedRemembers(run: seq<Event>, ss: seq<State>, n: nat, t: Thread)
    requires Trace(run, ss) && n <= |run| && PcOf(ss[n], t).Loaded?
    ensures Remembers(run, ss, n, t, PcOf(ss[n], t))
  {
    if n > 0 {
      assert StepAt(run, ss, n - 1);
      LoadStep(ss[n - 1], run[n - 1], n - 1, t);
      if run[n - 1].thread != t {
        LoadedRemembers(run, ss, n - 1, t);
      }
    }
  }

  lemma {:induction false} SomethingChanged(ss: seq<State>, o: nat, from: nat, to: nat) returns (j: nat)
    requires from <= to < |ss| && CountOf(ss[from], o) != CountOf(ss[to], o)
    ensures from <= j < to && CountOf(ss[j], o) != CountOf(ss[j + 1], o)
  {
    if CountOf(ss[to - 1], o) != CountOf(ss[to], o) {
      j := to - 1;
    } else {
      j := SomethingChanged(ss, o, from, to - 1);
    }
  }

  lemma FailedCas(s: State, e: Event, now: nat)
    requires Formed(s) && Enabled(s, e) && e.Cas? && Step(s, e, now).decrements == s.decrements
    ensures var pc := PcOf(s, e.thread); pc.Loaded? && CountOf(s, pc.stats) != pc.value
  {
  }

  /** A compare-and-swap fails only if another thread changed the object's count since the load. */
  lemma CasFailsOnlyByInterference(run: seq<Event>, ss: seq<State>, k: nat, t: Thread) returns (j: nat)
    requires Trace(run, ss) && k < |run| && run[k] == Cas(t) && ss[k + 1].decrements == ss[k].decrements
    ensures PcOf(ss[k], t).Loaded?
    ensures PcOf(ss[k], t).at < j < k && run[j].thread != t
    ensures var o := PcOf(ss[k], t).stats; CountOf(ss[j], o) != CountOf(ss[j + 1], o)
  {
    assert StepAt(run, ss, k);
    FailedCas(ss[k], run[k], k);
    LoadedRemembers(run, ss, k, t);
    var pc := PcOf(ss[k], t);
    assert StepAt(run, ss, pc.at);
    j := SomethingChanged(ss, pc.stats, pc.at, k);
  }
}
