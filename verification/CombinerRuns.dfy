/** Whole runs of the three combiners: threads publish their inputs at any moment, the reporter reads
    any number of times in between, and a final read follows once the threads have finished. */
module CombinerRuns {
  import opened CombinerModel
  import opened CombinerLooks
  import opened CombinerLosses
  import opened CombinerOrder
  import opened CombinerFlush
  import opened CombinerQueues
  import opened KeySort
  import CombinerOrdered
  import CombinerUnordered
  import opened CombinerSorted

  // ----- What every run of a queueing combiner guarantees -----

  /** Each thread's results left its queue completely and in order; data results were all sent;
      interval ticks were sent exactly when they exceeded every earlier one. */
  ghost predicate Faithful(inputs: seq<seq<Result>>, log: seq<Event>, out: seq<Result>) {
    && out == Sent(log)
    && (forall t :: 0 <= t < |inputs| ==> From(log, t) == inputs[t])
    && (forall j :: 0 <= j < |log| ==> log[j].thread < |inputs|)
    && DataKept(log)
    && RunningMaximum(log, TickInterval)
    && multiset(DataOf(out)) == DataSum(inputs)
  }

  lemma RunIsFaithful(s: State)
    requires Inv(s) && Quiet(s) && NoneQueued(s)
    ensures Faithful(s.inputs, s.log, Sent(s.log))
  {
    hide From, Sent, DataSum, DataOf, MaxTick, RunningMaximum, DataKept;
    DataConserved(s);
    NothingRests(s);
    assert multiset(DataOf(Sent(s.log))) + multiset{} == multiset(DataOf(Sent(s.log)));
  }

  lemma NothingRests(s: State)
    requires Shape(s) && Quiet(s) && NoneQueued(s)
    ensures DataSum(Rests(s)) == multiset{}
    ensures forall t :: 0 <= t < |s.inputs| ==> Rest(s, t) == []
  {
    EmptySum(Rests(s));
  }

  function TickKeys(rs: seq<Result>, kind: Kind): seq<nat> {
    if rs == [] then []
    else
      var r := rs[|rs| - 1];
      TickKeys(rs[..|rs| - 1], kind) + (if r.kind == kind then [r.key as nat] else [])
  }

  ghost predicate StrictlyIncreasing(ks: seq<nat>) {
    forall i, j :: 0 <= i < j < |ks| ==> ks[i] < ks[j]
  }

  lemma TickKeysAppend(rs: seq<Result>, r: Result, kind: Kind)
    ensures TickKeys(rs + [r], kind) == TickKeys(rs, kind) + (if r.kind == kind then [r.key as nat] else [])
  {
    assert (rs + [r])[..|rs|] == rs;
  }

  /** Keys that go up, to `max` if that is not 0. */
  ghost predicate Rising(ks: seq<nat>, max: nat) {
    && StrictlyIncreasing(ks)
    && (forall i :: 0 <= i < |ks| ==> ks[i] <= max)
    && (max > 0 ==> ks != [] && ks[|ks| - 1] == max)
  }

  lemma RisingStep(ks: seq<nat>, max: nat, k: nat)
    requires Rising(ks, max) && k > max
    ensures Rising(ks + [k], k)
  {
  }

  /** The ticks of a kind that reach the reporter have strictly increasing keys, and the last of them
      is the largest ever published. */
  lemma {:induction false} TicksIncrease(log: seq<Event>, kind: Kind)
    requires RunningMaximum(log, kind)
    ensures Rising(TickKeys(Sent(log), kind), MaxTick(log, kind))
  {
    hide TickKeys, MaxTick, RunningMaximum, Rising, Sent;
    if log == [] {
      NoTicks(kind);
    } else {
      var k := |log| - 1;
      var log', e := log[..k], log[k];
      assert log == log' + [e];
      RunningBefore(log, kind);
      TicksIncrease(log', kind);
      SentAppend(log', e);
      MaxTickAppend(log', e, kind);
      TickKeysAppend(Sent(log'), e.result, kind);
      var ks, max := TickKeys(Sent(log'), kind), MaxTick(log', kind);
      assert Sent(log') + [] == Sent(log') && ks + [] == ks;
      if e.result.kind == kind && e.result.key > max {
        RisingStep(ks, max, e.result.key);
      }
    }
  }

  lemma NoTicks(kind: Kind)
    ensures Rising(TickKeys(Sent([]), kind), MaxTick([], kind))
  {
  }

  lemma RunningBefore(log: seq<Event>, kind: Kind)
    requires RunningMaximum(log, kind) && log != []
    ensures var k := |log| - 1;
            && RunningMaximum(log[..k], kind)
            && (log[k].result.kind == kind ==> (log[k].delivered <==> log[k].result.key > MaxTick(log[..k], kind)))
  {
    hide MaxTick;
    var log' := log[..|log| - 1];
    forall j | 0 <= j < |log'| && log'[j].result.kind == kind
      ensures log'[j].delivered <==> log'[j].result.key > MaxTick(log'[..j], kind)
    {
      assert log'[..j] == log[..j] && log'[j] == log[j];
    }
  }

  // ----- combiner_ordered -----

  /** How far a run had come when its final read began: `k` results had left the queues and `m` acts been
      recorded. */
  ghost predicate FinalReadFrom(start: Flush, early: seq<Result>, k: nat, m: nat, parallel: bool, inputs: seq<seq<Result>>,
                                rounds: nat, log: seq<Event>, acts: seq<Act>) {
    && k <= |log| && m <= |acts|
    && early == Sent(log[..k])
    && start.parallel == parallel && |start.queues| == |inputs|
    && (forall t :: 0 <= t < |inputs| ==> inputs[t] == From(log[..k], t) + start.queues[t])
    && start.last == (if parallel then MaxTick(log[..k], TickCount) else MaxLook(acts[..m]))
    && Returns(acts[..m]) == rounds == Returns(acts)
    && (forall g :: 0 <= g < m ==> parallel || acts[g].taken <= k)
    && (forall g :: m <= g < |acts| ==> k <= acts[g].taken)
    && (rounds == 0 ==> k == 0 && m == 0)
  }

  /** What was sent and taken out so far, if a run is cut short. */
  ghost predicate Partial(inputs: seq<seq<Result>>, log: seq<Event>, out: seq<Result>) {
    && out == Sent(log)
    && (forall t :: 0 <= t < |inputs| ==> From(log, t) <= inputs[t])
    && (forall j :: 0 <= j < |log| ==> log[j].thread < |inputs|)
    && DataKept(log)
    && RunningMaximum(log, TickInterval)
  }

  /** The rule for counting ticks in a run of a trace that is not parallel: they are passed on exactly
      when fresh and not left behind, no two with the same key, and few fresh ones are left behind. */
  ghost predicate CountRule(inputs: seq<seq<Result>>, log: seq<Event>, acts: seq<Act>, rounds: nat) {
    && CountExact(log, acts) && CountTicksOnce(log) && Recorded(inputs, log, acts, rounds)
    && |inputs| > 0 && |LostTicks(log, acts)| <= rounds * (|inputs| - 1)
    && (rounds == 0 ==> FreshOnly(log, acts))
  }

  /** Any run of combiner_ordered.  `early` is what was sent before the final read, `start` where that
      began, and `acts` the record of looks at counting ticks and of returns.  The run is cut short, with
      `ok` false, where a pass of the final read finds no queue to take from. */
  method RunOrdered(parallel: bool, inputs: seq<seq<Result>>, rounds: nat)
    returns (ok: bool, out: seq<Result>, early: seq<Result>, start: Flush,
             ghost log: seq<Event>, ghost acts: seq<Act>, ghost k: nat, ghost m: nat)
    requires |inputs| > 0
    ensures FinalReadFrom(start, early, k, m, parallel, inputs, rounds, log, acts) && Partial(inputs, log, out)
    ensures KeysBelowMax(parallel, inputs) ==> ok
    ensures Contract(parallel, inputs) ==> (ok <==> !FlushFails(start))
    ensures ok ==> Faithful(inputs, log, out) && multiset(DataOf(out)) == DataSum(inputs)
    ensures StrictlyIncreasing(TickKeys(out, TickInterval))
    ensures parallel ==> RunningMaximum(log, TickCount) && StrictlyIncreasing(TickKeys(out, TickCount))
    ensures !parallel ==> CountRule(inputs, log, acts, rounds)
    ensures Contract(parallel, inputs) ==> Sorted(Merging(parallel, early))
    ensures ok && Contract(parallel, inputs) ==> (Sorted(DataOf(out)) <==> InStep(start.queues, Waits(start)))
    ensures ok && Contract(parallel, inputs) ==> (Sorted(Merging(parallel, out)) <==> SentInStep(parallel, log, k, Waits(start)))
    ensures ok && parallel && Contract(parallel, inputs) ==> (Sorted(DataOf(out)) <==> LeadsInOrder(start.queues))
  {
    hide *;
    var c := new Combine(parallel, inputs);
    FreshStart(c, parallel, inputs);
    for i := 0 to rounds
      invariant CombinerOrdered.Idle(c) && c.st.inputs == inputs && Returns(c.st.acts) == i
      invariant i == 0 ==> c.st.log == [] && c.st.acts == []
      invariant Contract(parallel, inputs) ==> Orderly(c.st)
    {
      CombinerOrdered.Read(c);
    }
    ghost var s := c.st;
    CombinerOrdered.AtRest(c);
    c.Finish();
    StillAtRest(c, s);
    if Contract(parallel, inputs) {
      PublishingKeepsOrder(s, c.st);
    }
    ghost var s0 := c.st;
    early, start := c.sent, Flush(c.parallel, c.lastCountTick, c.queues);
    SentSoFar(c);
    ok := CombinerOrdered.ReadFinal(c);
    out, log, acts, k, m := c.sent, c.st.log, c.st.acts, |s0.log|, |s0.acts|;
    SentSoFar(c);
    FinalFrom(s0, c.st, rounds);
    CutShort(c.st);
    TickGuarantee(c.st);
    if ok {
      RunIsFaithful(c.st);
      WholeRun(c.st);
      if Contract(parallel, inputs) {
        OutcomeShows(s0, c.st);
      }
    }
  }

  lemma FreshStart(c: Combine, parallel: bool, inputs: seq<seq<Result>>)
    requires |inputs| > 0 && c.parallel == parallel
    requires c.Valid() && c.st.inputs == inputs && c.st.log == [] && c.st.acts == []
    ensures CombinerOrdered.Idle(c) && Orderly(c.st) && Returns(c.st.acts) == 0
  {
  }

  lemma StillAtRest(c: Combine, s: State)
    requires c.Valid() && Grown(s, c.st) && Inv(s) && s.parallel == c.parallel
    requires Parked(s, Nobody(|s.queues|), 0)
    ensures CombinerOrdered.Idle(c) && Inv(c.st) && c.st.log == s.log && c.st.acts == s.acts && c.st.inputs == s.inputs
  {
    hide Inv, Sent, HeadLooked, HeadStranded;
    GrownKeepsParked(s, c.st, Nobody(|s.queues|), 0);
  }

  lemma SentSoFar(c: Combine)
    requires c.Valid()
    ensures c.sent == Sent(c.st.log) && Merged(c.st) == Merging(c.parallel, c.sent) && Inv(c.st)
    ensures c.st.parallel == c.parallel && FlushOf(c.st) == Flush(c.parallel, c.lastCountTick, c.queues)
  {
    hide Inv, Sent, Merging;
  }

  /** The state in which the final read begins, seen from the end. */
  lemma FinalFrom(s0: State, s: State, rounds: nat)
    requires Inv(s0) && Inv(s) && Quiet(s0) && Continues(s0, s) && s.inputs == s0.inputs && s.parallel == s0.parallel
    requires Returns(s0.acts) == rounds == Returns(s.acts) && (rounds == 0 ==> s0.log == [] && s0.acts == [])
    ensures FinalReadFrom(FlushOf(s0), Sent(s0.log), |s0.log|, |s0.acts|, s.parallel, s.inputs, rounds, s.log, s.acts)
  {
    hide From, Sent, MaxTick, MaxLook, CountExact, CountLooked, LooksPlaced, LeavesForCause, DataKept, RunningMaximum, Returns;
    assert s.log[..|s0.log|] == s0.log && s.acts[..|s0.acts|] == s0.acts;
    forall t | 0 <= t < |s.inputs| ensures s.inputs[t] == From(s0.log, t) + s0.queues[t] {
      assert s0.inputs[t] == From(s0.log, t) + Rest(s0, t) && s0.pending[t] == [];
    }
    if !s.parallel {
      assert Timed(s0.log, s0.acts);
      assert forall g :: 0 <= g < |s0.acts| ==> s.acts[g] == s0.acts[g];
    }
  }

  lemma CutShort(s: State)
    requires Inv(s)
    ensures Partial(s.inputs, s.log, Sent(s.log))
    ensures StrictlyIncreasing(TickKeys(Sent(s.log), TickInterval))
    ensures s.parallel ==> RunningMaximum(s.log, TickCount) && StrictlyIncreasing(TickKeys(Sent(s.log), TickCount))
  {
    hide From, Sent, TickKeys, MaxTick, RunningMaximum, DataKept, Counted;
    assert forall t :: 0 <= t < |s.inputs| ==> s.inputs[t] == From(s.log, t) + Rest(s, t);
    TicksIncrease(s.log, TickInterval);
    if s.parallel {
      TicksIncrease(s.log, TickCount);
    }
  }

  /** What a whole run amounts to, in terms of what was sent. */
  lemma WholeRun(s: State)
    requires Faithful(s.inputs, s.log, Sent(s.log))
    ensures multiset(DataOf(Sent(s.log))) == DataSum(s.inputs)
  {
  }

  lemma OutcomeShows(s0: State, s: State)
    requires CombinerOrdered.FlushOutcome(s0, s)
    ensures Sorted(DataOf(Sent(s.log))) <==> InStep(s0.queues, Waits(FlushOf(s0)))
    ensures Sorted(Merging(s.parallel, Sent(s.log))) <==> SentInStep(s.parallel, s.log, |s0.log|, Waits(FlushOf(s0)))
    ensures s.parallel ==> (Sorted(DataOf(Sent(s.log))) <==> LeadsInOrder(s0.queues))
    ensures FlushOf(s0).queues == s0.queues
  {
    hide Sorted, Sent, Merging, Waits, InStep, SentInStep, LeadsInOrder;
  }

  lemma PublishingKeepsOrder(s: State, s': State)
    requires Grown(s, s') && Orderly(s)
    ensures Orderly(s') && Sorted(Merged(s'))
  {
    GrownIsScanned(s, s');
    ScannedKeepsOrder(s, s', 0, All(|s.queues|));
    LogOrderSorts(s'.parallel, s'.log);
  }

  lemma TickGuarantee(s: State)
    requires Inv(s)
    ensures !s.parallel ==> CountRule(s.inputs, s.log, s.acts, Returns(s.acts))
  {
    if !s.parallel {
      RunRecorded(s);
      hide CountExact, CountTicksOnce, Recorded, FreshOnly, Returns, LostTicks, DataKept, RunningMaximum, MaxTick;
      OnceEach(s.log, s.acts);
      LossesBounded(s.inputs, s.log, s.acts, Returns(s.acts));
      if Returns(s.acts) == 0 {
        NoReadNoLoss(s.log, s.acts);
      }
    }
  }

  lemma RunRecorded(s: State)
    requires Inv(s) && !s.parallel
    ensures CountExact(s.log, s.acts) && Recorded(s.inputs, s.log, s.acts, Returns(s.acts))
  {
    hide From, CountExact, CountLooked, LookedInPlace, LeavesForCause, DataKept, RunningMaximum, Returns, Timed;
    forall h | 0 <= h < |s.acts| && s.acts[h].Look? ensures LookedInPlace(s.inputs, s.log, s.acts[h]) {
      assert LookPlaced(s, s.acts[h]);
    }
  }

  /** Counting ticks were passed on exactly when fresh. */
  ghost predicate FreshOnly(log: seq<Event>, acts: seq<Act>) {
    forall j :: 0 <= j < |log| && log[j].result.kind == TickCount ==>
      (log[j].delivered <==> Fresh(acts, log[j].thread, Place(log[..j], log[j].thread), log[j].result.key))
  }

  lemma NoReadNoLoss(log: seq<Event>, acts: seq<Act>)
    requires CountExact(log, acts) && Returns(acts) == 0
    ensures FreshOnly(log, acts)
  {
    hide CountExact, Fresh, Place, Returns;
    forall g | 0 <= g < |acts| ensures acts[g].Returned? ==> acts[g].final {
      NoneLeaves(acts, g);
    }
    forall j | 0 <= j < |log| && log[j].result.kind == TickCount
      ensures log[j].delivered <==> Fresh(acts, log[j].thread, Place(log[..j], log[j].thread), log[j].result.key)
    {
      FlushLosesNone(log, acts, j, 0);
    }
  }

  lemma NoTicksNoLead(q: seq<Result>)
    requires forall i :: 0 <= i < |q| ==> q[i].kind.Data?
    ensures Lead(q) == 0
  {
  }

  /** With no tick left in the queues, the final read keeps the order. */
  lemma TickFreeFlush(left: seq<seq<Result>>)
    requires TickFree(left)
    ensures LeadsInOrder(left)
  {
    forall t | 0 <= t < |left| ensures Lead(left[t]) == 0 {
      NoTicksNoLead(left[t]);
    }
  }

  /** A tick in front of a smaller key breaks the order: its queue sits the first pass out. */
  method TickDelaysItsQueue(tick: Result, small: Result, large: Result) returns (out: seq<Result>)
    requires !tick.kind.Data? && small.kind.Data? && large.kind.Data? && small.key < large.key < UINT64_MAX
    ensures DataOf(out) == [large, small]
  {
    hide *;
    var inputs := [[tick, small], [large]];
    TwoQueues(tick, small, large);
    ghost var log, acts, k, m;
    var ok, early, start;
    ok, out, early, start, log, acts, k, m := RunOrdered(true, inputs, 0);
    NothingEarly(start, early, k, m, true, inputs, log, acts);
    TwoLeft(DataOf(out), small, large);
  }

  /** Two results are waiting, and one read sends the smaller one and leaves the other. */
  method ReadSendsLeast(parallel: bool, small: Result, large: Result) returns (out: seq<Result>)
    requires small.kind.Data? && large.kind.Data? && small.key < large.key
    ensures out == [small]
  {
    hide *;
    var inputs := [[small], [large]];
    var c := new Combine(parallel, inputs);
    FreshStart(c, parallel, inputs);
    ghost var s := c.st;
    CombinerOrdered.AtRest(c);
    c.Finish();
    StillAtRest(c, s);
    PublishingKeepsOrder(s, c.st);
    ghost var s0 := c.st;
    CombinerOrdered.AtRest(c);
    TwoLive(s0, small, large);
    CombinerOrdered.Read(c);
    SentSoFar(c);
    CombinerOrdered.AtRest(c);
    OneOfTwo(s0, c.st, small, large);
    out := c.sent;
  }

  /** Both results are queued and can be merged. */
  lemma TwoLive(s: State, small: Result, large: Result)
    requires Inv(s) && Quiet(s) && s.log == [] && s.inputs == [[small], [large]] && small.kind.Data? && large.kind.Data?
    requires small.key < large.key
    ensures CombinerOrdered.AllLive(FlushOf(s)) && Contract(s.parallel, s.inputs)
  {
    hide Deduplicated;
    assert s.inputs[0] == From(s.log, 0) + Rest(s, 0) && s.inputs[1] == From(s.log, 1) + Rest(s, 1);
    assert s.queues[0] == [small] && s.queues[1] == [large];
  }

  lemma OneOfTwo(s0: State, s: State, small: Result, large: Result)
    requires Inv(s) && Orderly(s) && s.inputs == [[small], [large]] && s0.inputs == s.inputs && s0.parallel == s.parallel
    requires CombinerOrdered.PlainRead(s0, s) && CombinerOrdered.AllLive(FlushOf(s0)) && Contract(s0.parallel, s0.inputs)
    requires small.kind.Data? && large.kind.Data? && small.key < large.key
    ensures Sent(s.log) == [small]
  {
    hide *;
    AllDataSent(s);
    Settled(s);
    TwoThreads(s);
    var t := EmptiedOne(s0, s);
    OneTaken(s, t);
    var e := s.log[0];
    assert s.log == [] + [e];
    SentAppend([], e);
    NothingSent();
    if t == 1 {
      LargerFirst(s, small);
    }
  }

  lemma TwoThreads(s: State)
    requires Shape(s) && |s.inputs| == 2
    ensures |s.queues| == 2 && |s.pending| == 2
  {
  }

  lemma EmptiedOne(s0: State, s: State) returns (t: nat)
    requires CombinerOrdered.PlainRead(s0, s) && CombinerOrdered.AllLive(FlushOf(s0)) && Contract(s0.parallel, s0.inputs)
    ensures CombinerOrdered.OnlyEmpty(s, t) && Quiet(s)
  {
    hide CombinerOrdered.AllLive, FlushOf, Contract, Quiet, CombinerOrdered.OnlyEmpty, CombinerOrdered.SentSome;
    t :| CombinerOrdered.OnlyEmpty(s, t);
  }

  /** One result each, and one queue empty: its result has been taken. */
  lemma OneTaken(s: State, t: nat)
    requires Shape(s) && Conserved(s) && Quiet(s) && CombinerOrdered.OnlyEmpty(s, t)
    requires |s.inputs| == 2 && |s.inputs[0]| == |s.inputs[1]| == 1
    ensures |s.log| == 1 && s.log[0].thread == t < 2 && s.log[0].result == s.inputs[t][0]
    ensures Rest(s, 1 - t) == s.inputs[1 - t]
  {
    hide From;
    assert s.inputs[t] == From(s.log, t) + Rest(s, t);
    assert s.inputs[1 - t] == From(s.log, 1 - t) + Rest(s, 1 - t);
    assert From(s.log, t) == s.inputs[t] && From(s.log, 1 - t) == [];
    LogOfTwo(s.log);
    EventFromThread(s.log, 0);
  }

  lemma NothingSent()
    ensures Sent([]) == []
  {
  }

  lemma LargerFirst(s: State, small: Result)
    requires Orderly(s) && |s.queues| == 2 && Rest(s, 0) == [small] && small.kind.Data? && |s.log| == 1
    requires s.log[0].delivered && s.log[0].result.kind.Data?
    ensures s.log[0].result.key <= small.key
  {
    assert All(|s.queues|)[0] && InPlay(s.parallel, s.log[0]);
    assert AtLeast(s.parallel, Rest(s, 0), s.log[0].result.key);
    assert Rest(s, 0)[0] == small;
  }

  lemma {:induction false} LogOfTwo(log: seq<Event>)
    requires forall j :: 0 <= j < |log| ==> log[j].thread < 2
    ensures |log| == |From(log, 0)| + |From(log, 1)|
  {
    if log != [] {
      LogOfTwo(log[..|log| - 1]);
    }
  }

  lemma TwoQueues(tick: Result, small: Result, large: Result)
    requires !tick.kind.Data? && small.kind.Data? && large.kind.Data? && small.key < large.key < UINT64_MAX
    ensures var qs := [[tick, small], [large]];
            && Contract(true, qs) && KeysBelowMax(true, qs) && DataSum(qs) == multiset{small, large} && !LeadsInOrder(qs)
  {
    var qs := [[tick, small], [large]];
    DataOfTwo(tick, small);
    DataOfOne(large);
    LeadsOfTwo(tick, small, large);
    SumOfTwo(qs);
    hide DataOf, DataSum, Lead;
    assert small in DataOf(qs[0]) && large in DataOf(qs[1]);
    assert Leads(qs)[1] < Leads(qs)[0];
  }

  lemma SumOfTwo(qs: seq<seq<Result>>)
    requires |qs| == 2
    ensures DataSum(qs) == multiset(DataOf(qs[0])) + multiset(DataOf(qs[1]))
  {
    hide DataOf;
    assert qs[1..][0] == qs[1] && qs[1..][1..] == [];
    assert DataSum(qs[1..]) == multiset(DataOf(qs[1])) + DataSum([]);
  }

  lemma DataOfOne(r: Result)
    requires r.kind.Data?
    ensures DataOf([r]) == [r]
  {
    assert [] + [r] == [r];
    MergingAppend(true, [], r);
  }

  lemma DataOfTwo(tick: Result, r: Result)
    requires !tick.kind.Data? && r.kind.Data?
    ensures DataOf([tick, r]) == [r]
  {
    assert [tick, r][1..] == [r];
    MergingTail(true, [tick, r]);
    DataOfOne(r);
  }

  lemma LeadsOfTwo(tick: Result, small: Result, large: Result)
    requires !tick.kind.Data? && small.kind.Data? && large.kind.Data?
    ensures Lead([tick, small]) == 1 && Lead([large]) == 0
  {
    assert [tick, small][1..] == [small];
  }

  lemma NothingEarly(start: Flush, early: seq<Result>, k: nat, m: nat, parallel: bool, inputs: seq<seq<Result>>,
                     log: seq<Event>, acts: seq<Act>)
    requires FinalReadFrom(start, early, k, m, parallel, inputs, 0, log, acts)
    ensures start.queues == inputs
  {
    assert log[..k] == [];
    forall t | 0 <= t < |inputs| ensures start.queues[t] == inputs[t] {
      assert inputs[t] == From([], t) + start.queues[t];
    }
  }

  lemma TwoLeft(rs: seq<Result>, small: Result, large: Result)
    requires multiset(rs) == multiset{small, large} && !Sorted(rs) && small.key < large.key
    ensures rs == [large, small]
  {
    assert |rs| == |multiset(rs)| == 2;
    assert rs[0] in multiset(rs) && rs[1] in multiset(rs);
  }

  // ----- combiner_unordered -----

  /** Any run of combiner_unordered: nothing is lost and ticks are thinned out, in no particular order. */
  method RunUnordered(inputs: seq<seq<Result>>, rounds: nat) returns (out: seq<Result>, ghost log: seq<Event>)
    requires |inputs| > 0
    ensures Faithful(inputs, log, out) && RunningMaximum(log, TickCount)
    ensures multiset(DataOf(out)) == DataSum(inputs)
    ensures StrictlyIncreasing(TickKeys(out, TickInterval)) && StrictlyIncreasing(TickKeys(out, TickCount))
  {
    var c := new Combine(true, inputs);
    for i := 0 to rounds
      invariant c.Valid() && c.st.inputs == inputs
    {
      CombinerUnordered.Read(c);
    }
    c.Finish();
    CombinerUnordered.Read(c);
    RunIsFaithful(c.st);
    out, log := c.sent, c.st.log;
    CutShort(c.st);
  }

  // ----- combiner_sorted, and the streaming merge against it -----

  function Concat(inputs: seq<seq<Result>>): seq<Result> {
    if inputs == [] then [] else inputs[0] + Concat(inputs[1..])
  }

  /** Any run of combiner_sorted; the order of publishing between threads does not matter, since each
      thread has its own vector.  `full` is the vector that was sorted. */
  method RunSorted(inputs: seq<seq<Result>>) returns (out: seq<Result>, full: Vector, sorted: seq<Result>)
    requires |inputs| > 0
    ensures full.Valid() && full.Contents() == Concat(inputs)
    ensures out == DataOf(sorted) && |sorted| == full.size
    ensures SortedTo(full, sorted) && (InKeyOrder(full, sorted) <==> SortsRight(full))
    ensures full.size >= RESULT_SIZE ==> multiset(sorted) == multiset(full.Contents())
  {
    var c := new SortedCombiner(|inputs|);
    for t := 0 to |inputs|
      invariant c.Valid() && |c.vectors| == |inputs| && c.sent == [] && fresh(c)
      invariant forall u :: 0 <= u < t ==> c.vectors[u].Contents() == inputs[u]
      invariant forall u :: t <= u < |inputs| ==> c.vectors[u].size == 0
    {
      for j := 0 to |inputs[t]|
        invariant c.Valid() && |c.vectors| == |inputs| && c.sent == [] && fresh(c)
        invariant forall u :: 0 <= u < t ==> c.vectors[u].Contents() == inputs[u]
        invariant c.vectors[t].Contents() == inputs[t][..j]
        invariant forall u :: t < u < |inputs| ==> c.vectors[u].size == 0
      {
        c.Publish(t, inputs[t][j]);
      }
    }
    FlatIsConcat(c.vectors, inputs);
    full, sorted := c.ReadFinal();
    out := c.sent;
  }

  lemma FlatIsConcat(vs: seq<Vector>, inputs: seq<seq<Result>>)
    requires |vs| == |inputs| && forall t :: 0 <= t < |vs| ==> vs[t].size <= |vs[t].slots| && vs[t].Contents() == inputs[t]
    ensures Flat(vs) == Concat(inputs)
  {
    if vs != [] {
      FlatIsConcat(vs[1..], inputs[1..]);
    }
  }

  ghost predicate TickFree(inputs: seq<seq<Result>>) {
    forall t, i :: 0 <= t < |inputs| && 0 <= i < |inputs[t]| ==> inputs[t][i].kind.Data?
  }

  lemma AllData(rs: seq<Result>)
    requires forall i :: 0 <= i < |rs| ==> rs[i].kind.Data?
    ensures DataOf(rs) == rs
  {
    if rs != [] {
      AllData(rs[..|rs| - 1]);
    }
  }

  lemma TickFreeSum(inputs: seq<seq<Result>>)
    requires TickFree(inputs)
    ensures multiset(Concat(inputs)) == DataSum(inputs)
  {
    if inputs != [] {
      AllData(inputs[0]);
      TickFreeSum(inputs[1..]);
    }
  }

  lemma {:induction false} EventFromThread(log: seq<Event>, j: nat)
    requires j < |log|
    ensures log[j].result in From(log, log[j].thread)
  {
    if j < |log| - 1 {
      EventFromThread(log[..|log| - 1], j);
    }
  }

  lemma {:induction false} SentFromLog(log: seq<Event>, r: Result)
    requires r in Sent(log)
    ensures exists j :: 0 <= j < |log| && log[j].result == r
  {
    var k := |log| - 1;
    if r in Sent(log[..k]) {
      SentFromLog(log[..k], r);
      var j :| 0 <= j < k && log[..k][j].result == r;
      assert log[j].result == r;
    } else {
      assert log[k].result == r;
    }
  }

  /** Without ticks in the inputs, everything sent is data. */
  lemma SentIsData(inputs: seq<seq<Result>>, log: seq<Event>, out: seq<Result>)
    requires Faithful(inputs, log, out) && TickFree(inputs)
    ensures DataOf(out) == out
  {
    forall i | 0 <= i < |out| ensures out[i].kind.Data? {
      SentFromLog(log, out[i]);
      var j :| 0 <= j < |log| && log[j].result == out[i];
      EventFromThread(log, j);
    }
    AllData(out);
  }

  lemma LeftTickFree(start: Flush, early: seq<Result>, k: nat, m: nat, parallel: bool, inputs: seq<seq<Result>>,
                     rounds: nat, log: seq<Event>, acts: seq<Act>)
    requires TickFree(inputs) && FinalReadFrom(start, early, k, m, parallel, inputs, rounds, log, acts)
    ensures TickFree(start.queues)
  {
    hide From;
    forall t, i | 0 <= t < |start.queues| && 0 <= i < |start.queues[t]| ensures start.queues[t][i].kind.Data? {
      assert start.queues[t][i] == inputs[t][|From(log[..k], t)| + i];
    }
  }

  /** A vector that fills the sorted slots yields its own results only. */
  lemma NothingStale(inputs: seq<seq<Result>>, full: Vector, sorted: seq<Result>)
    requires TickFree(inputs) && full.Valid() && full.Contents() == Concat(inputs)
    requires multiset(sorted) == multiset(full.Contents())
    ensures DataOf(sorted) == sorted
  {
    ConcatTickFree(inputs);
    forall i | 0 <= i < |sorted| ensures sorted[i].kind.Data? {
      assert sorted[i] in multiset(full.Contents());
    }
    AllData(sorted);
  }

  lemma ConcatTickFree(inputs: seq<seq<Result>>)
    requires TickFree(inputs)
    ensures forall r :: r in Concat(inputs) ==> r.kind.Data?
  {
    if inputs != [] {
      ConcatTickFree(inputs[1..]);
    }
  }

  lemma DataOfShorter(rs: seq<Result>)
    ensures |DataOf(rs)| <= |rs| && (|DataOf(rs)| == |rs| ==> DataOf(rs) == rs)
  {
    if rs != [] {
      DataOfShorter(rs[..|rs| - 1]);
    }
  }

  /** The streaming merge and the sort emit the same keys only if the sort was fit for its vector,
      and then they do, unless a leftover tick in a stale slot took the place of a result. */
  lemma MergeEqualsSort(inputs: seq<seq<Result>>, merged: seq<Result>, full: Vector, sorted: seq<Result>, out: seq<Result>)
    requires TickFree(inputs)
    requires Sorted(merged) && multiset(merged) == DataSum(inputs)
    requires full.Valid() && full.Contents() == Concat(inputs) && |sorted| == full.size && out == DataOf(sorted)
    requires InKeyOrder(full, sorted) <==> SortsRight(full)
    ensures Keys(merged) == Keys(out) ==> SortsRight(full)
    ensures SortsRight(full) ==> Keys(merged) == Keys(sorted)
    ensures Keys(merged) == Keys(out) <==> SortsRight(full) && out == sorted
  {
    TickFreeSum(inputs);
    SameKeys(merged, full.Contents());
    SortedKeys(merged);
    SortedKeys(sorted);
    DataOfShorter(sorted);
    assert |merged| == |multiset(merged)| == |multiset(full.Contents())| == full.size;
    if SortsRight(full) {
      SortedUnique(Keys(merged), Keys(sorted));
    }
    if Keys(merged) == Keys(out) {
      assert |out| == |merged|;
    }
  }

  /** Run both combiners on the same tick-free inputs. */
  method MergeAgainstSort(inputs: seq<seq<Result>>, rounds: nat)
    returns (merged: seq<Result>, out: seq<Result>, full: Vector, sorted: seq<Result>)
    requires |inputs| > 0 && TickFree(inputs) && Contract(true, inputs) && KeysBelowMax(true, inputs)
    ensures Sorted(merged) && multiset(merged) == multiset(Concat(inputs))
    ensures full.Valid() && full.Contents() == Concat(inputs) && out == DataOf(sorted)
    ensures Keys(merged) == Keys(out) ==> SortsRight(full)
    ensures SortsRight(full) ==> Keys(merged) == Keys(sorted)
    ensures Keys(merged) == Keys(out) <==> SortsRight(full) && out == sorted
    ensures full.size >= RESULT_SIZE ==> out == sorted
  {
    ghost var log, acts, k, m;
    var ok, early, start;
    ok, merged, early, start, log, acts, k, m := RunOrdered(true, inputs, rounds);
    LeftTickFree(start, early, k, m, true, inputs, rounds, log, acts);
    TickFreeFlush(start.queues);
    SentIsData(inputs, log, merged);
    TickFreeSum(inputs);
    out, full, sorted := RunSorted(inputs);
    MergeEqualsSort(inputs, merged, full, sorted, out);
    if full.size >= RESULT_SIZE {
      NothingStale(inputs, full, sorted);
    }
  }
}
