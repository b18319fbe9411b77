/** Results, the per-thread queues between publishers and the reporter, and what every
    combiner step does to them.

    A thread's whole output is fixed in advance as `inputs[t]`; at any moment it is split into
    what the combiner has already taken out (`From(log, t)`), what sits in the thread's queue and
    what the thread has yet to publish.  Publishing in any order and at any moment is then just
    moving results from `pending` to `queues`. */
module CombinerModel {

  const UINT64_MAX: nat := 0xFFFF_FFFF_FFFF_FFFF

  type Key = k: nat | k <= UINT64_MAX

  datatype Kind = TickInterval | TickCount | Data(code: int)

  datatype Result = Result(key: Key, value: int, kind: Kind)

  /** One entry leaving the queue of `thread`, either sent to the reporter or thrown away. */
  datatype Event = Event(thread: nat, result: Result, delivered: bool)

  /** What the reporter does besides taking results out: it looks at a counting tick, the result at
      `place` in the output of `thread`, or it returns from a read.  At that time `taken` results have left. */
  datatype Act = Look(thread: nat, place: nat, key: Key, taken: nat) | Returned(final: bool, taken: nat)

  datatype State = State(
    parallel: bool,
    inputs: seq<seq<Result>>,
    pending: seq<seq<Result>>,
    queues: seq<seq<Result>>,
    log: seq<Event>,
    acts: seq<Act>,
    lastTs: Key,
    lastCount: Key)

  // ----- Reading the log -----

  /** Everything taken out of the queue of thread `t`, in order. */
  function From(log: seq<Event>, t: nat): seq<Result> {
    if log == [] then []
    else
      var e := log[|log| - 1];
      From(log[..|log| - 1], t) + (if e.thread == t then [e.result] else [])
  }

  /** Everything the reporter was sent, in order. */
  function Sent(log: seq<Event>): seq<Result> {
    if log == [] then []
    else
      var e := log[|log| - 1];
      Sent(log[..|log| - 1]) + (if e.delivered then [e.result] else [])
  }

  /** A result that takes part in the merge: data always, counting ticks only when the trace is not
      parallel (then they follow the packet order). */
  predicate InOrder(parallel: bool, r: Result) {
    r.kind.Data? || (!parallel && r.kind.TickCount?)
  }

  function Merging(parallel: bool, rs: seq<Result>): seq<Result> {
    if rs == [] then []
    else
      var r := rs[|rs| - 1];
      Merging(parallel, rs[..|rs| - 1]) + (if InOrder(parallel, r) then [r] else [])
  }

  /** The results of the merge that reached the reporter. */
  function Merged(s: State): seq<Result> {
    Merging(s.parallel, Sent(s.log))
  }

  predicate Sorted(rs: seq<Result>) {
    forall i, j :: 0 <= i < j < |rs| ==> rs[i].key <= rs[j].key
  }

  /** Largest key of the ticks of one kind seen so far, 0 before the first. */
  function MaxTick(log: seq<Event>, kind: Kind): Key {
    if log == [] then 0
    else
      var e := log[|log| - 1];
      var m := MaxTick(log[..|log| - 1], kind);
      if e.result.kind == kind && e.result.key > m then e.result.key else m
  }

  /** Ticks of this kind were passed on exactly when they exceeded every earlier one. */
  ghost predicate RunningMaximum(log: seq<Event>, kind: Kind) {
    forall j :: 0 <= j < |log| && log[j].result.kind == kind ==>
      (log[j].delivered <==> log[j].result.key > MaxTick(log[..j], kind))
  }

  ghost predicate DataKept(log: seq<Event>) {
    forall j :: 0 <= j < |log| && log[j].result.kind.Data? ==> log[j].delivered
  }

  // ----- Counting ticks of a trace that is not parallel -----

  /** How many results of thread `t` have left its queue: the place of the next one. */
  function Place(log: seq<Event>, t: nat): nat {
    |From(log, t)|
  }

  /** The place of the next result of thread `t` when `n` results had left. */
  function PlaceThen(log: seq<Event>, n: nat, t: nat): nat
    requires n <= |log|
  {
    Place(log[..n], t)
  }

  /** Largest key of the counting ticks looked at so far, 0 before the first. */
  function MaxLook(acts: seq<Act>): Key {
    if acts == [] then 0
    else
      var a := acts[|acts| - 1];
      var m := MaxLook(acts[..|acts| - 1]);
      if a.Look? && a.key > m then a.key else m
  }

  /** Act `h` is a look at the tick at place `p` of thread `t`. */
  ghost predicate LooksAt(acts: seq<Act>, h: int, t: nat, p: nat) {
    0 <= h < |acts| && acts[h].Look? && acts[h].thread == t && acts[h].place == p
  }

  /** That look found a key that exceeds every one looked at before. */
  ghost predicate FreshLook(acts: seq<Act>, h: int, t: nat, p: nat, key: Key) {
    LooksAt(acts, h, t, p) && acts[h].key == key && MaxLook(acts[..h]) < key
  }

  ghost predicate Fresh(acts: seq<Act>, t: nat, p: nat, key: Key) {
    exists h :: FreshLook(acts, h, t, p, key)
  }

  /** Act `g` is the return from a read that is not the final one, with no more than `n` results gone. */
  ghost predicate Leaves(acts: seq<Act>, g: int, n: nat) {
    0 <= g < |acts| && acts[g].Returned? && !acts[g].final && acts[g].taken <= n
  }

  /** A read that was not the final one returned after the tick had been looked at and before `n`
      results were gone. */
  ghost predicate Stranded(acts: seq<Act>, t: nat, p: nat, n: nat) {
    exists h, g :: LooksAt(acts, h, t, p) && h < g && Leaves(acts, g, n)
  }

  /** Event `j` is a counting tick whose key exceeded, when it was first looked at, every counting tick
      looked at before, and which the read that looked at it did not leave behind. */
  ghost predicate Deserves(log: seq<Event>, acts: seq<Act>, j: nat)
    requires j < |log|
  {
    var e, p := log[j], Place(log[..j], log[j].thread);
    Fresh(acts, e.thread, p, e.result.key) && !Stranded(acts, e.thread, p, j)
  }

  /** Counting ticks were passed on exactly when they deserved it. */
  ghost predicate CountExact(log: seq<Event>, acts: seq<Act>) {
    forall j :: 0 <= j < |log| && log[j].result.kind == TickCount ==> (log[j].delivered <==> Deserves(log, acts, j))
  }

  ghost predicate CountTickSent(log: seq<Event>, j: int) {
    0 <= j < |log| && log[j].delivered && log[j].result.kind == TickCount
  }

  /** No two counting ticks with the same key were passed on. */
  ghost predicate CountTicksOnce(log: seq<Event>) {
    forall i, j :: i < j && CountTickSent(log, i) && CountTickSent(log, j) ==> log[i].result.key != log[j].result.key
  }

  /** Every counting tick that left was looked at. */
  ghost predicate CountLooked(log: seq<Event>, acts: seq<Act>) {
    forall j :: 0 <= j < |log| && log[j].result.kind == TickCount ==>
      exists h :: LooksAt(acts, h, log[j].thread, Place(log[..j], log[j].thread))
  }

  /** The result at that place in the output of that thread is a counting tick with that key. */
  ghost predicate TrueLook(inputs: seq<seq<Result>>, a: Act)
    requires a.Look?
  {
    && a.thread < |inputs| && a.place < |inputs[a.thread]|
    && inputs[a.thread][a.place].kind == TickCount && inputs[a.thread][a.place].key == a.key
  }

  /** How many reads that were not the final one have returned. */
  function Returns(acts: seq<Act>): nat {
    if acts == [] then 0
    else
      var a := acts[|acts| - 1];
      Returns(acts[..|acts| - 1]) + if a.Returned? && !a.final then 1 else 0
  }

  /** Acts follow each other in time. */
  ghost predicate Timed(log: seq<Event>, acts: seq<Act>) {
    && (forall g :: 0 <= g < |acts| ==> acts[g].taken <= |log|)
    && (forall g, h :: 0 <= g < h < |acts| ==> acts[g].taken <= acts[h].taken)
  }

  /** The look was at a counting tick of that thread, while it was the next result of that thread. */
  ghost predicate LookedInPlace(inputs: seq<seq<Result>>, log: seq<Event>, a: Act)
    requires a.Look?
  {
    TrueLook(inputs, a) && a.taken <= |log| && PlaceThen(log, a.taken, a.thread) == a.place
  }

  /** The next result of thread `i` has been looked at. */
  ghost predicate Seen(log: seq<Event>, acts: seq<Act>, i: nat) {
    exists h :: LooksAt(acts, h, i, Place(log, i))
  }

  /** When act `g` happened, the next result of thread `i` had not been looked at. */
  ghost predicate Unseen(log: seq<Event>, acts: seq<Act>, g: nat, i: nat)
    requires g < |acts| && acts[g].taken <= |log|
  {
    forall h :: 0 <= h < g ==> !LooksAt(acts, h, i, PlaceThen(log, acts[g].taken, i))
  }

  ghost predicate SomeUnseen(log: seq<Event>, acts: seq<Act>, g: nat, n: nat)
    requires g < |acts| && acts[g].taken <= |log|
  {
    exists i :: 0 <= i < n && Unseen(log, acts, g, i)
  }

  /** A read that is not the final one returns because some queue, whose next result it has not looked
      at, has nothing to offer. */
  ghost predicate LeavesForCause(log: seq<Event>, acts: seq<Act>, n: nat)
    requires Timed(log, acts)
  {
    forall g :: 0 <= g < |acts| && acts[g].Returned? && !acts[g].final ==> SomeUnseen(log, acts, g, n)
  }

  /** Looks were at counting ticks that have left their queue, or at one that is at its head now. */
  ghost predicate LooksPlaced(s: State) {
    forall h :: 0 <= h < |s.acts| && s.acts[h].Look? ==> LookPlaced(s, s.acts[h])
  }

  ghost predicate LookPlaced(s: State, a: Act)
    requires a.Look?
  {
    && LookedInPlace(s.inputs, s.log, a)
    && a.thread < |s.queues| && a.place <= Place(s.log, a.thread)
    && (a.place == Place(s.log, a.thread) ==>
         var q := s.queues[a.thread];
         q != [] && q[0].kind == TickCount && q[0].key == a.key)
  }

  /** The result at the head of queue `t` has been looked at. */
  ghost predicate HeadLooked(s: State, t: nat) {
    Seen(s.log, s.acts, t)
  }

  /** A read left the result at the head of queue `t` behind. */
  ghost predicate HeadStranded(s: State, t: nat) {
    Stranded(s.acts, t, Place(s.log, t), |s.log|)
  }

  ghost predicate Counted(s: State) {
    && s.lastCount == MaxLook(s.acts) && LooksPlaced(s) && CountExact(s.log, s.acts) && CountLooked(s.log, s.acts)
    && Timed(s.log, s.acts) && LeavesForCause(s.log, s.acts, |s.queues|)
  }

  // ----- Invariant of every combiner -----

  ghost predicate Shape(s: State) {
    |s.inputs| == |s.pending| == |s.queues| && |s.queues| > 0
  }

  /** What a thread has left: queued, then unpublished. */
  function Rest(s: State, t: nat): seq<Result>
    requires t < |s.queues| && t < |s.pending|
  {
    s.queues[t] + s.pending[t]
  }

  /** Nothing is lost, invented, duplicated or reordered within a thread. */
  ghost predicate Conserved(s: State)
    requires Shape(s)
  {
    && (forall t :: 0 <= t < |s.inputs| ==> s.inputs[t] == From(s.log, t) + Rest(s, t))
    && (forall j :: 0 <= j < |s.log| ==> s.log[j].thread < |s.inputs|)
  }

  ghost predicate Deduplicated(s: State) {
    && DataKept(s.log)
    && s.lastTs == MaxTick(s.log, TickInterval)
    && RunningMaximum(s.log, TickInterval)
    && (s.parallel ==> s.lastCount == MaxTick(s.log, TickCount) && RunningMaximum(s.log, TickCount))
    && (!s.parallel ==> Counted(s))
  }

  ghost predicate Inv(s: State) {
    Shape(s) && Conserved(s) && Deduplicated(s)
  }

  // ----- Steps -----

  function Publish(s: State, t: nat): State
    requires t < |s.queues| && t < |s.pending| && s.pending[t] != []
  {
    s.(queues := s.queues[t := s.queues[t] + [s.pending[t][0]]],
       pending := s.pending[t := s.pending[t][1..]])
  }

  function Pop(s: State, t: nat, delivered: bool): State
    requires t < |s.queues| && s.queues[t] != []
  {
    s.(queues := s.queues[t := s.queues[t][1..]],
       log := s.log + [Event(t, s.queues[t][0], delivered)])
  }

  /** `s'` is `s` after some publishing and nothing else. */
  ghost predicate Grown(s: State, s': State) {
    && Shape(s)
    && Shape(s')
    && s' == s.(queues := s'.queues, pending := s'.pending)
    && |s'.queues| == |s.queues|
    && (forall t :: 0 <= t < |s.queues| ==> s.queues[t] <= s'.queues[t] && Rest(s', t) == Rest(s, t))
  }

  function TotalLength(qs: seq<seq<Result>>): nat {
    if qs == [] then 0 else |qs[0]| + TotalLength(qs[1..])
  }

  /** How many results have not left the combiner yet. */
  function Work(s: State): nat {
    TotalLength(s.queues) + TotalLength(s.pending)
  }

  // ----- Lemmas about the log -----

  lemma FromAppend(log: seq<Event>, e: Event, t: nat)
    ensures From(log + [e], t) == From(log, t) + (if e.thread == t then [e.result] else [])
  {
    assert (log + [e])[..|log|] == log;
  }

  lemma SentAppend(log: seq<Event>, e: Event)
    ensures Sent(log + [e]) == Sent(log) + (if e.delivered then [e.result] else [])
  {
    assert (log + [e])[..|log|] == log;
  }

  lemma MergingAppend(parallel: bool, rs: seq<Result>, r: Result)
    ensures Merging(parallel, rs + [r]) == Merging(parallel, rs) + (if InOrder(parallel, r) then [r] else [])
  {
    assert (rs + [r])[..|rs|] == rs;
  }

  lemma MaxTickAppend(log: seq<Event>, e: Event, kind: Kind)
    ensures MaxTick(log + [e], kind) ==
            if e.result.kind == kind && e.result.key > MaxTick(log, kind) then e.result.key else MaxTick(log, kind)
  {
    assert (log + [e])[..|log|] == log;
  }

  lemma RunningMaximumAppend(log: seq<Event>, e: Event, kind: Kind)
    requires RunningMaximum(log, kind)
    requires e.result.kind == kind ==> (e.delivered <==> e.result.key > MaxTick(log, kind))
    ensures RunningMaximum(log + [e], kind)
  {
    var log' := log + [e];
    forall j | 0 <= j < |log'| && log'[j].result.kind == kind
      ensures log'[j].delivered <==> log'[j].result.key > MaxTick(log'[..j], kind)
    {
      assert log'[..j] == log[..j];
      if j == |log| {
        assert log[..j] == log;
      }
    }
  }

  lemma MergingConcat(parallel: bool, a: seq<Result>, b: seq<Result>)
    ensures Merging(parallel, a + b) == Merging(parallel, a) + Merging(parallel, b)
  {
    if b == [] {
      assert a + b == a;
    } else {
      var b' := b[..|b| - 1];
      assert a + b == (a + b') + [b[|b| - 1]];
      MergingConcat(parallel, a, b');
      MergingAppend(parallel, a + b', b[|b| - 1]);
    }
  }

  // ----- Lemmas about the amount of work left -----

  lemma TotalLengthUpdate(qs: seq<seq<Result>>, t: nat, q: seq<Result>)
    requires t < |qs|
    ensures TotalLength(qs[t := q]) == TotalLength(qs) - |qs[t]| + |q|
  {
    if t == 0 {
      assert qs[t := q][1..] == qs[1..];
    } else {
      assert qs[t := q][1..] == qs[1..][t - 1 := q];
      TotalLengthUpdate(qs[1..], t - 1, q);
    }
  }

  lemma PopWork(s: State, t: nat, delivered: bool)
    requires t < |s.queues| && s.queues[t] != []
    ensures Work(Pop(s, t, delivered)) == Work(s) - 1
  {
    TotalLengthUpdate(s.queues, t, s.queues[t][1..]);
  }

  lemma PublishWork(s: State, t: nat)
    requires t < |s.queues| && t < |s.pending| && s.pending[t] != []
    ensures Work(Publish(s, t)) == Work(s)
  {
    TotalLengthUpdate(s.queues, t, s.queues[t] + [s.pending[t][0]]);
    TotalLengthUpdate(s.pending, t, s.pending[t][1..]);
  }

  lemma AllEmpty(qs: seq<seq<Result>>)
    requires forall t :: 0 <= t < |qs| ==> qs[t] == []
    ensures TotalLength(qs) == 0
  {
    if qs != [] {
      AllEmpty(qs[1..]);
    }
  }

  // ----- Steps keep the invariant -----

  /** Publishing puts nothing in front of what was looked at. */
  lemma PublishCounted(s: State, t: nat)
    requires Counted(s) && t < |s.queues| && t < |s.pending| && s.pending[t] != []
    ensures Counted(Publish(s, t))
  {
    hide CountExact, CountLooked, MaxLook, LookedInPlace, Timed, LeavesForCause;
    var s' := Publish(s, t);
    forall h | 0 <= h < |s.acts| && s.acts[h].Look?
      ensures LookPlaced(s', s.acts[h])
    {
      assert LookPlaced(s, s.acts[h]);
    }
  }

  /** A thread may publish at any moment: only the split of its remaining results moves. */
  lemma PublishKeeps(s: State, t: nat)
    requires Inv(s) && t < |s.queues| && s.pending[t] != []
    ensures Inv(Publish(s, t)) && Grown(s, Publish(s, t))
  {
    hide Counted, DataKept, RunningMaximum, MaxTick, From;
    if !s.parallel {
      PublishCounted(s, t);
    }
    var s' := Publish(s, t);
    forall u | 0 <= u < |s.queues|
      ensures s.queues[u] <= s'.queues[u] && Rest(s', u) == Rest(s, u)
    {
    }
  }

  lemma GrownTransitive(a: State, b: State, c: State)
    requires Grown(a, b) && Grown(b, c)
    ensures Grown(a, c)
  {
    forall t | 0 <= t < |a.queues| ensures a.queues[t] <= c.queues[t] && Rest(c, t) == Rest(a, t) {
      assert a.queues[t] <= b.queues[t] <= c.queues[t];
      assert Rest(c, t) == Rest(b, t) == Rest(a, t);
    }
  }

  lemma PopRest(s: State, t: nat, delivered: bool, u: nat)
    requires Shape(s) && t < |s.queues| && s.queues[t] != [] && u < |s.queues|
    ensures Rest(Pop(s, t, delivered), u) == if u == t then Rest(s, u)[1..] else Rest(s, u)
  {
  }

  lemma PopConserves(s: State, t: nat, delivered: bool)
    requires Shape(s) && Conserved(s) && t < |s.queues| && s.queues[t] != []
    ensures Conserved(Pop(s, t, delivered))
  {
    var s' := Pop(s, t, delivered);
    var e := Event(t, s.queues[t][0], delivered);
    forall u | 0 <= u < |s.inputs| ensures s'.inputs[u] == From(s'.log, u) + Rest(s', u) {
      FromAppend(s.log, e, u);
      assert Rest(s, t) == [e.result] + Rest(s', t);
    }
  }
}
