/** Peeking at a queue, and what keeps the incremental merge of combiner_ordered in key order. */
module CombinerOrder {
  import opened CombinerModel
  import opened CombinerLooks

  datatype Peeked = Peeked(s: State, ready: bool, key: Key)

  /** A tick counts as new when its key exceeds the last one of its kind. */
  predicate NewTick(s: State, r: Result) {
    match r.kind
    case TickInterval => r.key > s.lastTs
    case TickCount => r.key > s.lastCount
    case Data(_) => false
  }

  lemma NewTickIs(s: State, r: Result)
    ensures NewTick(s, r) <==> (r.kind.TickInterval? && r.key > s.lastTs) || (r.kind.TickCount? && r.key > s.lastCount)
  {
  }

  function NoteTick(s: State, r: Result): State {
    if !NewTick(s, r) then s
    else if r.kind == TickInterval then s.(lastTs := r.key)
    else s.(lastCount := r.key)
  }

  /** Keep a record of the look at the head of queue `t`. */
  function NoteLook(s: State, t: nat): State
    requires t < |s.queues| && s.queues[t] != []
  {
    var r := s.queues[t][0];
    if r.kind.TickCount? then s.(acts := s.acts + [Look(t, Place(s.log, t), r.key, |s.log|)]) else s
  }

  /** Look at the head of queue `t`.  Ticks that do not take part in the merge, and old ones, are
      consumed on the spot; anything else is left in place and reported with its key. */
  function Peek(s: State, t: nat): Peeked
    requires t < |s.queues| && s.queues[t] != []
  {
    var r := s.queues[t][0];
    var s' := NoteLook(NoteTick(s, r), t);
    if r.kind.Data? || (NewTick(s, r) && InOrder(s.parallel, r)) then Peeked(s', true, r.key)
    else Peeked(Pop(s', t, NewTick(s, r)), false, 0)
  }

  /** The counting tick at the head of queue `t` was fresh when it was looked at, and the read that
      looked at it has not returned. */
  ghost predicate Waiting(s: State, t: nat, key: Key) {
    exists h :: FreshLook(s.acts, h, t, Place(s.log, t), key) && NoReturnSince(s.acts, h)
  }

  ghost predicate NoReturnSince(acts: seq<Act>, h: int) {
    forall g :: 0 <= g < |acts| && h < g && acts[g].Returned? ==> acts[g].final
  }

  /** The queues marked live have a head that waits for its turn in the merge. */
  ghost predicate Ready(s: State, live: seq<bool>) {
    && |live| == |s.queues|
    && (forall i :: 0 <= i < |live| && live[i] ==> s.queues[i] != [] && InOrder(s.parallel, s.queues[i][0]))
    && (forall i :: 0 <= i < |live| && live[i] && s.queues[i][0].kind.TickCount? ==> Waiting(s, i, s.queues[i][0].key))
  }

  /** A head that was looked at but is not live was left behind by an earlier read, and is in none of
      the first `n` queues, which this read has come by. */
  ghost predicate Parked(s: State, live: seq<bool>, n: nat) {
    !s.parallel ==> forall i :: 0 <= i < |live| && !live[i] && HeadLooked(s, i) ==> i >= n && HeadStranded(s, i)
  }

  /** `s'` is later than `s`. */
  ghost predicate Continues(s: State, s': State) {
    && s.log <= s'.log
    && s.acts <= s'.acts
    && (forall g :: |s.acts| <= g < |s'.acts| ==> s'.acts[g].taken >= |s.log|)
    && NoneTakenBack(s.pending, s'.pending)
  }

  /** What has been published stays published. */
  ghost predicate NoneTakenBack(pending: seq<seq<Result>>, pending': seq<seq<Result>>) {
    |pending'| == |pending| && forall t :: 0 <= t < |pending| ==> |pending'[t]| <= |pending[t]|
  }

  lemma ContinuesSelf(s: State)
    ensures Continues(s, s)
  {
  }

  lemma ContinuesTransitive(a: State, b: State, c: State)
    requires Continues(a, b) && Continues(b, c)
    ensures Continues(a, c)
  {
    forall g | |a.acts| <= g < |c.acts| ensures c.acts[g].taken >= |a.log| {
      if g < |b.acts| {
        assert c.acts[g] == b.acts[g];
      }
    }
  }

  ghost predicate Suffix(a: seq<Result>, b: seq<Result>) {
    |a| <= |b| && b[|b| - |a|..] == a
  }

  /** A result of the merge that reached the reporter. */
  predicate InPlay(parallel: bool, e: Event) {
    e.delivered && InOrder(parallel, e.result)
  }

  /** None of the results taken out since `s` took part in the merge. */
  ghost predicate Silent(s: State, s': State) {
    forall j :: |s.log| <= j < |s'.log| ==> !InPlay(s'.parallel, s'.log[j])
  }

  lemma SilentTransitive(a: State, b: State, c: State)
    requires Continues(a, b) && Continues(b, c) && Silent(a, b) && Silent(b, c) && b.parallel == c.parallel
    ensures Silent(a, c)
  {
    forall j | |a.log| <= j < |c.log| ensures !InPlay(c.parallel, c.log[j]) {
      if j < |b.log| {
        assert c.log[j] == b.log[j];
      }
    }
  }

  /** `s'` follows from `s` by publishing and by consuming ticks: the merged output is untouched. */
  ghost predicate Scanned(s: State, s': State) {
    && Shape(s) && Shape(s')
    && s'.inputs == s.inputs && s'.parallel == s.parallel
    && Merged(s') == Merged(s) && Returns(s'.acts) == Returns(s.acts) && Continues(s, s') && Silent(s, s')
    && (forall t :: 0 <= t < |s.queues| ==> Suffix(Rest(s', t), Rest(s, t)))
  }

  lemma ScannedTransitive(a: State, b: State, c: State)
    requires Scanned(a, b) && Scanned(b, c)
    ensures Scanned(a, c)
  {
    ContinuesTransitive(a, b, c);
    SilentTransitive(a, b, c);
    hide Continues, Silent;
    forall t | 0 <= t < |a.queues| ensures Suffix(Rest(c, t), Rest(a, t)) {
      assert Suffix(Rest(b, t), Rest(a, t)) && Suffix(Rest(c, t), Rest(b, t));
    }
  }

  lemma GrownIsScanned(s: State, s': State)
    requires Grown(s, s')
    ensures Scanned(s, s')
  {
    forall t | 0 <= t < |s.queues| ensures Suffix(Rest(s', t), Rest(s, t)) && |s'.pending[t]| <= |s.pending[t]| {
      assert Rest(s', t) == Rest(s, t);
      assert s.queues[t] <= s'.queues[t];
    }
  }

  lemma GrownKeepsReady(s: State, s': State, live: seq<bool>)
    requires Grown(s, s') && Ready(s, live)
    ensures Ready(s', live)
    ensures forall i :: 0 <= i < |live| && live[i] ==> s'.queues[i] != [] && s'.queues[i][0] == s.queues[i][0]
  {
    hide Place, FreshLook, NoReturnSince;
    forall i | 0 <= i < |live| && live[i]
      ensures s'.queues[i] != [] && s'.queues[i][0] == s.queues[i][0]
      ensures s'.queues[i][0].kind.TickCount? ==> Waiting(s', i, s'.queues[i][0].key)
    {
      assert s.queues[i] <= s'.queues[i];
    }
  }

  lemma GrownKeepsParked(s: State, s': State, live: seq<bool>, n: nat)
    requires Grown(s, s') && Parked(s, live, n)
    ensures Parked(s', live, n)
  {
    hide LooksAt, Stranded;
  }

  // ----- Peeking keeps the combiner invariant -----

  lemma PeekSetting(s: State, t: nat)
    requires t < |s.queues| && s.queues[t] != []
    ensures Peek(s, t).s.inputs == s.inputs && Peek(s, t).s.parallel == s.parallel
  {
  }

  /** A look at queue `t`, field by field. */
  lemma PeekEffect(s: State, t: nat)
    requires t < |s.queues| && s.queues[t] != []
    ensures var r, p := s.queues[t][0], Peek(s, t);
            && p.s.parallel == s.parallel && p.s.inputs == s.inputs && p.s.pending == s.pending
            && p.ready == (r.kind.Data? || (r.kind.TickCount? && !s.parallel && r.key > s.lastCount))
            && p.key == (if p.ready then r.key else 0)
            && p.s.queues == (if p.ready then s.queues else s.queues[t := s.queues[t][1..]])
            && p.s.lastTs == (if r.kind.TickInterval? && r.key > s.lastTs then r.key else s.lastTs)
            && p.s.lastCount == (if r.kind.TickCount? && r.key > s.lastCount then r.key else s.lastCount)
            && Sent(p.s.log) == (if !p.ready && NewTick(s, r) then Sent(s.log) + [r] else Sent(s.log))
  {
    SentAppend(s.log, Event(t, s.queues[t][0], NewTick(s, s.queues[t][0])));
  }

  /** A look at a counting tick, for the record. */
  lemma PeekRecord(s: State, t: nat)
    requires t < |s.queues| && s.queues[t] != []
    ensures var r, p := s.queues[t][0], Peek(s, t);
            && p.s.acts == (if r.kind.TickCount? then s.acts + [Look(t, Place(s.log, t), r.key, |s.log|)] else s.acts)
            && p.s.log == (if p.ready then s.log else s.log + [Event(t, r, NewTick(s, r))])
  {
  }

  lemma PeekKeeps(s: State, t: nat)
    requires Inv(s) && t < |s.queues| && s.queues[t] != []
    requires !s.parallel && HeadLooked(s, t) ==> HeadStranded(s, t)
    ensures Inv(Peek(s, t).s)
  {
    hide Conserved, Deduplicated, HeadLooked, HeadStranded;
    NextInput(s, t);
    PeekConserves(s, t);
    PeekDeduplicates(s, t);
  }

  lemma PeekConserves(s: State, t: nat)
    requires Shape(s) && Conserved(s) && t < |s.queues| && s.queues[t] != []
    ensures Shape(Peek(s, t).s) && Conserved(Peek(s, t).s)
  {
    var r := s.queues[t][0];
    var s' := NoteLook(NoteTick(s, r), t);
    Unmoved(s, s');
    hide Conserved;
    if !Peek(s, t).ready {
      PopConserves(s', t, NewTick(s, r));
    }
  }

  lemma Unmoved(s: State, s': State)
    requires Shape(s) && Conserved(s)
    requires s'.queues == s.queues && s'.pending == s.pending && s'.inputs == s.inputs && s'.log == s.log
    ensures Shape(s') && Conserved(s')
  {
  }

  /** The head of a queue is the next result of its thread. */
  ghost predicate HeadIsNext(s: State, t: nat)
    requires t < |s.queues| && s.queues[t] != []
  {
    t < |s.inputs| && Place(s.log, t) < |s.inputs[t]| && s.inputs[t][Place(s.log, t)] == s.queues[t][0]
  }

  lemma NextInput(s: State, t: nat)
    requires Shape(s) && Conserved(s) && t < |s.queues| && s.queues[t] != []
    ensures HeadIsNext(s, t)
  {
    hide From;
    assert s.inputs[t] == From(s.log, t) + Rest(s, t);
  }

  lemma PeekDeduplicates(s: State, t: nat)
    requires Deduplicated(s) && t < |s.queues| && s.queues[t] != [] && HeadIsNext(s, t)
    requires !s.parallel && HeadLooked(s, t) ==> HeadStranded(s, t)
    ensures Deduplicated(Peek(s, t).s)
  {
    hide Counted, RunningMaximum, DataKept, MaxTick, HeadLooked, HeadStranded, Peek, HeadIsNext;
    PeekRecord(s, t);
    PeekEffect(s, t);
    var r := s.queues[t][0];
    if !Peek(s, t).ready {
      var e := Event(t, r, NewTick(s, r));
      DataStays(s.log, e);
      TickNoted(s.log, e, TickInterval, s.lastTs);
      if s.parallel {
        TickNoted(s.log, e, TickCount, s.lastCount);
      }
    }
    if !s.parallel {
      PeekCounted(s, t);
    }
  }

  /** A tick that is consumed is passed on exactly if it raises the maximum of its kind. */
  lemma TickNoted(log: seq<Event>, e: Event, kind: Kind, last: Key)
    requires RunningMaximum(log, kind) && last == MaxTick(log, kind)
    requires e.result.kind == kind ==> (e.delivered <==> e.result.key > last)
    ensures RunningMaximum(log + [e], kind)
    ensures MaxTick(log + [e], kind) == if e.result.kind == kind && e.result.key > last then e.result.key else last
  {
    hide RunningMaximum, MaxTick;
    MaxTickAppend(log, e, kind);
    RunningMaximumAppend(log, e, kind);
  }

  /** Looking at a queue of a trace that is not parallel: a counting tick that is dropped was not fresh,
      or it had been left behind. */
  lemma PeekCounted(s: State, t: nat)
    requires !s.parallel && Counted(s) && t < |s.queues| && s.queues[t] != [] && HeadIsNext(s, t)
    requires HeadLooked(s, t) ==> HeadStranded(s, t)
    ensures Counted(Peek(s, t).s)
  {
    hide CountExact, CountLooked, LooksPlaced, HeadLooked, HeadStranded, MaxLook, Fresh, Stranded, Place, HeadIsNext, Timed,
      LeavesForCause;
    var r := s.queues[t][0];
    if r.kind.TickCount? {
      LookCounted(s, t);
      if !NewTick(s, r) {
        OldTick(s, t);
        JustLooked(s, t);
        hide Counted;
        PopCounted(NoteLook(s, t), t, false);
      }
    } else if !r.kind.Data? {
      IntervalCounted(s, t);
    }
  }

  lemma IntervalCounted(s: State, t: nat)
    requires Counted(s) && t < |s.queues| && s.queues[t] != [] && s.queues[t][0].kind.TickInterval?
    ensures Counted(Peek(s, t).s)
  {
    hide CountExact, CountLooked, MaxLook, Fresh, Stranded, LookedInPlace, Timed, LeavesForCause;
    var r := s.queues[t][0];
    var s' := NoteTick(s, r);
    assert forall h :: 0 <= h < |s.acts| && s.acts[h].Look? ==> (LookPlaced(s', s.acts[h]) <==> LookPlaced(s, s.acts[h]));
    PopCounted(s', t, NewTick(s, r));
  }

  lemma JustLooked(s: State, t: nat)
    requires t < |s.queues| && s.queues[t] != [] && s.queues[t][0].kind.TickCount?
    ensures HeadLooked(NoteLook(s, t), t)
  {
    hide Place;
    assert LooksAt(NoteLook(s, t).acts, |s.acts|, t, Place(s.log, t));
  }

  lemma LookCounted(s: State, t: nat)
    requires Counted(s) && t < |s.queues| && s.queues[t] != [] && s.queues[t][0].kind.TickCount? && HeadIsNext(s, t)
    ensures Counted(NoteLook(NoteTick(s, s.queues[t][0]), t))
  {
    hide CountExact, CountLooked, Place, MaxLook, Timed, LeavesForCause;
    var r := s.queues[t][0];
    var a := Look(t, Place(s.log, t), r.key, |s.log|);
    assert s.log[..|s.log|] == s.log;
    CauseLater(s.log, s.acts, |s.queues|, a);
    ExactLater(s.log, s.acts, a);
    LookedLater(s.log, s.acts, a);
    MaxLookAppend(s.acts, a);
    var s' := NoteLook(NoteTick(s, r), t);
    forall h | 0 <= h < |s'.acts| && s'.acts[h].Look?
      ensures LookPlaced(s', s'.acts[h])
    {
      if h < |s.acts| {
        assert LookPlaced(s, s.acts[h]);
      }
    }
  }

  lemma OldTick(s: State, t: nat)
    requires s.lastCount == MaxLook(s.acts) && t < |s.queues| && s.queues[t] != []
    requires s.queues[t][0].kind.TickCount? && !NewTick(s, s.queues[t][0])
    requires HeadLooked(s, t) ==> HeadStranded(s, t)
    ensures var acts, p := NoteLook(s, t).acts, Place(s.log, t);
            !(Fresh(acts, t, p, s.queues[t][0].key) && !Stranded(acts, t, p, |s.log|))
  {
    hide Place, Stranded, MaxLook;
    var r, p := s.queues[t][0], Place(s.log, t);
    var a := Look(t, p, r.key, |s.log|);
    var acts := s.acts + [a];
    assert acts[..|s.acts|] == s.acts;
    if Fresh(acts, t, p, r.key) {
      var h :| FreshLook(acts, h, t, p, r.key);
      assert LooksAt(s.acts, h, t, p);
      StrandedStays(s.acts, a, t, p, |s.log|, |s.log|);
    }
  }

  lemma PeekScans(s: State, t: nat)
    requires Inv(s) && t < |s.queues| && s.queues[t] != []
    ensures Scanned(s, Peek(s, t).s)
  {
    hide Conserved, Deduplicated, Merged, Suffix, Returns;
    PeekMerged(s, t);
    var r := s.queues[t][0];
    ReturnsAppend(s.acts, Look(t, Place(s.log, t), r.key, |s.log|));
    var s' := NoteLook(NoteTick(s, r), t);
    SuffixSelf(s, s');
    if !Peek(s, t).ready {
      PopScans(s', t, NewTick(s, r));
    }
  }

  lemma SuffixSelf(s: State, s': State)
    requires Shape(s) && s'.queues == s.queues && s'.pending == s.pending && s'.inputs == s.inputs
    ensures forall u :: 0 <= u < |s.queues| ==> Rest(s', u) == Rest(s, u) && Suffix(Rest(s', u), Rest(s, u))
  {
  }

  lemma PopScans(s: State, t: nat, delivered: bool)
    requires Shape(s) && t < |s.queues| && s.queues[t] != []
    ensures var s' := Pop(s, t, delivered);
            Shape(s') && forall u :: 0 <= u < |s.queues| ==> Suffix(Rest(s', u), Rest(s, u))
  {
    var s' := Pop(s, t, delivered);
    forall u | 0 <= u < |s.queues| ensures Suffix(Rest(s', u), Rest(s, u)) {
      PopRest(s, t, delivered, u);
    }
  }

  lemma PeekMerged(s: State, t: nat)
    requires t < |s.queues| && s.queues[t] != []
    ensures Merged(Peek(s, t).s) == Merged(s)
  {
    var r := s.queues[t][0];
    if !Peek(s, t).ready {
      SentAppend(s.log, Event(t, r, NewTick(s, r)));
      assert Sent(s.log) + [] == Sent(s.log);
      MergingAppend(s.parallel, Sent(s.log), r);
    }
  }

  /** Looking at a queue that is not live leaves the heads waiting elsewhere alone, and adds its own
      if that is ready. */
  lemma PeekKeepsReady(s: State, t: nat, live: seq<bool>)
    requires t < |s.queues| && s.queues[t] != [] && Ready(s, live) && !live[t]
    requires !s.parallel ==> s.lastCount == MaxLook(s.acts)
    ensures Ready(Peek(s, t).s, live)
    ensures Peek(s, t).ready ==> Ready(Peek(s, t).s, live[t := true])
  {
    hide Peek, Waiting, MaxLook, Place, NewTick, Sent;
    var s' := Peek(s, t).s;
    PeekEffect(s, t);
    forall i | 0 <= i < |live| && live[i] && s.queues[i][0].kind.TickCount?
      ensures Waiting(s', i, s.queues[i][0].key)
    {
      WaitsThroughPeek(s, t, i, s.queues[i][0].key);
    }
    if Peek(s, t).ready && s.queues[t][0].kind.TickCount? {
      NowWaiting(s, t);
    }
  }

  lemma WaitsThroughPeek(s: State, t: nat, i: nat, key: Key)
    requires t < |s.queues| && s.queues[t] != [] && i != t && Waiting(s, i, key)
    ensures Waiting(Peek(s, t).s, i, key)
  {
    hide Peek, Waiting, Place, NewTick;
    PeekRecord(s, t);
    StillWaiting(s, Peek(s, t).s, t, i, key);
  }

  lemma StillWaiting(s: State, s': State, t: nat, i: nat, key: Key)
    requires i != t && Waiting(s, i, key)
    requires s'.acts == s.acts || exists a: Act :: a.Look? && s'.acts == s.acts + [a]
    requires s'.log == s.log || exists e: Event :: e.thread == t && s'.log == s.log + [e]
    ensures Waiting(s', i, key)
  {
    hide Place, MaxLook;
    var h :| FreshLook(s.acts, h, i, Place(s.log, i), key) && NoReturnSince(s.acts, h);
    if s'.log != s.log {
      var e: Event :| e.thread == t && s'.log == s.log + [e];
      PlaceAppend(s.log, e, i);
    }
    assert s'.acts[..h] == s.acts[..h];
    assert FreshLook(s'.acts, h, i, Place(s'.log, i), key) && NoReturnSince(s'.acts, h);
  }

  lemma NowWaiting(s: State, t: nat)
    requires t < |s.queues| && s.queues[t] != [] && s.queues[t][0].kind.TickCount? && Peek(s, t).ready
    requires s.lastCount == MaxLook(s.acts)
    ensures Waiting(Peek(s, t).s, t, s.queues[t][0].key)
  {
    hide Place, MaxLook;
    var s', h := Peek(s, t).s, |s.acts|;
    assert s'.acts[..h] == s.acts;
    assert FreshLook(s'.acts, h, t, Place(s'.log, t), s.queues[t][0].key) && NoReturnSince(s'.acts, h);
  }

  /** What is left behind stays left behind; a head that the look leaves in place is live. */
  lemma PeekKeepsParked(s: State, t: nat, live: seq<bool>, n: nat)
    requires t < |s.queues| == |live| && s.queues[t] != [] && Parked(s, live, n) && !live[t] && HeadIsNext(s, t)
    requires !s.parallel ==> LooksPlaced(s)
    ensures Parked(Peek(s, t).s, live[t := Peek(s, t).ready], if n == t then n + 1 else n)
  {
    if !s.parallel {
      var s', live' := Peek(s, t).s, live[t := Peek(s, t).ready];
      PeekRecord(s, t);
      hide Peek, Place, HeadLooked, HeadStranded;
      forall i | 0 <= i < |live'| && !live'[i] && HeadLooked(s', i)
        ensures i != t && i >= n && HeadStranded(s', i)
      {
        if i == t {
          PeekMovesOn(s, t);
        } else {
          ParkedElsewhere(s, s', t, i);
        }
      }
    }
  }

  /** The head of an empty queue was not looked at. */
  lemma EmptyKeepsParked(s: State, t: nat, live: seq<bool>, n: nat)
    requires t < |live| == |s.queues| && Parked(s, live, n) && s.queues[t] == [] && (!s.parallel ==> LooksPlaced(s))
    ensures Parked(s, live, if n == t then n + 1 else n)
  {
    hide Place, HeadStranded;
    forall h | !s.parallel && 0 <= h < |s.acts| && s.acts[h].Look?
      ensures !LooksAt(s.acts, h, t, Place(s.log, t))
    {
      assert LookPlaced(s, s.acts[h]);
    }
  }

  lemma ParkedElsewhere(s: State, s': State, t: nat, i: nat)
    requires i != t && HeadLooked(s', i)
    requires s'.acts == s.acts || exists a: Act :: a.Look? && a.thread == t && s'.acts == s.acts + [a]
    requires s'.log == s.log || exists e: Event :: e.thread == t && s'.log == s.log + [e]
    ensures HeadLooked(s, i) && (HeadStranded(s, i) ==> HeadStranded(s', i))
  {
    hide Place;
    if s'.log != s.log {
      var e: Event :| e.thread == t && s'.log == s.log + [e];
      PlaceAppend(s.log, e, i);
    }
    var p := Place(s.log, i);
    var h :| LooksAt(s'.acts, h, i, Place(s'.log, i));
    assert LooksAt(s.acts, h, i, p);
    if HeadStranded(s, i) {
      var h', g :| LooksAt(s.acts, h', i, p) && h' < g && Leaves(s.acts, g, |s.log|);
      assert LooksAt(s'.acts, h', i, p) && Leaves(s'.acts, g, |s'.log|);
    }
  }

  lemma PeekMovesOn(s: State, t: nat)
    requires LooksPlaced(s) && t < |s.queues| && s.queues[t] != [] && !Peek(s, t).ready && HeadIsNext(s, t)
    ensures !HeadLooked(Peek(s, t).s, t)
  {
    var r := s.queues[t][0];
    var s' := NoteLook(NoteTick(s, r), t);
    assert LooksPlaced(s') by {
      assert s.log[..|s.log|] == s.log;
      hide Place;
      forall h | 0 <= h < |s'.acts| && s'.acts[h].Look?
        ensures LookPlaced(s', s'.acts[h])
      {
        if h < |s.acts| {
          assert LookPlaced(s, s.acts[h]);
        }
      }
    }
    hide LooksPlaced, HeadLooked;
    PopPlaced(s', t, NewTick(s, r));
  }

  /** Returning from a read that is not the final one leaves behind every head that was looked at;
      the final one, which ends with no head live, leaves none behind. */
  function Return(s: State, final: bool): State {
    s.(acts := s.acts + [Returned(final, |s.log|)])
  }

  ghost function Nobody(n: nat): (who: seq<bool>)
    ensures |who| == n && forall i :: 0 <= i < n ==> !who[i]
  {
    seq(n, _ => false)
  }

  lemma ReturnKeeps(s: State, final: bool, live: seq<bool>)
    requires Inv(s) && |live| == |s.queues| && Parked(s, live, |live|)
    requires if final then forall i :: 0 <= i < |live| ==> !live[i] else exists i :: 0 <= i < |live| && !live[i]
    ensures Inv(Return(s, final)) && Parked(Return(s, final), Nobody(|s.queues|), 0)
  {
    var s' := Return(s, final);
    Unmoved(s, s');
    if !s.parallel {
      hide Conserved, Counted, RunningMaximum, DataKept, HeadLooked, HeadStranded;
      ReturnCounted(s, final);
      forall i | 0 <= i < |s.queues| && HeadLooked(s', i)
        ensures HeadStranded(s', i)
      {
        ReturnParks(s, final, i);
      }
    }
  }

  lemma ReturnCounted(s: State, final: bool)
    requires Counted(s) && (!final ==> exists i :: 0 <= i < |s.queues| && !HeadLooked(s, i))
    ensures Counted(Return(s, final))
  {
    hide CountExact, CountLooked, MaxLook, LookedInPlace, Timed, LeavesForCause, Seen;
    var s', a := Return(s, final), Returned(final, |s.log|);
    ExactLater(s.log, s.acts, a);
    LookedLater(s.log, s.acts, a);
    MaxLookAppend(s.acts, a);
    CauseLater(s.log, s.acts, |s.queues|, a);
    forall h | 0 <= h < |s'.acts| && s'.acts[h].Look?
      ensures LookPlaced(s', s'.acts[h])
    {
      assert LookPlaced(s, s.acts[h]);
    }
  }

  lemma ReturnParks(s: State, final: bool, i: nat)
    requires HeadLooked(Return(s, final), i)
    ensures HeadLooked(s, i) && (!final ==> HeadStranded(Return(s, final), i))
  {
    hide Place;
    var s', p := Return(s, final), Place(s.log, i);
    var h :| LooksAt(s'.acts, h, i, p);
    assert LooksAt(s.acts, h, i, p);
    if !final {
      assert Leaves(s'.acts, |s.acts|, |s.log|);
    }
  }

  // ----- A tick that is lost -----

  /** Two threads publish a counting tick and an earlier result.  A read looks at both, emits the
      result and returns with the tick waiting; the next look takes the tick for an old one and drops
      it. */
  lemma StrandedTick(tick: Result, data: Result)
    requires tick.kind == TickCount && data.kind.Data? && data.key < tick.key
    ensures var inputs := [[tick], [data]];
            var s0 := State(false, inputs, [[], []], inputs, [], [], 0, 0);
            var looked := Peek(Peek(s0, 0).s, 1);
            var read := Return(Pop(looked.s, 1, true), false);
            var again := Peek(read, 0);
            && Peek(s0, 0).ready && looked.ready && read.queues == [[tick], []]
            && !again.ready && again.s.queues == [[], []]
            && again.s.log == [Event(1, data, true), Event(0, tick, false)]
            && Fresh(again.s.acts, 0, 0, tick.key) && Stranded(again.s.acts, 0, 0, 1)
  {
    var inputs := [[tick], [data]];
    var s0 := State(false, inputs, [[], []], inputs, [], [], 0, 0);
    var looked := Peek(Peek(s0, 0).s, 1);
    var read := Return(Pop(looked.s, 1, true), false);
    assert inputs[1][1..] == [] && inputs[1 := []] == [[tick], []];
    assert read.acts == [Look(0, 0, tick.key, 0), Returned(false, 1)];
    var again := Peek(read, 0);
    assert Place(read.log, 0) == 0 by {
      FromAppend([], Event(1, data, true), 0);
      assert read.log == [] + [Event(1, data, true)];
    }
    assert [tick][1..] == [] && [[tick], []][0 := []] == [[], []];
    assert FreshLook(again.s.acts, 0, 0, 0, tick.key);
    assert LooksAt(again.s.acts, 0, 0, 0) && Leaves(again.s.acts, 1, 1);
  }

  // ----- Order -----

  /** A thread publishes results with strictly increasing keys. */
  ghost predicate Ascending(parallel: bool, rs: seq<Result>) {
    forall a, b :: 0 <= a < b < |rs| && InOrder(parallel, rs[a]) && InOrder(parallel, rs[b]) ==> rs[a].key < rs[b].key
  }

  ghost predicate Contract(parallel: bool, inputs: seq<seq<Result>>) {
    forall t :: 0 <= t < |inputs| ==> Ascending(parallel, inputs[t])
  }

  /** UINT64_MAX is the code's "no minimum yet". */
  ghost predicate KeysBelowMax(parallel: bool, inputs: seq<seq<Result>>) {
    forall t, j :: 0 <= t < |inputs| && 0 <= j < |inputs[t]| && InOrder(parallel, inputs[t][j]) ==>
      inputs[t][j].key < UINT64_MAX
  }

  ghost predicate AtLeast(parallel: bool, rs: seq<Result>, k: nat) {
    forall j :: 0 <= j < |rs| && InOrder(parallel, rs[j]) ==> k <= rs[j].key
  }

  /** Among the results taken out since `base`, keys of the merge never went down, and none of the
      threads in `who` has anything left, queued or unpublished, below what was emitted since then. */
  ghost predicate OrderSince(s: State, base: nat, who: seq<bool>)
    requires Shape(s)
  {
    && base <= |s.log|
    && |who| == |s.queues|
    && (forall i, j :: base <= i < j < |s.log| && InPlay(s.parallel, s.log[i]) && InPlay(s.parallel, s.log[j]) ==>
         s.log[i].result.key <= s.log[j].result.key)
    && (forall t, i :: 0 <= t < |who| && who[t] && base <= i < |s.log| && InPlay(s.parallel, s.log[i]) ==>
         AtLeast(s.parallel, Rest(s, t), s.log[i].result.key))
  }

  lemma ScannedKeepsOrder(s: State, s': State, base: nat, who: seq<bool>)
    requires Scanned(s, s') && OrderSince(s, base, who)
    ensures OrderSince(s', base, who)
  {
    hide InPlay, Merged;
    assert forall i :: 0 <= i < |s.log| ==> s'.log[i] == s.log[i];
    forall t, i | 0 <= t < |who| && who[t] && base <= i < |s'.log| && InPlay(s'.parallel, s'.log[i])
      ensures AtLeast(s'.parallel, Rest(s', t), s'.log[i].result.key)
    {
      assert AtLeast(s.parallel, Rest(s, t), s.log[i].result.key);
      assert Suffix(Rest(s', t), Rest(s, t));
      SuffixAtLeast(s.parallel, Rest(s', t), Rest(s, t), s.log[i].result.key);
    }
  }

  lemma SuffixAtLeast(parallel: bool, a: seq<Result>, b: seq<Result>, k: nat)
    requires Suffix(a, b) && AtLeast(parallel, b, k)
    ensures AtLeast(parallel, a, k)
  {
    var d := |b| - |a|;
    assert forall j :: 0 <= j < |a| ==> a[j] == b[d + j];
  }

  /** Under the contract, the head of a queue bounds everything its thread still has. */
  lemma HeadIsLeast(s: State, t: nat)
    requires Inv(s) && Contract(s.parallel, s.inputs)
    requires t < |s.queues| && s.queues[t] != [] && InOrder(s.parallel, s.queues[t][0])
    ensures AtLeast(s.parallel, Rest(s, t), s.queues[t][0].key)
    ensures forall j :: 0 < j < |Rest(s, t)| && InOrder(s.parallel, Rest(s, t)[j]) ==> s.queues[t][0].key < Rest(s, t)[j].key
  {
    var rest := Rest(s, t);
    var done := From(s.log, t);
    assert s.inputs[t] == done + rest && Ascending(s.parallel, s.inputs[t]);
    forall j | 0 < j < |rest| && InOrder(s.parallel, rest[j]) ensures rest[0].key < rest[j].key {
      assert s.inputs[t][|done|] == rest[0] && s.inputs[t][|done| + j] == rest[j];
    }
  }

  /** Emitting a head that no thread of `who` can undercut keeps the output in order. */
  lemma EmitKeepsOrder(s: State, t: nat, base: nat, who: seq<bool>)
    requires Shape(s) && OrderSince(s, base, who)
    requires t < |who| && who[t] && s.queues[t] != [] && InOrder(s.parallel, s.queues[t][0])
    requires forall u :: 0 <= u < |who| && who[u] ==> AtLeast(s.parallel, Rest(s, u), s.queues[t][0].key)
    ensures OrderSince(Pop(s, t, true), base, who)
  {
    var r := s.queues[t][0];
    var s' := Pop(s, t, true);
    assert Rest(s, t)[0] == r;
    assert s'.log == s.log + [Event(t, r, true)];
    forall i | base <= i < |s.log| && InPlay(s.parallel, s.log[i]) ensures s.log[i].result.key <= r.key {
      assert AtLeast(s.parallel, Rest(s, t), s.log[i].result.key);
    }
    forall u, i | 0 <= u < |who| && who[u] && base <= i < |s'.log| && InPlay(s'.parallel, s'.log[i])
      ensures AtLeast(s'.parallel, Rest(s', u), s'.log[i].result.key)
    {
      hide InOrder, AtLeast;
      PopRest(s, t, true, u);
      assert AtLeast(s.parallel, Rest(s, u), s'.log[i].result.key) by {
        if i < |s.log| {
          assert AtLeast(s.parallel, Rest(s, u), s.log[i].result.key);
        }
      }
      SuffixAtLeast(s.parallel, Rest(s', u), Rest(s, u), s'.log[i].result.key);
    }
  }

  /** Taking a waiting head out and sending it on keeps the combiner invariant, also when that head
      is a counting tick. */
  lemma EmitKeeps(s: State, t: nat, live: seq<bool>)
    requires Inv(s) && Ready(s, live) && t < |live| && live[t]
    ensures Inv(Pop(s, t, true)) && Ready(Pop(s, t, true), live[t := false])
  {
    hide Conserved, Deduplicated, Waiting;
    PopConserves(s, t, true);
    EmitDeduplicates(s, t);
    EmitKeepsReady(s, t, live);
  }

  lemma EmitDeduplicates(s: State, t: nat)
    requires Deduplicated(s) && t < |s.queues| && s.queues[t] != [] && InOrder(s.parallel, s.queues[t][0])
    requires s.queues[t][0].kind.TickCount? ==> Waiting(s, t, s.queues[t][0].key)
    ensures Deduplicated(Pop(s, t, true))
  {
    if s.queues[t][0].kind.TickCount? {
      WaitingDeserves(s, t);
    }
    hide Deduplicated, Waiting, Fresh, Stranded, HeadLooked;
    PopTicks(s, t, true);
  }

  lemma WaitingDeserves(s: State, t: nat)
    requires Counted(s) && t < |s.queues| && s.queues[t] != [] && Waiting(s, t, s.queues[t][0].key)
    ensures Fresh(s.acts, t, Place(s.log, t), s.queues[t][0].key) && HeadLooked(s, t)
    ensures !Stranded(s.acts, t, Place(s.log, t), |s.log|)
  {
    hide Place, CountExact;
    var p, key := Place(s.log, t), s.queues[t][0].key;
    var h :| FreshLook(s.acts, h, t, p, key) && NoReturnSince(s.acts, h);
    assert LooksAt(s.acts, h, t, p);
    if Stranded(s.acts, t, p, |s.log|) {
      var k, g :| LooksAt(s.acts, k, t, p) && k < g && Leaves(s.acts, g, |s.log|);
      assert LookPlaced(s, s.acts[k]);
      if k < h {
        MaxLookCovers(s.acts[..h], k);
      }
    }
  }

  lemma EmitKeepsReady(s: State, t: nat, live: seq<bool>)
    requires Ready(s, live) && t < |live| && live[t]
    ensures Ready(Pop(s, t, true), live[t := false])
  {
    hide Waiting;
    var s', live' := Pop(s, t, true), live[t := false];
    forall i | 0 <= i < |live'| && live'[i] && s'.queues[i][0].kind.TickCount?
      ensures Waiting(s', i, s'.queues[i][0].key)
    {
      StillWaiting(s, s', t, i, s.queues[i][0].key);
    }
  }

  /** The result behind the one emitted has not been looked at. */
  lemma EmitKeepsParked(s: State, t: nat, live: seq<bool>, n: nat)
    requires Parked(s, live, n) && t < |s.queues| == |live| && s.queues[t] != [] && (!s.parallel ==> LooksPlaced(s))
    ensures Parked(Pop(s, t, true), live[t := false], n)
  {
    if !s.parallel {
      var s', live' := Pop(s, t, true), live[t := false];
      hide Place, LooksPlaced, HeadLooked, HeadStranded;
      forall i | 0 <= i < |live'| && !live'[i] && HeadLooked(s', i)
        ensures i >= n && HeadStranded(s', i)
      {
        if i == t {
          PopPlaced(s, t, true);
        } else {
          ParkedElsewhere(s, s', t, i);
        }
      }
    }
  }

  /** A head that is no counting tick was not looked at. */
  lemma ParkedWithout(s: State, t: nat, live: seq<bool>, n: nat)
    requires t < |live| == |s.queues| && Parked(s, live[t := true], n) && (!s.parallel ==> LooksPlaced(s))
    requires s.queues[t] == [] || !s.queues[t][0].kind.TickCount?
    ensures Parked(s, live[t := false], n)
  {
    hide Place, HeadStranded;
    forall h | !s.parallel && 0 <= h < |s.acts| && s.acts[h].Look?
      ensures !LooksAt(s.acts, h, t, Place(s.log, t))
    {
      assert LookPlaced(s, s.acts[h]);
    }
  }
}
