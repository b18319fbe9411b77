/** combiner_unordered: drain the queues one after the other, dropping repeated ticks. */
module CombinerUnordered {
  import opened CombinerModel
  import opened CombinerLooks
  import opened CombinerOrder
  import opened CombinerFlush
  import opened CombinerQueues

  /** Take the head of queue `t` out; ticks of either kind are sent on only when new. */
  function Take(s: State, t: nat): State
    requires t < |s.queues| && s.queues[t] != []
  {
    var r := s.queues[t][0];
    Pop(NoteTick(s, r), t, r.kind.Data? || NewTick(s, r))
  }

  /** This combiner treats every trace as one whose ticks do not follow the packet order. */
  lemma TakeKeeps(s: State, t: nat)
    requires Inv(s) && s.parallel && t < |s.queues| && s.queues[t] != []
    ensures Inv(Take(s, t)) && Work(Take(s, t)) == Work(s) - 1
  {
    hide Conserved, Deduplicated, Work;
    var r := s.queues[t][0];
    PopWork(NoteTick(s, r), t, r.kind.Data? || NewTick(s, r));
    TakeWork(s, t);
    TakeConserves(s, t);
    TakeDeduplicates(s, t);
  }

  lemma TakeWork(s: State, t: nat)
    requires t < |s.queues| && s.queues[t] != []
    ensures Work(NoteTick(s, s.queues[t][0])) == Work(s)
  {
  }

  lemma TakeConserves(s: State, t: nat)
    requires Shape(s) && Conserved(s) && t < |s.queues| && s.queues[t] != []
    ensures Shape(Take(s, t)) && Conserved(Take(s, t))
  {
    hide Conserved;
    var r := s.queues[t][0];
    Unmoved(s, NoteTick(s, r));
    PopConserves(NoteTick(s, r), t, r.kind.Data? || NewTick(s, r));
  }

  lemma TakeDeduplicates(s: State, t: nat)
    requires Deduplicated(s) && s.parallel && t < |s.queues| && s.queues[t] != []
    ensures Deduplicated(Take(s, t))
  {
    hide DataKept, RunningMaximum, MaxTick;
    var r := s.queues[t][0];
    var e := Event(t, r, r.kind.Data? || NewTick(s, r));
    DataStays(s.log, e);
    TickNoted(s.log, e, TickInterval, s.lastTs);
    TickNoted(s.log, e, TickCount, s.lastCount);
  }

  /** A drained result, field by field. */
  lemma TakeEffect(s: State, t: nat)
    requires Shape(s) && t < |s.queues| && s.queues[t] != []
    ensures var r, s' := s.queues[t][0], Take(s, t);
            && Shape(s') && s'.parallel == s.parallel && s'.inputs == s.inputs && s'.pending == s.pending
            && s'.queues == s.queues[t := s.queues[t][1..]]
            && s'.lastTs == (if r.kind.TickInterval? && r.key > s.lastTs then r.key else s.lastTs)
            && s'.lastCount == (if r.kind.TickCount? && r.key > s.lastCount then r.key else s.lastCount)
            && Sent(s'.log) == (if r.kind.Data? || NewTick(s, r) then Sent(s.log) + [r] else Sent(s.log))
  {
    SentAppend(s.log, Event(t, s.queues[t][0], s.queues[t][0].kind.Data? || NewTick(s, s.queues[t][0])));
  }

  /** Pop `r` and pass it on unless it is a tick already seen. */
  method PassOn(c: Combine, t: nat, r: Result, ghost s: State)
    requires c.Holds(s) && c.sent == Sent(s.log) && Shape(s)
    requires t < |c.queues| && c.queues[t] != [] && r == c.queues[t][0]
    modifies c`queues, c`sent, c`lastTsTick, c`lastCountTick
    ensures c.Holds(Take(s, t)) && c.sent == Sent(Take(s, t).log)
  {
    hide Take, Sent, NewTick;
    TakeEffect(s, t);
    NewTickIs(s, r);
    c.PopFront(t);
    if r.kind == TickInterval {
      if r.key <= c.lastTsTick {
        return;
      }
      c.lastTsTick := r.key;
    }
    if r.kind == TickCount {
      if r.key <= c.lastCountTick {
        return;
      }
      c.lastCountTick := r.key;
    }
    c.sent := c.sent + [r];
  }

  method ReadOne(c: Combine, t: nat)
    requires c.Valid() && c.parallel && t < |c.queues| && c.queues[t] != []
    modifies c
    ensures c.Valid() && c.st == Take(old(c.st), t)
  {
    hide Conserved, Deduplicated, Take, Sent, Work;
    TakeKeeps(c.st, t);
    ghost var s := c.st;
    PassOn(c, t, c.queues[t][0], s);
    c.st := Take(s, t);
  }

  ghost predicate EmptyUpTo(queues: seq<seq<Result>>, i: nat) {
    i <= |queues| && forall u :: 0 <= u < i ==> queues[u] == []
  }

  /** In the course of a read from `s0` to `s`, queue `t` was found empty in state `w`. */
  ghost predicate FoundEmpty(s0: State, w: State, s: State, t: nat) {
    && Inv(w) && w.inputs == s0.inputs && Continues(s0, w) && Continues(w, s)
    && t < |w.queues| && w.queues[t] == []
  }

  ghost predicate Emptied(s0: State, s: State, t: nat) {
    exists w :: FoundEmpty(s0, w, s, t)
  }

  lemma EmptiedLater(s0: State, s: State, s': State, t: nat)
    requires Emptied(s0, s, t) && Continues(s, s')
    ensures Emptied(s0, s', t)
  {
    hide Inv, Continues;
    var w :| FoundEmpty(s0, w, s, t);
    ContinuesTransitive(w, s, s');
    assert FoundEmpty(s0, w, s', t);
  }

  lemma EmptiedNow(s0: State, s: State, t: nat)
    requires Inv(s) && s.inputs == s0.inputs && Continues(s0, s) && t < |s.queues| && s.queues[t] == []
    ensures Emptied(s0, s, t)
  {
    hide Inv;
    assert FoundEmpty(s0, s, s, t);
  }

  /** Taking a result out and publishing are steps forward. */
  lemma StepsOn(s0: State, s: State, t: nat, s': State)
    requires Shape(s) && t < |s.queues| && s.queues[t] != [] && Continues(s0, s) && Grown(Take(s, t), s')
    ensures Continues(s0, s')
  {
    assert Continues(s, Take(s, t));
    ContinuesTransitive(s0, s, Take(s, t));
    hide Take, Continues;
    GrownOn(s0, Take(s, t), s');
  }

  lemma GrownOn(s0: State, s: State, s': State)
    requires Continues(s0, s) && Grown(s, s')
    ensures Continues(s0, s')
  {
    GrownIsScanned(s, s');
    ContinuesTransitive(s0, s, s');
  }

  /** Drain queue `i` until it is found empty. */
  method Drain(c: Combine, i: nat)
    requires c.Valid() && c.parallel && i < |c.queues|
    modifies c
    ensures c.Valid() && c.st.inputs == old(c.st).inputs && |c.queues| == |old(c.queues)|
    ensures Continues(old(c.st), c.st) && c.queues[i] == []
    ensures Quiet(old(c.st)) && EmptyUpTo(old(c.queues), i) ==> Quiet(c.st) && EmptyUpTo(c.queues, i + 1)
  {
    hide Conserved, Deduplicated, Take, Work, Sent, Continues;
    ghost var quiet := Quiet(c.st) && EmptyUpTo(c.queues, i);
    ghost var s := c.st;
    c.Interfere();
    ContinuesSelf(s);
    GrownOn(s, s, c.st);
    if quiet {
      QuietStays(s, c.st);
    }
    while c.queues[i] != []
      invariant c.Valid() && c.st.inputs == old(c.st).inputs && |c.queues| == |old(c.queues)|
      invariant Continues(old(c.st), c.st)
      invariant quiet ==> Quiet(c.st) && EmptyUpTo(c.queues, i)
      decreases Work(c.st)
    {
      TakeKeeps(c.st, i);
      TakeEffect(c.st, i);
      ghost var before := c.st;
      ReadOne(c, i);
      s := c.st;
      c.Interfere();
      StepsOn(old(c.st), before, i, c.st);
      if quiet {
        QuietStays(s, c.st);
      }
    }
  }

  /** Read everything that is there; publishers may add to any queue meanwhile.  Every queue is found
      empty once. */
  method Read(c: Combine)
    requires c.Valid() && c.parallel
    modifies c
    ensures c.Valid() && c.st.inputs == old(c.st).inputs && |c.queues| == |old(c.queues)|
    ensures forall t :: 0 <= t < |c.queues| ==> Emptied(old(c.st), c.st, t)
    ensures Quiet(old(c.st)) ==> Quiet(c.st) && NoneQueued(c.st)
  {
    hide Inv, Continues, Emptied, Sent;
    var n := |c.queues|;
    ContinuesSelf(c.st);
    for i := 0 to n
      invariant c.Valid() && c.st.inputs == old(c.st).inputs && |c.queues| == n && Continues(old(c.st), c.st)
      invariant forall t :: 0 <= t < i ==> Emptied(old(c.st), c.st, t)
      invariant Quiet(old(c.st)) ==> Quiet(c.st) && EmptyUpTo(c.queues, i)
    {
      ghost var s := c.st;
      Drain(c, i);
      ContinuesTransitive(old(c.st), s, c.st);
      forall t | 0 <= t < i ensures Emptied(old(c.st), c.st, t) {
        EmptiedLater(old(c.st), s, c.st, t);
      }
      EmptiedNow(old(c.st), c.st, i);
    }
  }
}
