/** Ticks through the steps of a combiner: what each step makes of the record of ticks taken out and
    looked at. */
module CombinerLooks {
  import opened CombinerModel

  // ----- The record -----

  lemma MaxLookAppend(acts: seq<Act>, a: Act)
    ensures MaxLook(acts + [a]) == if a.Look? && a.key > MaxLook(acts) then a.key else MaxLook(acts)
  {
    assert (acts + [a])[..|acts|] == acts;
  }

  lemma {:induction false} MaxLookCovers(acts: seq<Act>, h: nat)
    requires h < |acts| && acts[h].Look?
    ensures acts[h].key <= MaxLook(acts)
  {
    var k := |acts| - 1;
    if h < k {
      MaxLookCovers(acts[..k], h);
    }
  }

  lemma ReturnsAppend(acts: seq<Act>, a: Act)
    ensures Returns(acts + [a]) == Returns(acts) + if a.Returned? && !a.final then 1 else 0
  {
    assert (acts + [a])[..|acts|] == acts;
  }

  lemma LookedLater(log: seq<Event>, acts: seq<Act>, a: Act)
    requires CountLooked(log, acts)
    ensures CountLooked(log, acts + [a])
  {
    hide Place;
    forall j | 0 <= j < |log| && log[j].result.kind == TickCount
      ensures exists h :: LooksAt(acts + [a], h, log[j].thread, Place(log[..j], log[j].thread))
    {
      var h :| LooksAt(acts, h, log[j].thread, Place(log[..j], log[j].thread));
      assert LooksAt(acts + [a], h, log[j].thread, Place(log[..j], log[j].thread));
    }
  }

  lemma LookedEvent(log: seq<Event>, acts: seq<Act>, e: Event)
    requires CountLooked(log, acts)
    requires e.result.kind == TickCount ==> exists h :: LooksAt(acts, h, e.thread, Place(log, e.thread))
    ensures CountLooked(log + [e], acts)
  {
    hide Place, LooksAt;
    var log' := log + [e];
    forall j | 0 <= j < |log'| && log'[j].result.kind == TickCount
      ensures exists h :: LooksAt(acts, h, log'[j].thread, Place(log'[..j], log'[j].thread))
    {
      if j < |log| {
        assert log'[..j] == log[..j] && log'[j] == log[j];
      } else {
        assert log'[..j] == log && log'[j] == e;
      }
    }
  }

  /** A run that reads only at the end leaves nothing behind. */
  lemma {:induction false} NoneLeaves(acts: seq<Act>, g: nat)
    requires Returns(acts) == 0 && g < |acts|
    ensures acts[g].Returned? ==> acts[g].final
  {
    var k := |acts| - 1;
    if g < k {
      NoneLeaves(acts[..k], g);
    }
  }

  lemma {:induction false} PlaceGrows(log: seq<Event>, t: nat, j: nat)
    requires j <= |log|
    ensures Place(log[..j], t) <= Place(log, t)
    decreases |log|
  {
    if j < |log| {
      var k := |log| - 1;
      assert log[..k][..j] == log[..j];
      PlaceGrows(log[..k], t, j);
    } else {
      assert log[..j] == log;
    }
  }

  lemma PlaceAppend(log: seq<Event>, e: Event, t: nat)
    ensures Place(log + [e], t) == Place(log, t) + if e.thread == t then 1 else 0
  {
    FromAppend(log, e, t);
  }

  /** A result that has left had a smaller place than the next one. */
  lemma PlaceLeft(log: seq<Event>, j: nat)
    requires j < |log|
    ensures Place(log[..j], log[j].thread) < Place(log, log[j].thread)
  {
    assert log[..j + 1] == log[..j] + [log[j]];
    PlaceAppend(log[..j], log[j], log[j].thread);
    PlaceGrows(log, log[j].thread, j + 1);
  }

  // ----- The time of acts -----

  lemma PlaceThenEvent(log: seq<Event>, e: Event, n: nat, t: nat)
    requires n <= |log|
    ensures PlaceThen(log + [e], n, t) == PlaceThen(log, n, t)
  {
    assert (log + [e])[..n] == log[..n];
  }

  lemma {:induction false} PlaceThenGrows(log: seq<Event>, m: nat, n: nat, t: nat)
    requires m <= n <= |log|
    ensures PlaceThen(log, m, t) <= PlaceThen(log, n, t) <= Place(log, t)
  {
    assert log[..n][..m] == log[..m];
    PlaceGrows(log[..n], t, m);
    PlaceGrows(log, t, n);
  }

  lemma InPlaceEvent(inputs: seq<seq<Result>>, log: seq<Event>, e: Event, a: Act)
    requires a.Look? && LookedInPlace(inputs, log, a)
    ensures LookedInPlace(inputs, log + [e], a)
  {
    PlaceThenEvent(log, e, a.taken, a.thread);
  }

  lemma TimedLater(log: seq<Event>, acts: seq<Act>, a: Act)
    requires Timed(log, acts) && a.taken == |log|
    ensures Timed(log, acts + [a])
  {
  }

  lemma CauseEvent(log: seq<Event>, acts: seq<Act>, n: nat, e: Event)
    requires Timed(log, acts) && LeavesForCause(log, acts, n)
    ensures Timed(log + [e], acts) && LeavesForCause(log + [e], acts, n)
  {
    hide LooksAt;
    forall g | 0 <= g < |acts| && acts[g].Returned? && !acts[g].final
      ensures SomeUnseen(log + [e], acts, g, n)
    {
      assert SomeUnseen(log, acts, g, n);
      var i :| 0 <= i < n && Unseen(log, acts, g, i);
      PlaceThenEvent(log, e, acts[g].taken, i);
      assert Unseen(log + [e], acts, g, i);
    }
  }

  lemma CauseLater(log: seq<Event>, acts: seq<Act>, n: nat, a: Act)
    requires Timed(log, acts) && LeavesForCause(log, acts, n) && a.taken == |log|
    requires a.Returned? && !a.final ==>
               exists i :: 0 <= i < n && !Seen(log, acts, i)
    ensures Timed(log, acts + [a]) && LeavesForCause(log, acts + [a], n)
  {
    hide Place;
    TimedLater(log, acts, a);
    var acts' := acts + [a];
    forall g | 0 <= g < |acts'| && acts'[g].Returned? && !acts'[g].final
      ensures SomeUnseen(log, acts', g, n)
    {
      if g < |acts| {
        assert SomeUnseen(log, acts, g, n);
        var i :| 0 <= i < n && Unseen(log, acts, g, i);
        UnseenLater(log, acts, a, g, i);
      } else {
        var i :| 0 <= i < n && !Seen(log, acts, i);
        UnseenNow(log, acts, a, i);
      }
    }
  }

  lemma UnseenLater(log: seq<Event>, acts: seq<Act>, a: Act, g: nat, i: nat)
    requires g < |acts| && acts[g].taken <= |log| && Unseen(log, acts, g, i)
    ensures Unseen(log, acts + [a], g, i)
  {
    hide PlaceThen;
    forall h | 0 <= h < g ensures !LooksAt(acts + [a], h, i, PlaceThen(log, acts[g].taken, i)) {
      assert !LooksAt(acts, h, i, PlaceThen(log, acts[g].taken, i));
    }
  }

  lemma UnseenNow(log: seq<Event>, acts: seq<Act>, a: Act, i: nat)
    requires a.taken == |log| && !Seen(log, acts, i)
    ensures Unseen(log, acts + [a], |acts|, i)
  {
    assert log[..|log|] == log;
    hide Place;
    forall h | 0 <= h < |acts| ensures !LooksAt(acts + [a], h, i, Place(log, i)) {
      assert !LooksAt(acts, h, i, Place(log, i));
    }
  }

  /** An act that neither looks at what has left nor returns before it left. */
  ghost predicate Later(log: seq<Event>, a: Act) {
    if a.Look? then a.place >= Place(log, a.thread) else a.taken >= |log|
  }

  lemma FreshLater(acts: seq<Act>, a: Act, t: nat, p: nat, key: Key)
    requires a.Look? ==> a.thread != t || a.place != p
    ensures Fresh(acts + [a], t, p, key) <==> Fresh(acts, t, p, key)
  {
    var acts' := acts + [a];
    if Fresh(acts, t, p, key) {
      var h :| FreshLook(acts, h, t, p, key);
      assert acts'[..h] == acts[..h];
      assert FreshLook(acts', h, t, p, key);
    }
    if Fresh(acts', t, p, key) {
      var h :| FreshLook(acts', h, t, p, key);
      assert acts'[..h] == acts[..h];
      assert FreshLook(acts, h, t, p, key);
    }
  }

  lemma StrandedStays(acts: seq<Act>, a: Act, t: nat, p: nat, n: nat, m: nat)
    requires Stranded(acts, t, p, n) && n <= m
    ensures Stranded(acts + [a], t, p, m) && Stranded(acts, t, p, m)
  {
    var h, g :| LooksAt(acts, h, t, p) && h < g && Leaves(acts, g, n);
    assert LooksAt(acts + [a], h, t, p) && Leaves(acts + [a], g, m) && Leaves(acts, g, m);
  }

  lemma StrandedLater(acts: seq<Act>, a: Act, t: nat, p: nat, n: nat)
    requires if a.Look? then a.thread != t || a.place != p else a.taken > n
    ensures Stranded(acts + [a], t, p, n) <==> Stranded(acts, t, p, n)
  {
    if Stranded(acts, t, p, n) {
      StrandedStays(acts, a, t, p, n, n);
    }
    if Stranded(acts + [a], t, p, n) {
      var h, g :| LooksAt(acts + [a], h, t, p) && h < g && Leaves(acts + [a], g, n);
      assert LooksAt(acts, h, t, p) && Leaves(acts, g, n);
    }
  }

  /** What was right about the ticks that have left stays right. */
  lemma ExactLater(log: seq<Event>, acts: seq<Act>, a: Act)
    requires CountExact(log, acts) && Later(log, a)
    ensures CountExact(log, acts + [a])
  {
    forall j | 0 <= j < |log| && log[j].result.kind == TickCount
      ensures log[j].delivered <==> Deserves(log, acts + [a], j)
    {
      var t, p := log[j].thread, Place(log[..j], log[j].thread);
      hide Fresh, Stranded, Place;
      PlaceLeft(log, j);
      FreshLater(acts, a, t, p, log[j].result.key);
      StrandedLater(acts, a, t, p, j);
      assert log[j].delivered <==> Deserves(log, acts, j);
    }
  }

  lemma ExactEvent(log: seq<Event>, acts: seq<Act>, e: Event)
    requires CountExact(log, acts)
    requires e.result.kind == TickCount ==>
               (e.delivered <==> Fresh(acts, e.thread, Place(log, e.thread), e.result.key)
                                 && !Stranded(acts, e.thread, Place(log, e.thread), |log|))
    ensures CountExact(log + [e], acts)
  {
    var log' := log + [e];
    forall j | 0 <= j < |log'| && log'[j].result.kind == TickCount
      ensures log'[j].delivered <==> Deserves(log', acts, j)
    {
      hide Fresh, Stranded, Place;
      if j < |log| {
        assert log'[..j] == log[..j] && log'[j] == log[j];
        assert log[j].delivered <==> Deserves(log, acts, j);
      } else {
        assert log'[..j] == log && log'[j] == e;
      }
    }
  }

  /** Ticks that deserve to be passed on have different keys. */
  lemma OnceEach(log: seq<Event>, acts: seq<Act>)
    requires CountExact(log, acts)
    ensures CountTicksOnce(log)
  {
    forall i, j | i < j && CountTickSent(log, i) && CountTickSent(log, j)
      ensures log[i].result.key != log[j].result.key
    {
      assert Deserves(log, acts, i) && Deserves(log, acts, j);
      DistinctKeys(log, acts, i, j);
    }
  }

  lemma DistinctKeys(log: seq<Event>, acts: seq<Act>, i: nat, j: nat)
    requires i < j < |log| && Deserves(log, acts, i) && Deserves(log, acts, j)
    ensures log[i].result.key != log[j].result.key
  {
    hide Place, Stranded;
    var p, q := Place(log[..i], log[i].thread), Place(log[..j], log[j].thread);
    var a :| FreshLook(acts, a, log[i].thread, p, log[i].result.key);
    var b :| FreshLook(acts, b, log[j].thread, q, log[j].result.key);
    assert log[..j][..i] == log[..i] && log[..j][i] == log[i];
    PlaceLeft(log[..j], i);
    if a < b {
      MaxLookCovers(acts[..b], a);
    } else if b < a {
      MaxLookCovers(acts[..a], b);
    }
  }

  /** Only reads that are not the final one leave ticks behind: one that is first looked at after the
      last of these reads is passed on exactly if it is fresh. */
  lemma FlushLosesNone(log: seq<Event>, acts: seq<Act>, j: nat, from: nat)
    requires CountExact(log, acts) && j < |log| && log[j].result.kind == TickCount
    requires forall g :: from <= g < |acts| && acts[g].Returned? ==> acts[g].final
    requires forall h :: 0 <= h < from ==> !LooksAt(acts, h, log[j].thread, Place(log[..j], log[j].thread))
    ensures log[j].delivered <==> Fresh(acts, log[j].thread, Place(log[..j], log[j].thread), log[j].result.key)
  {
    var t, p := log[j].thread, Place(log[..j], log[j].thread);
    hide Place, Fresh;
    assert log[j].delivered <==> Deserves(log, acts, j);
    assert !Stranded(acts, t, p, j);
  }

  // ----- Taking results out -----

  /** Taking out a result that is not a tick, or a waiting counting tick. */
  lemma PopTicks(s: State, t: nat, delivered: bool)
    requires Deduplicated(s) && t < |s.queues| && s.queues[t] != []
    requires var r := s.queues[t][0];
             && (r.kind.Data? ==> delivered)
             && !r.kind.TickInterval?
             && (s.parallel ==> !r.kind.TickCount?)
             && (!s.parallel && r.kind.TickCount? ==>
                  && HeadLooked(s, t)
                  && (delivered <==> Fresh(s.acts, t, Place(s.log, t), r.key) && !Stranded(s.acts, t, Place(s.log, t), |s.log|)))
    ensures Deduplicated(Pop(s, t, delivered))
  {
    hide MaxTick, RunningMaximum, DataKept, Counted, Fresh, Stranded, Place, HeadLooked;
    var e := Event(t, s.queues[t][0], delivered);
    OtherKind(s.log, e, TickInterval);
    DataStays(s.log, e);
    if s.parallel {
      OtherKind(s.log, e, TickCount);
    } else {
      PopCounted(s, t, delivered);
    }
  }

  lemma OtherKind(log: seq<Event>, e: Event, kind: Kind)
    requires RunningMaximum(log, kind) && e.result.kind != kind
    ensures RunningMaximum(log + [e], kind) && MaxTick(log + [e], kind) == MaxTick(log, kind)
  {
    hide RunningMaximum, MaxTick;
    MaxTickAppend(log, e, kind);
    RunningMaximumAppend(log, e, kind);
  }

  lemma DataStays(log: seq<Event>, e: Event)
    requires DataKept(log) && (e.result.kind.Data? ==> e.delivered)
    ensures DataKept(log + [e])
  {
  }

  lemma PopCounted(s: State, t: nat, delivered: bool)
    requires Counted(s) && t < |s.queues| && s.queues[t] != []
    requires var r := s.queues[t][0];
             r.kind.TickCount? ==>
               && HeadLooked(s, t)
               && (delivered <==> Fresh(s.acts, t, Place(s.log, t), r.key) && !Stranded(s.acts, t, Place(s.log, t), |s.log|))
    ensures Counted(Pop(s, t, delivered))
  {
    hide CountExact, CountLooked, LooksPlaced, Fresh, Stranded, MaxLook, Timed, LeavesForCause;
    var e := Event(t, s.queues[t][0], delivered);
    CauseEvent(s.log, s.acts, |s.queues|, e);
    LookedEvent(s.log, s.acts, e);
    ExactEvent(s.log, s.acts, e);
    PopPlaced(s, t, delivered);
  }

  lemma PopPlaced(s: State, t: nat, delivered: bool)
    requires LooksPlaced(s) && t < |s.queues| && s.queues[t] != []
    ensures LooksPlaced(Pop(s, t, delivered))
    ensures !HeadLooked(Pop(s, t, delivered), t)
  {
    var s' := Pop(s, t, delivered);
    var e := Event(t, s.queues[t][0], delivered);
    forall h | 0 <= h < |s.acts| && s.acts[h].Look?
      ensures LookPlaced(s', s.acts[h]) && !LooksAt(s.acts, h, t, Place(s'.log, t))
    {
      hide Place, LookedInPlace;
      PlaceAppend(s.log, e, s.acts[h].thread);
      assert LookPlaced(s, s.acts[h]);
      InPlaceEvent(s.inputs, s.log, e, s.acts[h]);
    }
  }
}
