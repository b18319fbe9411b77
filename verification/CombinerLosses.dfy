/** How many counting ticks the reads of combiner_ordered can lose. */
module CombinerLosses {
  import opened CombinerModel
  import opened CombinerLooks

  /** The record is the one of a run: acts follow each other in time, looks are at the next result of
      their thread, every counting tick was looked at, and `rounds` reads other than the final one have
      returned, each for want of a queue that had something to offer. */
  ghost predicate Recorded(inputs: seq<seq<Result>>, log: seq<Event>, acts: seq<Act>, rounds: nat) {
    && Timed(log, acts)
    && (forall h :: 0 <= h < |acts| && acts[h].Look? ==> LookedInPlace(inputs, log, acts[h]))
    && CountLooked(log, acts)
    && LeavesForCause(log, acts, |inputs|)
    && Returns(acts) == rounds
  }

  /** Event `j` is a counting tick that was fresh and was dropped all the same. */
  ghost predicate Lost(log: seq<Event>, acts: seq<Act>, j: nat)
    requires j < |log|
  {
    && log[j].result.kind == TickCount && !log[j].delivered
    && Fresh(acts, log[j].thread, PlaceThen(log, j, log[j].thread), log[j].result.key)
  }

  ghost function LostTicks(log: seq<Event>, acts: seq<Act>): set<nat> {
    set j: nat | j < |log| && Lost(log, acts, j)
  }

  /** Act `g` left the tick of event `j` behind. */
  ghost predicate StrandedBy(log: seq<Event>, acts: seq<Act>, g: nat, j: nat)
    requires j < |log|
  {
    Leaves(acts, g, j) && exists h :: h < g && LooksAt(acts, h, log[j].thread, PlaceThen(log, j, log[j].thread))
  }

  ghost function AllStrandedBy(log: seq<Event>, acts: seq<Act>, g: nat): set<nat> {
    set j: nat | j < |log| && StrandedBy(log, acts, g, j)
  }

  /** The tick was at the head of its queue when the read returned. */
  lemma HeadAtReturn(inputs: seq<seq<Result>>, log: seq<Event>, acts: seq<Act>, rounds: nat, g: nat, j: nat)
    requires Recorded(inputs, log, acts, rounds) && j < |log| && StrandedBy(log, acts, g, j)
    ensures PlaceThen(log, acts[g].taken, log[j].thread) == PlaceThen(log, j, log[j].thread)
  {
    hide PlaceThen, CountLooked, LeavesForCause, Returns, TrueLook;
    var t := log[j].thread;
    var h :| h < g && LooksAt(acts, h, t, PlaceThen(log, j, t));
    assert LookedInPlace(inputs, log, acts[h]);
    PlaceThenGrows(log, acts[h].taken, acts[g].taken, t);
    PlaceThenGrows(log, acts[g].taken, j, t);
  }

  lemma PlaceOfEvent(log: seq<Event>, i: nat, j: nat)
    requires i < j < |log|
    ensures PlaceThen(log, i, log[i].thread) < PlaceThen(log, j, log[i].thread)
  {
    assert log[..j][..i] == log[..i] && log[..j][i] == log[i];
    PlaceLeft(log[..j], i);
  }

  /** A read leaves behind at most one tick of a thread. */
  lemma OnePerThread(inputs: seq<seq<Result>>, log: seq<Event>, acts: seq<Act>, rounds: nat, g: nat, i: nat, j: nat)
    requires Recorded(inputs, log, acts, rounds) && i < j < |log|
    requires StrandedBy(log, acts, g, i) && StrandedBy(log, acts, g, j)
    ensures log[i].thread != log[j].thread
  {
    hide PlaceThen, Recorded;
    HeadAtReturn(inputs, log, acts, rounds, g, i);
    HeadAtReturn(inputs, log, acts, rounds, g, j);
    PlaceOfEvent(log, i, j);
  }

  /** It leaves behind none of a thread whose next result it had not looked at. */
  lemma UnseenIsSafe(inputs: seq<seq<Result>>, log: seq<Event>, acts: seq<Act>, rounds: nat, g: nat, i: nat, j: nat)
    requires Recorded(inputs, log, acts, rounds) && j < |log| && StrandedBy(log, acts, g, j)
    requires acts[g].taken <= |log| && Unseen(log, acts, g, i)
    ensures log[j].thread != i
  {
    hide PlaceThen, Recorded;
    HeadAtReturn(inputs, log, acts, rounds, g, j);
  }

  lemma DistinctThreads(log: seq<Event>, js: set<nat>, ts: set<nat>)
    requires forall j :: j in js ==> j < |log| && log[j].thread in ts
    requires forall i, j :: i in js && j in js && i < j ==> log[i].thread != log[j].thread
    ensures |js| <= |ts|
  {
    if js != {} {
      var j :| j in js;
      DistinctThreads(log, js - {j}, ts - {log[j].thread});
    }
  }

  ghost function Below(n: nat): (ts: set<nat>)
    ensures |ts| == n && forall t: nat :: t in ts <==> t < n
  {
    if n == 0 then {} else Below(n - 1) + {n - 1}
  }

  /** Of `n` threads, a read leaves behind a tick of at most `n - 1`. */
  lemma StrandedByRead(inputs: seq<seq<Result>>, log: seq<Event>, acts: seq<Act>, rounds: nat, g: nat)
    requires Recorded(inputs, log, acts, rounds) && forall j :: 0 <= j < |log| ==> log[j].thread < |inputs|
    requires g < |acts| && acts[g].Returned? && !acts[g].final
    ensures |inputs| > 0 && |AllStrandedBy(log, acts, g)| <= |inputs| - 1
  {
    assert SomeUnseen(log, acts, g, |inputs|) && acts[g].taken <= |log|;
    var i :| 0 <= i < |inputs| && Unseen(log, acts, g, i);
    hide Recorded, Unseen, StrandedBy;
    var js := AllStrandedBy(log, acts, g);
    forall j | j in js ensures log[j].thread in Below(|inputs|) - {i} {
      UnseenIsSafe(inputs, log, acts, rounds, g, i, j);
    }
    forall i, j | i in js && j in js && i < j ensures log[i].thread != log[j].thread {
      OnePerThread(inputs, log, acts, rounds, g, i, j);
    }
    DistinctThreads(log, js, Below(|inputs|) - {i});
  }

  /** What the first `m` acts leave behind. */
  ghost function AllStranded(log: seq<Event>, acts: seq<Act>, m: nat): set<nat>
    requires m <= |acts|
  {
    if m == 0 then {}
    else
      AllStranded(log, acts, m - 1)
      + (if acts[m - 1].Returned? && !acts[m - 1].final then AllStrandedBy(log, acts, m - 1) else {})
  }

  lemma {:induction false} StrandedByReads(inputs: seq<seq<Result>>, log: seq<Event>, acts: seq<Act>, rounds: nat, m: nat)
    requires Recorded(inputs, log, acts, rounds) && (forall j :: 0 <= j < |log| ==> log[j].thread < |inputs|)
    requires |inputs| > 0 && m <= |acts|
    ensures |AllStranded(log, acts, m)| <= Returns(acts[..m]) * (|inputs| - 1)
  {
    hide Recorded, AllStrandedBy, Returns;
    if m == 0 {
      NoReturns();
    } else {
      StrandedByReads(inputs, log, acts, rounds, m - 1);
      assert acts[..m] == acts[..m - 1] + [acts[m - 1]];
      ReturnsAppend(acts[..m - 1], acts[m - 1]);
      if acts[m - 1].Returned? && !acts[m - 1].final {
        StrandedByRead(inputs, log, acts, rounds, m - 1);
        OneMore(Returns(acts[..m - 1]), |inputs| - 1);
      }
    }
  }

  lemma NoReturns()
    ensures Returns([]) == 0
  {
  }

  lemma OneMore(a: nat, b: nat)
    ensures (a + 1) * b == a * b + b
  {
  }

  lemma {:induction false} StrandedMember(log: seq<Event>, acts: seq<Act>, m: nat, g: nat, j: nat)
    requires g < m <= |acts| && j < |log| && StrandedBy(log, acts, g, j)
    ensures j in AllStranded(log, acts, m)
  {
    if g < m - 1 {
      StrandedMember(log, acts, m - 1, g, j);
    }
  }

  lemma LostIsStranded(log: seq<Event>, acts: seq<Act>, j: nat)
    requires CountExact(log, acts) && j < |log| && Lost(log, acts, j)
    ensures j in AllStranded(log, acts, |acts|)
  {
    hide Fresh, Place, AllStranded;
    assert !Deserves(log, acts, j);
    var t, p := log[j].thread, PlaceThen(log, j, log[j].thread);
    assert Stranded(acts, t, p, j);
    var h, g :| LooksAt(acts, h, t, p) && h < g && Leaves(acts, g, j);
    assert StrandedBy(log, acts, g, j);
    StrandedMember(log, acts, |acts|, g, j);
  }

  /** A run of `rounds` reads in between loses at most one fresh counting tick per read and thread, one
      thread of each read excepted; a run with a single thread loses none. */
  lemma LossesBounded(inputs: seq<seq<Result>>, log: seq<Event>, acts: seq<Act>, rounds: nat)
    requires |inputs| > 0 && CountExact(log, acts) && Recorded(inputs, log, acts, rounds)
    requires forall j :: 0 <= j < |log| ==> log[j].thread < |inputs|
    ensures |LostTicks(log, acts)| <= rounds * (|inputs| - 1)
  {
    StrandedByReads(inputs, log, acts, rounds, |acts|);
    assert acts[..|acts|] == acts;
    hide CountExact, AllStranded, Lost;
    forall j | j in LostTicks(log, acts) ensures j in AllStranded(log, acts, |acts|) {
      LostIsStranded(log, acts, j);
    }
    Subset(LostTicks(log, acts), AllStranded(log, acts, |acts|));
  }

  lemma {:induction false} Subset(a: set<nat>, b: set<nat>)
    requires a <= b
    ensures |a| <= |b|
  {
    if a != {} {
      var x :| x in a;
      Subset(a - {x}, b - {x});
    }
  }
}
