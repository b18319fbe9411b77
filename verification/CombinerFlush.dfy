/** What the final flush of combiner_ordered emits: conservation of the data results, and when the
    flush keeps the output in order. */
module CombinerFlush {
  import opened CombinerModel
  import opened CombinerLooks
  import opened CombinerOrder

  /** Every thread has published all it ever will. */
  ghost predicate Quiet(s: State) {
    forall t :: 0 <= t < |s.pending| ==> s.pending[t] == []
  }

  lemma QuietStays(s: State, s': State)
    requires Grown(s, s') && Quiet(s)
    ensures s' == s
  {
    forall t | 0 <= t < |s.queues| ensures s'.queues[t] == s.queues[t] && s'.pending[t] == s.pending[t] {
      assert Rest(s', t) == Rest(s, t) && s.queues[t] <= s'.queues[t];
    }
  }

  ghost function All(n: nat): (who: seq<bool>)
    ensures |who| == n && forall i :: 0 <= i < n ==> who[i]
  {
    seq(n, _ => true)
  }

  /** The output so far is in order and nothing still to come is below it. */
  ghost predicate Orderly(s: State) {
    Shape(s) && OrderSince(s, 0, All(|s.queues|))
  }

  ghost predicate NoneQueued(s: State) {
    forall t :: 0 <= t < |s.queues| ==> s.queues[t] == []
  }

  // ----- Every data result leaves exactly once -----

  function DataOf(rs: seq<Result>): seq<Result> {
    Merging(true, rs)
  }

  /** The data results in a list of queues, with multiplicity. */
  function DataSum(qs: seq<seq<Result>>): multiset<Result> {
    if qs == [] then multiset{} else multiset(DataOf(qs[0])) + DataSum(qs[1..])
  }

  lemma AddBoth(m: multiset<Result>, a: multiset<Result>, b: multiset<Result>, c: multiset<Result>, d: multiset<Result>)
    requires a + b == c + d
    ensures (m + a) + b == (m + c) + d
  {
    calc {
      (m + a) + b;
      m + (a + b);
      m + (c + d);
      (m + c) + d;
    }
  }

  lemma Cancel(a: multiset<Result>, b: multiset<Result>, c: multiset<Result>)
    requires a + b == c + b
    ensures a == c
  {
    forall x: Result ensures a[x] == c[x] {
      assert (a + b)[x] == (c + b)[x];
    }
  }

  lemma DataSumUpdate(qs: seq<seq<Result>>, t: nat, q: seq<Result>)
    requires t < |qs|
    ensures DataSum(qs[t := q]) + multiset(DataOf(qs[t])) == DataSum(qs) + multiset(DataOf(q))
  {
    if t == 0 {
      assert qs[t := q][1..] == qs[1..];
    } else {
      assert qs[t := q][1..] == qs[1..][t - 1 := q];
      DataSumUpdate(qs[1..], t - 1, q);
      AddBoth(multiset(DataOf(qs[0])), DataSum(qs[1..][t - 1 := q]), multiset(DataOf(qs[t])),
              DataSum(qs[1..]), multiset(DataOf(q)));
    }
  }

  lemma DataSumSplit(qs: seq<seq<Result>>, as_: seq<seq<Result>>, bs: seq<seq<Result>>)
    requires |qs| == |as_| == |bs|
    requires forall t :: 0 <= t < |qs| ==> multiset(DataOf(qs[t])) == multiset(DataOf(as_[t])) + multiset(DataOf(bs[t]))
    ensures DataSum(qs) == DataSum(as_) + DataSum(bs)
  {
    if qs != [] {
      DataSumSplit(qs[1..], as_[1..], bs[1..]);
    }
  }

  ghost function Froms(log: seq<Event>, n: nat): (fs: seq<seq<Result>>)
    ensures |fs| == n && forall t :: 0 <= t < n ==> fs[t] == From(log, t)
  {
    seq(n, t requires 0 <= t => From(log, t))
  }

  ghost function Rests(s: State): (rs: seq<seq<Result>>)
    requires Shape(s)
    ensures |rs| == |s.queues| && forall t :: 0 <= t < |rs| ==> rs[t] == Rest(s, t)
  {
    seq(|s.queues|, t requires 0 <= t < |s.queues| => Rest(s, t))
  }

  lemma EmptySum(qs: seq<seq<Result>>)
    requires forall t :: 0 <= t < |qs| ==> qs[t] == []
    ensures DataSum(qs) == multiset{}
  {
    if qs != [] {
      EmptySum(qs[1..]);
    }
  }

  lemma {:induction false} SentSum(log: seq<Event>, n: nat)
    requires DataKept(log) && forall j :: 0 <= j < |log| ==> log[j].thread < n
    ensures multiset(DataOf(Sent(log))) == DataSum(Froms(log, n))
  {
    if log == [] {
      EmptySum(Froms(log, n));
    } else {
      var k := |log| - 1;
      var log', e := log[..k], log[k];
      assert log == log' + [e];
      assert DataKept(log') by {
        assert forall j :: 0 <= j < |log'| ==> log'[j] == log[j];
      }
      SentSum(log', n);
      SentAppend(log', e);
      MergingAppend(true, Sent(log'), e.result);
      FromsAppend(log', e, n);
      hide DataOf, Sent, From, Froms;
      assert Sent(log') + [] == Sent(log');
    }
  }

  lemma FromsAppend(log: seq<Event>, e: Event, n: nat)
    requires e.thread < n
    ensures DataSum(Froms(log + [e], n)) ==
            DataSum(Froms(log, n)) + (if e.result.kind.Data? then multiset{e.result} else multiset{})
  {
    var fs, fs' := Froms(log, n), Froms(log + [e], n);
    forall t | 0 <= t < n ensures fs'[t] == (if t == e.thread then fs[t] + [e.result] else fs[t]) {
      FromAppend(log, e, t);
    }
    assert fs' == fs[e.thread := fs[e.thread] + [e.result]];
    MergingAppend(true, fs[e.thread], e.result);
    DataSumUpdate(fs, e.thread, fs[e.thread] + [e.result]);
    var extra := if e.result.kind.Data? then multiset{e.result} else multiset{};
    var own := multiset(DataOf(fs[e.thread]));
    hide Froms, DataOf, DataSum;
    assert DataSum(fs') + own == DataSum(fs) + (own + extra);
    AddBoth(multiset{}, DataSum(fs) + extra, own, DataSum(fs), own + extra);
    Cancel(DataSum(fs'), own, DataSum(fs) + extra);
  }

  /** In every reachable state, the data results sent plus those still queued or unpublished are
      exactly the data results of all threads. */
  lemma DataConserved(s: State)
    requires Inv(s)
    ensures multiset(DataOf(Sent(s.log))) + DataSum(Rests(s)) == DataSum(s.inputs)
  {
    var fs, rs := Froms(s.log, |s.inputs|), Rests(s);
    SentSum(s.log, |s.inputs|);
    forall t | 0 <= t < |s.inputs|
      ensures multiset(DataOf(s.inputs[t])) == multiset(DataOf(fs[t])) + multiset(DataOf(rs[t]))
    {
      MergingConcat(true, fs[t], rs[t]);
    }
    DataSumSplit(s.inputs, fs, rs);
  }

  lemma MergingTail(parallel: bool, q: seq<Result>)
    requires q != [] && !InOrder(parallel, q[0])
    ensures Merging(parallel, q) == Merging(parallel, q[1..])
  {
    assert q == [q[0]] + q[1..];
    MergingConcat(parallel, [q[0]], q[1..]);
  }

  lemma DataMember(q: seq<Result>, x: Result)
    ensures x in DataOf(q) <==> x in q && x.kind.Data?
  {
    if q != [] {
      DataMember(q[..|q| - 1], x);
      assert q == q[..|q| - 1] + [q[|q| - 1]];
    }
  }

  // ----- What a draining pass does -----

  /** Where the final flush stands between two passes. */
  datatype Flush = Flush(parallel: bool, last: Key, queues: seq<seq<Result>>)

  function FlushOf(s: State): Flush {
    Flush(s.parallel, s.lastCount, s.queues)
  }

  function Max(a: Key, b: Key): Key {
    if a > b then a else b
  }

  /** Largest key of the counting ticks in a queue, 0 if it has none. */
  function Top(q: seq<Result>): Key {
    if q == [] then 0 else Max(if q[0].kind.TickCount? then q[0].key else 0, Top(q[1..]))
  }

  /** Largest key of the counting ticks in the queues marked. */
  function Tops(qs: seq<seq<Result>>, who: seq<bool>): Key
    requires |qs| == |who|
  {
    if qs == [] then 0 else Max(if who[0] then Top(qs[0]) else 0, Tops(qs[1..], who[1..]))
  }

  /** A look at the head of `q` raises the last counting tick. */
  function LookLast(last: Key, q: seq<Result>): Key {
    if q != [] && q[0].kind.TickCount? then Max(last, q[0].key) else last
  }

  /** The last counting tick when the scan has looked at the first `n` queues. */
  function ScanLast(f: Flush, n: nat): Key
    requires n <= |f.queues|
  {
    if n == 0 then f.last else LookLast(ScanLast(f, n - 1), f.queues[n - 1])
  }

  /** The scan finds something to merge at the head of `q`. */
  predicate ReadyHead(parallel: bool, last: Key, q: seq<Result>) {
    q != [] && (q[0].kind.Data? || (!parallel && q[0].kind.TickCount? && q[0].key > last))
  }

  predicate LiveAt(f: Flush, t: nat)
    requires t < |f.queues|
  {
    ReadyHead(f.parallel, ScanLast(f, t), f.queues[t])
  }

  function LiveIn(f: Flush): (live: seq<bool>)
    ensures |live| == |f.queues| && forall t :: 0 <= t < |live| ==> live[t] == LiveAt(f, t)
  {
    seq(|f.queues|, t requires 0 <= t < |f.queues| => LiveAt(f, t))
  }

  /** What the scan makes of a queue: a head that is not ready is consumed. */
  function Glance(q: seq<Result>, ready: bool): seq<Result> {
    if ready || q == [] then q else q[1..]
  }

  function Drained(q: seq<Result>, ready: bool): seq<Result> {
    if ready then [] else Glance(q, ready)
  }

  /** One pass: live queues are emptied, the others lose the tick at their head. */
  function Next(f: Flush): (f': Flush)
    ensures |f'.queues| == |f.queues| && f'.parallel == f.parallel
    ensures forall t :: 0 <= t < |f.queues| ==> f'.queues[t] == Drained(f.queues[t], LiveAt(f, t))
  {
    Flush(f.parallel, Max(ScanLast(f, |f.queues|), Tops(f.queues, LiveIn(f))),
          seq(|f.queues|, t requires 0 <= t < |f.queues| => Drained(f.queues[t], LiveAt(f, t))))
  }

  /** After `p` passes. */
  function After(f: Flush, p: nat): (f': Flush)
    ensures |f'.queues| == |f.queues| && f'.parallel == f.parallel
  {
    if p == 0 then f else Next(After(f, p - 1))
  }

  /** How many passes queue `t` sits out before it is emptied. */
  function Wait(f: Flush, t: nat): nat
    requires t < |f.queues|
    decreases |f.queues[t]|
  {
    if f.queues[t] == [] || LiveAt(f, t) then 0 else 1 + Wait(Next(f), t)
  }

  function Waits(f: Flush): (w: seq<nat>)
    ensures |w| == |f.queues| && forall t :: 0 <= t < |w| ==> w[t] == Wait(f, t)
  {
    seq(|f.queues|, t requires 0 <= t < |f.queues| => Wait(f, t))
  }

  /** In a parallel trace that is the number of ticks in front of the first data result. */
  function Lead(q: seq<Result>): nat {
    if q == [] || q[0].kind.Data? then 0 else 1 + Lead(q[1..])
  }

  function Leads(qs: seq<seq<Result>>): (w: seq<nat>)
    ensures |w| == |qs| && forall t :: 0 <= t < |w| ==> w[t] == Lead(qs[t])
  {
    seq(|qs|, t requires 0 <= t < |qs| => Lead(qs[t]))
  }

  lemma {:induction false} WaitIsLead(f: Flush, t: nat)
    requires f.parallel && t < |f.queues|
    ensures Wait(f, t) == Lead(f.queues[t])
    decreases |f.queues[t]|
  {
    if f.queues[t] != [] && !f.queues[t][0].kind.Data? {
      WaitIsLead(Next(f), t);
    }
  }

  /** The scan has something to merge and finds no queue for it. */
  ghost predicate Fails(f: Flush) {
    && |f.queues| > 0 && !LiveAt(f, 0)
    && (exists t :: 0 <= t < |f.queues| && LiveAt(f, t))
    && (forall t :: 0 <= t < |f.queues| && LiveAt(f, t) ==> f.queues[t][0].key == UINT64_MAX)
  }

  /** Some pass of the flush fails. */
  ghost predicate FlushFails(f: Flush) {
    exists p: nat :: Fails(After(f, p))
  }

  /** As it does for a single result with key UINT64_MAX that is not of the first thread. */
  lemma MaxKeyFails(r: Result, parallel: bool, last: Key)
    requires r.kind.Data? && r.key == UINT64_MAX
    ensures FlushFails(Flush(parallel, last, [[], [r]]))
  {
    var f := Flush(parallel, last, [[], [r]]);
    assert LiveAt(f, 1) && !LiveAt(f, 0);
    assert Fails(After(f, 0));
  }

  ghost predicate RunEmpty(f: Flush) {
    forall t :: 0 <= t < |f.queues| ==> f.queues[t] == []
  }

  lemma NextEmpty(f: Flush)
    requires RunEmpty(f)
    ensures RunEmpty(Next(f)) && !Fails(f)
  {
    hide Next;
  }

  lemma {:induction false} EmptyStays(f: Flush, m: nat, p: nat)
    requires m <= p && RunEmpty(After(f, m))
    ensures RunEmpty(After(f, p))
  {
    hide Next, RunEmpty;
    if m < p {
      EmptyStays(f, m, p - 1);
      NextEmpty(After(f, p - 1));
    }
  }

  /** A flush that has emptied the queues without failing never fails. */
  lemma NeverFails(f: Flush, m: nat)
    requires RunEmpty(After(f, m)) && forall p: nat :: p < m ==> !Fails(After(f, p))
    ensures !FlushFails(f)
  {
    hide Fails, After, RunEmpty;
    forall p: nat ensures !Fails(After(f, p)) {
      if p >= m {
        EmptyStays(f, m, p);
        NextEmpty(After(f, p));
      }
    }
  }

  // ----- The last counting tick -----

  /** The last counting tick once queue `t` has been looked through. */
  function Ceiling(s: State, t: nat): Key
    requires t < |s.queues| && t < |s.pending|
  {
    Max(s.lastCount, Top(Rest(s, t)))
  }

  lemma PeekCeiling(s: State, t: nat)
    requires Shape(s) && t < |s.queues| && s.queues[t] != []
    ensures var s' := Peek(s, t).s;
            Shape(s') && Ceiling(s', t) == Ceiling(s, t) && s'.lastCount == LookLast(s.lastCount, s.queues[t])
    ensures Peek(s, t).ready <==> ReadyHead(s.parallel, s.lastCount, s.queues[t])
    ensures Peek(s, t).s.queues[t] == Glance(s.queues[t], Peek(s, t).ready)
  {
    hide Peek;
    PeekEffect(s, t);
    var s' := Peek(s, t).s;
    assert Rest(s, t)[0] == s.queues[t][0] && Rest(s, t)[1..] == s.queues[t][1..] + s.pending[t];
    assert Rest(s', t) == if Peek(s, t).ready then Rest(s, t) else Rest(s, t)[1..];
  }

  /** Taking out a head that has been looked at. */
  lemma PopCeiling(s: State, t: nat, delivered: bool)
    requires Shape(s) && t < |s.queues| && s.queues[t] != []
    requires s.queues[t][0].kind.TickCount? ==> s.queues[t][0].key <= s.lastCount
    ensures Ceiling(Pop(s, t, delivered), t) == Ceiling(s, t)
  {
    assert Rest(s, t)[0] == s.queues[t][0];
    PopRest(s, t, delivered, t);
  }

  lemma {:induction false} TopsOf(qs: seq<seq<Result>>, who: seq<bool>, m: nat)
    requires |qs| == |who| && m < |qs|
    ensures Tops(qs, who[m := true]) == Max(Tops(qs, who[m := false]), Top(qs[m]))
  {
    if m > 0 {
      TopsOf(qs[1..], who[1..], m - 1);
      assert who[m := true][1..] == who[1..][m - 1 := true] && who[m := false][1..] == who[1..][m - 1 := false];
    } else {
      assert who[m := true][1..] == who[m := false][1..];
    }
  }

  lemma {:induction false} TopsElsewhere(qs: seq<seq<Result>>, qs': seq<seq<Result>>, who: seq<bool>)
    requires |qs| == |qs'| == |who| && forall t :: 0 <= t < |who| && who[t] ==> qs'[t] == qs[t]
    ensures Tops(qs', who) == Tops(qs, who)
  {
    if qs != [] {
      TopsElsewhere(qs[1..], qs'[1..], who[1..]);
    }
  }

  lemma {:induction false} NoTops(qs: seq<seq<Result>>, who: seq<bool>)
    requires |qs| == |who| && forall t :: 0 <= t < |who| ==> !who[t]
    ensures Tops(qs, who) == 0
  {
    if qs != [] {
      NoTops(qs[1..], who[1..]);
    }
  }

  /** Looking through a marked queue does not change what all of them come to. */
  lemma TopsStep(qs: seq<seq<Result>>, qs': seq<seq<Result>>, last: Key, last': Key, who: seq<bool>, m: nat, stays: bool)
    requires |qs| == |qs'| == |who| && m < |qs| && who[m]
    requires forall t :: 0 <= t < |qs| && t != m ==> qs'[t] == qs[t]
    requires Max(last', Top(qs'[m])) == Max(last, Top(qs[m])) && last <= last' && (!stays ==> qs'[m] == [])
    ensures Max(last', Tops(qs', who[m := stays])) == Max(last, Tops(qs, who))
  {
    TopsOf(qs, who, m);
    TopsOf(qs', who, m);
    TopsElsewhere(qs, qs', who[m := false]);
    assert who[m := true] == who;
  }

  // ----- Which flushes stay in order -----

  /** Keys of the results of the merge in a log never go down. */
  ghost predicate LogInOrder(parallel: bool, log: seq<Event>) {
    forall i, j :: 0 <= i < j < |log| && InPlay(parallel, log[i]) && InPlay(parallel, log[j]) ==>
      log[i].result.key <= log[j].result.key
  }

  ghost predicate Plays(parallel: bool, log: seq<Event>, j: int, x: Result) {
    0 <= j < |log| && InPlay(parallel, log[j]) && log[j].result == x
  }

  lemma {:induction false} SentMember(parallel: bool, log: seq<Event>, x: Result)
    ensures x in Merging(parallel, Sent(log)) <==> exists j :: Plays(parallel, log, j, x)
  {
    if log != [] {
      var k := |log| - 1;
      var log', e := log[..k], log[k];
      SentMember(parallel, log', x);
      assert log == log' + [e];
      SentAppend(log', e);
      MergingAppend(parallel, Sent(log'), e.result);
      PlaysAppend(parallel, log', e, x);
      hide Sent, Merging, Plays;
      assert Sent(log') + [] == Sent(log');
    }
  }

  lemma PlaysAppend(parallel: bool, log: seq<Event>, e: Event, x: Result)
    ensures (exists j :: Plays(parallel, log + [e], j, x)) <==>
            (exists j :: Plays(parallel, log, j, x)) || (InPlay(parallel, e) && e.result == x)
  {
    if j :| Plays(parallel, log, j, x) {
      assert Plays(parallel, log + [e], j, x);
    }
    if InPlay(parallel, e) && e.result == x {
      assert Plays(parallel, log + [e], |log|, x);
    }
    if j :| Plays(parallel, log + [e], j, x) {
      assert j < |log| ==> Plays(parallel, log, j, x);
    }
  }

  lemma SortedConcat(m: seq<Result>, out: seq<Result>)
    ensures Sorted(m + out) <==>
            Sorted(m) && Sorted(out) && (forall x, y :: x in m && y in out ==> x.key <= y.key)
  {
    var all := m + out;
    if Sorted(all) {
      assert forall i :: 0 <= i < |m| ==> all[i] == m[i];
      assert forall j :: 0 <= j < |out| ==> all[|m| + j] == out[j];
    }
  }

  lemma {:induction false} LogOrderSorts(parallel: bool, log: seq<Event>)
    ensures LogInOrder(parallel, log) <==> Sorted(Merging(parallel, Sent(log)))
  {
    if log != [] {
      var k := |log| - 1;
      var log', e := log[..k], log[k];
      LogOrderSorts(parallel, log');
      assert log == log' + [e];
      LogOrderAppend(parallel, log', e);
      SentAppend(log', e);
      MergingAppend(parallel, Sent(log'), e.result);
      hide LogInOrder, Sent, Merging;
      var m := Merging(parallel, Sent(log'));
      SortedConcat(m, [e.result]);
      assert Sent(log') + [] == Sent(log') && m + [] == m;
    }
  }

  lemma LogOrderAppend(parallel: bool, log: seq<Event>, e: Event)
    ensures LogInOrder(parallel, log + [e]) <==>
            LogInOrder(parallel, log)
            && (InPlay(parallel, e) ==> forall x :: x in Merging(parallel, Sent(log)) ==> x.key <= e.result.key)
  {
    var log' := log + [e];
    if LogInOrder(parallel, log') {
      assert forall j :: 0 <= j < |log| ==> log'[j] == log[j];
      if InPlay(parallel, e) {
        forall x | x in Merging(parallel, Sent(log)) ensures x.key <= e.result.key {
          SentMember(parallel, log, x);
          var j :| Plays(parallel, log, j, x);
          assert log'[j] == log[j] && log'[|log|] == e;
        }
      }
    }
    if LogInOrder(parallel, log)
       && (InPlay(parallel, e) ==> forall x :: x in Merging(parallel, Sent(log)) ==> x.key <= e.result.key) {
      forall i, j | 0 <= i < j < |log'| && InPlay(parallel, log'[i]) && InPlay(parallel, log'[j])
        ensures log'[i].result.key <= log'[j].result.key
      {
        if j == |log| {
          SentMember(parallel, log, log[i].result);
          assert Plays(parallel, log, i, log[i].result);
        }
      }
    }
  }

  /** The effect of one draining pass. */
  ghost predicate Flushed(s: State, s': State) {
    && FlushOf(s') == Next(FlushOf(s))
    && Continues(s, s')
    && (forall j :: |s.log| <= j < |s'.log| && InPlay(s.parallel, s'.log[j]) ==>
         s'.log[j].thread < |s.queues| && LiveAt(FlushOf(s), s'.log[j].thread))
    && (forall i, j :: |s.log| <= i < j < |s'.log| && InPlay(s.parallel, s'.log[i]) && InPlay(s.parallel, s'.log[j]) ==>
         s'.log[i].result.key <= s'.log[j].result.key)
  }

  /** From result `k` on the log has the queues in the order in which they waited, and two results in the
      wrong order both come from there, the first from a queue that waited less. */
  ghost predicate Staged(parallel: bool, log: seq<Event>, k: nat, w: seq<nat>) {
    && (forall j :: 0 <= j < |log| ==> log[j].thread < |w|)
    && (forall i, j :: 0 <= i < j < |log| && InPlay(parallel, log[i]) && InPlay(parallel, log[j]) ==>
         InStages(log, k, w, i, j))
  }

  ghost predicate InStages(log: seq<Event>, k: nat, w: seq<nat>, i: nat, j: nat)
    requires i < |log| && j < |log| && log[i].thread < |w| && log[j].thread < |w|
  {
    && (k <= i ==> w[log[i].thread] <= w[log[j].thread])
    && (log[i].result.key <= log[j].result.key || (k <= i && w[log[i].thread] < w[log[j].thread]))
  }

  /** What was sent from result `k` on by queues that waited less is not above what was sent by others. */
  ghost predicate SentInStep(parallel: bool, log: seq<Event>, k: nat, w: seq<nat>) {
    forall i, j :: k <= i < |log| && k <= j < |log| && InPlay(parallel, log[i]) && InPlay(parallel, log[j])
                   && log[i].thread < |w| && log[j].thread < |w| && w[log[i].thread] < w[log[j].thread] ==>
      log[i].result.key <= log[j].result.key
  }

  /** Data in queues that wait less is not above data in queues that wait longer. */
  ghost predicate InStep(qs: seq<seq<Result>>, w: seq<nat>) {
    forall a, b, x, y ::
      (0 <= a < |qs| && 0 <= b < |qs| && a < |w| && b < |w| && w[a] < w[b] && x in DataOf(qs[a]) && y in DataOf(qs[b])) ==>
        x.key <= y.key
  }

  /** In a parallel trace: queues with fewer leading ticks hold no larger keys than queues with more. */
  ghost predicate LeadsInOrder(qs: seq<seq<Result>>) {
    InStep(qs, Leads(qs))
  }

  lemma LeadsInStep(f: Flush)
    requires f.parallel
    ensures Waits(f) == Leads(f.queues)
  {
    forall t | 0 <= t < |f.queues| ensures Wait(f, t) == Lead(f.queues[t]) {
      WaitIsLead(f, t);
    }
  }

  lemma StagedInStep(parallel: bool, data: bool, log: seq<Event>, k: nat, w: seq<nat>)
    requires Staged(parallel, log, k, w) && (parallel ==> data)
    ensures LogInOrder(data, log) <==> SentInStep(data, log, k, w)
  {
    if LogInOrder(data, log) {
      forall i, j | k <= i < |log| && k <= j < |log| && InPlay(data, log[i]) && InPlay(data, log[j])
                    && log[i].thread < |w| && log[j].thread < |w| && w[log[i].thread] < w[log[j].thread]
        ensures log[i].result.key <= log[j].result.key
      {
        assert InPlay(parallel, log[i]) && InPlay(parallel, log[j]);
      }
    }
    if SentInStep(data, log, k, w) {
      forall i, j | 0 <= i < j < |log| && InPlay(data, log[i]) && InPlay(data, log[j])
        ensures log[i].result.key <= log[j].result.key
      {
        assert InPlay(parallel, log[i]) && InPlay(parallel, log[j]);
      }
    }
  }

  // ----- The passes of a flush -----

  lemma {:induction false} AfterShift(f: Flush, p: nat)
    ensures After(f, p + 1) == After(Next(f), p)
  {
    hide Next;
    if p > 0 {
      AfterShift(f, p - 1);
    }
  }

  lemma NextEmptyQueue(f: Flush, t: nat)
    requires t < |f.queues| && f.queues[t] == []
    ensures Next(f).queues[t] == []
  {
    hide Next;
  }

  lemma {:induction false} EmptyQueueStays(f: Flush, t: nat, p: nat)
    requires t < |f.queues| && f.queues[t] == []
    ensures After(f, p).queues[t] == []
  {
    hide Next;
    if p > 0 {
      EmptyQueueStays(f, t, p - 1);
      NextEmptyQueue(After(f, p - 1), t);
    }
  }

  /** A queue is live in the pass after those it sits out, and in no other. */
  lemma {:induction false} WaitAfter(f: Flush, t: nat, p: nat)
    requires t < |f.queues| && LiveAt(After(f, p), t)
    ensures Wait(f, t) == p
    decreases p
  {
    hide Next, After, LiveAt;
    if p == 0 {
      WaitNow(f, t);
    } else {
      AfterShift(f, p - 1);
      if Next(f).queues[t] == [] {
        EmptyQueueStays(Next(f), t, p - 1);
        LiveHasHead(After(f, p), t);
      } else {
        WaitAfter(Next(f), t, p - 1);
      }
    }
  }

  lemma WaitNow(f: Flush, t: nat)
    requires t < |f.queues| && LiveAt(After(f, 0), t)
    ensures Wait(f, t) == 0
  {
  }

  lemma LiveHasHead(f: Flush, t: nat)
    requires t < |f.queues| && LiveAt(f, t)
    ensures f.queues[t] != []
  {
  }

  /** Event `j` took `x` out of the queue of thread `t`. */
  ghost predicate TakenAt(log: seq<Event>, k: nat, j: int, t: nat, x: Result) {
    k <= j < |log| && log[j].thread == t && log[j].result == x
  }

  /** What was taken from a queue since event `k`. */
  lemma {:induction false} TakenSince(log: seq<Event>, k: nat, t: nat, x: Result)
    requires k <= |log|
    ensures From(log[..k], t) <= From(log, t)
    ensures x in From(log, t)[Place(log[..k], t)..] <==> exists j :: TakenAt(log, k, j, t, x)
  {
    if k == |log| {
      assert log[..k] == log;
    } else {
      var n := |log| - 1;
      var log', e := log[..n], log[n];
      assert log'[..k] == log[..k] && log == log' + [e];
      TakenSince(log', k, t, x);
      FromAppend(log', e, t);
      TakenAppend(log', e, k, t, x);
      var a, b, d := From(log', t), From(log, t), Place(log[..k], t);
      assert b[d..] == a[d..] + (if e.thread == t then [e.result] else []);
    }
  }

  lemma TakenAppend(log: seq<Event>, e: Event, k: nat, t: nat, x: Result)
    requires k <= |log|
    ensures (exists j :: TakenAt(log + [e], k, j, t, x)) <==>
            (exists j :: TakenAt(log, k, j, t, x)) || (e.thread == t && e.result == x)
  {
    if j :| TakenAt(log, k, j, t, x) {
      assert TakenAt(log + [e], k, j, t, x);
    }
    if e.thread == t && e.result == x {
      assert TakenAt(log + [e], k, |log|, t, x);
    }
    if j :| TakenAt(log + [e], k, j, t, x) {
      assert j < |log| ==> TakenAt(log, k, j, t, x);
    }
  }

  /** What leaves a queue later was in it, or yet to be published. */
  lemma LaterFromRest(s0: State, s: State, j: nat)
    requires Shape(s0) && Conserved(s0) && Shape(s) && Conserved(s) && s.inputs == s0.inputs && s0.log <= s.log
    requires |s0.log| <= j < |s.log|
    ensures s.log[j].thread < |s0.queues| && s.log[j].result in Rest(s0, s.log[j].thread)
  {
    var t, x, k := s.log[j].thread, s.log[j].result, |s0.log|;
    assert s.log[..k] == s0.log;
    TakenSince(s.log, k, t, x);
    assert TakenAt(s.log, k, j, t, x);
    hide From;
    var a, b := From(s0.log, t), From(s.log, t);
    assert s.inputs[t] == a + Rest(s0, t) && s.inputs[t] == b + Rest(s, t);
    var i :| 0 <= i < |b[|a|..]| && b[|a|..][i] == x;
    assert s.inputs[t][|a| + i] == x && Rest(s0, t)[i] == x;
  }

  /** Where the flush stands after `p` passes. */
  ghost predicate FlushState(s0: State, s: State, p: nat) {
    && Inv(s0) && Inv(s) && s.inputs == s0.inputs && s.parallel == s0.parallel
    && Orderly(s0) && Quiet(s0) && Continues(s0, s)
    && FlushOf(s) == After(FlushOf(s0), p)
    && Stages(s0, s, p)
  }

  ghost predicate Stages(s0: State, s: State, p: nat) {
    var k, w := |s0.log|, Waits(FlushOf(s0));
    && Staged(s.parallel, s.log, k, w)
    && (forall j :: k <= j < |s.log| && InPlay(s.parallel, s.log[j]) ==> w[s.log[j].thread] < p)
  }

  lemma FlushStart(s0: State)
    requires Inv(s0) && Quiet(s0) && Orderly(s0)
    ensures FlushState(s0, s0, 0)
  {
    hide Deduplicated;
  }

  lemma FlushPass(s0: State, s: State, s': State, p: nat)
    requires FlushState(s0, s, p) && Inv(s') && s'.inputs == s.inputs && Flushed(s, s')
    ensures FlushState(s0, s', p + 1)
  {
    hide Inv, Quiet, Orderly, Stages, Continues, Next;
    Settled(s0);
    Settled(s);
    ContinuesTransitive(s0, s, s');
    StagesPass(s0, s, s', p);
  }

  lemma Settled(s: State)
    requires Inv(s)
    ensures Shape(s) && Conserved(s) && forall j :: 0 <= j < |s.log| ==> s.log[j].thread < |s.queues|
  {
  }

  /** The state between two passes, and after the second. */
  ghost predicate Passing(s0: State, s: State, s': State, p: nat) {
    FlushState(s0, s, p) && Inv(s') && s'.inputs == s.inputs && Flushed(s, s')
  }

  lemma StagesPass(s0: State, s: State, s': State, p: nat)
    requires Passing(s0, s, s', p)
    ensures Stages(s0, s', p + 1)
  {
    var k, w, log := |s0.log|, Waits(FlushOf(s0)), s'.log;
    PassThreads(s0, s, s', p);
    hide Passing, Inv, InPlay, Next, LiveAt, Wait, InStages, FlushOf, Waits, Stages;
    forall j | k <= j < |log| && InPlay(s'.parallel, log[j]) ensures w[log[j].thread] < p + 1 {
      PassWaits(s0, s, s', p, j);
    }
    forall i, j | 0 <= i < j < |log| && InPlay(s'.parallel, log[i]) && InPlay(s'.parallel, log[j])
      ensures InStages(log, k, w, i, j)
    {
      StagesPair(s0, s, s', p, i, j);
    }
    StagesAre(s0, s', p + 1);
  }

  lemma StagesAre(s0: State, s: State, p: nat)
    requires var k, w, log := |s0.log|, Waits(FlushOf(s0)), s.log;
             && (forall j :: 0 <= j < |log| ==> log[j].thread < |w|)
             && (forall i, j :: 0 <= i < j < |log| && InPlay(s.parallel, log[i]) && InPlay(s.parallel, log[j]) ==>
                  InStages(log, k, w, i, j))
             && (forall j :: k <= j < |log| && InPlay(s.parallel, log[j]) ==> w[log[j].thread] < p)
    ensures Stages(s0, s, p)
  {
    hide InPlay, InStages, Wait, FlushOf;
  }

  lemma PassThreads(s0: State, s: State, s': State, p: nat)
    requires Passing(s0, s, s', p)
    ensures |Waits(FlushOf(s0))| == |s0.queues| == |s.queues| == |s'.queues| && s0.log <= s.log <= s'.log
    ensures s'.parallel == s.parallel == s0.parallel
    ensures forall j :: 0 <= j < |s'.log| ==> s'.log[j].thread < |s0.queues|
  {
    hide Deduplicated, LiveAt, Wait, InPlay, InStages, Quiet, Orderly;
  }

  /** What a pass emits is from queues that have sat out the passes before. */
  lemma PassWaits(s0: State, s: State, s': State, p: nat, j: nat)
    requires Passing(s0, s, s', p) && |s0.log| <= j < |s'.log| && InPlay(s'.parallel, s'.log[j])
    ensures var w, t := Waits(FlushOf(s0)), s'.log[j].thread;
            t < |w| && (if j < |s.log| then w[t] < p else w[t] == p)
  {
    PassThreads(s0, s, s', p);
    hide Inv, Quiet, Orderly, InPlay, Next, After, LiveAt, Wait, Staged, FlushOf;
    FlushStands(s0, s, p);
    if j < |s.log| {
      assert s'.log[j] == s.log[j];
    } else {
      WaitAfter(FlushOf(s0), s'.log[j].thread, p);
    }
  }

  lemma StagesPair(s0: State, s: State, s': State, p: nat, i: nat, j: nat)
    requires Passing(s0, s, s', p) && i < j < |s'.log| && InPlay(s'.parallel, s'.log[i]) && InPlay(s'.parallel, s'.log[j])
    requires s'.log[i].thread < |s0.queues| && s'.log[j].thread < |s0.queues|
    ensures InStages(s'.log, |s0.log|, Waits(FlushOf(s0)), i, j)
  {
    var k, w, log := |s0.log|, Waits(FlushOf(s0)), s'.log;
    PassThreads(s0, s, s', p);
    hide Inv, Quiet, Orderly, InPlay, Next, After, LiveAt, Wait, InStages, FlushOf, Waits;
    if j < |s.log| {
      assert log[i] == s.log[i] && log[j] == s.log[j];
      SameStages(s.log, log, k, w, i, j);
    } else if i < k {
      EarlierIsLess(s0, s', i, j);
      NewStages(log, k, w, i, j);
    } else {
      PassWaits(s0, s, s', p, i);
      PassWaits(s0, s, s', p, j);
      NewStages(log, k, w, i, j);
    }
  }

  lemma SameStages(log: seq<Event>, log': seq<Event>, k: nat, w: seq<nat>, i: nat, j: nat)
    requires i < |log| <= |log'| && j < |log| && log[i].thread < |w| && log[j].thread < |w|
    requires InStages(log, k, w, i, j) && log'[i] == log[i] && log'[j] == log[j]
    ensures InStages(log', k, w, i, j)
  {
  }

  lemma NewStages(log: seq<Event>, k: nat, w: seq<nat>, i: nat, j: nat)
    requires i < |log| && j < |log| && log[i].thread < |w| && log[j].thread < |w|
    requires if k <= i && w[log[i].thread] != w[log[j].thread] then w[log[i].thread] < w[log[j].thread]
             else log[i].result.key <= log[j].result.key
    ensures InStages(log, k, w, i, j)
  {
  }

  lemma FlushStands(s0: State, s: State, p: nat)
    requires FlushState(s0, s, p)
    ensures FlushOf(s) == After(FlushOf(s0), p)
    ensures Fails(FlushOf(s)) ==> FlushFails(FlushOf(s0))
  {
    hide Inv, Orderly, Quiet, Continues, Stages, Fails, After;
  }

  /** Nothing that leaves later is below what was emitted in order. */
  lemma EarlierIsLess(s0: State, s: State, i: nat, j: nat)
    requires Inv(s0) && Inv(s) && s.inputs == s0.inputs && Orderly(s0) && s0.log <= s.log && s.parallel == s0.parallel
    requires i < |s0.log| <= j < |s.log| && InPlay(s.parallel, s.log[i]) && InPlay(s.parallel, s.log[j])
    ensures s.log[i].result.key <= s.log[j].result.key
  {
    hide Conserved, Deduplicated;
    LaterFromRest(s0, s, j);
    var t, x := s.log[j].thread, s.log[j].result;
    assert All(|s0.queues|)[t] && s0.log[i] == s.log[i];
    assert AtLeast(s0.parallel, Rest(s0, t), s0.log[i].result.key);
    var m :| 0 <= m < |Rest(s0, t)| && Rest(s0, t)[m] == x;
  }

  /** A data result was queued before the flush exactly if the flush sent it. */
  lemma QueuedIsSent(s0: State, s: State, t: nat, x: Result)
    requires WholeFlush(s0, s) && t < |s0.queues|
    ensures x in DataOf(s0.queues[t]) <==> x.kind.Data? && exists j :: TakenAt(s.log, |s0.log|, j, t, x)
  {
    hide Deduplicated, From, DataOf;
    DataMember(s0.queues[t], x);
    assert s.log[..|s0.log|] == s0.log;
    TakenSince(s.log, |s0.log|, t, x);
    var a, b := From(s0.log, t), From(s.log, t);
    assert s.inputs[t] == a + s0.queues[t] && s.inputs[t] == b;
    assert b[|a|..] == s0.queues[t];
  }

  /** The flush of `s0` that ends in `s`. */
  ghost predicate WholeFlush(s0: State, s: State) {
    && Inv(s0) && Inv(s) && s.inputs == s0.inputs && s0.log <= s.log && Quiet(s0) && Quiet(s) && NoneQueued(s)
  }

  lemma InStepSent(s0: State, s: State, w: seq<nat>)
    requires WholeFlush(s0, s) && |w| == |s0.queues|
    ensures InStep(s0.queues, w) ==> SentInStep(true, s.log, |s0.log|, w)
  {
    hide WholeFlush, DataOf, InPlay;
    var k := |s0.log|;
    if InStep(s0.queues, w) {
      forall i, j | k <= i < |s.log| && k <= j < |s.log| && InPlay(true, s.log[i]) && InPlay(true, s.log[j])
                    && s.log[i].thread < |w| && s.log[j].thread < |w| && w[s.log[i].thread] < w[s.log[j].thread]
        ensures s.log[i].result.key <= s.log[j].result.key
      {
        SentWasQueued(s0, s, i);
        SentWasQueued(s0, s, j);
      }
    }
  }

  lemma SentInStepQueued(s0: State, s: State, w: seq<nat>)
    requires WholeFlush(s0, s) && |w| == |s0.queues|
    ensures SentInStep(true, s.log, |s0.log|, w) ==> InStep(s0.queues, w)
  {
    hide WholeFlush, DataOf, InPlay;
    var qs := s0.queues;
    if SentInStep(true, s.log, |s0.log|, w) {
      forall a, b, x, y | 0 <= a < |qs| && 0 <= b < |qs| && a < |w| && b < |w| && w[a] < w[b]
                          && x in DataOf(qs[a]) && y in DataOf(qs[b])
        ensures x.key <= y.key
      {
        var i := QueuedWasSent(s0, s, a, x);
        var j := QueuedWasSent(s0, s, b, y);
      }
    }
  }

  lemma SentWasQueued(s0: State, s: State, j: nat)
    requires WholeFlush(s0, s) && |s0.log| <= j < |s.log| && InPlay(true, s.log[j]) && s.log[j].thread < |s0.queues|
    ensures s.log[j].result in DataOf(s0.queues[s.log[j].thread])
  {
    hide Inv, Quiet, NoneQueued, DataOf;
    assert TakenAt(s.log, |s0.log|, j, s.log[j].thread, s.log[j].result);
    QueuedIsSent(s0, s, s.log[j].thread, s.log[j].result);
  }

  lemma QueuedWasSent(s0: State, s: State, t: nat, x: Result) returns (j: nat)
    requires WholeFlush(s0, s) && t < |s0.queues| && x in DataOf(s0.queues[t])
    ensures |s0.log| <= j < |s.log| && InPlay(true, s.log[j]) && s.log[j].thread == t && s.log[j].result == x
  {
    hide Inv, Quiet, NoneQueued, DataOf;
    AllDataSent(s);
    QueuedIsSent(s0, s, t, x);
    j :| TakenAt(s.log, |s0.log|, j, t, x);
  }

  lemma AllDataSent(s: State)
    requires Inv(s)
    ensures forall j :: 0 <= j < |s.log| && s.log[j].result.kind.Data? ==> s.log[j].delivered
  {
  }

  /** The flush leaves the data in order exactly if queues that sat out fewer passes held no larger data
      than others, and all results of the merge if the same goes for what these queues sent. */
  lemma FlushDone(s0: State, s: State, p: nat)
    requires FlushState(s0, s, p) && Quiet(s) && NoneQueued(s)
    ensures Sorted(DataOf(Sent(s.log))) <==> InStep(s0.queues, Waits(FlushOf(s0)))
    ensures Sorted(Merged(s)) <==> SentInStep(s.parallel, s.log, |s0.log|, Waits(FlushOf(s0)))
    ensures s.parallel ==> (Sorted(Merged(s)) <==> LeadsInOrder(s0.queues))
  {
    var w := Waits(FlushOf(s0));
    hide Inv, Orderly, Quiet, NoneQueued, Staged, InStep, SentInStep, Sent, Merging, Wait, Sorted, LogInOrder, Lead;
    InStepSent(s0, s, w);
    SentInStepQueued(s0, s, w);
    StagedInStep(s.parallel, true, s.log, |s0.log|, w);
    StagedInStep(s.parallel, s.parallel, s.log, |s0.log|, w);
    LogOrderSorts(true, s.log);
    LogOrderSorts(s.parallel, s.log);
    if s.parallel {
      LeadsInStep(FlushOf(s0));
    }
  }

  lemma IdleWork(s: State)
    requires Quiet(s) && NoneQueued(s)
    ensures Work(s) == 0
  {
    AllEmpty(s.queues);
    AllEmpty(s.pending);
  }
}
