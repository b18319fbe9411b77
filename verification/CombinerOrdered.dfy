/** combiner_ordered: an incremental k-way merge of the per-thread queues, run by the reporter
    thread while the publishing threads keep pushing into the same queues. */
module CombinerOrdered {
  import opened CombinerModel
  import opened CombinerLooks
  import opened CombinerOrder
  import opened CombinerFlush
  import opened CombinerQueues

  function Count(live: seq<bool>): nat {
    if live == [] then 0 else (if live[0] then 1 else 0) + Count(live[1..])
  }

  lemma CountUpdate(live: seq<bool>, t: nat, b: bool)
    requires t < |live|
    ensures Count(live[t := b]) == Count(live) - (if live[t] then 1 else 0) + (if b then 1 else 0)
  {
    if t == 0 {
      assert live[t := b][1..] == live[1..];
    } else {
      assert live[t := b][1..] == live[1..][t - 1 := b];
      CountUpdate(live[1..], t - 1, b);
    }
  }

  lemma CountSome(live: seq<bool>, t: nat)
    requires t < |live| && live[t]
    ensures Count(live) > 0
  {
    if t > 0 {
      CountSome(live[1..], t - 1);
    }
  }

  lemma CountNone(live: seq<bool>)
    requires forall i :: 0 <= i < |live| ==> !live[i]
    ensures Count(live) == 0
  {
    if live != [] {
      CountNone(live[1..]);
    }
  }

  /** The cached keys are the keys of the waiting heads. */
  ghost predicate Cached(s: State, live: seq<bool>, key: seq<Key>) {
    && |key| == |live| == |s.queues|
    && (forall i :: 0 <= i < |live| && live[i] ==> s.queues[i] != [] && key[i] == s.queues[i][0].key)
  }

  /** `minQueue` is live and no live queue has a smaller cached key. */
  ghost predicate Minimal(live: seq<bool>, key: seq<Key>, minQueue: int, minKey: Key) {
    && |key| == |live|
    && 0 <= minQueue < |live|
    && live[minQueue]
    && key[minQueue] == minKey
    && (forall i :: 0 <= i < |live| && live[i] ==> minKey <= key[i])
  }

  /** The search for the least key over the first `n` queues, as the scan does it. */
  function Least(live: seq<bool>, key: seq<Key>, n: nat): (r: (Key, int))
    requires n <= |live| == |key|
    ensures -1 <= r.1 < n
  {
    if n == 0 then (UINT64_MAX, -1)
    else
      var (k, q) := Least(live, key, n - 1);
      if live[n - 1] && (n == 1 || k > key[n - 1]) then (key[n - 1], n - 1) else (k, q)
  }

  /** With some queue live, the scan finds the least key, unless queue 0 is not live and all keys are the
      largest possible; then it finds no queue at all, and a final read would take from queue -1. */
  lemma {:induction false} LeastExactly(live: seq<bool>, key: seq<Key>, n: nat)
    requires n <= |live| == |key|
    ensures var (k, q) := Least(live, key, n);
            && (q == -1 ==> k == UINT64_MAX)
            && (q != -1 ==> live[q] && key[q] == k && forall i :: 0 <= i < n && live[i] ==> k <= key[i])
            && (q == -1 <==> n == 0 || (!live[0] && forall i :: 0 <= i < n && live[i] ==> key[i] == UINT64_MAX))
  {
    if n > 0 {
      LeastExactly(live, key, n - 1);
    }
  }

  lemma {:induction false} LeastPrefix(live: seq<bool>, key: seq<Key>, live': seq<bool>, key': seq<Key>, n: nat)
    requires n <= |live| == |key| == |live'| == |key'| && live[..n] == live'[..n] && key[..n] == key'[..n]
    ensures Least(live', key', n) == Least(live, key, n)
  {
    if n > 0 {
      assert live[..n][..n - 1] == live[..n - 1] && live'[..n][..n - 1] == live'[..n - 1];
      assert key[..n][..n - 1] == key[..n - 1] && key'[..n][..n - 1] == key'[..n - 1];
      LeastPrefix(live, key, live', key', n - 1);
      assert live[n - 1] == live[..n][n - 1] && key[n - 1] == key[..n][n - 1];
    }
  }

  lemma LeastStep(live: seq<bool>, key: seq<Key>, i: nat, ready: bool, k: Key)
    requires i < |live| == |key| && !live[i]
    ensures var (m, q) := Least(live, key, i);
            Least(live[i := ready], key[i := k], i + 1) == if ready && (i == 0 || m > k) then (k, i) else (m, q)
  {
    var live', key' := live[i := ready], key[i := k];
    assert live[..i] == live'[..i] && key[..i] == key'[..i];
    LeastPrefix(live, key, live', key', i);
  }

  /** `s'` differs from `s` in queue `t` and in what was published meanwhile. */
  ghost predicate OnlyTouched(s: State, s': State, t: nat) {
    && |s'.queues| == |s.queues|
    && (forall u :: 0 <= u < |s.queues| && u != t ==> s.queues[u] <= s'.queues[u])
    && (Quiet(s) ==> Quiet(s') && forall u :: 0 <= u < |s.queues| && u != t ==> s'.queues[u] == s.queues[u])
  }

  /** From `s0` to `s`: ticks of queue `t` were consumed and results published, while the live
      queues kept their heads. */
  ghost predicate Looking(s0: State, s: State, t: nat, live: seq<bool>) {
    && Scanned(s0, s) && OnlyTouched(s0, s, t) && Ready(s, live) && Work(s) <= Work(s0)
    && t < |live| == |s.queues| && !live[t]
    && (forall i :: 0 <= i < |live| && live[i] ==> s0.queues[i] != [] && s.queues[i][0] == s0.queues[i][0])
    && Raised(s0, s, t) && OthersKept(s0, s, t)
  }

  /** Nothing was taken out of queues other than `t`. */
  ghost predicate OthersKept(s0: State, s: State, t: nat) {
    forall u: nat :: u != t ==> Place(s.log, u) == Place(s0.log, u)
  }

  /** In the course of a read from `s0` to `s` it came by queue `t`, for the last time, in state `w`, and
      there was nothing to merge then; at most a tick that is not merged, which it took out.  Under the
      ordering contract that is the only reason; without, a key of 0 passes for the end of a queue. */
  ghost predicate StoppedAt(s0: State, w: State, s: State, t: nat) {
    && Inv(w) && w.inputs == s0.inputs && w.parallel == s0.parallel
    && Continues(s0, w) && Continues(w, s)
    && t < |w.queues|
    && (!ReadyHead(w.parallel, w.lastCount, w.queues[t]) || (!Contract(w.parallel, w.inputs) && w.queues[t][0].key == 0))
    && Place(s.log, t) ==
       Place(w.log, t) + if w.queues[t] != [] && !ReadyHead(w.parallel, w.lastCount, w.queues[t]) then 1 else 0
  }

  /** So it did at one of the first `n` queues. */
  ghost predicate Stopped(s0: State, s: State, n: nat) {
    exists w, t: nat :: t < n && StoppedAt(s0, w, s, t)
  }

  /** The last counting tick went up, by nothing but ticks of queue `t`. */
  ghost predicate Raised(s0: State, s: State, t: nat) {
    && t < |s0.queues| && t < |s0.pending| && t < |s.queues| && t < |s.pending|
    && s0.lastCount <= s.lastCount && Ceiling(s, t) == Ceiling(s0, t)
  }

  /** What a look at queue `t` does once nothing more is published. */
  ghost predicate LookedAt(s0: State, s: State, t: nat, ready: bool) {
    && t < |s0.queues| == |s.queues| && s.parallel == s0.parallel
    && ready == ReadyHead(s0.parallel, s0.lastCount, s0.queues[t])
    && s.queues[t] == Glance(s0.queues[t], ready)
    && s.lastCount == LookLast(s0.lastCount, s0.queues[t])
  }

  /** The reporter's table of queue heads: which queues are live, how many, and with which keys. */
  ghost predicate Table(s: State, live: seq<bool>, key: seq<Key>, liveCount: nat) {
    && Ready(s, live)
    && Cached(s, live, key)
    && liveCount == Count(live)
  }

  /** After the first `n` queues of `s0` were looked at. */
  ghost predicate SweptUpTo(s0: State, s: State, live: seq<bool>, n: nat) {
    && Quiet(s)
    && n <= |live| == |s.queues| == |s0.queues| && s.parallel == s0.parallel
    && (forall t :: 0 <= t < n ==> live[t] == LiveAt(FlushOf(s0), t))
    && (forall t :: 0 <= t < n ==> s.queues[t] == Glance(s0.queues[t], live[t]))
    && (forall t :: n <= t < |live| ==> s.queues[t] == s0.queues[t])
    && s.lastCount == ScanLast(FlushOf(s0), n)
  }

  lemma TableMoved(s0: State, s: State, t: nat, live: seq<bool>, key: seq<Key>, liveCount: nat)
    requires Table(s0, live, key, liveCount) && Looking(s0, s, t, live)
    ensures Table(s, live, key, liveCount)
  {
    hide Scanned, OnlyTouched, Raised;
  }

  /** Entering a newly found head `k` of queue `t` into the table. */
  lemma TableRaised(s: State, live: seq<bool>, key: seq<Key>, liveCount: nat, t: nat, k: Key)
    requires Table(s, live, key, liveCount) && t < |live| && !live[t]
    requires Ready(s, live[t := true]) && k == s.queues[t][0].key
    ensures Table(s, live[t := true], key[t := k], liveCount + 1)
  {
    CountUpdate(live, t, true);
  }

  /** The key of a queue that is not live does not matter. */
  lemma TableLowered(s: State, live: seq<bool>, key: seq<Key>, liveCount: nat, t: nat)
    requires Table(s, live, key, liveCount) && t < |live| && !live[t]
    ensures live[t := false] == live && |key| == |live|
    ensures Table(s, live, key[t := 0], liveCount)
  {
  }

  lemma SweptStep(s0: State, s: State, s': State, live: seq<bool>, i: nat, ready: bool)
    requires i < |live| && SweptUpTo(s0, s, live, i) && OnlyTouched(s, s', i)
    requires LookedAt(s, s', i, ready)
    ensures SweptUpTo(s0, s', live[i := ready], i + 1)
  {
    hide ReadyHead, Glance, LookLast;
  }

  lemma ScanStart(s: State, live: seq<bool>, key: seq<Key>)
    requires Inv(s) && |live| == |key| == |s.queues| && forall i :: 0 <= i < |live| ==> !live[i]
    ensures Scanning(s, s, 0, live, key, 0, true, UINT64_MAX, -1)
  {
    hide Conserved, Deduplicated;
    GrownIsScanned(s, s);
    CountNone(live);
  }

  lemma HeadBelowMax(s: State, t: nat)
    requires Inv(s) && KeysBelowMax(s.parallel, s.inputs)
    requires t < |s.queues| && s.queues[t] != [] && InOrder(s.parallel, s.queues[t][0])
    ensures s.queues[t][0].key < UINT64_MAX
  {
    var done := From(s.log, t);
    assert s.inputs[t] == done + Rest(s, t);
    assert s.inputs[t][|done|] == s.queues[t][0];
  }

  /** One round of the merge: publishing up to `mid`, the head of queue `m` emitted, then ticks
      consumed from queue `m` until its next result is found or, when it drops out of `live`, none is. */
  ghost predicate Stepped(s: State, mid: State, s': State, m: int, live': seq<bool>) {
    && Grown(s, mid) && Inv(mid)
    && 0 <= m < |live'| == |mid.queues| && mid.queues[m] != []
    && Scanned(Pop(mid, m, true), s')
    && Work(s') < Work(s)
    && OnlyTouched(s, s', m) && Raised(s, s', m)
    && (!live'[m] ==> s'.queues[m] == [] || (s'.queues[m][0].kind.Data? && s'.queues[m][0].key == 0))
  }

  /** Between two reads: a head that was looked at was left behind. */
  ghost predicate Idle(c: Combine)
    reads c
  {
    c.Valid() && Parked(c.st, Nobody(|c.queues|), 0)
  }

  lemma PlacedLooks(s: State)
    requires Inv(s)
    ensures !s.parallel ==> LooksPlaced(s) && s.lastCount == MaxLook(s.acts)
  {
  }

  /** Act on `r`, the head of queue `t`: consume it if it is a tick that is not merged. */
  method Examine(c: Combine, t: nat, r: Result, ghost s: State) returns (ready: bool, key: Key)
    requires c.Holds(s) && c.sent == Sent(s.log) && t < |c.queues| && c.queues[t] != [] && r == c.queues[t][0]
    modifies c`queues, c`sent, c`lastTsTick, c`lastCountTick
    ensures c.Holds(Peek(s, t).s) && ready == Peek(s, t).ready && key == Peek(s, t).key
    ensures c.sent == Sent(Peek(s, t).s.log)
  {
    hide Peek, Sent, NewTick, InOrder;
    PeekEffect(s, t);
    NewTickIs(s, r);
    key, ready := 0, false;
    if r.kind == TickInterval {
      if r.key > c.lastTsTick {
        c.lastTsTick := r.key;
        c.PopFront(t);
        c.sent := c.sent + [r];
      } else {
        c.PopFront(t);
      }
    } else if r.kind == TickCount {
      if r.key > c.lastCountTick {
        c.lastCountTick := r.key;
        if c.parallel {
          c.PopFront(t);
          c.sent := c.sent + [r];
        } else {
          key, ready := r.key, true;
        }
      } else {
        c.PopFront(t);
      }
    } else {
      key, ready := r.key, true;
    }
  }

  /** One more queue has been come by. */
  function Past(n: nat, t: nat): nat {
    if n == t then n + 1 else n
  }

  /** Look at the head of queue `t`; publishers may run between the look and the removal. */
  method PeekQueue(c: Combine, t: nat, ghost live: seq<bool>, ghost n: nat) returns (ready: bool, key: Key, ghost mid: State)
    requires c.Valid() && t < |c.queues| == |live| && c.queues[t] != [] && Parked(c.st, live, n) && !live[t]
    modifies c
    ensures c.Valid() && Parked(mid, live, n) && |mid.queues| == |live|
    ensures Grown(old(c.st), mid) && Inv(mid) && Work(mid) == Work(old(c.st))
    ensures mid.queues[t] != [] && Peeked(c.st, ready, key) == Peek(mid, t)
  {
    hide Inv, Work, Peek, Sent, HeadLooked, HeadStranded;
    var r := c.queues[t][0];
    c.Interfere();
    mid := c.st;
    assert old(c.st).queues[t] <= mid.queues[t];
    GrownKeepsParked(old(c.st), mid, live, n);
    PeekKeeps(mid, t);
    PeekSetting(mid, t);
    ready, key := Examine(c, t, r, mid);
    c.st := Peek(mid, t).s;
  }

  /** Check whether queue `t` has something and look at its head. */
  method LookAt(c: Combine, t: nat, ghost live: seq<bool>, ghost n: nat)
    returns (found: bool, ready: bool, key: Key, ghost w: State)
    requires c.Valid() && Ready(c.st, live) && Parked(c.st, live, n) && t < |c.queues| && !live[t]
    modifies c
    ensures c.Valid() && Looking(old(c.st), c.st, t, live) && Parked(c.st, live[t := ready], Past(n, t))
    ensures found || (c.queues[t] == [] && !ready && key == 0)
    ensures found && !ready ==> Work(c.st) < Work(old(c.st))
    ensures ready ==> Ready(c.st, live[t := true]) && c.queues[t] != [] && key == c.queues[t][0].key
                      && InOrder(c.parallel, c.queues[t][0]) && (c.queues[t][0].kind.TickCount? ==> key > 0)
    ensures Quiet(old(c.st)) ==> LookedAt(old(c.st), c.st, t, ready)
    ensures !ready ==> StoppedAt(old(c.st), w, c.st, t)
  {
    hide *;
    ghost var s0 := c.st;
    InMerge(c);
    LookingStart(s0, t, live);
    c.Interfere();
    InMerge(c);
    SameLength(s0, c.st);
    Follow(s0, s0, c.st, t, live);
    GrownKeepsParked(s0, c.st, live, n);
    if Quiet(s0) {
      QuietStays(s0, c.st);
    }
    found, ready, key := c.queues[t] != [], false, 0;
    assert live[t := false] == live;
    if found {
      ghost var s1 := c.st;
      ready, key, w := PeekQueue(c, t, live, n);
      InMerge(c);
      LookEffect(s0, s1, w, t, live, n);
      LookShows(s0, Peeked(c.st, ready, key), t, live, n);
      Follow(s0, s1, w, t, live);
      PeekStops(s0, w, t, live);
    } else {
      w := c.st;
      EmptyLook(s0, c.st, t, live, n);
      EmptyStops(s0, w, t, live);
    }
  }

  lemma PeekStops(s0: State, w: State, t: nat, live: seq<bool>)
    requires Looking(s0, w, t, live) && Inv(w) && t < |w.queues| && w.queues[t] != []
    ensures !Peek(w, t).ready ==> StoppedAt(s0, w, Peek(w, t).s, t)
  {
    hide Inv, OnlyTouched, Ready, Work, Raised, OthersKept, Peek, ReadyHead, Contract, Place, Merged, Returns, Ceiling, LookLast,
      Glance;
    PeekScans(w, t);
    Settled(w);
    PeekCeiling(w, t);
    PeekRecord(w, t);
    PlaceAppend(w.log, Event(t, w.queues[t][0], NewTick(w, w.queues[t][0])), t);
  }

  lemma EmptyStops(s0: State, w: State, t: nat, live: seq<bool>)
    requires Looking(s0, w, t, live) && Inv(w) && t < |w.queues| && w.queues[t] == []
    ensures StoppedAt(s0, w, w, t)
  {
    hide Inv, OnlyTouched, Ready, Work, Raised, OthersKept, Contract, Place, Merged, Returns;
    ContinuesSelf(w);
  }

  lemma SameLength(s: State, s': State)
    requires Grown(s, s')
    ensures |s'.queues| == |s.queues|
  {
  }

  lemma LookingStart(s: State, t: nat, live: seq<bool>)
    requires Inv(s) && Ready(s, live) && t < |s.queues| && !live[t]
    ensures Looking(s, s, t, live) && |live| == |s.queues|
  {
    hide Conserved, Deduplicated;
    GrownIsScanned(s, s);
  }

  lemma EmptyLook(s0: State, s: State, t: nat, live: seq<bool>, n: nat)
    requires Inv(s) && t < |s.queues| == |live| && s.queues[t] == [] && Parked(s, live, n)
    ensures Parked(s, live, Past(n, t))
    ensures s == s0 ==> LookedAt(s0, s, t, false)
  {
    hide Inv, Parked, LooksPlaced;
    PlacedLooks(s);
    EmptyKeepsParked(s, t, live, n);
  }

  lemma LookShows(s0: State, p: Peeked, t: nat, live: seq<bool>, n: nat)
    requires Looked(s0, p, t, live, n)
    ensures t < |p.s.queues| && t < |s0.queues| && t < |live|
    ensures Looking(s0, p.s, t, live) && Parked(p.s, live[t := p.ready], Past(n, t))
    ensures !p.ready ==> Work(p.s) < Work(s0)
    ensures p.ready ==> Ready(p.s, live[t := true]) && p.s.queues[t] != [] && p.key == p.s.queues[t][0].key
    ensures p.ready ==> InOrder(p.s.parallel, p.s.queues[t][0]) && (p.s.queues[t][0].kind.TickCount? ==> p.key > 0)
    ensures Quiet(s0) ==> LookedAt(s0, p.s, t, p.ready)
  {
    hide Looking, Parked, Ready, Work, LookedAt, Quiet, InOrder;
  }

  /** After a look at queue `t`, which was not live and had something in it. */
  ghost predicate Looked(s0: State, p: Peeked, t: nat, live: seq<bool>, n: nat) {
    && t < |p.s.queues| && t < |s0.queues| && t < |live|
    && Looking(s0, p.s, t, live) && Parked(p.s, live[t := p.ready], Past(n, t))
    && (!p.ready ==> Work(p.s) < Work(s0))
    && (p.ready ==> && Ready(p.s, live[t := true]) && p.s.queues[t] != [] && p.key == p.s.queues[t][0].key
                    && InOrder(p.s.parallel, p.s.queues[t][0]) && (p.s.queues[t][0].kind.TickCount? ==> p.key > 0))
    && (Quiet(s0) ==> LookedAt(s0, p.s, t, p.ready))
  }

  lemma LookEffect(s0: State, s1: State, mid: State, t: nat, live: seq<bool>, n: nat)
    requires Looking(s0, s1, t, live) && Grown(s1, mid) && Inv(mid) && Work(mid) == Work(s1) && Parked(mid, live, n)
    requires t < |mid.queues| == |live| && mid.queues[t] != [] && (Quiet(s0) ==> s1 == s0)
    ensures Looked(s0, Peek(mid, t), t, live, n)
  {
    hide Scanned, OnlyTouched, Grown, Inv, Ready, Peek, Parked, Work, LooksPlaced, HeadIsNext, Raised, LookedAt;
    Follow(s0, s1, mid, t, live);
    PlacedLooks(mid);
    HeadNext(mid, t);
    PeekKeepsParked(mid, t, live, n);
    PeekFollows(s0, mid, t, live);
    PeekEffect(mid, t);
    TouchedLength(s0, mid, t);
    if Quiet(s0) {
      QuietStays(s1, mid);
      PeekLooks(mid, t);
    }
  }

  lemma PeekLooks(s: State, t: nat)
    requires Inv(s) && t < |s.queues| && s.queues[t] != []
    ensures LookedAt(s, Peek(s, t).s, t, Peek(s, t).ready)
  {
    hide Peek, Conserved, Deduplicated, ReadyHead, Glance, LookLast;
    PeekSetting(s, t);
    PeekCeiling(s, t);
    PeekEffect(s, t);
  }

  lemma HeadNext(s: State, t: nat)
    requires Inv(s) && t < |s.queues| && s.queues[t] != []
    ensures HeadIsNext(s, t)
  {
    hide Conserved, Deduplicated;
    NextInput(s, t);
  }

  lemma TouchedLength(s: State, s': State, t: nat)
    requires OnlyTouched(s, s', t)
    ensures |s'.queues| == |s.queues|
  {
  }

  /** The key of the next result of queue `t` to merge, or 0 if there is none; unmerged ticks in
      front of it are consumed. */
  method NextMessage(c: Combine, t: nat, ghost live: seq<bool>) returns (key: Key)
    requires c.Valid() && Ready(c.st, live) && Parked(c.st, live, |live|) && t < |c.queues| && !live[t]
    modifies c
    ensures c.Valid() && Looking(old(c.st), c.st, t, live) && Parked(c.st, live[t := key != 0], |live|)
    ensures key != 0 ==> c.queues[t] != [] && key == c.queues[t][0].key && Ready(c.st, live[t := true])
    ensures key == 0 ==> c.queues[t] == [] || (c.queues[t][0].kind.Data? && c.queues[t][0].key == 0)
  {
    hide *;
    InMerge(c);
    LookingStart(c.st, t, live);
    assert live[t := false] == live;
    while true
      invariant c.Valid() && |c.queues| == |live| && Looking(old(c.st), c.st, t, live) && Parked(c.st, live, |live|)
      decreases Work(c.st)
    {
      ghost var s1 := c.st;
      InMerge(c);
      LookingReady(old(c.st), s1, t, live);
      ghost var w;
      var found, ready, k;
      found, ready, k, w := LookAt(c, t, live, |live|);
      InMerge(c);
      assert Past(|live|, t) == |live| by { Behind(t, |live|); }
      LookingTransitive(old(c.st), s1, c.st, t, live);
      LookingReady(old(c.st), c.st, t, live);
      if !found || ready {
        if ready && k == 0 {
          MergedHead(c.parallel, c.queues[t][0]);
          PlacedLooks(c.st);
          ParkedWithout(c.st, t, live, |live|);
        }
        return k;
      }
    }
  }

  lemma OneFurther(n: nat)
    ensures Past(n, n) == n + 1
  {
  }

  lemma TableReady(s: State, live: seq<bool>, key: seq<Key>, liveCount: nat)
    requires Table(s, live, key, liveCount)
    ensures Ready(s, live)
  {
  }

  lemma Behind(t: nat, n: nat)
    requires t < n
    ensures Past(n, t) == n
  {
  }

  lemma MergedHead(parallel: bool, r: Result)
    requires InOrder(parallel, r)
    ensures r.kind.Data? || r.kind.TickCount?
  {
  }

  lemma LookingReady(s0: State, s: State, t: nat, live: seq<bool>)
    requires Looking(s0, s, t, live)
    ensures Ready(s, live) && t < |live| == |s.queues| && !live[t]
  {
    hide Scanned, OnlyTouched, Raised, Ready;
  }

  /** Look at queue `i` and enter what was found into the table. */
  method ScanOne(c: Combine, i: nat, live: seq<bool>, key: seq<Key>, liveCount: nat, minKey: Key, minQueue: int)
    returns (ready: bool, live': seq<bool>, key': seq<Key>, liveCount': nat, minKey': Key, minQueue': int, ghost w: State)
    requires c.Valid() && i < |c.queues| == |live| == |key| && !live[i] && Parked(c.st, live, i)
    requires Table(c.st, live, key, liveCount)
    modifies c
    ensures c.Valid() && Looking(old(c.st), c.st, i, live)
    ensures Table(c.st, live', key', liveCount')
    ensures liveCount' == liveCount + if ready then 1 else 0
    ensures live' == live[i := ready] && |key'| == |key| && |c.queues| == |live| && Parked(c.st, live', i + 1)
    ensures key' == key[i := key'[i]]
    ensures (minKey', minQueue') == if ready && (i == 0 || minKey > key'[i]) then (key'[i], i) else (minKey, minQueue)
    ensures Quiet(old(c.st)) ==> LookedAt(old(c.st), c.st, i, ready)
    ensures !ready ==> StoppedAt(old(c.st), w, c.st, i)
  {
    hide *;
    ghost var s := c.st;
    live', key', liveCount', minKey', minQueue' := live, key, liveCount, minKey, minQueue;
    var found, peeked;
    InMerge(c);
    TableReady(s, live, key, liveCount);
    found, ready, peeked, w := LookAt(c, i, live, i);
    InMerge(c);
    OneFurther(i);
    LookingReady(s, c.st, i, live);
    TableMoved(s, c.st, i, live, key, liveCount);
    if ready {
      TableRaised(c.st, live, key, liveCount, i, peeked);
      liveCount' := liveCount + 1;
      live' := live[i := true];
      key' := key[i := peeked];
      if i == 0 || minKey > peeked {
        minKey' := peeked;
        minQueue' := i;
      }
    } else {
      TableLowered(c.st, live, key, liveCount, i);
      live' := live[i := false];
      key' := key[i := 0];
    }
  }

  /** Look at every queue once, remember which are live and with which key, and find the least. */
  method Scan(c: Combine) returns (live: seq<bool>, key: seq<Key>, liveCount: nat, allActive: bool, minKey: Key, minQueue: int)
    requires Idle(c)
    modifies c
    ensures c.Valid() && Scanned(old(c.st), c.st) && Work(c.st) <= Work(old(c.st)) && Parked(c.st, live, |live|)
    ensures |live| == |c.queues| && Table(c.st, live, key, liveCount)
    ensures |key| == |live| && (minKey, minQueue) == Least(live, key, |live|)
    ensures allActive <==> liveCount == |live|
    ensures Quiet(old(c.st)) ==> SweptUpTo(old(c.st), c.st, live, |live|)
    ensures !allActive ==> Stopped(old(c.st), c.st, |live|)
  {
    hide *;
    var n := |c.queues|;
    live, key := seq(n, _ => false), seq(n, _ => 0);
    liveCount, allActive, minKey, minQueue := 0, true, UINT64_MAX, -1;
    AtRest(c);
    ScanStart(c.st, live, key);
    assert live == Nobody(n);
    for i := 0 to n
      invariant c.Valid() && |c.queues| == n == |live| == |key| && Parked(c.st, live, i)
      invariant Scanning(old(c.st), c.st, i, live, key, liveCount, allActive, minKey, minQueue)
      invariant !allActive ==> Stopped(old(c.st), c.st, i)
    {
      ghost var s, l, k, lc, a, mk, mq := c.st, live, key, liveCount, allActive, minKey, minQueue;
      ScanningNext(old(c.st), s, i, live, key, liveCount, allActive, minKey, minQueue);
      ScanningOn(old(c.st), s, i, live, key, liveCount, allActive, minKey, minQueue);
      var ready;
      ghost var w;
      ready, live, key, liveCount, minKey, minQueue, w := ScanOne(c, i, live, key, liveCount, minKey, minQueue);
      ScanStops(old(c.st), s, w, c.st, i, l, a, ready);
      if !ready {
        allActive := false;
      }
      ScanningStep(old(c.st), s, c.st, i, l, k, lc, a, mk, mq, ready, live, key, liveCount, allActive, minKey, minQueue);
    }
    ScanningDone(old(c.st), c.st, live, key, liveCount, allActive, minKey, minQueue);
  }

  lemma AtRest(c: Combine)
    requires Idle(c)
    ensures c.Valid() && Inv(c.st) && |c.queues| == |c.st.queues| > 0 && c.st.parallel == c.parallel
    ensures Parked(c.st, Nobody(|c.queues|), 0)
  {
  }

  lemma InMerge(c: Combine)
    requires c.Valid()
    ensures Inv(c.st) && c.queues == c.st.queues && |c.queues| > 0 && c.st.parallel == c.parallel
  {
  }

  /** After the first `i` queues were looked at. */
  ghost predicate Scanning(s0: State, s: State, i: nat, live: seq<bool>, key: seq<Key>, liveCount: nat, allActive: bool,
                           minKey: Key, minQueue: int) {
    && Scanned(s0, s) && Work(s) <= Work(s0)
    && i <= |live| == |key| == |s.queues|
    && (forall j :: i <= j < |live| ==> !live[j])
    && Table(s, live, key, liveCount)
    && (minKey, minQueue) == Least(live, key, i)
    && liveCount <= i && (allActive <==> liveCount == i)
    && (Quiet(s0) ==> SweptUpTo(s0, s, live, i))
  }

  lemma ScanningNext(s0: State, s: State, i: nat, live: seq<bool>, key: seq<Key>, liveCount: nat, allActive: bool,
                     minKey: Key, minQueue: int)
    requires Scanning(s0, s, i, live, key, liveCount, allActive, minKey, minQueue) && i < |live|
    ensures !live[i] && Table(s, live, key, liveCount) && |live| == |key|
  {
  }

  lemma ScanningStep(s0: State, s: State, s': State, i: nat, live: seq<bool>, key: seq<Key>, liveCount: nat, allActive: bool,
                     minKey: Key, minQueue: int, ready: bool, live': seq<bool>, key': seq<Key>, liveCount': nat,
                     allActive': bool, minKey': Key, minQueue': int)
    requires Scanning(s0, s, i, live, key, liveCount, allActive, minKey, minQueue) && i < |live|
    requires Looking(s, s', i, live) && Table(s', live', key', liveCount')
    requires liveCount' == liveCount + (if ready then 1 else 0) && allActive' == (allActive && ready)
    requires live' == live[i := ready] && |key'| == |key| && key' == key[i := key'[i]]
    requires (minKey', minQueue') == if ready && (i == 0 || minKey > key'[i]) then (key'[i], i) else (minKey, minQueue)
    requires Quiet(s) ==> LookedAt(s, s', i, ready)
    ensures Scanning(s0, s', i + 1, live', key', liveCount', allActive', minKey', minQueue')
  {
    hide Table, Scanned, Work, SweptUpTo, LookedAt, Least, Ready, OnlyTouched, Raised;
    ScannedTransitive(s0, s, s');
    LeastStep(live, key, i, ready, key'[i]);
    if Quiet(s0) {
      SweptQuiet(s0, s, live, i);
      SweptStep(s0, s, s', live, i, ready);
    }
  }

  lemma ScanningOn(s0: State, s: State, i: nat, live: seq<bool>, key: seq<Key>, liveCount: nat, allActive: bool,
                   minKey: Key, minQueue: int)
    requires Scanning(s0, s, i, live, key, liveCount, allActive, minKey, minQueue)
    ensures Continues(s0, s) && s.inputs == s0.inputs && s.parallel == s0.parallel
  {
  }

  /** A look at queue `i` and what came before it. */
  lemma ScanStops(s0: State, s: State, w: State, s': State, i: nat, live: seq<bool>, allActive: bool, ready: bool)
    requires Continues(s0, s) && s.inputs == s0.inputs && s.parallel == s0.parallel && Looking(s, s', i, live)
    requires (!ready ==> StoppedAt(s, w, s', i)) && (!allActive ==> Stopped(s0, s, i))
    ensures !(allActive && ready) ==> Stopped(s0, s', i + 1)
  {
    hide Inv, ReadyHead, Contract, Place, Continues, Merged, OnlyTouched, Ready, Work, Raised, Silent, Returns;
    if !ready {
      ContinuesTransitive(s0, s, w);
      assert StoppedAt(s0, w, s', i);
    } else if !allActive {
      var v, u: nat :| u < i && StoppedAt(s0, v, s, u);
      ContinuesTransitive(v, s, s');
      assert StoppedAt(s0, v, s', u);
    }
  }

  lemma SweptQuiet(s0: State, s: State, live: seq<bool>, n: nat)
    requires SweptUpTo(s0, s, live, n)
    ensures Quiet(s)
  {
  }

  lemma ScanningDone(s0: State, s: State, live: seq<bool>, key: seq<Key>, liveCount: nat, allActive: bool,
                     minKey: Key, minQueue: int)
    requires Scanning(s0, s, |live|, live, key, liveCount, allActive, minKey, minQueue)
    ensures Scanned(s0, s) && Work(s) <= Work(s0) && Table(s, live, key, liveCount)
    ensures |key| == |live| && (minKey, minQueue) == Least(live, key, |live|) && (allActive <==> liveCount == |live|)
    ensures Quiet(s0) ==> SweptUpTo(s0, s, live, |live|)
  {
  }

  /** Search the live queues for the least key again, starting from a candidate. */
  method Rescan(live: seq<bool>, key: seq<Key>, minKey0: Key, minQueue0: int) returns (minKey: Key, minQueue: int)
    requires |live| == |key|
    requires (minQueue0 == -1 && minKey0 == UINT64_MAX) ||
             (0 <= minQueue0 < |live| && live[minQueue0] && key[minQueue0] == minKey0)
    ensures Count(live) > 0 ==> Minimal(live, key, minQueue, minKey)
  {
    minKey, minQueue := minKey0, minQueue0;
    for i := 0 to |live|
      invariant minKey <= minKey0
      invariant minQueue == -1 ==> minQueue0 == -1 && minKey == UINT64_MAX && forall j :: 0 <= j < i ==> !live[j]
      invariant minQueue != -1 ==> 0 <= minQueue < |live| && live[minQueue] && key[minQueue] == minKey
      invariant forall j :: 0 <= j < i && live[j] ==> minKey <= key[j]
    {
      if live[i] && minKey >= key[i] {
        minKey := key[i];
        minQueue := i;
      }
    }
    if minQueue == -1 {
      CountNone(live);
    }
  }

  /** Take the head of queue `m` out and send it to the reporter. */
  method Emit(c: Combine, m: nat, ghost live: seq<bool>) returns (ghost mid: State)
    requires c.Valid() && Ready(c.st, live) && Parked(c.st, live, |live|) && m < |live| && live[m]
    modifies c
    ensures c.Valid() && Grown(old(c.st), mid) && Inv(mid) && Work(mid) == Work(old(c.st)) && mid.queues[m] != []
    ensures c.st == Pop(mid, m, true) && Ready(c.st, live[m := false]) && Parked(c.st, live[m := false], |live|)
  {
    hide Inv, Work, Sent, Parked, LooksPlaced;
    c.Interfere();
    mid := c.st;
    GrownKeepsReady(old(c.st), mid, live);
    EmitKeeps(mid, m, live);
    GrownKeepsParked(old(c.st), mid, live, |live|);
    PlacedLooks(mid);
    EmitKeepsParked(mid, m, live, |live|);
    var r := c.queues[m][0];
    SentAppend(mid.log, Event(m, r, true));
    hide Ready, Grown;
    c.PopFront(m);
    c.sent := c.sent + [r];
    c.st := Pop(mid, m, true);
  }

  /** Bring the table up to date after queue `minQueue` moved on to its next key `peeked`, 0 if it
      has none. */
  method Reseat(live: seq<bool>, key: seq<Key>, liveCount: nat, allActive: bool, minKey: Key, minQueue: int,
                peeked: Key, ghost s: State)
    returns (live': seq<bool>, key': seq<Key>, liveCount': nat, allActive': bool, minKey': Key, minQueue': int)
    requires Minimal(live, key, minQueue, minKey) && liveCount == Count(live)
    requires Ready(s, live[minQueue := false]) && Cached(s, live[minQueue := false], key)
    requires peeked != 0 ==> Ready(s, live) && peeked == s.queues[minQueue][0].key
    ensures Table(s, live', key', liveCount') && (liveCount' > 0 ==> Minimal(live', key', minQueue', minKey'))
    ensures live' == live[minQueue := peeked != 0]
    ensures liveCount' == liveCount - (if peeked != 0 then 0 else 1)
    ensures allActive' == (allActive && peeked != 0)
  {
    live', key', liveCount', allActive', minKey', minQueue' := live, key, liveCount, allActive, minKey, minQueue;
    CountUpdate(live, minQueue, false);
    if peeked != 0 {
      key' := key[minQueue := peeked];
      if key'[minQueue] <= minKey {
        minKey' := key'[minQueue];
      } else {
        minKey' := key'[minQueue];
        minKey', minQueue' := Rescan(live, key', minKey', minQueue);
      }
    } else {
      allActive' := false;
      live' := live[minQueue := false];
      key' := key[minQueue := 0];
      liveCount' := liveCount - 1;
      minKey', minQueue' := Rescan(live', key', UINT64_MAX, -1);
    }
  }

  /** Emit the least head and replace it in the table by the next result of its queue. */
  method MergeStep(c: Combine, live: seq<bool>, key: seq<Key>, liveCount: nat, allActive: bool, minKey: Key, minQueue: int)
    returns (live': seq<bool>, key': seq<Key>, liveCount': nat, allActive': bool, minKey': Key, minQueue': int, ghost mid: State)
    requires c.Valid() && Table(c.st, live, key, liveCount) && Minimal(live, key, minQueue, minKey) && Parked(c.st, live, |live|)
    modifies c
    ensures c.Valid() && Stepped(old(c.st), mid, c.st, minQueue, live') && Parked(c.st, live', |live'|)
    ensures Table(c.st, live', key', liveCount') && (liveCount' > 0 ==> Minimal(live', key', minQueue', minKey'))
    ensures |live'| == |live| && live' == live[minQueue := live'[minQueue]]
    ensures liveCount' == liveCount - (if live'[minQueue] then 0 else 1)
    ensures allActive' == (allActive && live'[minQueue])
  {
    hide Inv, Grown, Looking, Scanned, OnlyTouched, Work, Count, Cached, Parked, Ready, Raised;
    ghost var s, rest := c.st, live[minQueue := false];
    assert rest[minQueue := true] == live;
    mid := Emit(c, minQueue, live);
    ReadyLength(c.st, rest);
    var peeked := NextMessage(c, minQueue, rest);
    StepEffect(s, mid, c.st, minQueue, live, key);
    assert rest[minQueue := peeked != 0] == live[minQueue := peeked != 0];
    live', key', liveCount', allActive', minKey', minQueue' :=
      Reseat(live, key, liveCount, allActive, minKey, minQueue, peeked, c.st);
  }

  /** One pass of the reporter over the queues.  Without `final` it stops as soon as some queue
      has nothing to offer; with it, the live queues are drained, unless the scan has found no queue to
      start with, in which case the code takes from queue -1 and the run ends here. */
  method ReadInternal(c: Combine, final: bool) returns (ok: bool)
    requires Idle(c) && (final ==> Quiet(c.st))
    modifies c
    ensures ok <==> !(final && Fails(FlushOf(old(c.st))))
    ensures c.Valid() && c.st.inputs == old(c.st).inputs && |c.queues| == |old(c.queues)|
    ensures Continues(old(c.st), c.st) && (ok ==> Idle(c))
    ensures Returns(c.st.acts) == Returns(old(c.st).acts) + if final then 0 else 1
    ensures !final && Contract(c.parallel, c.st.inputs) && Orderly(old(c.st)) ==> Orderly(c.st)
    ensures ok && final ==> Quiet(c.st) && (Work(c.st) < Work(old(c.st)) || NoneQueued(c.st))
    ensures ok && final && Contract(c.parallel, c.st.inputs) ==> Flushed(old(c.st), c.st)
    ensures !final ==> Stopped(old(c.st), c.st, |c.queues|)
    ensures !final && Quiet(old(c.st)) ==> PlainRead(old(c.st), c.st)
  {
    hide *;
    ghost var s0 := c.st;
    AtRest(c);
    var live, key, liveCount, allActive, minKey, minQueue := Scan(c);
    ghost var s1, live1 := c.st, live;
    InMerge(c);
    PassStart(s0, s1, live, key, liveCount, minKey, minQueue, final);
    PlainStart(s0, s1, live, key, liveCount);
    ok := !(final && liveCount > 0 && minQueue == -1);
    if !ok {
      return;
    }
    while allActive || (liveCount > 0 && final)
      invariant c.Valid() && c.st.inputs == s0.inputs && |c.queues| == |s0.queues| == |live| > 0
      invariant 0 <= liveCount <= |live| && Table(c.st, live, key, liveCount) && (allActive <==> liveCount == |live|)
      invariant allActive || (liveCount > 0 && final) ==> Minimal(live, key, minQueue, minKey)
      invariant Parked(c.st, live, |live|) && Returns(c.st.acts) == Returns(s0.acts) && Continues(s0, c.st)
      invariant !final && Contract(c.parallel, c.st.inputs) && Orderly(s0) ==> Orderly(c.st)
      invariant final ==> Quiet(c.st) && (Work(c.st) < Work(s0) || liveCount > 0 || NoneQueued(c.st))
      invariant final && Contract(c.parallel, c.st.inputs) ==> PassSoFar(s0, c.st, live1, live)
      invariant !final && !allActive ==> Stopped(s0, c.st, |live|)
      invariant !final && Quiet(s0) ==> if allActive then Quiet(c.st) && AllLive(FlushOf(s0)) else PlainRead(s0, c.st)
      decreases Work(c.st)
    {
      ghost var s, l, m := c.st, live, minQueue;
      ghost var lc, mk, k := liveCount, minKey, key;
      ghost var mid;
      InMerge(c);
      live, key, liveCount, allActive, minKey, minQueue, mid := MergeStep(c, live, key, liveCount, allActive, minKey, minQueue);
      InMerge(c);
      PassStep(s0, s, mid, c.st, live1, l, k, lc, mk, m, live, final);
      TableReady(c.st, live, key, liveCount);
      PlainStep(s0, s, mid, c.st, l, k, lc, mk, m, live);
    }
    InMerge(c);
    PassEnd(s0, c.st, live1, live, key, liveCount, final);
    LeaveRead(c, final, live, s0);
    AtRest(c);
  }

  /** Return from a read; only the record changes. */
  ghost method LeaveRead(c: Combine, final: bool, live: seq<bool>, s0: State)
    requires c.Valid() && Parked(c.st, live, |live|) && |live| == |c.queues|
    requires if final then forall i :: 0 <= i < |live| ==> !live[i] else exists i :: 0 <= i < |live| && !live[i]
    requires Continues(s0, c.st)
    modifies c`st
    ensures Idle(c) && c.st == Return(old(c.st), final) && Continues(s0, c.st)
    ensures c.st.inputs == old(c.st).inputs && Work(c.st) == Work(old(c.st))
    ensures Returns(c.st.acts) == Returns(old(c.st).acts) + if final then 0 else 1
    ensures Orderly(old(c.st)) ==> Orderly(c.st)
    ensures Quiet(old(c.st)) ==> Quiet(c.st)
    ensures NoneQueued(old(c.st)) ==> NoneQueued(c.st)
    ensures Flushed(s0, old(c.st)) ==> Flushed(s0, c.st)
    ensures Stopped(s0, old(c.st), |live|) ==> Stopped(s0, c.st, |live|)
    ensures PlainRead(s0, old(c.st)) ==> PlainRead(s0, c.st)
  {
    hide Inv, Parked, Orderly, Quiet, NoneQueued, Flushed, Work, Sent, Continues, Stopped, PlainRead;
    ReturnKeeps(c.st, final, live);
    ReturnShows(c.st, final, s0);
    ReturnStops(c.st, final, s0, |live|);
    c.st := Return(c.st, final);
  }

  /** Only the record changes. */
  lemma ReturnShows(s: State, final: bool, s0: State)
    requires Inv(s) && Continues(s0, s)
    ensures var s' := Return(s, final);
            && Work(s') == Work(s) && Returns(s'.acts) == Returns(s.acts) + (if final then 0 else 1)
            && (Orderly(s) ==> Orderly(s')) && (Quiet(s) ==> Quiet(s'))
            && (NoneQueued(s) ==> NoneQueued(s')) && (Flushed(s0, s) ==> Flushed(s0, s')) && Continues(s0, s')
  {
    hide Conserved, Deduplicated, OrderSince, Returns, Next, LiveAt, InPlay;
    ReturnsAppend(s.acts, Returned(final, |s.log|));
    if Orderly(s) {
      SameRests(s, Return(s, final));
    }
  }

  lemma ReturnStops(s: State, final: bool, s0: State, n: nat)
    ensures Stopped(s0, s, n) ==> Stopped(s0, Return(s, final), n)
    ensures PlainRead(s0, s) ==> PlainRead(s0, Return(s, final))
  {
    hide Inv, ReadyHead, Contract, Place, Continues, LiveAt, InPlay;
    var s' := Return(s, final);
    assert Continues(s, s') by {
      ReturnContinues(s, final);
    }
    if Stopped(s0, s, n) {
      var w, t: nat :| t < n && StoppedAt(s0, w, s, t);
      ContinuesTransitive(w, s, s');
      assert StoppedAt(s0, w, s', t);
    }
    if OneEmpty(s) {
      var t: nat :| OnlyEmpty(s, t);
      assert OnlyEmpty(s', t);
    }
  }

  lemma ReturnContinues(s: State, final: bool)
    ensures Continues(s, Return(s, final))
  {
  }

  // ----- A plain read while nobody publishes -----

  /** Every queue has something to merge. */
  ghost predicate AllLive(f: Flush) {
    forall t :: 0 <= t < |f.queues| ==> LiveAt(f, t)
  }

  /** Something was merged since `s0`. */
  ghost predicate SentSome(s0: State, s: State) {
    exists j :: |s0.log| <= j < |s.log| && InPlay(s.parallel, s.log[j])
  }

  /** Queue `t` is empty, and no other. */
  ghost predicate OnlyEmpty(s: State, t: nat) {
    t < |s.queues| && s.queues[t] == [] && forall u :: 0 <= u < |s.queues| && u != t ==> s.queues[u] != []
  }

  ghost predicate OneEmpty(s: State) {
    exists t: nat :: OnlyEmpty(s, t)
  }

  /** The scan and nothing else. */
  ghost predicate OnlyScanned(s0: State, s: State) {
    && |s.queues| == |s0.queues| && Silent(s0, s)
    && forall t :: 0 <= t < |s.queues| ==> s.queues[t] == Glance(s0.queues[t], LiveAt(FlushOf(s0), t))
  }

  /** A read while nobody publishes: if every queue has something to merge it sends at least one result
      and goes on until exactly one queue is empty, otherwise it takes no more than a tick from each. */
  ghost predicate PlainRead(s0: State, s: State) {
    && Quiet(s)
    && if AllLive(FlushOf(s0)) then SentSome(s0, s) && (Contract(s0.parallel, s0.inputs) ==> OneEmpty(s))
       else OnlyScanned(s0, s)
  }

  lemma PlainStart(s0: State, s: State, live: seq<bool>, key: seq<Key>, liveCount: nat)
    requires Scanned(s0, s) && Table(s, live, key, liveCount) && (Quiet(s0) ==> SweptUpTo(s0, s, live, |live|))
    ensures Quiet(s0) ==> if liveCount == |live| then Quiet(s) && AllLive(FlushOf(s0)) else PlainRead(s0, s)
  {
    hide Ready, Cached, LiveAt, ScanLast, Merged, Returns, Continues, Contract;
    if Quiet(s0) {
      if liveCount == |live| {
        CountAll(live);
      } else if forall t :: 0 <= t < |live| ==> live[t] {
        CountFull(live);
      }
    }
  }

  lemma PlainStep(s0: State, s: State, mid: State, s': State, live: seq<bool>, key: seq<Key>, liveCount: nat, minKey: Key,
                  m: int, live': seq<bool>)
    requires Inv(s) && Inv(s') && Table(s, live, key, liveCount) && Minimal(live, key, m, minKey)
    requires Stepped(s, mid, s', m, live') && Ready(s', live') && |live'| == |live| && live' == live[m := live'[m]]
    requires Continues(s0, s) && s.inputs == s0.inputs && s.parallel == s0.parallel
    ensures Quiet(s) ==> Quiet(s')
    ensures !live'[m] ==> Stopped(s0, s', |live'|)
    ensures Quiet(s) && AllLive(FlushOf(s0)) && !live'[m] && liveCount == |live| ==> PlainRead(s0, s')
  {
    hide Inv, Contract, Work, Raised, LiveAt, Scanned, Ready, OnlyTouched, Grown, Continues, StoppedAt, SentSome, Quiet;
    SteppedOn(s, mid, s', m, live');
    ContinuesTransitive(s0, s, s');
    StepSends(s0, s, mid, s', live, m, live');
    if !live'[m] {
      if Contract(s.parallel, s.inputs) {
        DroppedIsEmpty(s, mid, s', live, m, live');
      }
      DropStops(s0, s', m);
      if liveCount == |live| {
        CountAll(live);
        OthersHaveMore(s', live', m);
      }
    }
  }

  lemma OthersHaveMore(s: State, live: seq<bool>, m: nat)
    requires Ready(s, live) && m < |live| && forall u :: 0 <= u < |live| && u != m ==> live[u]
    ensures s.queues[m] == [] ==> OnlyEmpty(s, m)
  {
    hide Waiting;
  }

  lemma DropStops(s0: State, s: State, m: nat)
    requires Inv(s) && Continues(s0, s) && s.inputs == s0.inputs && s.parallel == s0.parallel && m < |s.queues|
    requires s.queues[m] == [] || (s.queues[m][0].kind.Data? && s.queues[m][0].key == 0 && !Contract(s.parallel, s.inputs))
    ensures StoppedAt(s0, s, s, m)
  {
    hide Inv, Contract, Place;
    ContinuesSelf(s);
  }

  /** A step sends the head of its queue. */
  lemma StepSends(s0: State, s: State, mid: State, s': State, live: seq<bool>, m: int, live': seq<bool>)
    requires Ready(s, live) && Stepped(s, mid, s', m, live') && |live'| == |live| && live[m] && Continues(s0, s)
    ensures SentSome(s0, s')
  {
    hide Inv, Work, Raised, Merged, Returns, Waiting, OnlyTouched, Silent;
    GrownKeepsReady(s, mid, live);
    var j, popped := |s.log|, Pop(mid, m, true);
    assert popped.log[j] == Event(m, mid.queues[m][0], true);
    assert s'.log[j] == popped.log[j];
  }

  lemma SameRests(s: State, s': State)
    requires Orderly(s) && s'.queues == s.queues && s'.pending == s.pending && s'.inputs == s.inputs
    requires s'.log == s.log && s'.parallel == s.parallel
    ensures Orderly(s')
  {
    hide InPlay, AtLeast;
    assert forall t :: 0 <= t < |s.queues| ==> Rest(s', t) == Rest(s, t);
  }

  /** What the reporter does while the threads are running. */
  method Read(c: Combine)
    requires Idle(c)
    modifies c
    ensures Idle(c) && c.st.inputs == old(c.st).inputs && Returns(c.st.acts) == Returns(old(c.st).acts) + 1
    ensures Continues(old(c.st), c.st) && Stopped(old(c.st), c.st, |c.queues|)
    ensures Quiet(old(c.st)) ==> PlainRead(old(c.st), c.st)
    ensures Contract(c.parallel, c.st.inputs) && Orderly(old(c.st)) ==> Orderly(c.st)
  {
    var ok := ReadInternal(c, false);
  }

  /** What the reporter does once all threads have finished: empty every queue.  Under the ordering
      contract a pass fails to find a queue exactly if `FlushFails`, and the flush leaves the output in
      order exactly when the passes that the queues sit out are in step with the keys in them. */
  method ReadFinal(c: Combine) returns (ok: bool)
    requires Idle(c) && Quiet(c.st)
    modifies c
    ensures c.Valid() && c.st.inputs == old(c.st).inputs && Continues(old(c.st), c.st)
    ensures ok ==> Idle(c) && Quiet(c.st) && NoneQueued(c.st)
    ensures Returns(c.st.acts) == Returns(old(c.st).acts)
    ensures KeysBelowMax(c.parallel, c.st.inputs) ==> ok
    ensures Contract(c.parallel, c.st.inputs) && Orderly(old(c.st)) ==> (ok <==> !FlushFails(FlushOf(old(c.st))))
    ensures ok && Contract(c.parallel, c.st.inputs) && Orderly(old(c.st)) ==> FlushOutcome(old(c.st), c.st)
  {
    hide *;
    ghost var s0, p := c.st, 0;
    ghost var lawful := Contract(c.parallel, c.st.inputs) && Orderly(c.st);
    AtRest(c);
    ContinuesSelf(s0);
    if lawful {
      FlushStart(s0);
    }
    var empty, n := 0, |c.queues|;
    ok := true;
    while empty < n
      invariant ok && Idle(c) && Quiet(c.st) && c.st.inputs == s0.inputs && |c.queues| == n && Continues(s0, c.st)
      invariant empty <= n && (empty == n ==> NoneQueued(c.st)) && Returns(c.st.acts) == Returns(s0.acts)
      invariant lawful ==> FlushState(s0, c.st, p) && forall q: nat :: q < p ==> !Fails(After(FlushOf(s0), q))
      decreases Work(c.st), n - empty
    {
      ghost var s := c.st;
      ok, empty := FlushRound(c, s0, p, lawful);
      ContinuesTransitive(s0, s, c.st);
      if !ok {
        return;
      }
      p := p + 1;
    }
    if lawful {
      FlushShows(s0, c.st, p);
      FlushedEmpty(s0, c.st, p);
    }
    AtRest(c);
  }

  /** What the flush makes of the order. */
  ghost predicate FlushOutcome(s0: State, s: State) {
    var w := Waits(FlushOf(s0));
    && (Sorted(DataOf(Sent(s.log))) <==> InStep(s0.queues, w))
    && (Sorted(Merged(s)) <==> SentInStep(s.parallel, s.log, |s0.log|, w))
    && (s.parallel ==> (Sorted(Merged(s)) <==> LeadsInOrder(s0.queues)))
  }

  lemma FlushShows(s0: State, s: State, p: nat)
    requires FlushState(s0, s, p) && Quiet(s) && NoneQueued(s)
    ensures FlushOutcome(s0, s)
  {
    hide FlushState, Quiet, NoneQueued, Waits, InStep, SentInStep, LeadsInOrder, Sorted, Merged, DataOf, Sent, FlushOf;
    FlushDone(s0, s, p);
  }

  lemma FlushedEmpty(s0: State, s: State, p: nat)
    requires FlushState(s0, s, p) && NoneQueued(s) && forall q: nat :: q < p ==> !Fails(After(FlushOf(s0), q))
    ensures !FlushFails(FlushOf(s0))
  {
    hide Inv, Orderly, Quiet, Continues, Stages, Fails, After;
    NeverFails(FlushOf(s0), p);
  }

  /** A failing pass has nothing but keys UINT64_MAX to merge. */
  lemma FailsAtMax(s: State)
    requires Inv(s) && Fails(FlushOf(s))
    ensures !KeysBelowMax(s.parallel, s.inputs)
  {
    hide Conserved, Deduplicated, ScanLast;
    var t :| 0 <= t < |s.queues| && LiveAt(FlushOf(s), t);
    if KeysBelowMax(s.parallel, s.inputs) {
      HeadBelowMax(s, t);
    }
  }

  /** One pass of the flush, and a count of the queues it left empty. */
  method FlushRound(c: Combine, ghost s0: State, ghost p: nat, ghost lawful: bool) returns (ok: bool, empty: nat)
    requires Idle(c) && Quiet(c.st)
    requires lawful ==> Contract(c.parallel, c.st.inputs) && FlushState(s0, c.st, p)
    modifies c
    ensures c.Valid() && c.st.inputs == old(c.st).inputs && Continues(old(c.st), c.st)
    ensures Returns(c.st.acts) == Returns(old(c.st).acts)
    ensures KeysBelowMax(c.parallel, c.st.inputs) ==> ok
    ensures lawful ==> (ok <==> !Fails(After(FlushOf(s0), p)))
    ensures !ok && lawful ==> FlushFails(FlushOf(s0))
    ensures ok ==> Idle(c) && Quiet(c.st) && |c.queues| == |old(c.queues)|
    ensures ok ==> empty <= |c.queues| && (empty == |c.queues| ==> NoneQueued(c.st))
    ensures ok ==> Work(c.st) < Work(old(c.st)) || (Work(c.st) == 0 && empty == |c.queues|)
    ensures ok && lawful ==> FlushState(s0, c.st, p + 1)
  {
    hide *;
    ghost var s := c.st;
    AtRest(c);
    if lawful {
      FlushStands(s0, s, p);
    }
    if Fails(FlushOf(s)) {
      FailsAtMax(s);
    }
    ok := ReadInternal(c, true);
    empty := 0;
    if !ok {
      return;
    }
    AtRest(c);
    if lawful {
      FlushPass(s0, s, c.st, p);
    }
    empty := CountEmpty(c);
    if NoneQueued(c.st) {
      IdleWork(c.st);
    }
  }

  method CountEmpty(c: Combine) returns (empty: nat)
    requires c.Valid()
    ensures empty <= |c.queues| && (empty == |c.queues| <==> NoneQueued(c.st))
  {
    empty := 0;
    for i := 0 to |c.queues|
      invariant empty <= i && (empty == i <==> forall t :: 0 <= t < i ==> c.queues[t] == [])
    {
      if c.queues[i] == [] {
        empty := empty + 1;
      }
    }
  }

  /** In the middle of a draining pass: `live1` were live at its start, `live` are now. */
  ghost predicate PassSoFar(s0: State, s: State, live1: seq<bool>, live: seq<bool>) {
    && Shape(s) && Continues(s0, s) && s.parallel == s0.parallel
    && OrderSince(s, |s0.log|, live)
    && FromLive(s0, s, live1)
    && DrainedQueues(s0, s, live1, live)
  }

  /** What was merged since `s0` is from queues that were live at its start. */
  ghost predicate FromLive(s0: State, s: State, live1: seq<bool>) {
    forall j :: |s0.log| <= j < |s.log| && InPlay(s.parallel, s.log[j]) ==>
      s.log[j].thread < |live1| && live1[s.log[j].thread]
  }

  ghost predicate DrainedQueues(s0: State, s: State, live1: seq<bool>, live: seq<bool>) {
    && live1 == LiveIn(FlushOf(s0))
    && |s.queues| == |s0.queues| == |live1| == |live|
    && (forall t :: 0 <= t < |live| && live[t] ==> live1[t])
    && (forall t :: 0 <= t < |live| && !live[t] ==> s.queues[t] == Drained(s0.queues[t], live1[t]))
    && Max(s.lastCount, Tops(s.queues, live)) == Next(FlushOf(s0)).last
  }

  lemma PassStart(s0: State, s: State, live: seq<bool>, key: seq<Key>, liveCount: nat, minKey: Key, minQueue: int, final: bool)
    requires Inv(s0) && Inv(s) && Scanned(s0, s) && Table(s, live, key, liveCount) && Work(s) <= Work(s0)
    requires |key| == |live| && (minKey, minQueue) == Least(live, key, |live|)
    requires final ==> Quiet(s0) && SweptUpTo(s0, s, live, |live|)
    ensures |live| == |s0.queues| && s.inputs == s0.inputs && Returns(s.acts) == Returns(s0.acts) && Continues(s0, s)
    ensures liveCount <= |live|
    ensures Orderly(s0) ==> Orderly(s)
    ensures liveCount == |live| || (liveCount > 0 && minQueue != -1) ==> Minimal(live, key, minQueue, minKey)
    ensures final ==> (liveCount > 0 && minQueue == -1 <==> Fails(FlushOf(s0)))
    ensures final ==> PassSoFar(s0, s, live, live)
    ensures final ==> Quiet(s) && (Work(s) < Work(s0) || liveCount > 0 || NoneQueued(s))
  {
    hide Conserved, Deduplicated, Work, OrderSince, Least, Merged, Returns;
    if Orderly(s0) {
      ScannedKeepsOrder(s0, s, 0, All(|s0.queues|));
    }
    LeastFound(s, live, key, liveCount, minKey, minQueue);
    CountAtMost(live);
    if final {
      FailsExactly(s0, s, live, key, liveCount, minKey, minQueue);
      PassBegins(s0, s, live);
      ScanProgress(s0, s, live);
    }
  }

  lemma LeastFound(s: State, live: seq<bool>, key: seq<Key>, liveCount: nat, minKey: Key, minQueue: int)
    requires Shape(s) && Table(s, live, key, liveCount) && |key| == |live| && (minKey, minQueue) == Least(live, key, |live|)
    ensures liveCount == |live| || (liveCount > 0 && minQueue != -1) ==> Minimal(live, key, minQueue, minKey)
  {
    hide Ready, Cached, Least, Count;
    LeastExactly(live, key, |live|);
    if liveCount == |live| {
      ReadyLength(s, live);
      CountAll(live);
    }
  }

  /** The scan of a quiet state finds no queue for what there is to merge exactly if the pass fails. */
  lemma FailsExactly(s0: State, s: State, live: seq<bool>, key: seq<Key>, liveCount: nat, minKey: Key, minQueue: int)
    requires SweptUpTo(s0, s, live, |live|) && Table(s, live, key, liveCount)
    requires |live| > 0 && |key| == |live| && (minKey, minQueue) == Least(live, key, |live|)
    ensures liveCount > 0 && minQueue == -1 <==> Fails(FlushOf(s0))
  {
    hide Ready, Least, Count, LiveAt, ScanLast, Quiet;
    LeastExactly(live, key, |live|);
    if liveCount > 0 {
      assert exists t :: 0 <= t < |live| && live[t] by {
        if forall t :: 0 <= t < |live| ==> !live[t] {
          CountNone(live);
        }
      }
    }
    if t :| 0 <= t < |live| && live[t] {
      CountSome(live, t);
    }
    forall t | 0 <= t < |live| && live[t] ensures key[t] == s0.queues[t][0].key && s0.queues[t] != [] {
      assert s.queues[t] == Glance(s0.queues[t], live[t]);
    }
  }

  lemma PassBegins(s0: State, s: State, live: seq<bool>)
    requires Shape(s0) && Shape(s) && Scanned(s0, s) && SweptUpTo(s0, s, live, |live|)
    ensures PassSoFar(s0, s, live, live)
  {
    hide Merged, LiveAt, ScanLast, Quiet;
    assert live == LiveIn(FlushOf(s0));
    forall t | 0 <= t < |live| && live[t] ensures s.queues[t] == s0.queues[t] {
      assert s.queues[t] == Glance(s0.queues[t], live[t]);
    }
    TopsElsewhere(s0.queues, s.queues, live);
  }

  lemma ScanProgress(s0: State, s: State, live: seq<bool>)
    requires Shape(s0) && Shape(s) && Quiet(s0) && SweptUpTo(s0, s, live, |live|) && Work(s) <= Work(s0)
    ensures Work(s) < Work(s0) || Count(live) > 0 || NoneQueued(s)
  {
    hide LiveAt, ScanLast;
    AllEmpty(s0.pending);
    AllEmpty(s.pending);
    if Count(live) == 0 && !NoneQueued(s) {
      var t :| 0 <= t < |s.queues| && s.queues[t] != [];
      if live[t] {
        CountSome(live, t);
      }
      SweptShrinks(s0.queues, s.queues, live, t);
    }
  }

  lemma SweptShrinks(qs: seq<seq<Result>>, qs': seq<seq<Result>>, live: seq<bool>, t: nat)
    requires |qs| == |qs'| == |live| && t < |qs| && qs'[t] != [] && !live[t]
    requires forall u :: 0 <= u < |qs| ==> qs'[u] == Glance(qs[u], live[u])
    ensures TotalLength(qs') < TotalLength(qs)
  {
    if t == 0 {
      SweptNoLonger(qs[1..], qs'[1..], live[1..]);
    } else {
      SweptShrinks(qs[1..], qs'[1..], live[1..], t - 1);
    }
  }

  lemma SweptNoLonger(qs: seq<seq<Result>>, qs': seq<seq<Result>>, live: seq<bool>)
    requires |qs| == |qs'| == |live|
    requires forall u :: 0 <= u < |qs| ==> qs'[u] == Glance(qs[u], live[u])
    ensures TotalLength(qs') <= TotalLength(qs)
  {
    if qs != [] {
      SweptNoLonger(qs[1..], qs'[1..], live[1..]);
    }
  }

  /** The heart of the merge: emitting the least cached head keeps the output in order. */
  lemma StepKeepsOrder(s: State, mid: State, s': State, live: seq<bool>, key: seq<Key>, minKey: Key, m: int, live': seq<bool>,
                       base: nat, who: seq<bool>)
    requires Inv(s) && Ready(s, live) && Cached(s, live, key) && Minimal(live, key, m, minKey) && Stepped(s, mid, s', m, live')
    requires Contract(s.parallel, s.inputs) && OrderSince(s, base, who)
    requires who[m] && forall u :: 0 <= u < |who| && who[u] ==> live[u]
    ensures OrderSince(s', base, who)
  {
    hide Inv, Contract, OrderSince, Work, OnlyTouched, Raised, Waiting, Scanned, AtLeast;
    GrownIsScanned(s, mid);
    ScannedKeepsOrder(s, mid, base, who);
    GrownKeepsReady(s, mid, live);
    OrderLength(s, base, who);
    LeastOfAll(s, mid, live, key, minKey, m, who);
    Settled(mid);
    EmitKeepsOrder(mid, m, base, who);
    ScannedKeepsOrder(Pop(mid, m, true), s', base, who);
  }

  lemma OrderLength(s: State, base: nat, who: seq<bool>)
    requires Shape(s) && OrderSince(s, base, who)
    ensures |who| == |s.queues|
  {
  }

  /** No live thread has anything below the least cached head. */
  lemma LeastOfAll(s: State, mid: State, live: seq<bool>, key: seq<Key>, minKey: Key, m: int, who: seq<bool>)
    requires Inv(mid) && Grown(s, mid) && Ready(s, live) && Cached(s, live, key) && Minimal(live, key, m, minKey)
    requires Contract(s.parallel, s.inputs) && |who| == |live| && forall u :: 0 <= u < |who| && who[u] ==> live[u]
    ensures mid.queues[m] != []
    ensures forall u :: 0 <= u < |who| && who[u] ==> AtLeast(mid.parallel, Rest(mid, u), mid.queues[m][0].key)
  {
    hide Inv, Contract, Waiting, AtLeast;
    GrownKeepsReady(s, mid, live);
    forall u | 0 <= u < |who| && who[u] ensures AtLeast(mid.parallel, Rest(mid, u), mid.queues[m][0].key) {
      HeadIsLeast(mid, u);
      LowerBound(mid.parallel, Rest(mid, u), mid.queues[u][0].key, mid.queues[m][0].key);
    }
  }

  lemma LowerBound(parallel: bool, rs: seq<Result>, k: nat, k': nat)
    requires AtLeast(parallel, rs, k) && k' <= k
    ensures AtLeast(parallel, rs, k')
  {
  }

  /** Under the contract a queue that drops out of the table is empty. */
  lemma DroppedIsEmpty(s: State, mid: State, s': State, live: seq<bool>, m: int, live': seq<bool>)
    requires Inv(s) && Ready(s, live) && Stepped(s, mid, s', m, live') && |live| == |live'| && live[m] && !live'[m]
    requires Contract(s.parallel, s.inputs)
    ensures s'.queues[m] == []
  {
    hide Inv, Contract, Work, OnlyTouched, Waiting, Raised;
    GrownKeepsReady(s, mid, live);
    HeadIsLeast(mid, m);
    PopRest(mid, m, true, m);
    AboveHead(mid, s', m);
  }

  /** What is left behind a head is above it, and above 0. */
  lemma AboveHead(mid: State, s': State, m: nat)
    requires Shape(mid) && m < |mid.queues| && mid.queues[m] != [] && Scanned(Pop(mid, m, true), s')
    requires Rest(Pop(mid, m, true), m) == Rest(mid, m)[1..]
    requires forall j :: 0 < j < |Rest(mid, m)| && InOrder(mid.parallel, Rest(mid, m)[j]) ==>
               mid.queues[m][0].key < Rest(mid, m)[j].key
    ensures s'.queues[m] != [] && InOrder(s'.parallel, s'.queues[m][0]) ==> s'.queues[m][0].key > 0
  {
    hide Merged, Continues, Silent;
    var popped := Pop(mid, m, true);
    assert Suffix(Rest(s', m), Rest(popped, m));
    var d := |Rest(popped, m)| - |Rest(s', m)|;
    if s'.queues[m] != [] {
      assert s'.queues[m][0] == Rest(s', m)[0] == Rest(popped, m)[d] == Rest(mid, m)[d + 1];
    }
  }

  lemma PassStep(s0: State, s: State, mid: State, s': State, live1: seq<bool>, live: seq<bool>, key: seq<Key>, liveCount: nat,
                 minKey: Key, m: int, live': seq<bool>, final: bool)
    requires Inv(s0) && Inv(s) && Inv(s') && s.inputs == s0.inputs && Continues(s0, s)
    requires Table(s, live, key, liveCount) && Minimal(live, key, m, minKey)
    requires Stepped(s, mid, s', m, live') && |live'| == |live| && live' == live[m := live'[m]]
    requires final || liveCount == |live|
    ensures s'.inputs == s.inputs && |s'.queues| == |s.queues| && Work(s') < Work(s)
    ensures Returns(s'.acts) == Returns(s.acts) && Continues(s0, s')
    ensures !final && Contract(s.parallel, s.inputs) && Orderly(s) ==> Orderly(s')
    ensures final && Quiet(s) ==> Quiet(s')
    ensures final && Quiet(s) && Contract(s.parallel, s.inputs) && PassSoFar(s0, s, live1, live) ==>
              PassSoFar(s0, s', live1, live')
  {
    hide Inv, Contract, Ready, Cached, Minimal, PassSoFar, OrderSince, Raised, Work;
    SteppedOn(s, mid, s', m, live');
    ContinuesTransitive(s0, s, s');
    if !final && Contract(s.parallel, s.inputs) && Orderly(s) {
      LiveEverywhere(s, live, key, liveCount, m, minKey);
      StepKeepsOrder(s, mid, s', live, key, minKey, m, live', 0, All(|s.queues|));
    }
    if final && Quiet(s) && Contract(s.parallel, s.inputs) && PassSoFar(s0, s, live1, live) {
      DrainStep(s0, s, mid, s', live1, live, key, minKey, m, live');
    }
  }

  lemma LiveEverywhere(s: State, live: seq<bool>, key: seq<Key>, liveCount: nat, m: int, minKey: Key)
    requires Table(s, live, key, liveCount) && liveCount == |live| && Minimal(live, key, m, minKey)
    ensures |live| == |s.queues| && 0 <= m < |live| && forall i :: 0 <= i < |live| ==> live[i]
  {
    CountAll(live);
  }

  lemma SteppedOn(s: State, mid: State, s': State, m: int, live': seq<bool>)
    requires Stepped(s, mid, s', m, live')
    ensures s'.inputs == s.inputs && |s'.queues| == |s.queues| && Work(s') < Work(s) && s'.parallel == s.parallel
    ensures Returns(s'.acts) == Returns(s.acts) && Continues(s, s') && Shape(s')
    ensures Quiet(s) ==> Quiet(s')
  {
    hide Inv, Work, Merged, Raised, Returns;
    var popped := Pop(mid, m, true);
    GrownIsScanned(s, mid);
    assert Continues(s, popped);
    ContinuesTransitive(s, popped, s');
  }

  lemma DrainStep(s0: State, s: State, mid: State, s': State, live1: seq<bool>, live: seq<bool>, key: seq<Key>,
                  minKey: Key, m: int, live': seq<bool>)
    requires Inv(s) && Inv(s') && Contract(s.parallel, s.inputs) && PassSoFar(s0, s, live1, live)
    requires Ready(s, live) && Cached(s, live, key) && Minimal(live, key, m, minKey)
    requires Stepped(s, mid, s', m, live') && |live'| == |live| && live' == live[m := live'[m]]
    requires Quiet(s)
    ensures PassSoFar(s0, s', live1, live')
  {
    hide Inv, Contract, Ready, Cached, OrderSince, Stepped, DrainedQueues, FromLive, Continues, Quiet;
    SteppedOn(s, mid, s', m, live');
    ContinuesTransitive(s0, s, s');
    DrainOrder(s0, s, mid, s', live, key, minKey, m, live');
    DrainQueue(s0, s, mid, s', live1, live, m, live');
    DrainLive(s0, s, mid, s', live1, live, m, live');
  }

  lemma DrainOrder(s0: State, s: State, mid: State, s': State, live: seq<bool>, key: seq<Key>, minKey: Key, m: int,
                   live': seq<bool>)
    requires Inv(s) && Shape(s') && Contract(s.parallel, s.inputs) && Shape(s) && OrderSince(s, |s0.log|, live)
    requires Ready(s, live) && Cached(s, live, key) && Minimal(live, key, m, minKey)
    requires Stepped(s, mid, s', m, live') && |live'| == |live| && live' == live[m := live'[m]]
    ensures OrderSince(s', |s0.log|, live')
  {
    StepKeepsOrder(s, mid, s', live, key, minKey, m, live', |s0.log|, live);
    FewerLive(s', |s0.log|, live, live');
  }

  lemma FewerLive(s: State, base: nat, live: seq<bool>, live': seq<bool>)
    requires Shape(s) && OrderSince(s, base, live) && |live'| == |live| && forall t :: 0 <= t < |live| && live'[t] ==> live[t]
    ensures OrderSince(s, base, live')
  {
    hide InPlay, AtLeast;
  }

  lemma DrainQueue(s0: State, s: State, mid: State, s': State, live1: seq<bool>, live: seq<bool>, m: int, live': seq<bool>)
    requires Inv(s) && Contract(s.parallel, s.inputs) && Ready(s, live) && DrainedQueues(s0, s, live1, live) && Quiet(s)
    requires Stepped(s, mid, s', m, live') && |live'| == |live| && live' == live[m := live'[m]] && live[m]
    ensures DrainedQueues(s0, s', live1, live')
  {
    hide Inv, Contract, Ready, DrainedQueues, Scanned, Work, Grown;
    if !live'[m] {
      DroppedIsEmpty(s, mid, s', live, m, live');
    }
    DrainQueues(s0, s, s', live1, live, m, live');
  }

  /** A step drains only the queue it takes from. */
  lemma DrainQueues(s0: State, s: State, s': State, live1: seq<bool>, live: seq<bool>, m: int, live': seq<bool>)
    requires Quiet(s) && DrainedQueues(s0, s, live1, live) && 0 <= m < |live| == |live'| && OnlyTouched(s, s', m)
    requires live[m] && live' == live[m := live'[m]] && (!live'[m] ==> s'.queues[m] == []) && Raised(s, s', m)
    ensures DrainedQueues(s0, s', live1, live')
  {
    hide Next, LiveAt;
    assert Rest(s, m) == s.queues[m] && Rest(s', m) == s'.queues[m];
    TopsStep(s.queues, s'.queues, s.lastCount, s'.lastCount, live, m, live'[m]);
  }

  lemma DrainLive(s0: State, s: State, mid: State, s': State, live1: seq<bool>, live: seq<bool>, m: int, live': seq<bool>)
    requires FromLive(s0, s, live1) && Stepped(s, mid, s', m, live') && DrainedQueues(s0, s, live1, live)
    requires |live'| == |live| && live[m]
    ensures FromLive(s0, s', live1)
  {
    hide Inv, Work, OnlyTouched, Raised, Merged, InPlay, Next, LiveAt;
    assert mid.log == s.log && s.log <= s'.log;
    forall j | |s0.log| <= j < |s'.log| && InPlay(s'.parallel, s'.log[j])
      ensures s'.log[j].thread < |live1| && live1[s'.log[j].thread]
    {
      if j < |s.log| {
        assert s'.log[j] == s.log[j];
      } else if j == |s.log| {
        assert s'.log[j] == Pop(mid, m, true).log[j];
      }
    }
  }

  lemma CountAll(live: seq<bool>)
    requires Count(live) == |live|
    ensures forall i :: 0 <= i < |live| ==> live[i]
  {
    CountAtMost(live);
    if live != [] {
      CountAtMost(live[1..]);
      CountAll(live[1..]);
    }
  }

  lemma CountAtMost(live: seq<bool>)
    ensures Count(live) <= |live|
  {
  }

  lemma PassEnd(s0: State, s: State, live1: seq<bool>, live: seq<bool>, key: seq<Key>, liveCount: nat, final: bool)
    requires Inv(s) && Table(s, live, key, liveCount) && (if final then liveCount == 0 else liveCount < |live|)
    ensures final && PassSoFar(s0, s, live1, live) ==> Flushed(s0, s)
    ensures if final then forall i :: 0 <= i < |live| ==> !live[i] else exists i :: 0 <= i < |live| && !live[i]
  {
    hide Conserved, Deduplicated, Ready, Cached, PassSoFar;
    if final {
      forall t | 0 <= t < |live| ensures !live[t] {
        if live[t] {
          CountSome(live, t);
        }
      }
      if PassSoFar(s0, s, live1, live) {
        PassFlushes(s0, s, live1, live);
      }
    } else if forall i :: 0 <= i < |live| ==> live[i] {
      CountFull(live);
    }
  }

  lemma PassFlushes(s0: State, s: State, live1: seq<bool>, live: seq<bool>)
    requires PassSoFar(s0, s, live1, live) && forall t :: 0 <= t < |live| ==> !live[t]
    ensures Flushed(s0, s)
  {
    hide LiveAt, InPlay, AtLeast, ScanLast, Tops, Drained;
    NoTops(s.queues, live);
    assert s.queues == Next(FlushOf(s0)).queues;
  }

  lemma {:induction false} CountFull(live: seq<bool>)
    requires forall i :: 0 <= i < |live| ==> live[i]
    ensures Count(live) == |live|
  {
    if live != [] {
      CountFull(live[1..]);
    }
  }

  /** Everything but queue `m` is in the table as before. */
  lemma StepEffect(s: State, mid: State, s': State, m: nat, live: seq<bool>, key: seq<Key>)
    requires Inv(s) && Grown(s, mid) && Inv(mid) && Work(mid) == Work(s) && m < |live| && live[m]
    requires Ready(s, live) && Cached(s, live, key) && mid.queues[m] != []
    requires Looking(Pop(mid, m, true), s', m, live[m := false])
    ensures Cached(s', live[m := false], key) && Ready(s', live[m := false])
    ensures |live| == |mid.queues| == |s'.queues|
    ensures Scanned(Pop(mid, m, true), s') && Work(s') < Work(s) && OnlyTouched(s, s', m) && Raised(s, s', m)
  {
    hide Inv, Scanned, OnlyTouched, Work, Raised, Waiting;
    PopWork(mid, m, true);
    GrownKeepsReady(s, mid, live);
    StepTouches(s, mid, s', m);
    StepRaises(s, mid, s', m, live);
  }

  /** A head that waits has been looked at. */
  lemma WaitingLooked(s: State, t: nat)
    requires Inv(s) && !s.parallel && t < |s.queues| && s.queues[t] != [] && Waiting(s, t, s.queues[t][0].key)
    ensures s.queues[t][0].key <= s.lastCount
  {
    hide Place, Conserved, CountExact, CountLooked, LooksPlaced, Timed, LeavesForCause, DataKept, RunningMaximum, MaxLook;
    var h :| FreshLook(s.acts, h, t, Place(s.log, t), s.queues[t][0].key) && NoReturnSince(s.acts, h);
    MaxLookCovers(s.acts, h);
  }

  lemma StepRaises(s: State, mid: State, s': State, m: nat, live: seq<bool>)
    requires Inv(mid) && Grown(s, mid) && Ready(s, live) && m < |live| && live[m] && mid.queues[m] != []
    requires Raised(Pop(mid, m, true), s', m)
    ensures Raised(s, s', m)
  {
    hide Inv, Waiting, Top;
    Settled(mid);
    GrownKeepsReady(s, mid, live);
    if mid.queues[m][0].kind.TickCount? {
      WaitingLooked(mid, m);
    }
    PopCeiling(mid, m, true);
    assert Rest(mid, m) == Rest(s, m);
  }

  lemma StepTouches(s: State, mid: State, s': State, m: nat)
    requires Grown(s, mid) && m < |s.queues| && mid.queues[m] != [] && OnlyTouched(Pop(mid, m, true), s', m)
    ensures OnlyTouched(s, s', m)
  {
    if Quiet(s) {
      QuietStays(s, mid);
    }
    forall u | 0 <= u < |s.queues| && u != m ensures s.queues[u] <= s'.queues[u] {
      assert s.queues[u] <= mid.queues[u] <= s'.queues[u];
    }
  }

  /** Publishing continues a look at queue `t`. */
  lemma Follow(s0: State, s: State, s': State, t: nat, live: seq<bool>)
    requires Looking(s0, s, t, live) && Grown(s, s') && Work(s') == Work(s)
    ensures Looking(s0, s', t, live)
  {
    hide Scanned, OnlyTouched, Ready, Work, Raised, OthersKept, Grown;
    GrownIsScanned(s, s');
    ScannedTransitive(s0, s, s');
    GrownKeepsReady(s, s', live);
    ReadyLength(s', live);
    FollowTouches(s0, s, s', t);
    FollowRaises(s0, s, s', t);
  }

  lemma FollowTouches(s0: State, s: State, s': State, t: nat)
    requires OnlyTouched(s0, s, t) && Grown(s, s')
    ensures OnlyTouched(s0, s', t)
  {
    hide Rest;
    if Quiet(s) {
      QuietStays(s, s');
    }
    forall u | 0 <= u < |s0.queues| && u != t ensures s0.queues[u] <= s'.queues[u] {
      assert s0.queues[u] <= s.queues[u] <= s'.queues[u];
    }
  }

  lemma FollowRaises(s0: State, s: State, s': State, t: nat)
    requires Raised(s0, s, t) && OthersKept(s0, s, t) && Grown(s, s')
    ensures Raised(s0, s', t) && OthersKept(s0, s', t)
  {
    hide Top, Place;
    assert Rest(s', t) == Rest(s, t);
  }

  lemma LookingTransitive(a: State, b: State, c: State, t: nat, live: seq<bool>)
    requires Looking(a, b, t, live) && Looking(b, c, t, live)
    ensures Looking(a, c, t, live)
  {
    ScannedTransitive(a, b, c);
    hide Scanned, Ready;
    forall u | 0 <= u < |a.queues| && u != t ensures a.queues[u] <= c.queues[u] {
      assert a.queues[u] <= b.queues[u] <= c.queues[u];
    }
  }

  lemma PeekWork(s: State, t: nat)
    requires t < |s.queues| && s.queues[t] != []
    ensures Work(Peek(s, t).s) == Work(s) - (if Peek(s, t).ready then 0 else 1)
  {
    PeekEffect(s, t);
    TotalLengthUpdate(s.queues, t, s.queues[t][1..]);
  }

  lemma PeekTouches(s0: State, s: State, t: nat)
    requires OnlyTouched(s0, s, t) && t < |s.queues| && s.queues[t] != []
    ensures OnlyTouched(s0, Peek(s, t).s, t)
  {
    PeekEffect(s, t);
    var s' := Peek(s, t).s;
    hide *;
    assert forall u :: 0 <= u < |s.queues| && u != t ==> s'.queues[u] == s.queues[u];
    TouchedAgain(s0, s, s', t);
  }

  lemma TouchedAgain(s0: State, s: State, s': State, t: nat)
    requires OnlyTouched(s0, s, t) && s'.pending == s.pending && |s'.queues| == |s.queues|
    requires forall u :: 0 <= u < |s.queues| && u != t ==> s'.queues[u] == s.queues[u]
    ensures OnlyTouched(s0, s', t)
  {
  }

  lemma PeekKeepsOthers(s0: State, s: State, t: nat)
    requires OthersKept(s0, s, t) && t < |s.queues| && s.queues[t] != []
    ensures OthersKept(s0, Peek(s, t).s, t)
  {
    hide Peek, Place;
    PeekRecord(s, t);
    forall u: nat | u != t ensures Place(Peek(s, t).s.log, u) == Place(s0.log, u) {
      PlaceAppend(s.log, Event(t, s.queues[t][0], NewTick(s, s.queues[t][0])), u);
    }
  }

  /** So does consuming a tick at its head. */
  lemma PeekFollows(s0: State, s: State, t: nat, live: seq<bool>)
    requires Inv(s) && Looking(s0, s, t, live) && s.queues[t] != []
    ensures var p := Peek(s, t);
            && Looking(s0, p.s, t, live)
            && Work(p.s) == Work(s) - (if p.ready then 0 else 1)
            && (p.ready ==> && Ready(p.s, live[t := true])
                            && p.s.queues[t] != []
                            && p.key == p.s.queues[t][0].key
                            && InOrder(p.s.parallel, p.s.queues[t][0]))
  {
    hide Peek, Scanned, OnlyTouched, Inv, Work, LooksPlaced, MaxLook, Waiting, Ceiling, OthersKept;
    PeekKeepsOthers(s0, s, t);
    PlacedLooks(s);
    Settled(s);
    PeekCeiling(s, t);
    PeekScans(s, t);
    ScannedTransitive(s0, s, Peek(s, t).s);
    PeekKeepsReady(s, t, live);
    PeekTouches(s0, s, t);
    PeekWork(s, t);
    PeekEffect(s, t);
  }

  lemma ReadyLength(s: State, live: seq<bool>)
    requires Ready(s, live)
    ensures |live| == |s.queues|
  {
  }
}
