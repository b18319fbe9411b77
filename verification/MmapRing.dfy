/** The memory-mapped ring through which the kernel hands over packets: a kernel that fills free slots
    in ring order, and a reader that reuses one packet object. */
module MmapRing {
  datatype Option<T> = None | Some(value: T)

  // ----- What the ring is for: a bounded queue -----

  /** Frames waiting, the frame that the packet object points at, the frames handed out so far, and
      all frames that ever arrived. */
  datatype Fifo = Fifo(waiting: seq<nat>, held: Option<nat>, seen: seq<nat>, arrived: seq<nat>) {
    function Full(capacity: nat): bool {
      |waiting| + (if held.Some? then 1 else 0) >= capacity
    }

    /** A frame arrives; it is lost if there is no room, a held frame taking up room too. */
    function Arrive(capacity: nat, frame: nat): Fifo {
      this.(waiting := if Full(capacity) then waiting else waiting + [frame], arrived := arrived + [frame])
    }

    function ArriveAll(capacity: nat, frames: seq<nat>): Fifo
      decreases |frames|
    {
      if frames == [] then this else Arrive(capacity, frames[0]).ArriveAll(capacity, frames[1..])
    }

    function Release(): Fifo {
      this.(held := None)
    }

    function Take(): Fifo
      requires waiting != []
    {
      Fifo(waiting[1..], Some(waiting[0]), seen + [waiting[0]], arrived)
    }

    /** Wait for a frame; `meanwhile` has what arrives during each poll until the reader is told to
        give up. */
    function Wait(capacity: nat, meanwhile: seq<seq<nat>>): Fifo
      decreases |meanwhile|
    {
      if waiting != [] then Take()
      else if meanwhile == [] then this
      else ArriveAll(capacity, meanwhile[0]).Wait(capacity, meanwhile[1..])
    }

    /** All frames that the kernel ever put into the ring. */
    function Put(): seq<nat> {
      seen + waiting
    }
  }

  datatype Event = Arrival(frame: nat) | Read(meanwhile: seq<seq<nat>>)

  function Happens(f: Fifo, capacity: nat, e: Event): Fifo {
    match e
    case Arrival(frame) => f.Arrive(capacity, frame)
    case Read(meanwhile) => f.Release().Wait(capacity, meanwhile)
  }

  function After(capacity: nat, events: seq<Event>): Fifo
    decreases |events|
  {
    if events == [] then Fifo([], None, [], [])
    else Happens(After(capacity, events[..|events| - 1]), capacity, events[|events| - 1])
  }

  // ----- The ring -----

  datatype Slot = Slot(user: bool, frame: nat)

  /** The slot `i` places behind `from` in a ring of `n`. */
  function Behind(from: nat, i: nat, n: nat): (r: nat)
    requires from < n && i <= n
    ensures r < n
  {
    if from + i < n then from + i else from + i - n
  }

  /** The slots from the reader's place on: `count` full ones, then free ones, and last, if the packet
      object points at a slot, that one. */
  ghost predicate Laid(s: seq<Slot>, offset: nat, count: nat, packet: Option<nat>) {
    && offset < |s| && count + (if packet.Some? then 1 else 0) <= |s|
    && (packet.Some? ==> packet.value == Behind(offset, |s| - 1, |s|))
    && (forall i :: 0 <= i < count ==> s[Behind(offset, i, |s|)].user)
    && (forall i :: count <= i < |s| - 1 ==> !s[Behind(offset, i, |s|)].user)
    && (count < |s| ==> (s[Behind(offset, |s| - 1, |s|)].user <==> packet.Some?))
  }

  /** The frames in the full slots. */
  ghost function Waiting(s: seq<Slot>, offset: nat, count: nat): (q: seq<nat>)
    requires offset < |s| && count <= |s|
    ensures |q| == count && forall i :: 0 <= i < count ==> q[i] == s[Behind(offset, i, |s|)].frame
  {
    seq(count, i requires 0 <= i < count => s[Behind(offset, i, |s|)].frame)
  }

  /** The kernel finds its slot taken exactly if the queue is full. */
  lemma TailTaken(s: seq<Slot>, offset: nat, count: nat, packet: Option<nat>)
    requires Laid(s, offset, count, packet)
    ensures s[Behind(offset, count, |s|)].user <==> count + (if packet.Some? then 1 else 0) >= |s|
  {
    if count == |s| {
      assert Behind(offset, count, |s|) == Behind(offset, 0, |s|);
    }
  }

  /** Filling the free slot behind the full ones. */
  lemma Filled(s: seq<Slot>, offset: nat, count: nat, packet: Option<nat>, frame: nat)
    requires Laid(s, offset, count, packet) && count + (if packet.Some? then 1 else 0) < |s|
    ensures var t := s[Behind(offset, count, |s|) := Slot(true, frame)];
            && Laid(t, offset, count + 1, packet)
            && Waiting(t, offset, count + 1) == Waiting(s, offset, count) + [frame]
            && (packet.Some? ==> t[packet.value] == s[packet.value])
  {
  }

  /** Freeing the slot that the packet object points at. */
  lemma Freed(s: seq<Slot>, offset: nat, count: nat, packet: Option<nat>)
    requires Laid(s, offset, count, packet) && packet.Some?
    ensures var t := s[packet.value := s[packet.value].(user := false)];
            Laid(t, offset, count, None) && Waiting(t, offset, count) == Waiting(s, offset, count)
  {
  }

  /** Taking the first full slot. */
  lemma Taken(s: seq<Slot>, offset: nat, count: nat)
    requires Laid(s, offset, count, None) && s[offset].user
    ensures count > 0 && Waiting(s, offset, count)[0] == s[offset].frame
    ensures var next := (offset + 1) % |s|;
            && Laid(s, next, count - 1, Some(offset))
            && Waiting(s, next, count - 1) == Waiting(s, offset, count)[1..]
            && Behind(next, count - 1, |s|) == Behind(offset, count, |s|)
  {
    var n, next := |s|, (offset + 1) % |s|;
    assert next == Behind(offset, 1, n);
    assert s[Behind(offset, 0, n)].user;
    forall i | 0 <= i < n
      ensures Behind(next, i, n) == if i == n - 1 then offset else Behind(offset, i + 1, n)
    {
    }
  }

  lemma WaitStep(f: Fifo, capacity: nat, meanwhile: seq<seq<nat>>, i: nat)
    requires f.waiting == [] && i <= |meanwhile|
    ensures f.Wait(capacity, meanwhile[i..]) ==
            if i == |meanwhile| then f else f.ArriveAll(capacity, meanwhile[i]).Wait(capacity, meanwhile[i + 1..])
  {
    if i < |meanwhile| {
      assert meanwhile[i..][0] == meanwhile[i] && meanwhile[i..][1..] == meanwhile[i + 1..];
    }
  }

  lemma WaitEnds(f: Fifo, capacity: nat, meanwhile: seq<seq<nat>>)
    requires f.waiting != []
    ensures f.Wait(capacity, meanwhile) == f.Take()
  {
  }

  class Ring {
    const slots: array<Slot>
    var offset: nat
    var packet: Option<nat>
    var tail: nat
    ghost var count: nat
    ghost var arrived: seq<nat>
    var seen: seq<nat>

    constructor (n: nat)
      requires n > 0
      ensures fresh(slots) && slots.Length == n && Valid() && View() == Fifo([], None, [], [])
    {
      slots := new Slot[n](_ => Slot(false, 0));
      offset, tail, packet, seen := 0, 0, None, [];
      count, arrived := 0, [];
    }

    /** The kernel's next slot is the one behind the full ones. */
    ghost predicate Valid()
      reads this, slots
    {
      Laid(slots[..], offset, count, packet) && tail == Behind(offset, count, slots.Length)
    }

    ghost function View(): Fifo
      requires Valid()
      reads this, slots
    {
      Fifo(Waiting(slots[..], offset, count), if packet.Some? then Some(slots[packet.value].frame) else None, seen, arrived)
    }

    /** The kernel puts a frame into the next slot, if that is free. */
    method Arrive(frame: nat)
      requires Valid()
      modifies this`tail, this`count, this`arrived, slots
      ensures Valid() && View() == old(View()).Arrive(slots.Length, frame)
    {
      hide Laid, Waiting;
      Bounds(slots[..], offset, count, packet);
      TailTaken(slots[..], offset, count, packet);
      arrived := arrived + [frame];
      if !slots[tail].user {
        Filled(slots[..], offset, count, packet, frame);
        ghost var before := slots[..];
        slots[tail] := Slot(true, frame);
        assert slots[..] == before[tail := Slot(true, frame)];
        tail := if tail + 1 == slots.Length then 0 else tail + 1;
        count := count + 1;
      }
    }

    method ArriveAll(frames: seq<nat>)
      requires Valid()
      modifies this`tail, this`count, this`arrived, slots
      ensures Valid() && View() == old(View()).ArriveAll(slots.Length, frames)
    {
      hide Laid, Waiting;
      var i := 0;
      while i < |frames|
        invariant 0 <= i <= |frames| && Valid()
        invariant View().ArriveAll(slots.Length, frames[i..]) == old(View()).ArriveAll(slots.Length, frames)
      {
        assert frames[i..][0] == frames[i] && frames[i..][1..] == frames[i + 1..];
        Arrive(frames[i]);
        i := i + 1;
      }
    }

    /** ring_release_frame: give the slot of the packet object back to the kernel. */
    method Release()
      requires Valid()
      modifies this`packet, slots
      ensures Valid() && View() == old(View()).Release()
    {
      hide Laid, Waiting;
      Bounds(slots[..], offset, count, packet);
      if packet.Some? {
        Freed(slots[..], offset, count, packet);
        ghost var before := slots[..];
        slots[packet.value] := slots[packet.value].(user := false);
        assert slots[..] == before[packet.value := before[packet.value].(user := false)];
        packet := None;
      }
    }

    /** Point the packet object at the current slot and move on to the next. */
    method Take()
      requires Valid() && packet.None? && offset < slots.Length && slots[offset].user
      modifies this`packet, this`offset, this`count, this`seen
      ensures old(View()).waiting != [] && Valid() && View() == old(View()).Take()
    {
      hide Laid;
      Taken(slots[..], offset, count);
      packet := Some(offset);
      seen := seen + [slots[offset].frame];
      offset := (offset + 1) % slots.Length;
      count := count - 1;
    }

    /** What the program that reads has seen, and what its packet shows. */
    method Show() returns (frames: seq<nat>, shown: Option<nat>)
      requires Valid()
      ensures frames == View().seen && shown == View().held
    {
      Bounds(slots[..], offset, count, packet);
      frames := seen;
      shown := match packet case None => None case Some(slot) => Some(slots[slot].frame);
    }

    method Happen(e: Event)
      requires Valid()
      modifies this, slots
      ensures Valid() && View() == Happens(old(View()), slots.Length, e)
    {
      hide Laid, View, Fifo.Wait, Fifo.Arrive;
      match e {
        case Arrival(frame) => Arrive(frame);
        case Read(meanwhile) => var _ := Read(meanwhile);
      }
    }

    /** linuxring_read_stream */
    method Read(meanwhile: seq<seq<nat>>) returns (got: bool)
      requires Valid()
      modifies this`packet, this`offset, this`count, this`arrived, this`tail, this`seen, slots
      ensures Valid() && View() == old(View()).Release().Wait(slots.Length, meanwhile)
      ensures got <==> packet.Some?
    {
      hide Laid, Waiting, Fifo.Wait, Fifo.ArriveAll;
      Bounds(slots[..], offset, count, packet);
      Release();
      ghost var start := View();
      var polls := 0;
      assert meanwhile[0..] == meanwhile;
      while !slots[offset].user
        invariant Valid() && packet.None? && offset < slots.Length && 0 <= polls <= |meanwhile|
        invariant View().Wait(slots.Length, meanwhile[polls..]) == start.Wait(slots.Length, meanwhile)
        decreases |meanwhile| - polls
      {
        NothingWaits(slots[..], offset, count);
        WaitStep(View(), slots.Length, meanwhile, polls);
        if polls == |meanwhile| {
          return false;
        }
        ArriveAll(meanwhile[polls]);
        polls := polls + 1;
      }
      ghost var last := View();
      Take();
      WaitEnds(last, slots.Length, meanwhile[polls..]);
      return true;
    }
  }

  lemma Bounds(s: seq<Slot>, offset: nat, count: nat, packet: Option<nat>)
    requires Laid(s, offset, count, packet)
    ensures offset < |s| && count + (if packet.Some? then 1 else 0) <= |s|
    ensures packet.Some? ==> packet.value < |s|
  {
  }

  lemma NothingWaits(s: seq<Slot>, offset: nat, count: nat)
    requires Laid(s, offset, count, None) && !s[offset].user
    ensures Waiting(s, offset, count) == []
  {
    assert Behind(offset, 0, |s|) == offset;
  }

  // ----- Whole runs -----

  /** `a` is `b` with some elements left out. */
  ghost predicate Subsequence(a: seq<nat>, b: seq<nat>)
    decreases |b|
  {
    a == [] ||
    (b != [] &&
     (Subsequence(a, b[..|b| - 1]) || (a[|a| - 1] == b[|b| - 1] && Subsequence(a[..|a| - 1], b[..|b| - 1]))))
  }

  /** What holds of every reachable state: the frames put into the ring are frames that arrived, each
      once and in order; there are never more in it than slots, a held one counting; and the packet
      object shows the last frame handed out. */
  ghost predicate Sound(f: Fifo, n: nat) {
    && Subsequence(f.Put(), f.arrived)
    && |f.waiting| + (if f.held.Some? then 1 else 0) <= n
    && (f.held.Some? ==> f.seen != [] && f.held.value == f.seen[|f.seen| - 1])
  }

  lemma ArriveSound(f: Fifo, n: nat, frame: nat)
    requires Sound(f, n)
    ensures Sound(f.Arrive(n, frame), n) && f.Put() <= f.Arrive(n, frame).Put()
    ensures !f.Full(n) ==> f.Arrive(n, frame).Put() == f.Put() + [frame]
  {
    var g := f.Arrive(n, frame);
    assert g.arrived[..|g.arrived| - 1] == f.arrived;
    if !f.Full(n) {
      assert g.Put() == f.Put() + [frame];
      assert g.Put()[..|g.Put()| - 1] == f.Put();
    }
  }

  lemma {:induction false} ArriveAllSound(f: Fifo, n: nat, frames: seq<nat>)
    requires Sound(f, n)
    ensures Sound(f.ArriveAll(n, frames), n) && f.Put() <= f.ArriveAll(n, frames).Put()
    decreases |frames|
  {
    if frames != [] {
      ArriveSound(f, n, frames[0]);
      ArriveAllSound(f.Arrive(n, frames[0]), n, frames[1..]);
    }
  }

  lemma {:induction false} WaitSound(f: Fifo, n: nat, meanwhile: seq<seq<nat>>)
    requires Sound(f, n) && f.held.None?
    ensures Sound(f.Wait(n, meanwhile), n) && f.Put() <= f.Wait(n, meanwhile).Put()
    decreases |meanwhile|
  {
    if f.waiting != [] {
      assert f.Take().Put() == f.Put();
    } else if meanwhile != [] {
      ArriveAllSound(f, n, meanwhile[0]);
      ArriveAllHolds(f, n, meanwhile[0]);
      WaitSound(f.ArriveAll(n, meanwhile[0]), n, meanwhile[1..]);
    }
  }

  lemma {:induction false} ArriveAllHolds(f: Fifo, n: nat, frames: seq<nat>)
    ensures f.ArriveAll(n, frames).held == f.held && f.ArriveAll(n, frames).seen == f.seen
    decreases |frames|
  {
    if frames != [] {
      ArriveAllHolds(f.Arrive(n, frames[0]), n, frames[1..]);
    }
  }

  lemma HappensSound(f: Fifo, n: nat, e: Event)
    requires Sound(f, n)
    ensures Sound(Happens(f, n, e), n) && f.Put() <= Happens(f, n, e).Put()
  {
    match e
    case Arrival(frame) => ArriveSound(f, n, frame);
    case Read(meanwhile) =>
      assert f.Release().Put() == f.Put();
      WaitSound(f.Release(), n, meanwhile);
  }

  /** Every reachable state is sound, and what was put into the ring only grows at its end. */
  lemma {:induction false} RunsAreSound(n: nat, events: seq<Event>)
    ensures Sound(After(n, events), n)
    ensures events != [] ==> After(n, events[..|events| - 1]).Put() <= After(n, events).Put()
    decreases |events|
  {
    if events != [] {
      RunsAreSound(n, events[..|events| - 1]);
      HappensSound(After(n, events[..|events| - 1]), n, events[|events| - 1]);
    }
  }

  /** Whatever the order of events, the reader has seen the frames that the kernel put into the ring:
      each once, in order, and all but those still waiting; and the packet object still shows the last
      of them, unless it has been released. */
  method Run(n: nat, events: seq<Event>) returns (seen: seq<nat>, shown: Option<nat>)
    requires n > 0
    ensures seen == After(n, events).seen && seen <= After(n, events).Put()
    ensures shown == After(n, events).held
    ensures shown.Some? ==> seen != [] && shown.value == seen[|seen| - 1]
  {
    hide Laid, Waiting, Sound, Ring.View, Happens;
    var ring := new Ring(n);
    var i := 0;
    while i < |events|
      invariant 0 <= i <= |events|
      invariant fresh(ring) && fresh(ring.slots) && ring.slots.Length == n && ring.Valid()
      invariant ring.View() == After(n, events[..i])
    {
      assert events[..i + 1][..i] == events[..i];
      ring.Happen(events[i]);
      i := i + 1;
    }
    assert events[..i] == events;
    seen, shown := ring.Show();
    RunsAreSound(n, events);
    ShownIsLast(After(n, events), n);
  }

  lemma ShownIsLast(f: Fifo, n: nat)
    requires Sound(f, n)
    ensures f.held.Some? ==> f.seen != [] && f.held.value == f.seen[|f.seen| - 1]
  {
  }
}
