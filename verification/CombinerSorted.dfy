/** combiner_sorted: keep everything until the end, then sort it.

    The vectors are modelled down to their slots, because libtrace_vector_qsort hands qsort the size
    of one element where the number of elements belongs: whatever the vector holds, the first
    RESULT_SIZE slots are sorted, used or not, and no others. */
module CombinerSorted {
  import opened CombinerModel
  import opened CombinerFlush
  import opened KeySort

  /** sizeof(libtrace_result_t): an 8-byte key, an 8-byte value and a 4-byte type, padded. */
  const RESULT_SIZE: nat := 24

  const INITIAL_SLOTS: nat := 128

  /** The slots of a vector (its `max_size`) and how many of them are in use.  Unused slots hold
      whatever the memory held. */
  datatype Vector = Vector(slots: seq<Result>, size: nat) {
    ghost predicate Valid() {
      size <= |slots| && INITIAL_SLOTS <= |slots|
    }

    function Contents(): seq<Result>
      requires size <= |slots|
    {
      slots[..size]
    }
  }

  function Smaller(a: nat, b: nat): nat { if a <= b then a else b }

  function Larger(a: nat, b: nat): nat { if a <= b then b else a }

  /** What the vector must look like for the sort to come out right: the results within the sorted
      slots must not exceed anything outside of the overlap, and results beyond the sorted slots must
      be in order already. */
  ghost predicate SortsRight(v: Vector)
    requires v.Valid()
  {
    var lo, hi := Smaller(v.size, RESULT_SIZE), Larger(v.size, RESULT_SIZE);
    && (forall i, j :: 0 <= i < lo <= j < hi ==> v.slots[i].key <= v.slots[j].key)
    && (v.size > RESULT_SIZE ==> Sorted(v.slots[RESULT_SIZE..v.size]))
  }

  /** `r` holds the results of `v` in key order. */
  ghost predicate InKeyOrder(v: Vector, r: seq<Result>)
    requires v.Valid()
  {
    Sorted(r) && multiset(Keys(r)) == multiset(Keys(v.Contents()))
  }

  /** The slots after the sort. */
  ghost predicate QSorted(v: Vector, v': Vector)
    requires v.Valid()
  {
    && v'.Valid() && v'.size == v.size && |v'.slots| == |v.slots|
    && Sorted(v'.slots[..RESULT_SIZE])
    && multiset(v'.slots[..RESULT_SIZE]) == multiset(v.slots[..RESULT_SIZE])
    && v'.slots[RESULT_SIZE..] == v.slots[RESULT_SIZE..]
  }

  /** What is in use of the slots after the sort. */
  ghost predicate SortedTo(v: Vector, rs: seq<Result>)
    requires v.Valid()
  {
    exists v' :: QSorted(v, v') && v'.Contents() == rs
  }

  lemma KeysConcat(a: seq<Result>, b: seq<Result>)
    ensures Keys(a + b) == Keys(a) + Keys(b)
    ensures multiset(Keys(a + b)) == multiset(Keys(a)) + multiset(Keys(b))
  {
    assert Keys(a + b) == Keys(a) + Keys(b);
  }

  ghost predicate NoneAbove(a: seq<Result>, b: seq<Result>) {
    forall i, j :: 0 <= i < |a| && 0 <= j < |b| ==> a[i].key <= b[j].key
  }

  lemma NoneAboveBags(a: seq<Result>, b: seq<Result>, a': seq<Result>, b': seq<Result>)
    requires NoneAbove(a, b)
    requires multiset(Keys(a)) == multiset(Keys(a')) && multiset(Keys(b)) == multiset(Keys(b'))
    ensures NoneAbove(a', b')
  {
    forall i, j | 0 <= i < |a'| && 0 <= j < |b'| ensures a'[i].key <= b'[j].key {
      assert Keys(a')[i] in multiset(Keys(a)) && Keys(b')[j] in multiset(Keys(b));
      var k :| 0 <= k < |a| && Keys(a)[k] == Keys(a')[i];
      var l :| 0 <= l < |b| && Keys(b)[l] == Keys(b')[j];
      assert a[k].key <= b[l].key;
    }
  }

  lemma SortedJoin(a: seq<Result>, b: seq<Result>)
    ensures Sorted(a + b) <==> Sorted(a) && Sorted(b) && NoneAbove(a, b)
  {
    var c := a + b;
    if Sorted(c) {
      assert forall i :: 0 <= i < |a| ==> c[i] == a[i];
      assert forall j :: 0 <= j < |b| ==> c[|a| + j] == b[j];
    }
  }

  /** With `p` in use and `q` stale, the first |p| sorted slots are `p` sorted exactly if nothing
      stale undercuts anything in use. */
  lemma SortWithStale(p: seq<Result>, q: seq<Result>, a: seq<Result>, b: seq<Result>)
    requires |a| == |p| && Sorted(a + b) && multiset(a + b) == multiset(p + q)
    ensures multiset(Keys(a)) == multiset(Keys(p)) <==> NoneAbove(p, q)
  {
    SameKeys(a + b, p + q);
    KeysConcat(a, b);
    KeysConcat(p, q);
    SortedJoin(a, b);
    if multiset(Keys(a)) == multiset(Keys(p)) {
      assert multiset(Keys(b)) == multiset(Keys(q)) by {
        assert multiset(Keys(b)) == (multiset(Keys(a)) + multiset(Keys(b))) - multiset(Keys(a));
        assert multiset(Keys(q)) == (multiset(Keys(p)) + multiset(Keys(q))) - multiset(Keys(p));
      }
      NoneAboveBags(a, b, p, q);
    }
    if NoneAbove(p, q) {
      SortBothParts(p, q, a, b);
    }
  }

  lemma SortBothParts(p: seq<Result>, q: seq<Result>, a: seq<Result>, b: seq<Result>)
    requires |a| == |p| && Sorted(a + b) && multiset(Keys(a + b)) == multiset(Keys(p + q)) && NoneAbove(p, q)
    ensures multiset(Keys(a)) == multiset(Keys(p))
  {
    var p', q' := Sort(p), Sort(q);
    SortSorts(p);
    SortSorts(q);
    SameKeys(p, p');
    SameKeys(q, q');
    NoneAboveBags(p, q, p', q');
    SortedJoin(p', q');
    SortedKeys(p' + q');
    SortedKeys(a + b);
    KeysConcat(p, q);
    KeysConcat(p', q');
    KeysConcat(a, b);
    SortedUnique(Keys(a + b), Keys(p' + q'));
    assert Keys(a) == Keys(a + b)[..|a|] && Keys(p') == Keys(p' + q')[..|a|];
  }

  /** The misdirected sort does its job exactly when the vector was fit for it. */
  lemma SortExactly(v: Vector, v': Vector)
    requires v.Valid() && QSorted(v, v')
    ensures InKeyOrder(v, v'.Contents()) <==> SortsRight(v)
  {
    if v.size <= RESULT_SIZE {
      var p, q := v.slots[..v.size], v.slots[v.size..RESULT_SIZE];
      var a, b := v'.slots[..v.size], v'.slots[v.size..RESULT_SIZE];
      assert p + q == v.slots[..RESULT_SIZE] && a + b == v'.slots[..RESULT_SIZE];
      SortWithStale(p, q, a, b);
      SortedJoin(a, b);
      StaleCondition(v);
    } else {
      LongSort(v, v');
    }
  }

  lemma StaleCondition(v: Vector)
    requires v.Valid() && v.size <= RESULT_SIZE
    ensures SortsRight(v) <==> NoneAbove(v.slots[..v.size], v.slots[v.size..RESULT_SIZE])
  {
    var p, q := v.slots[..v.size], v.slots[v.size..RESULT_SIZE];
    if NoneAbove(p, q) {
      forall i, j | 0 <= i < v.size <= j < RESULT_SIZE ensures v.slots[i].key <= v.slots[j].key {
        assert p[i].key <= q[j - v.size].key;
      }
    }
  }

  lemma LongCondition(v: Vector)
    requires v.Valid() && v.size > RESULT_SIZE
    ensures SortsRight(v) <==>
            NoneAbove(v.slots[..RESULT_SIZE], v.slots[RESULT_SIZE..v.size]) && Sorted(v.slots[RESULT_SIZE..v.size])
  {
    var p, q := v.slots[..RESULT_SIZE], v.slots[RESULT_SIZE..v.size];
    if NoneAbove(p, q) {
      forall i, j | 0 <= i < RESULT_SIZE <= j < v.size ensures v.slots[i].key <= v.slots[j].key {
        assert p[i].key <= q[j - RESULT_SIZE].key;
      }
    }
  }

  lemma FullSort(v: Vector, v': Vector)
    requires v.Valid() && QSorted(v, v') && v.size >= RESULT_SIZE
    ensures multiset(v'.Contents()) == multiset(v.Contents())
  {
    var n := v.size - RESULT_SIZE;
    assert v'.Contents() == v'.slots[..RESULT_SIZE] + v'.slots[RESULT_SIZE..][..n];
    assert v.Contents() == v.slots[..RESULT_SIZE] + v.slots[RESULT_SIZE..][..n];
  }

  lemma LongSort(v: Vector, v': Vector)
    requires v.Valid() && QSorted(v, v') && v.size > RESULT_SIZE
    ensures InKeyOrder(v, v'.Contents()) <==> SortsRight(v)
  {
    var p, q := v.slots[..RESULT_SIZE], v.slots[RESULT_SIZE..v.size];
    var a := v'.slots[..RESULT_SIZE];
    assert v'.Contents() == a + q by {
      assert v'.slots[RESULT_SIZE..v.size] == v'.slots[RESULT_SIZE..][..v.size - RESULT_SIZE];
      assert q == v.slots[RESULT_SIZE..][..v.size - RESULT_SIZE];
    }
    assert v.Contents() == p + q;
    SameKeys(a, p);
    KeysConcat(a, q);
    KeysConcat(p, q);
    SortedJoin(a, q);
    LongCondition(v);
    if NoneAbove(a, q) {
      NoneAboveBags(a, q, p, q);
    }
    if NoneAbove(p, q) {
      NoneAboveBags(p, q, a, q);
    }
  }

  /** All results, thread after thread. */
  function Flat(vs: seq<Vector>): seq<Result>
    requires forall t :: 0 <= t < |vs| ==> vs[t].size <= |vs[t].slots|
  {
    if vs == [] then [] else vs[0].Contents() + Flat(vs[1..])
  }

  /** Freshly allocated memory: any results at all. */
  method Allocate(n: nat) returns (slots: seq<Result>)
    ensures |slots| == n
  {
    slots := *;
    if |slots| != n {
      slots := seq(n, _ => Result(0, 0, Kind.Data(0)));
    }
  }

  /** libtrace_vector_push_back */
  method PushBack(v: Vector, r: Result) returns (v': Vector)
    requires v.Valid()
    ensures v'.Valid() && v'.Contents() == v.Contents() + [r]
    ensures forall i :: v.size < i < |v.slots| ==> i < |v'.slots| && v'.slots[i] == v.slots[i]
  {
    var slots := v.slots;
    if v.size >= |slots| {
      var more := Allocate(|slots|);
      slots := slots + more;
    }
    v' := Vector(slots[v.size := r], v.size + 1);
  }

  /** libtrace_vector_append: move everything from `src` to the end of `dest`. */
  method Append(dest: Vector, src: Vector) returns (dest': Vector, src': Vector)
    requires dest.Valid() && src.Valid()
    ensures dest'.Valid() && src'.Valid()
    ensures dest'.Contents() == dest.Contents() + src.Contents() && src'.size == 0
  {
    if src.size == 0 {
      return dest, src;
    }
    if dest.size == 0 {
      return src, dest;
    }
    var slots := dest.slots;
    while |slots| - dest.size < src.size
      invariant |slots| >= |dest.slots| && slots[..dest.size] == dest.Contents()
      decreases src.size + dest.size - |slots|
    {
      var more := Allocate(|slots|);
      slots := slots + more;
    }
    slots := slots[..dest.size] + src.Contents() + slots[dest.size + src.size..];
    return Vector(slots, dest.size + src.size), src.(size := 0);
  }

  /** libtrace_vector_qsort with the count it passes. */
  method QSort(v: Vector) returns (v': Vector)
    requires v.Valid()
    ensures QSorted(v, v')
  {
    var sorted := Sort(v.slots[..RESULT_SIZE]);
    SortSorts(v.slots[..RESULT_SIZE]);
    v' := v.(slots := sorted + v.slots[RESULT_SIZE..]);
    assert v'.slots[..RESULT_SIZE] == sorted;
  }

  class SortedCombiner {
    var vectors: seq<Vector>
    var sent: seq<Result>

    ghost predicate Valid()
      reads this
    {
      |vectors| > 0 && forall t :: 0 <= t < |vectors| ==> vectors[t].Valid()
    }

    constructor (n: nat)
      requires n > 0
      ensures Valid() && |vectors| == n && sent == [] && forall t :: 0 <= t < n ==> vectors[t].size == 0
    {
      var vs: seq<Vector> := [];
      for i := 0 to n
        invariant |vs| == i && forall t :: 0 <= t < i ==> vs[t].Valid() && vs[t].size == 0
      {
        var slots := Allocate(INITIAL_SLOTS);
        vs := vs + [Vector(slots, 0)];
      }
      vectors := vs;
      sent := [];
    }

    method Publish(t: nat, r: Result)
      requires Valid() && t < |vectors|
      modifies this
      ensures Valid() && sent == old(sent) && |vectors| == |old(vectors)|
      ensures vectors[t].Contents() == old(vectors[t].Contents()) + [r]
      ensures forall u :: 0 <= u < |vectors| && u != t ==> vectors[u] == old(vectors)[u]
    {
      var v := PushBack(vectors[t], r);
      vectors := vectors[t := v];
    }

    /** Gather all results in the first vector. */
    method Gather()
      requires Valid()
      modifies this
      ensures Valid() && sent == old(sent) && |vectors| == |old(vectors)|
      ensures vectors[0].Contents() == Flat(old(vectors))
      ensures forall t :: 0 < t < |vectors| ==> vectors[t].size == 0
    {
      ghost var vs := vectors;
      assert Flat(vs[..1]) == vs[0].Contents() by {
        assert Flat(vs[..1][1..]) == [];
      }
      var n := |vectors|;
      for i := 1 to n
        invariant Valid() && |vectors| == n && sent == old(sent)
        invariant vectors[0].Contents() == Flat(vs[..i])
        invariant forall t :: 0 < t < i ==> vectors[t].size == 0
        invariant forall t :: i <= t < n ==> vectors[t] == vs[t]
      {
        var dest, src := Append(vectors[0], vectors[i]);
        FlatNext(vs, i);
        vectors := vectors[0 := dest][i := src];
      }
      assert vs[..n] == vs;
    }

    /** Gather, sort, and send everything but ticks.  `full` is the vector before the sort, `sorted`
        what was found in it afterwards. */
    method ReadFinal() returns (full: Vector, sorted: seq<Result>)
      requires Valid()
      modifies this
      ensures Valid() && |vectors| == |old(vectors)| && forall t :: 0 <= t < |vectors| ==> vectors[t].size == 0
      ensures full.Valid() && full.Contents() == Flat(old(vectors))
      ensures sent == old(sent) + DataOf(sorted) && |sorted| == full.size
      ensures SortedTo(full, sorted) && (InKeyOrder(full, sorted) <==> SortsRight(full))
      ensures full.size >= RESULT_SIZE ==> multiset(sorted) == multiset(full.Contents())
    {
      Gather();
      full := vectors[0];
      var v := QSort(vectors[0]);
      SortExactly(full, v);
      if full.size >= RESULT_SIZE {
        FullSort(full, v);
      }
      sorted := v.Contents();
      vectors := vectors[0 := v];
      SendData();
      vectors := vectors[0 := v.(size := 0)];
    }

    method SendData()
      requires Valid()
      modifies this`sent
      ensures sent == old(sent) + DataOf(vectors[0].Contents())
    {
      ghost var rs := vectors[0].Contents();
      for a := 0 to vectors[0].size
        invariant sent == old(sent) + DataOf(rs[..a])
      {
        var r := vectors[0].slots[a];
        assert rs[..a + 1] == rs[..a] + [r];
        MergingAppend(true, rs[..a], r);
        if r.kind == TickInterval || r.kind == TickCount {
          continue;
        }
        sent := sent + [r];
      }
      assert rs[..|rs|] == rs;
    }
  }

  lemma FlatNext(vs: seq<Vector>, i: nat)
    requires i < |vs| && forall t :: 0 <= t < |vs| ==> vs[t].size <= |vs[t].slots|
    ensures Flat(vs[..i + 1]) == Flat(vs[..i]) + vs[i].Contents()
  {
    if i == 0 {
      assert vs[..1][1..] == [];
    } else {
      assert vs[..i + 1][1..] == vs[1..][..i] && vs[..i][1..] == vs[1..][..i - 1];
      FlatNext(vs[1..], i - 1);
    }
  }

  /** One result too many for the sorted slots, and smaller than one before it: the sort fails. */
  lemma LastOneOutOfPlace(v: Vector, v': Vector, i: nat)
    requires v.Valid() && QSorted(v, v') && v.size == 25 && i < 24 && v.slots[24].key < v.slots[i].key
    ensures !Sorted(v'.Contents()) && v'.Contents()[24] == v.slots[24]
  {
    assert v.slots[..RESULT_SIZE][i] in multiset(v'.slots[..RESULT_SIZE]);
    var k :| 0 <= k < RESULT_SIZE && v'.slots[..RESULT_SIZE][k] == v.slots[i];
    assert v'.Contents()[k] == v.slots[i];
    assert v'.slots[24] == v'.slots[RESULT_SIZE..][0] == v.slots[RESULT_SIZE..][0];
  }

  /** A single result and a stale slot with a smaller key: the stale slot is sent instead. */
  lemma StaleSlotWins(v: Vector, v': Vector, j: nat)
    requires v.Valid() && QSorted(v, v') && v.size == 1 && 0 < j < RESULT_SIZE && v.slots[j].key < v.slots[0].key
    ensures v'.Contents()[0].key < v.slots[0].key
  {
    assert v.slots[..RESULT_SIZE][j] in multiset(v'.slots[..RESULT_SIZE]);
    var k :| 0 <= k < RESULT_SIZE && v'.slots[..RESULT_SIZE][k] == v.slots[j];
    assert k == 0 || v'.slots[..RESULT_SIZE][0].key <= v'.slots[..RESULT_SIZE][k].key;
  }
}
