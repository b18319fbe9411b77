/** Sorting facts about keys. */
module KeySort {
  import opened CombinerModel

  function Keys(rs: seq<Result>): (ks: seq<nat>)
    ensures |ks| == |rs| && forall i :: 0 <= i < |rs| ==> ks[i] == rs[i].key
  {
    seq(|rs|, i requires 0 <= i < |rs| => rs[i].key as nat)
  }

  predicate Nondecreasing(ks: seq<nat>) {
    forall i, j :: 0 <= i < j < |ks| ==> ks[i] <= ks[j]
  }

  function Insert(r: Result, rs: seq<Result>): seq<Result> {
    if rs == [] || r.key <= rs[0].key then [r] + rs else [rs[0]] + Insert(r, rs[1..])
  }

  function Sort(rs: seq<Result>): seq<Result> {
    if rs == [] then [] else Insert(rs[0], Sort(rs[1..]))
  }

  lemma {:induction false} InsertBag(r: Result, rs: seq<Result>)
    ensures multiset(Insert(r, rs)) == multiset{r} + multiset(rs)
  {
    if rs != [] && r.key > rs[0].key {
      InsertBag(r, rs[1..]);
      assert rs == [rs[0]] + rs[1..];
    }
  }

  lemma {:induction false} InsertSorts(r: Result, rs: seq<Result>)
    requires Sorted(rs)
    ensures Sorted(Insert(r, rs))
  {
    if rs != [] && r.key > rs[0].key {
      InsertSorts(r, rs[1..]);
      var t := Insert(r, rs[1..]);
      forall i | 0 <= i < |t| ensures rs[0].key <= t[i].key {
        InsertBag(r, rs[1..]);
        assert t[i] in multiset(t);
        assert t[i] == r || t[i] in rs[1..];
      }
    }
  }

  lemma {:induction false} SortSorts(rs: seq<Result>)
    ensures Sorted(Sort(rs)) && multiset(Sort(rs)) == multiset(rs) && |Sort(rs)| == |rs|
  {
    if rs != [] {
      SortSorts(rs[1..]);
      InsertSorts(rs[0], Sort(rs[1..]));
      InsertBag(rs[0], Sort(rs[1..]));
      assert rs == [rs[0]] + rs[1..];
    }
    assert |multiset(Sort(rs))| == |multiset(rs)|;
  }

  lemma SortedKeys(rs: seq<Result>)
    ensures Sorted(rs) <==> Nondecreasing(Keys(rs))
  {
    if Nondecreasing(Keys(rs)) {
      assert forall i :: 0 <= i < |rs| ==> Keys(rs)[i] == rs[i].key;
    }
  }

  /** A nondecreasing sequence is determined by its elements. */
  lemma {:induction false} SortedUnique(a: seq<nat>, b: seq<nat>)
    requires Nondecreasing(a) && Nondecreasing(b) && multiset(a) == multiset(b)
    ensures a == b
  {
    assert |multiset(a)| == |multiset(b)|;
    if a != [] {
      FirstIsLeast(a, b);
      FirstIsLeast(b, a);
      TailBag(a);
      TailBag(b);
      SortedUnique(a[1..], b[1..]);
      assert a == [a[0]] + a[1..] && b == [b[0]] + b[1..];
    }
  }

  lemma FirstIsLeast(a: seq<nat>, b: seq<nat>)
    requires a != [] && b != [] && Nondecreasing(a) && multiset(a) == multiset(b)
    ensures a[0] <= b[0]
  {
    assert b[0] in multiset(b);
    assert b[0] in a;
  }

  lemma TailBag(a: seq<nat>)
    requires a != []
    ensures multiset(a[1..]) == multiset(a) - multiset{a[0]}
  {
    assert a == [a[0]] + a[1..];
  }

  lemma Without<T>(s: seq<T>, j: nat)
    requires j < |s|
    ensures multiset(s) == multiset(s[..j] + s[j + 1..]) + multiset{s[j]}
  {
    assert s == s[..j] + [s[j]] + s[j + 1..];
  }

  lemma KeysWithout(s: seq<Result>, j: nat)
    requires j < |s|
    ensures multiset(Keys(s)) == multiset(Keys(s[..j] + s[j + 1..])) + multiset{s[j].key as nat}
  {
    assert Keys(s)[..j] + Keys(s)[j + 1..] == Keys(s[..j] + s[j + 1..]);
    Without(Keys(s), j);
  }

  lemma RemoveOne(s: seq<Result>, x: Result) returns (rest: seq<Result>)
    requires x in s
    ensures |rest| == |s| - 1
    ensures multiset(s) == multiset(rest) + multiset{x}
    ensures multiset(Keys(s)) == multiset(Keys(rest)) + multiset{x.key as nat}
  {
    var j :| 0 <= j < |s| && s[j] == x;
    rest := s[..j] + s[j + 1..];
    Without(s, j);
    KeysWithout(s, j);
  }

  /** Equal results have equal keys. */
  lemma {:induction false} SameKeys(a: seq<Result>, b: seq<Result>)
    requires multiset(a) == multiset(b)
    ensures multiset(Keys(a)) == multiset(Keys(b))
    decreases |a|
  {
    assert |a| == |multiset(a)| == |multiset(b)| == |b|;
    if a == [] {
      assert Keys(a) == Keys(b);
    } else {
      var x := a[0];
      assert x in multiset(b);
      var a' := RemoveOne(a, x);
      var b' := RemoveOne(b, x);
      CancelOne(multiset(a'), multiset(b'), x);
      SameKeys(a', b');
    }
  }

  lemma CancelOne(a: multiset<Result>, b: multiset<Result>, x: Result)
    requires a + multiset{x} == b + multiset{x}
    ensures a == b
  {
    assert a == (a + multiset{x}) - multiset{x};
  }
}
