/** `sort.Slice` with a comparison, and what a sorted arrangement determines. */
module Sorting {

  /** What `sort.Slice` needs of its comparison to sort at all. */
  ghost predicate StrictWeakOrder<T(!new)>(less: (T, T) -> bool) {
    && (forall x, y :: less(x, y) ==> !less(y, x))
    && (forall x, y, z :: !less(y, x) && !less(z, y) ==> !less(z, x))
  }

  ghost predicate SortedBy<T>(less: (T, T) -> bool, s: seq<T>) {
    forall i, j :: 0 <= i < j < |s| ==> !less(s[j], s[i])
  }

  /** Each element strictly before the next. */
  ghost predicate StrictlySortedBy<T>(less: (T, T) -> bool, s: seq<T>) {
    forall i, j :: 0 <= i < j < |s| ==> less(s[i], s[j])
  }

  function Insert<T>(less: (T, T) -> bool, x: T, s: seq<T>): seq<T> {
    if s == [] then [x]
    else if less(s[0], x) then [s[0]] + Insert(less, x, s[1..])
    else [x] + s
  }

  function Sort<T>(less: (T, T) -> bool, s: seq<T>): seq<T> {
    if s == [] then [] else Insert(less, s[0], Sort(less, s[1..]))
  }

  lemma {:induction false} InsertKeepsElements<T>(less: (T, T) -> bool, x: T, s: seq<T>)
    ensures multiset(Insert(less, x, s)) == multiset{x} + multiset(s)
  {
    if s != [] {
      assert s == [s[0]] + s[1..];
      InsertKeepsElements(less, x, s[1..]);
    }
  }

  lemma {:induction false} SortKeepsElements<T>(less: (T, T) -> bool, s: seq<T>)
    ensures multiset(Sort(less, s)) == multiset(s)
  {
    if s != [] {
      assert s == [s[0]] + s[1..];
      SortKeepsElements(less, s[1..]);
      InsertKeepsElements(less, s[0], Sort(less, s[1..]));
    }
  }

  lemma {:induction false} InsertSorts<T(!new)>(less: (T, T) -> bool, x: T, s: seq<T>)
    requires StrictWeakOrder(less) && SortedBy(less, s)
    ensures SortedBy(less, Insert(less, x, s))
  {
    if s != [] && less(s[0], x) {
      InsertSorts(less, x, s[1..]);
      var t := Insert(less, x, s[1..]);
      InsertKeepsElements(less, x, s[1..]);
      forall j | 0 <= j < |t| ensures !less(t[j], s[0]) {
        assert t[j] in multiset(t);
        if t[j] != x { assert t[j] in s[1..]; }
      }
    }
  }

  lemma {:induction false} SortSorts<T(!new)>(less: (T, T) -> bool, s: seq<T>)
    requires StrictWeakOrder(less)
    ensures SortedBy(less, Sort(less, s))
  {
    if s != [] {
      SortSorts(less, s[1..]);
      InsertSorts(less, s[0], Sort(less, s[1..]));
    }
  }

  lemma LessTransitive<T(!new)>(less: (T, T) -> bool, x: T, y: T, z: T)
    requires StrictWeakOrder(less) && less(x, y) && less(y, z)
    ensures less(x, z)
  {
    assert !less(z, y);
  }

  lemma {:induction false} InsertStrict<T(!new)>(less: (T, T) -> bool, x: T, s: seq<T>)
    requires StrictWeakOrder(less) && StrictlySortedBy(less, s)
    requires forall y :: y in s ==> less(x, y) || less(y, x)
    ensures StrictlySortedBy(less, Insert(less, x, s))
  {
    if s != [] {
      assert forall k :: 0 <= k < |s| ==> s[k] in s;
      if less(s[0], x) {
        InsertStrict(less, x, s[1..]);
        var t := Insert(less, x, s[1..]);
        InsertKeepsElements(less, x, s[1..]);
        forall j | 0 <= j < |t| ensures less(s[0], t[j]) {
          assert t[j] in multiset(t);
          if t[j] != x { assert t[j] in s[1..]; }
        }
      } else {
        forall j | 0 <= j < |s| ensures less(x, s[j]) {
          assert s[0] in s;
          if j > 0 { LessTransitive(less, x, s[0], s[j]); }
        }
      }
    }
  }

  /** If all elements are comparable, sorting is strict. */
  lemma {:induction false} SortStrict<T(!new)>(less: (T, T) -> bool, s: seq<T>)
    requires StrictWeakOrder(less)
    requires forall i, j :: 0 <= i < j < |s| ==> less(s[i], s[j]) || less(s[j], s[i])
    ensures StrictlySortedBy(less, Sort(less, s))
  {
    if s != [] {
      SortStrict(less, s[1..]);
      SortKeepsElements(less, s[1..]);
      forall y | y in Sort(less, s[1..]) ensures less(s[0], y) || less(y, s[0]) {
        assert y in multiset(Sort(less, s[1..]));
        var j :| 0 <= j < |s| - 1 && s[1..][j] == y;
        assert s[j + 1] == y;
      }
      InsertStrict(less, s[0], Sort(less, s[1..]));
    }
  }

  lemma SortElements<T>(less: (T, T) -> bool, s: seq<T>)
    ensures forall x :: x in Sort(less, s) <==> x in s
  {
    SortKeepsElements(less, s);
    forall x ensures x in Sort(less, s) <==> x in s {
      assert x in Sort(less, s) <==> x in multiset(Sort(less, s));
      assert x in s <==> x in multiset(s);
    }
  }

  lemma TailOfSame<T>(s: seq<T>, t: seq<T>)
    requires s != [] && t != [] && s[0] == t[0] && multiset(s) == multiset(t)
    ensures multiset(s[1..]) == multiset(t[1..])
  {
    assert s == [s[0]] + s[1..] && t == [s[0]] + t[1..];
    assert multiset(s[1..]) == multiset(s) - multiset{s[0]};
    assert multiset(t[1..]) == multiset(t) - multiset{s[0]};
  }

  lemma SameFirst<T(!new)>(less: (T, T) -> bool, s: seq<T>, t: seq<T>)
    requires StrictWeakOrder(less) && StrictlySortedBy(less, s) && SortedBy(less, t)
    requires multiset(t) == multiset(s) && s != []
    ensures t != [] && t[0] == s[0]
  {
    assert s[0] in multiset(t);
    assert t[0] in multiset(s);
    var i :| 0 <= i < |s| && s[i] == t[0];
    var j :| 0 <= j < |t| && t[j] == s[0];
  }

  /** Sorting a strictly increasing sequence again, by any algorithm, changes nothing. */
  lemma {:induction false} SortIsIdentity<T(!new)>(less: (T, T) -> bool, s: seq<T>, t: seq<T>)
    requires StrictWeakOrder(less) && StrictlySortedBy(less, s) && SortedBy(less, t)
    requires multiset(t) == multiset(s)
    ensures t == s
    decreases |s|
  {
    if s == [] {
      assert |t| == |multiset(t)|;
    } else {
      SameFirst(less, s, t);
      TailOfSame(s, t);
      SortIsIdentity(less, s[1..], t[1..]);
      assert s == [s[0]] + s[1..] && t == [s[0]] + t[1..];
    }
  }

  /** Two strictly increasing sequences with the same elements are equal. */
  lemma {:induction false} StrictlySortedUnique<T(!new)>(less: (T, T) -> bool, s: seq<T>, t: seq<T>)
    requires StrictWeakOrder(less) && StrictlySortedBy(less, s) && StrictlySortedBy(less, t)
    requires forall x :: x in s <==> x in t
    ensures s == t
    decreases |s|
  {
    assert t != [] ==> t[0] in t;
    if s != [] {
      SameLeast(less, s, t);
      TailElements(less, s);
      TailElements(less, t);
      StrictlySortedUnique(less, s[1..], t[1..]);
      assert s == [s[0]] + s[1..] && t == [s[0]] + t[1..];
    }
  }

  lemma SameLeast<T(!new)>(less: (T, T) -> bool, s: seq<T>, t: seq<T>)
    requires StrictWeakOrder(less) && StrictlySortedBy(less, s) && StrictlySortedBy(less, t)
    requires s != [] && forall x :: x in s <==> x in t
    ensures t != [] && t[0] == s[0]
  {
    assert s[0] in t;
    assert t[0] in s;
    var i :| 0 <= i < |s| && s[i] == t[0];
    var j :| 0 <= j < |t| && t[j] == s[0];
  }

  lemma TailElements<T(!new)>(less: (T, T) -> bool, s: seq<T>)
    requires StrictWeakOrder(less) && StrictlySortedBy(less, s) && s != []
    ensures StrictlySortedBy(less, s[1..])
    ensures forall x :: x in s[1..] <==> x in s && x != s[0]
  {
    assert s == [s[0]] + s[1..];
  }
}
