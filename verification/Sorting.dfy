/** A stable sort by an integer key, smallest first: what the standard library's `sort_by_key` promises. */
module Sorting {

  predicate Ordered<T>(key: T -> int, s: seq<T>) {
    forall i, j :: 0 <= i < j < |s| ==> key(s[i]) <= key(s[j])
  }

  /** Placing `x` before the first element not smaller keeps it ahead of its equals. */
  function Insert<T>(key: T -> int, x: T, s: seq<T>): seq<T> {
    if s == [] || key(x) <= key(s[0]) then [x] + s else [s[0]] + Insert(key, x, s[1..])
  }

  function Sort<T>(key: T -> int, s: seq<T>): seq<T> {
    if s == [] then [] else Insert(key, s[0], Sort(key, s[1..]))
  }

  /** The elements with one key, in their order. */
  function Having<T>(key: T -> int, s: seq<T>, k: int): seq<T> {
    if s == [] then [] else (if key(s[0]) == k then [s[0]] else []) + Having(key, s[1..], k)
  }

  lemma {:induction false} InsertAdds<T>(key: T -> int, x: T, s: seq<T>)
    ensures multiset(Insert(key, x, s)) == multiset(s) + multiset{x}
  {
    if !(s == [] || key(x) <= key(s[0])) {
      InsertAdds(key, x, s[1..]);
      assert s == [s[0]] + s[1..];
    }
  }

  lemma {:induction false} InsertOrders<T>(key: T -> int, x: T, s: seq<T>)
    requires Ordered(key, s)
    ensures Ordered(key, Insert(key, x, s)) && |Insert(key, x, s)| == |s| + 1
    ensures s != [] ==> key(Insert(key, x, s)[0]) == if key(x) <= key(s[0]) then key(x) else key(s[0])
  {
    if !(s == [] || key(x) <= key(s[0])) {
      InsertOrders(key, x, s[1..]);
      var rest := Insert(key, x, s[1..]);
      forall j | 0 <= j < |rest|
        ensures key(s[0]) <= key(rest[j])
      {
        assert key(rest[0]) <= key(rest[j]);
      }
    }
  }

  lemma {:induction false} InsertIsStable<T>(key: T -> int, x: T, s: seq<T>, k: int)
    ensures Having(key, Insert(key, x, s), k) == (if key(x) == k then [x] else []) + Having(key, s, k)
  {
    var mine := if key(x) == k then [x] else [];
    if s == [] || key(x) <= key(s[0]) {
      assert ([x] + s)[1..] == s;
    } else {
      var head, rest := if key(s[0]) == k then [s[0]] else [], Insert(key, x, s[1..]);
      calc {
        Having(key, Insert(key, x, s), k);
        { assert ([s[0]] + rest)[0] == s[0] && ([s[0]] + rest)[1..] == rest; }
        head + Having(key, rest, k);
        { InsertIsStable(key, x, s[1..], k); }
        head + (mine + Having(key, s[1..], k));
        { assert mine == [] || head == []; }
        mine + (head + Having(key, s[1..], k));
      }
    }
  }

  lemma {:induction false} SortOrders<T>(key: T -> int, s: seq<T>)
    ensures Ordered(key, Sort(key, s))
  {
    if s != [] {
      SortOrders(key, s[1..]);
      InsertOrders(key, s[0], Sort(key, s[1..]));
    }
  }

  lemma {:induction false} SortPermutes<T>(key: T -> int, s: seq<T>)
    ensures multiset(Sort(key, s)) == multiset(s) && |Sort(key, s)| == |s|
  {
    if s != [] {
      SortPermutes(key, s[1..]);
      InsertAdds(key, s[0], Sort(key, s[1..]));
      assert s == [s[0]] + s[1..];
    }
  }

  /** A sort is an ordered permutation. */
  lemma SortSorts<T>(key: T -> int, s: seq<T>)
    ensures Ordered(key, Sort(key, s))
    ensures multiset(Sort(key, s)) == multiset(s) && |Sort(key, s)| == |s|
  {
    SortOrders(key, s);
    SortPermutes(key, s);
  }

  /** Equals keep the order they came in. */
  lemma {:induction false} SortIsStable<T>(key: T -> int, s: seq<T>, k: int)
    ensures Having(key, Sort(key, s), k) == Having(key, s, k)
  {
    if s != [] {
      SortIsStable(key, s[1..], k);
      InsertIsStable(key, s[0], Sort(key, s[1..]), k);
    }
  }

  /** What is in order already stays as it is. */
  lemma {:induction false} SortOfOrdered<T>(key: T -> int, s: seq<T>)
    requires Ordered(key, s)
    ensures Sort(key, s) == s
  {
    if s != [] {
      assert Ordered(key, s[1..]);
      SortOfOrdered(key, s[1..]);
      assert s == [s[0]] + s[1..];
      if |s| > 1 {
        assert key(s[0]) <= key(s[1]);
      }
    }
  }

  /** A last element no smaller than any other stays last. */
  lemma {:induction false} SortKeepsLast<T>(key: T -> int, s: seq<T>, last: T)
    requires forall x :: x in s ==> key(x) <= key(last)
    ensures Sort(key, s + [last]) == Sort(key, s) + [last]
  {
    if s == [] {
      assert [] + [last] == [last];
      assert Sort(key, [last]) == Insert(key, last, Sort(key, [last][1..])) == [last];
    } else {
      SortKeepsLast(key, s[1..], last);
      assert (s + [last])[1..] == s[1..] + [last];
      InsertBeforeLast(key, s[0], Sort(key, s[1..]), last);
    }
  }

  lemma {:induction false} InsertBeforeLast<T>(key: T -> int, x: T, s: seq<T>, last: T)
    requires key(x) <= key(last)
    ensures Insert(key, x, s + [last]) == Insert(key, x, s) + [last]
  {
    if s == [] {
      assert [] + [last] == [last];
    } else if key(x) > key(s[0]) {
      InsertBeforeLast(key, x, s[1..], last);
      assert (s + [last])[1..] == s[1..] + [last];
    } else {
      assert [x] + (s + [last]) == [x] + s + [last];
    }
  }
}
