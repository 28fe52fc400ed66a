// The orderings the listing endpoints apply: OrderBy / OrderByDescending on one
// key, optionally followed by ThenBy / ThenByDescending on a name. The ORDER BY
// runs in the database, so names compare under the column's collation, which is
// a parameter here.
module Ordering {

  /** A string order as a database collation supplies it: total and transitive. Distinct strings
      may rank equal (as "a" and "A" do under a case-insensitive collation). */
  ghost predicate Collation(leq: (string, string) -> bool)
  {
    (forall a, b :: leq(a, b) || leq(b, a))
    && (forall a, b, c :: leq(a, b) && leq(b, c) ==> leq(a, c))
  }

  /** Ordinal string order: a is not after b. */
  predicate StrLeq(a: string, b: string)
    decreases |a|
  {
    |a| == 0 || (|b| > 0 && (a[0] < b[0] || (a[0] == b[0] && StrLeq(a[1..], b[1..]))))
  }

  lemma {:induction false} StrLeqTotal(a: string, b: string)
    ensures StrLeq(a, b) || StrLeq(b, a)
    decreases |a|
  {
    if |a| > 0 && |b| > 0 && a[0] == b[0] {
      StrLeqTotal(a[1..], b[1..]);
    }
  }

  lemma {:induction false} StrLeqTrans(a: string, b: string, c: string)
    requires StrLeq(a, b) && StrLeq(b, c)
    ensures StrLeq(a, c)
    decreases |a|
  {
    if |a| > 0 && a[0] == b[0] && b[0] == c[0] {
      StrLeqTrans(a[1..], b[1..], c[1..]);
    }
  }

  /** The ordinal order (a binary collation) is one collation. */
  lemma OrdinalIsCollation()
    ensures Collation(StrLeq)
  {
    forall a, b ensures StrLeq(a, b) || StrLeq(b, a) {
      StrLeqTotal(a, b);
    }
    forall a, b, c | StrLeq(a, b) && StrLeq(b, c) ensures StrLeq(a, c) {
      StrLeqTrans(a, b, c);
    }
  }

  /** A sort key: the column's value, then the name that breaks ties ("" where the source
      orders by one column only, which leaves ties unresolved). */
  datatype Key = Key(primary: int, secondary: string)

  predicate KeyLeq(a: Key, b: Key, leq: (string, string) -> bool)
  {
    a.primary < b.primary || (a.primary == b.primary && leq(a.secondary, b.secondary))
  }

  /** a may precede b: ascending is KeyLeq, descending its converse. */
  predicate InOrder(a: Key, b: Key, descending: bool, leq: (string, string) -> bool)
  {
    if descending then KeyLeq(b, a, leq) else KeyLeq(a, b, leq)
  }

  lemma InOrderTotal(a: Key, b: Key, descending: bool, leq: (string, string) -> bool)
    requires Collation(leq)
    ensures InOrder(a, b, descending, leq) || InOrder(b, a, descending, leq)
  {
    assert leq(a.secondary, b.secondary) || leq(b.secondary, a.secondary);
  }

  lemma InOrderTrans(a: Key, b: Key, c: Key, descending: bool, leq: (string, string) -> bool)
    requires Collation(leq)
    requires InOrder(a, b, descending, leq) && InOrder(b, c, descending, leq)
    ensures InOrder(a, c, descending, leq)
  {
    if descending {
      if c.primary == b.primary && b.primary == a.primary {
        assert leq(c.secondary, b.secondary) && leq(b.secondary, a.secondary);
      }
    } else {
      if a.primary == b.primary && b.primary == c.primary {
        assert leq(a.secondary, b.secondary) && leq(b.secondary, c.secondary);
      }
    }
  }

  /** Every element may precede every later one. */
  ghost predicate Sorted<T>(s: seq<T>, key: T -> Key, descending: bool, leq: (string, string) -> bool)
  {
    forall i, j :: 0 <= i < j < |s| ==> InOrder(key(s[i]), key(s[j]), descending, leq)
  }

  /** Insertion of x before the first element it may precede. */
  function Insert<T>(x: T, s: seq<T>, key: T -> Key, descending: bool, leq: (string, string) -> bool): (r: seq<T>)
    ensures multiset(r) == multiset(s) + multiset{x}
    ensures |r| == |s| + 1
  {
    if |s| == 0 then [x]
    else if InOrder(key(x), key(s[0]), descending, leq) then [x] + s
    else
      assert s == [s[0]] + s[1..];
      [s[0]] + Insert(x, s[1..], key, descending, leq)
  }

  lemma {:induction false} InsertSorted<T>(x: T, s: seq<T>, key: T -> Key, descending: bool, leq: (string, string) -> bool)
    requires Collation(leq) && Sorted(s, key, descending, leq)
    ensures Sorted(Insert(x, s, key, descending, leq), key, descending, leq)
    decreases |s|
  {
    if |s| == 0 {
    } else if InOrder(key(x), key(s[0]), descending, leq) {
      forall k | 0 <= k < |s|
        ensures InOrder(key(x), key(s[k]), descending, leq)
      {
        if k > 0 {
          InOrderTrans(key(x), key(s[0]), key(s[k]), descending, leq);
        }
      }
      ConsSorted(x, s, key, descending, leq);
    } else {
      InOrderTotal(key(x), key(s[0]), descending, leq);
      InsertSorted(x, s[1..], key, descending, leq);
      HeadPrecedesInsert(x, s, key, descending, leq);
      ConsSorted(s[0], Insert(x, s[1..], key, descending, leq), key, descending, leq);
    }
  }

  /** A head that may precede every element of a sorted tail gives a sorted sequence. */
  lemma ConsSorted<T>(h: T, t: seq<T>, key: T -> Key, descending: bool, leq: (string, string) -> bool)
    requires Sorted(t, key, descending, leq)
    requires forall k :: 0 <= k < |t| ==> InOrder(key(h), key(t[k]), descending, leq)
    ensures Sorted([h] + t, key, descending, leq)
  {
    var r := [h] + t;
    forall i, j | 0 <= i < j < |r|
      ensures InOrder(key(r[i]), key(r[j]), descending, leq)
    {
      if i == 0 {
        assert r[j] == t[j - 1];
      } else {
        assert r[i] == t[i - 1] && r[j] == t[j - 1];
      }
    }
  }

  /** The head of a sorted sequence that x may follow precedes everything after inserting x into
      the rest. */
  lemma HeadPrecedesInsert<T>(x: T, s: seq<T>, key: T -> Key, descending: bool, leq: (string, string) -> bool)
    requires |s| > 0 && Sorted(s, key, descending, leq)
    requires InOrder(key(s[0]), key(x), descending, leq)
    ensures forall k :: 0 <= k < |Insert(x, s[1..], key, descending, leq)| ==>
              InOrder(key(s[0]), key(Insert(x, s[1..], key, descending, leq)[k]), descending, leq)
  {
    var t := Insert(x, s[1..], key, descending, leq);
    forall k | 0 <= k < |t|
      ensures InOrder(key(s[0]), key(t[k]), descending, leq)
    {
      assert t[k] in multiset(t);
      if t[k] != x {
        assert t[k] in multiset(s[1..]);
        var m :| 0 <= m < |s[1..]| && s[1..][m] == t[k];
        assert s[m + 1] == t[k];
      }
    }
  }

  lemma SplitHead<T>(s: seq<T>)
    requires |s| > 0
    ensures multiset(s) == multiset(s[1..]) + multiset{s[0]}
  {
    assert s == [s[0]] + s[1..];
  }

  /** OrderBy / OrderByDescending under the collation `leq`: a sorted permutation of the input.
      The order among elements with equal keys is not specified by the source (it is left to the
      database). */
  function SortBy<T>(s: seq<T>, key: T -> Key, descending: bool, leq: (string, string) -> bool): (r: seq<T>)
    requires Collation(leq)
    ensures multiset(r) == multiset(s)
    ensures |r| == |s|
    ensures Sorted(r, key, descending, leq)
  {
    if |s| == 0 then []
    else
      var t := SortBy(s[1..], key, descending, leq);
      InsertSorted(s[0], t, key, descending, leq);
      SplitHead(s);
      Insert(s[0], t, key, descending, leq)
  }
}
