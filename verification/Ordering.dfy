/** Byte-wise string order and sorting under a total order. */
module Ordering {

  predicate LexLe(a: string, b: string) {
    a == [] || (b != [] && (a[0] < b[0] || (a[0] == b[0] && LexLe(a[1..], b[1..]))))
  }

  ghost predicate TotalOrder<T(!new)>(le: (T, T) -> bool) {
    && (forall a, b :: le(a, b) || le(b, a))
    && (forall a, b, c :: le(a, b) && le(b, c) ==> le(a, c))
  }

  ghost predicate SortedBy<T>(le: (T, T) -> bool, s: seq<T>) {
    forall i, j | 0 <= i < j < |s| :: le(s[i], s[j])
  }

  function Insert<T>(le: (T, T) -> bool, x: T, s: seq<T>): seq<T> {
    if s == [] then [x]
    else if le(x, s[0]) then [x] + s
    else [s[0]] + Insert(le, x, s[1..])
  }

  function Sort<T>(le: (T, T) -> bool, s: seq<T>): seq<T> {
    if s == [] then [] else Insert(le, s[0], Sort(le, s[1..]))
  }

  lemma {:induction false} InsertPermutes<T>(le: (T, T) -> bool, x: T, s: seq<T>)
    ensures multiset(Insert(le, x, s)) == multiset{x} + multiset(s)
  {
    if s == [] {
    } else {
      assert s == [s[0]] + s[1..];
      InsertPermutes(le, x, s[1..]);
    }
  }

  lemma {:induction false} SortPermutes<T>(le: (T, T) -> bool, s: seq<T>)
    ensures multiset(Sort(le, s)) == multiset(s)
  {
    if s == [] {
    } else {
      assert s == [s[0]] + s[1..];
      SortPermutes(le, s[1..]);
      InsertPermutes(le, s[0], Sort(le, s[1..]));
    }
  }

  lemma {:induction false} InsertSorts<T(!new)>(le: (T, T) -> bool, x: T, s: seq<T>)
    requires TotalOrder(le) && SortedBy(le, s)
    ensures SortedBy(le, Insert(le, x, s))
  {
    if s == [] || le(x, s[0]) {
    } else {
      InsertSorts(le, x, s[1..]);
      var r := Insert(le, x, s[1..]);
      InsertPermutes(le, x, s[1..]);
      forall j | 0 <= j < |r| ensures le(s[0], r[j]) {
        assert r[j] in multiset(r);
      }
    }
  }

  lemma {:induction false} SortSorts<T(!new)>(le: (T, T) -> bool, s: seq<T>)
    requires TotalOrder(le)
    ensures SortedBy(le, Sort(le, s))
  {
    if s == [] {
    } else {
      SortSorts(le, s[1..]);
      InsertSorts(le, s[0], Sort(le, s[1..]));
    }
  }

  /** Sorting leaves what is sorted as it is. */
  lemma {:induction false} SortedIsSort<T>(le: (T, T) -> bool, s: seq<T>)
    requires SortedBy(le, s)
    ensures Sort(le, s) == s
  {
    if s != [] {
      SortedIsSort(le, s[1..]);
      assert |s| >= 2 ==> le(s[0], s[1]);
    }
  }

  lemma {:induction false} LexTotal(a: string, b: string)
    ensures LexLe(a, b) || LexLe(b, a)
  {
    if a != [] && b != [] {
      LexTotal(a[1..], b[1..]);
    }
  }

  lemma {:induction false} LexTransitive(a: string, b: string, c: string)
    requires LexLe(a, b) && LexLe(b, c)
    ensures LexLe(a, c)
  {
    if a != [] && a[0] == b[0] && b[0] == c[0] {
      LexTransitive(a[1..], b[1..], c[1..]);
    }
  }

  lemma {:induction false} LexAntisymmetric(a: string, b: string)
    requires LexLe(a, b) && LexLe(b, a)
    ensures a == b
  {
    if a != [] {
      LexAntisymmetric(a[1..], b[1..]);
      assert a == [a[0]] + a[1..] && b == [b[0]] + b[1..];
    }
  }

  lemma LexIsTotalOrder()
    ensures TotalOrder(LexLe)
  {
    forall a: string, b: string ensures LexLe(a, b) || LexLe(b, a) {
      LexTotal(a, b);
    }
    forall a: string, b: string, c: string | LexLe(a, b) && LexLe(b, c) ensures LexLe(a, c) {
      LexTransitive(a, b, c);
    }
  }

  // ---- a finite set of strings, in order, without repetition ---------------

  ghost function Elements<T(!new)>(s: set<T>): seq<T>
    decreases |s|
  {
    if s == {} then []
    else
      var x :| x in s;
      [x] + Elements(s - {x})
  }

  lemma {:induction false} ElementsExact<T(!new)>(s: set<T>)
    ensures multiset(Elements(s)) == multiset(s)
    decreases |s|
  {
    if s != {} {
      var r := Elements(s);
      var x := r[0];
      assert r == [x] + Elements(s - {x});
      ElementsExact(s - {x});
      assert multiset(s) == multiset(s - {x}) + multiset{x};
    }
  }

  ghost function InOrder(s: set<string>): seq<string> {
    Sort(LexLe, Elements(s))
  }

  lemma InOrderExact(s: set<string>)
    ensures forall x :: x in InOrder(s) <==> x in s
    ensures forall i, j | 0 <= i < j < |InOrder(s)| ::
              LexLe(InOrder(s)[i], InOrder(s)[j]) && InOrder(s)[i] != InOrder(s)[j]
  {
    var r := InOrder(s);
    LexIsTotalOrder();
    SortSorts(LexLe, Elements(s));
    SortPermutes(LexLe, Elements(s));
    ElementsExact(s);
    forall x ensures x in r <==> x in s {
      assert x in r <==> x in multiset(r);
    }
    forall i, j | 0 <= i < j < |r| && r[i] == r[j] ensures false {
      RepeatsCount(r, i, j);
    }
  }

  lemma RepeatsCount<T>(s: seq<T>, i: nat, j: nat)
    requires i < j < |s| && s[i] == s[j]
    ensures multiset(s)[s[i]] >= 2
  {
    assert s == s[..i] + [s[i]] + s[i + 1..j] + [s[j]] + s[j + 1..];
  }

  lemma RemovePermutes<T>(s: seq<T>, k: nat)
    requires k < |s|
    ensures multiset(s[..k] + s[k + 1..]) == multiset(s) - multiset{s[k]}
  {
    assert s == s[..k] + [s[k]] + s[k + 1..];
  }

  lemma DistinctCount<T>(s: seq<T>, x: T)
    requires forall i, j | 0 <= i < j < |s| :: s[i] != s[j]
    ensures multiset(s)[x] <= 1
  {
    if x in s {
      var k :| 0 <= k < |s| && s[k] == x;
      RemovePermutes(s, k);
      assert x !in multiset(s[..k] + s[k + 1..]);
    }
  }

  /** Sorting keeps members, and keeps them distinct. */
  lemma SortKeepsMembers<T(!new)>(le: (T, T) -> bool, s: seq<T>)
    requires forall i, j | 0 <= i < j < |s| :: s[i] != s[j]
    ensures forall x :: x in Sort(le, s) <==> x in s
    ensures forall i, j | 0 <= i < j < |Sort(le, s)| :: Sort(le, s)[i] != Sort(le, s)[j]
  {
    var sorted := Sort(le, s);
    SortPermutes(le, s);
    forall x ensures x in sorted <==> x in s {
      assert x in sorted <==> x in multiset(sorted);
    }
    forall i, j | 0 <= i < j < |sorted| && sorted[i] == sorted[j] ensures false {
      RepeatsCount(sorted, i, j);
      DistinctCount(s, sorted[i]);
    }
  }
}
