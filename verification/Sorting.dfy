/** Python's `sorted`: a stable sort under a comparison, the code-point order on
    strings, and the sorted listing of a set of strings. */
module Sorting {

  /** `le` is a total preorder: what `sorted(key=...)` compares with. */
  ghost predicate TotalPreorder<T(!new)>(le: (T, T) -> bool) {
    && (forall x, y :: le(x, y) || le(y, x))
    && (forall x, y, z :: le(x, y) && le(y, z) ==> le(x, z))
  }

  ghost predicate SortedBy<T>(s: seq<T>, le: (T, T) -> bool) {
    forall i, j :: 0 <= i < j < |s| ==> le(s[i], s[j])
  }

  ghost predicate NoDup<T>(s: seq<T>) {
    forall i, j :: 0 <= i < j < |s| ==> s[i] != s[j]
  }

  ghost function Elems<T>(s: seq<T>): set<T> {
    set x | x in s
  }

  lemma {:induction false} NoDupSize<T>(s: seq<T>)
    requires NoDup(s)
    ensures |Elems(s)| == |s|
  {
    if s != [] {
      var k := |s| - 1;
      NoDupSize(s[..k]);
      assert s == s[..k] + [s[k]];
      assert Elems(s) == Elems(s[..k]) + {s[k]};
    }
  }

  /** Puts `x` in front of the first element that is not smaller. */
  function Insert<T>(x: T, s: seq<T>, le: (T, T) -> bool): seq<T> {
    if s == [] then [x]
    else if le(x, s[0]) then [x] + s
    else [s[0]] + Insert(x, s[1..], le)
  }

  /** Stable sort: an element equal to a later one stays in front of it. */
  function Sort<T>(s: seq<T>, le: (T, T) -> bool): seq<T> {
    if s == [] then [] else Insert(s[0], Sort(s[1..], le), le)
  }

  lemma {:induction false} InsertPermutes<T>(x: T, s: seq<T>, le: (T, T) -> bool)
    ensures multiset(Insert(x, s, le)) == multiset(s) + multiset{x}
  {
    if s != [] && !le(x, s[0]) {
      InsertPermutes(x, s[1..], le);
      assert s == [s[0]] + s[1..];
    }
  }

  /** Sorting permutes its input. */
  lemma {:induction false} SortPermutes<T>(s: seq<T>, le: (T, T) -> bool)
    ensures multiset(Sort(s, le)) == multiset(s)
    ensures |Sort(s, le)| == |s|
  {
    if s != [] {
      SortPermutes(s[1..], le);
      InsertPermutes(s[0], Sort(s[1..], le), le);
      assert s == [s[0]] + s[1..];
    }
    assert |Sort(s, le)| == |multiset(Sort(s, le))| == |multiset(s)|;
  }

  lemma {:induction false} InsertMembers<T>(x: T, s: seq<T>, le: (T, T) -> bool, y: T)
    ensures y in Insert(x, s, le) <==> y == x || y in s
  {
    InsertPermutes(x, s, le);
    assert y in Insert(x, s, le) <==> y in multiset(Insert(x, s, le));
    assert y in s <==> y in multiset(s);
  }

  lemma {:induction false} SortMembers<T>(s: seq<T>, le: (T, T) -> bool)
    ensures forall y :: y in Sort(s, le) <==> y in s
  {
    SortPermutes(s, le);
    forall y ensures y in Sort(s, le) <==> y in s {
      assert y in Sort(s, le) <==> y in multiset(Sort(s, le));
      assert y in s <==> y in multiset(s);
    }
  }

  lemma {:induction false} InsertSorts<T(!new)>(x: T, s: seq<T>, le: (T, T) -> bool)
    requires TotalPreorder(le) && SortedBy(s, le)
    ensures SortedBy(Insert(x, s, le), le)
  {
    if s != [] && !le(x, s[0]) {
      var r := Insert(x, s[1..], le);
      InsertSorts(x, s[1..], le);
      forall j | 0 <= j < |r| ensures le(s[0], r[j]) {
        InsertMembers(x, s[1..], le, r[j]);
        if r[j] != x {
          var k :| 0 <= k < |s[1..]| && s[1..][k] == r[j];
          assert s[k + 1] == r[j];
        }
      }
    }
  }

  /** Sorting sorts. */
  lemma {:induction false} SortSorts<T(!new)>(s: seq<T>, le: (T, T) -> bool)
    requires TotalPreorder(le)
    ensures SortedBy(Sort(s, le), le)
  {
    if s != [] {
      SortSorts(s[1..], le);
      InsertSorts(s[0], Sort(s[1..], le), le);
    }
  }

  lemma {:induction false} NoDupFromMultiset<T>(s: seq<T>, t: seq<T>)
    requires multiset(s) == multiset(t) && NoDup(s)
    ensures NoDup(t)
  {
    forall i, j | 0 <= i < j < |t| ensures t[i] != t[j] {
      if t[i] == t[j] {
        assert t == t[..i] + [t[i]] + t[i + 1..j] + [t[j]] + t[j + 1..];
        assert multiset(t)[t[i]] >= 2;
        NoDupCountsOnce(s, t[i]);
      }
    }
  }

  lemma {:induction false} NoDupCountsOnce<T>(s: seq<T>, x: T)
    requires NoDup(s)
    ensures multiset(s)[x] == if x in s then 1 else 0
  {
    if s != [] {
      assert s == [s[0]] + s[1..];
      NoDupCountsOnce(s[1..], x);
      if x == s[0] {
        assert forall k :: 0 <= k < |s[1..]| ==> s[1..][k] == s[k + 1];
      }
    }
  }

  lemma {:induction false} SortKeepsNoDup<T>(s: seq<T>, le: (T, T) -> bool)
    requires NoDup(s)
    ensures NoDup(Sort(s, le))
  {
    SortPermutes(s, le);
    NoDupFromMultiset(s, Sort(s, le));
  }

  lemma {:induction false} InsertBeforeLast<T>(x: T, s: seq<T>, last: T, le: (T, T) -> bool)
    requires le(x, last)
    ensures Insert(x, s + [last], le) == Insert(x, s, le) + [last]
  {
    if s == [] {
      assert s + [last] == [last];
    } else {
      assert (s + [last])[1..] == s[1..] + [last];
      if !le(x, s[0]) {
        InsertBeforeLast(x, s[1..], last, le);
      }
    }
  }

  /** Stability at the end: a last element that nothing exceeds stays last. */
  lemma {:induction false} SortKeepsLast<T>(s: seq<T>, last: T, le: (T, T) -> bool)
    requires forall x :: x in s ==> le(x, last)
    ensures Sort(s + [last], le) == Sort(s, le) + [last]
  {
    if s == [] {
      assert s + [last] == [last];
    } else {
      assert (s + [last])[1..] == s[1..] + [last];
      assert s[0] in s;
      SortKeepsLast(s[1..], last, le);
      InsertBeforeLast(s[0], Sort(s[1..], le), last, le);
    }
  }

  /** x stands somewhere before y. */
  ghost predicate Precedes<T>(s: seq<T>, x: T, y: T) {
    exists i, j :: 0 <= i < j < |s| && s[i] == x && s[j] == y
  }

  lemma {:induction false} InsertPrecedes<T>(x: T, s: seq<T>, le: (T, T) -> bool, y: T)
    requires y in s && le(x, y)
    ensures Precedes(Insert(x, s, le), x, y)
  {
    var r := Insert(x, s, le);
    if le(x, s[0]) {
      var j :| 0 <= j < |s| && s[j] == y;
      assert r[0] == x && r[j + 1] == y;
    } else {
      assert s == [s[0]] + s[1..];
      InsertPrecedes(x, s[1..], le, y);
      PrecedesBehind(s[0], Insert(x, s[1..], le), x, y);
    }
  }

  lemma PrecedesBehind<T>(first: T, s: seq<T>, x: T, y: T)
    requires Precedes(s, x, y)
    ensures Precedes([first] + s, x, y)
  {
    var i, j :| 0 <= i < j < |s| && s[i] == x && s[j] == y;
    assert ([first] + s)[i + 1] == x && ([first] + s)[j + 1] == y;
  }

  lemma {:induction false} InsertKeepsPrecedes<T>(x: T, s: seq<T>, le: (T, T) -> bool, y: T, z: T)
    requires Precedes(s, y, z)
    ensures Precedes(Insert(x, s, le), y, z)
  {
    var i, j :| 0 <= i < j < |s| && s[i] == y && s[j] == z;
    if le(x, s[0]) {
      PrecedesBehind(x, s, y, z);
    } else if i > 0 {
      assert s[1..][i - 1] == y && s[1..][j - 1] == z;
      InsertKeepsPrecedes(x, s[1..], le, y, z);
      PrecedesBehind(s[0], Insert(x, s[1..], le), y, z);
    } else {
      assert s[1..][j - 1] == z;
      InsertMembers(x, s[1..], le, z);
      var k :| 0 <= k < |Insert(x, s[1..], le)| && Insert(x, s[1..], le)[k] == z;
      assert Insert(x, s, le)[0] == y && Insert(x, s, le)[k + 1] == z;
    }
  }

  /** Stability: what is not greater than a later element stays in front of it. */
  lemma {:induction false} SortStable<T>(s: seq<T>, le: (T, T) -> bool, i: nat, j: nat)
    requires i < j < |s| && le(s[i], s[j])
    ensures Precedes(Sort(s, le), s[i], s[j])
  {
    if i > 0 {
      SortStable(s[1..], le, i - 1, j - 1);
      InsertKeepsPrecedes(s[0], Sort(s[1..], le), le, s[i], s[j]);
    } else {
      assert s[1..][j - 1] == s[j];
      SortMembers(s[1..], le);
      InsertPrecedes(s[0], Sort(s[1..], le), le, s[j]);
    }
  }

  /** Two arrangements of the same elements that are both in order, under an order in which
      no two of them tie, are the same. */
  lemma {:induction false} OrderDetermines<T(!new)>(a: seq<T>, b: seq<T>, le: (T, T) -> bool)
    requires NoDup(a) && NoDup(b) && forall x :: x in a <==> x in b
    requires SortedBy(a, le) && SortedBy(b, le)
    requires forall x, y :: x in a && y in a && le(x, y) && le(y, x) ==> x == y
    ensures a == b
  {
    if a == [] {
      assert forall i :: 0 <= i < |b| ==> b[i] in a;
    } else {
      assert a[0] in b;
      SameFirst(a, b, le);
      assert a == [a[0]] + a[1..] && b == [b[0]] + b[1..];
      forall x ensures x in a[1..] <==> x in b[1..] {
        RestMembers(a, x);
        RestMembers(b, x);
      }
      OrderDetermines(a[1..], b[1..], le);
    }
  }

  lemma RestMembers<T>(s: seq<T>, x: T)
    requires NoDup(s) && s != []
    ensures x in s[1..] <==> x in s && x != s[0]
  {
    assert s == [s[0]] + s[1..];
    assert forall i :: 0 < i < |s| ==> s[i] != s[0];
  }

  lemma SameFirst<T(!new)>(a: seq<T>, b: seq<T>, le: (T, T) -> bool)
    requires a != [] && b != [] && forall x :: x in a <==> x in b
    requires SortedBy(a, le) && SortedBy(b, le)
    requires forall x, y :: x in a && y in a && le(x, y) && le(y, x) ==> x == y
    ensures a[0] == b[0]
  {
    assert a[0] in b && b[0] in a;
    var j :| 0 <= j < |b| && b[j] == a[0];
    var i :| 0 <= i < |a| && a[i] == b[0];
    if i > 0 && j > 0 { assert le(a[0], a[i]) && le(b[0], b[j]); }
  }

  /** Code-point order on strings. */
  predicate StrLe(a: string, b: string) {
    a == [] || (b != [] && (a[0] < b[0] || (a[0] == b[0] && StrLe(a[1..], b[1..]))))
  }

  /** The strings agree up to i, where `a` has the smaller character. */
  ghost predicate SmallerAt(a: string, b: string, i: int) {
    0 <= i < |a| && i < |b| && a[..i] == b[..i] && a[i] < b[i]
  }

  lemma Shifted(a: string, b: string, i: int)
    requires a != [] && b != [] && a[0] == b[0] && (SmallerAt(a, b, i) || (i > 0 && SmallerAt(a[1..], b[1..], i - 1)))
    ensures SmallerAt(a, b, i) && i > 0 && SmallerAt(a[1..], b[1..], i - 1)
  {
    if i > 0 {
      if i < |a| && i < |b| {
        assert a[..i] == [a[0]] + a[1..][..i - 1] && b[..i] == [b[0]] + b[1..][..i - 1];
        assert a[..i][1..] == a[1..][..i - 1] && b[..i][1..] == b[1..][..i - 1];
      }
    }
  }

  /** What code-point order means: a prefix, or smaller at the first difference. */
  lemma {:induction false} StrLeMeans(a: string, b: string)
    ensures StrLe(a, b) <==> a <= b || exists i :: SmallerAt(a, b, i)
  {
    if a == [] || b == [] {
      assert a <= b <==> a == [];
    } else if a[0] != b[0] {
      assert SmallerAt(a, b, 0) <==> a[0] < b[0];
    } else {
      StrLeMeans(a[1..], b[1..]);
      assert a == [a[0]] + a[1..] && b == [b[0]] + b[1..];
      forall i | SmallerAt(a, b, i) ensures SmallerAt(a[1..], b[1..], i - 1) { Shifted(a, b, i); }
      forall i | SmallerAt(a[1..], b[1..], i) ensures SmallerAt(a, b, i + 1) { Shifted(a, b, i + 1); }
    }
  }

  lemma {:induction false} StrLeTotal(a: string, b: string)
    ensures StrLe(a, b) || StrLe(b, a)
  {
    if a != [] && b != [] && a[0] == b[0] {
      StrLeTotal(a[1..], b[1..]);
    }
  }

  lemma {:induction false} StrLeTransitive(a: string, b: string, c: string)
    requires StrLe(a, b) && StrLe(b, c)
    ensures StrLe(a, c)
  {
    if a != [] && a[0] == b[0] == c[0] {
      StrLeTransitive(a[1..], b[1..], c[1..]);
    }
  }

  lemma {:induction false} StrLeAntisymmetric(a: string, b: string)
    requires StrLe(a, b) && StrLe(b, a)
    ensures a == b
  {
    if a != [] && b != [] {
      StrLeAntisymmetric(a[1..], b[1..]);
      assert a == [a[0]] + a[1..] && b == [b[0]] + b[1..];
    }
  }

  lemma StrLePreorder()
    ensures TotalPreorder(StrLe)
  {
    forall a, b ensures StrLe(a, b) || StrLe(b, a) { StrLeTotal(a, b); }
    forall a, b, c | StrLe(a, b) && StrLe(b, c) ensures StrLe(a, c) { StrLeTransitive(a, b, c); }
  }

  predicate IsLeast(m: string, s: set<string>) {
    m in s && forall x :: x in s ==> StrLe(m, x)
  }

  lemma {:induction false} LeastExists(s: set<string>)
    requires s != {}
    ensures exists m :: IsLeast(m, s)
  {
    var a :| a in s;
    StrLeTotal(a, a);
    if s == {a} {
      assert IsLeast(a, s);
    } else {
      LeastExists(s - {a});
      var b :| IsLeast(b, s - {a});
      StrLeTotal(a, b);
      var m := if StrLe(a, b) then a else b;
      forall x | x in s ensures StrLe(m, x) {
        if x != a && m == a { StrLeTransitive(a, b, x); }
      }
      assert IsLeast(m, s);
    }
  }

  lemma LeastUnique(m: string, n: string, s: set<string>)
    requires IsLeast(m, s) && IsLeast(n, s)
    ensures m == n
  {
    StrLeAntisymmetric(m, n);
  }

  function Least(s: set<string>): (m: string)
    requires s != {}
    ensures IsLeast(m, s)
  {
    LeastExists(s);
    assert forall a, b :: IsLeast(a, s) && IsLeast(b, s) ==> a == b by {
      forall a, b | IsLeast(a, s) && IsLeast(b, s) ensures a == b { LeastUnique(a, b, s); }
    }
    var m :| m in s && IsLeast(m, s);
    m
  }

  /** `sorted(s)` for a set of strings. */
  function SortedSet(s: set<string>): seq<string>
    decreases |s|
  {
    if s == {} then [] else
      var m := Least(s);
      [m] + SortedSet(s - {m})
  }

  /** The listing holds exactly the members of the set, once each, in order. */
  lemma {:induction false} SortedSetLists(s: set<string>)
    ensures forall x :: x in SortedSet(s) <==> x in s
    ensures NoDup(SortedSet(s)) && SortedBy(SortedSet(s), StrLe)
    decreases |s|
  {
    if s != {} {
      SortedSetLists(s - {Least(s)});
    }
  }
}
