/** Total orders, sorting, and the lexicographic order on code sequences. */
module Ordering {

  ghost predicate TotalOrder<T(!new)>(le: (T, T) -> bool) {
    && (forall x, y :: le(x, y) || le(y, x))
    && (forall x, y :: le(x, y) && le(y, x) ==> x == y)
    && (forall x, y, z :: le(x, y) && le(y, z) ==> le(x, z))
  }

  ghost predicate SortedBy<T>(le: (T, T) -> bool, s: seq<T>) {
    forall i, j :: 0 <= i < j < |s| ==> le(s[i], s[j])
  }

  function Insert<T>(le: (T, T) -> bool, x: T, s: seq<T>): seq<T> {
    if s == [] || le(x, s[0]) then [x] + s else [s[0]] + Insert(le, x, s[1..])
  }

  /** What the library sorts called by the modelled code compute. */
  function Sort<T>(le: (T, T) -> bool, s: seq<T>): seq<T> {
    if s == [] then [] else Insert(le, s[0], Sort(le, s[1..]))
  }

  lemma {:induction false} InsertSorts<T(!new)>(le: (T, T) -> bool, x: T, s: seq<T>)
    requires TotalOrder(le) && SortedBy(le, s)
    ensures SortedBy(le, Insert(le, x, s))
    ensures multiset(Insert(le, x, s)) == multiset(s) + multiset{x}
  {
    if s == [] {
    } else if le(x, s[0]) {
      assert forall i :: 0 <= i < |s| ==> le(x, s[i]);
    } else {
      InsertSorts(le, x, s[1..]);
      assert s == [s[0]] + s[1..];
      var rest := Insert(le, x, s[1..]);
      forall i | 0 <= i < |rest| ensures le(s[0], rest[i]) {
        assert rest[i] in multiset(rest);
        assert rest[i] == x || rest[i] in s[1..];
      }
    }
  }

  lemma {:induction false} SortSorts<T(!new)>(le: (T, T) -> bool, s: seq<T>)
    requires TotalOrder(le)
    ensures SortedBy(le, Sort(le, s))
    ensures multiset(Sort(le, s)) == multiset(s)
  {
    if s != [] {
      SortSorts(le, s[1..]);
      InsertSorts(le, s[0], Sort(le, s[1..]));
      assert s == [s[0]] + s[1..];
    }
  }

  lemma LeastFirst<T(!new)>(le: (T, T) -> bool, a: seq<T>, x: T)
    requires TotalOrder(le) && SortedBy(le, a) && x in multiset(a)
    ensures a != [] && le(a[0], x)
  {
    assert x in a;
  }

  lemma SameHead<T(!new)>(le: (T, T) -> bool, a: seq<T>, b: seq<T>)
    requires TotalOrder(le) && SortedBy(le, a) && SortedBy(le, b) && a != [] && b != []
    requires multiset(a) == multiset(b)
    ensures a[0] == b[0]
  {
    assert a[0] in multiset(a) && b[0] in multiset(b);
    LeastFirst(le, a, b[0]);
    LeastFirst(le, b, a[0]);
  }

  lemma SplitHead<T>(le: (T, T) -> bool, s: seq<T>)
    requires SortedBy(le, s) && s != []
    ensures s == [s[0]] + s[1..] && SortedBy(le, s[1..])
    ensures multiset(s[1..]) == multiset(s) - multiset{s[0]}
  {
    assert s == [s[0]] + s[1..];
  }

  lemma {:induction false} SortedUnique<T(!new)>(le: (T, T) -> bool, a: seq<T>, b: seq<T>)
    requires TotalOrder(le) && SortedBy(le, a) && SortedBy(le, b)
    requires multiset(a) == multiset(b)
    ensures a == b
  {
    hide TotalOrder, SortedBy;
    assert |multiset(a)| == |a| && |multiset(b)| == |b|;
    if a != [] {
      SameHead(le, a, b);
      SplitHead(le, a);
      SplitHead(le, b);
      SortedUnique(le, a[1..], b[1..]);
    }
  }

  // ----- The elements of a set in order -----

  ghost function Listing<T>(s: set<T>): (r: seq<T>)
    ensures multiset(r) == multiset(s)
  {
    if s == {} then [] else
      var x :| x in s;
      assert multiset(s) == multiset(s - {x}) + multiset{x};
      [x] + Listing(s - {x})
  }

  /** The elements in ascending order: how a sorted set or map is walked. */
  ghost function SortedSet<T>(le: (T, T) -> bool, s: set<T>): seq<T> {
    Sort(le, Listing(s))
  }

  lemma DistinctOfMultiset<T>(r: seq<T>, s: set<T>)
    requires multiset(r) == multiset(s)
    ensures forall i, j :: 0 <= i < j < |r| ==> r[i] != r[j]
    ensures forall k :: k in r <==> k in s
    ensures |r| == |s|
  {
    forall i, j | 0 <= i < j < |r| ensures r[i] != r[j] {
      var others := r[..i] + r[i + 1..];
      assert r == r[..i] + [r[i]] + r[i + 1..];
      assert multiset(others) == multiset(r) - multiset{r[i]};
      assert others[j - 1] == r[j] && r[j] in multiset(others);
    }
    assert |multiset(r)| == |r|;
    forall k ensures k in r <==> k in s {
      assert k in r <==> k in multiset(r);
    }
  }

  lemma SortedSetMeaning<T(!new)>(le: (T, T) -> bool, s: set<T>)
    requires TotalOrder(le)
    ensures var r := SortedSet(le, s);
            && SortedBy(le, r) && |r| == |s| && multiset(r) == multiset(s)
            && (forall i, j :: 0 <= i < j < |r| ==> r[i] != r[j])
            && forall k :: k in r <==> k in s
  {
    SortSorts(le, Listing(s));
    DistinctOfMultiset(SortedSet(le, s), s);
  }

  method ListSorted<T(!new, ==)>(le: (T, T) -> bool, s: set<T>) returns (r: seq<T>)
    requires TotalOrder(le)
    ensures r == SortedSet(le, s)
  {
    r := [];
    var rest := s;
    while rest != {}
      invariant rest <= s
      invariant multiset(r) == multiset(s - rest)
      decreases rest
    {
      var k :| k in rest;
      assert s - (rest - {k}) == (s - rest) + {k};
      assert multiset((s - rest) + {k}) == multiset(s - rest) + multiset{k};
      r := r + [k];
      rest := rest - {k};
    }
    assert s - rest == s;
    SortSorts(le, r);
    SortedSetMeaning(le, s);
    SortedUnique(le, Sort(le, r), SortedSet(le, s));
    r := Sort(le, r);
  }

  // ----- Texts -----

  /** A text as the sequence of its code units (JavaScript) or bytes (Rust). */
  type Text = seq<nat>

  predicate LexLe(a: Text, b: Text) {
    a == [] || (b != [] && (a[0] < b[0] || (a[0] == b[0] && LexLe(a[1..], b[1..]))))
  }

  lemma LexTotal(a: Text, b: Text)
    ensures LexLe(a, b) || LexLe(b, a)
  {
    if a != [] && b != [] && a[0] == b[0] {
      LexTotal(a[1..], b[1..]);
    }
  }

  lemma LexAntisymmetric(a: Text, b: Text)
    requires LexLe(a, b) && LexLe(b, a)
    ensures a == b
  {
    if a != [] && b != [] {
      LexAntisymmetric(a[1..], b[1..]);
      assert a == [a[0]] + a[1..] && b == [b[0]] + b[1..];
    }
  }

  lemma LexTransitive(a: Text, b: Text, c: Text)
    requires LexLe(a, b) && LexLe(b, c)
    ensures LexLe(a, c)
  {
    if a != [] && a[0] == b[0] && b[0] == c[0] {
      LexTransitive(a[1..], b[1..], c[1..]);
    }
  }

  lemma LexIsTotalOrder()
    ensures TotalOrder(LexLe)
  {
    forall a, b ensures LexLe(a, b) || LexLe(b, a) { LexTotal(a, b); }
    forall a, b | LexLe(a, b) && LexLe(b, a) ensures a == b { LexAntisymmetric(a, b); }
    forall a, b, c | LexLe(a, b) && LexLe(b, c) ensures LexLe(a, c) { LexTransitive(a, b, c); }
  }

  ghost predicate DiffersUpwards(a: Text, b: Text, i: int) {
    0 <= i < |a| && i < |b| && a[..i] == b[..i] && a[i] < b[i]
  }

  /** Dictionary order: a beginning comes first, else the first difference decides. */
  lemma {:induction false} LexLeIff(a: Text, b: Text)
    ensures LexLe(a, b) <==> a <= b || exists i :: DiffersUpwards(a, b, i)
  {
    if a != [] && b != [] && a[0] == b[0] {
      var s, t := a[1..], b[1..];
      LexLeIff(s, t);
      assert a == [a[0]] + s && b == [b[0]] + t;
      if i :| DiffersUpwards(s, t, i) {
        assert a[..i + 1] == [a[0]] + s[..i] && b[..i + 1] == [b[0]] + t[..i];
        assert DiffersUpwards(a, b, i + 1);
      }
      if i :| DiffersUpwards(a, b, i) {
        assert i > 0;
        assert s[..i - 1] == a[..i][1..] && t[..i - 1] == b[..i][1..];
        assert DiffersUpwards(s, t, i - 1);
      }
      assert s <= t <==> a <= b;
    } else if a != [] && b != [] {
      if a[0] < b[0] {
        assert DiffersUpwards(a, b, 0);
      }
      if i :| DiffersUpwards(a, b, i) {
        assert i > 0 ==> a[..i][0] == b[..i][0];
      }
    }
  }
}
