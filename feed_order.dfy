/**
 * The unioned notification row and the order of the feed.
 *
 * The resolver sorts by "sortTime" descending and leaves ties to the
 * database. The model fixes one total order that refines it: newer first,
 * then by kind, then by id, then by earned sats. Every ORDER BY of the
 * query (the three capped sources and the outer union) uses this order.
 */
module FeedOrder {
  import opened Common

  datatype Kind = Reply | Votification | Mention | Invitification

  /** One unioned row: `id::TEXT`, `"sortTime"`, `"earnedSats"` and the `type` tag. */
  datatype Row = Row(id: string, sortTime: int, earnedSats: Option<int>, kind: Kind)

  function KindRank(k: Kind): nat
  {
    match k
    case Reply => 0
    case Votification => 1
    case Mention => 2
    case Invitification => 3
  }

  /** Strict lexicographic order on strings. */
  predicate StrBefore(a: string, b: string)
    decreases |a|
  {
    if |a| == 0 then |b| > 0
    else |b| > 0 && (a[0] < b[0] || (a[0] == b[0] && StrBefore(a[1..], b[1..])))
  }

  predicate SatsBefore(a: Option<int>, b: Option<int>)
  {
    match a
    case None => b.Some?
    case Some(x) => b.Some? && x < b.value
  }

  /** `a` is listed strictly before `b` in the feed. */
  predicate Before(a: Row, b: Row)
  {
    || a.sortTime > b.sortTime
    || (a.sortTime == b.sortTime && KindRank(a.kind) < KindRank(b.kind))
    || (a.sortTime == b.sortTime && a.kind == b.kind && StrBefore(a.id, b.id))
    || (a.sortTime == b.sortTime && a.kind == b.kind && a.id == b.id
        && SatsBefore(a.earnedSats, b.earnedSats))
  }

  /** `a` is listed no later than `b`. */
  predicate Le(a: Row, b: Row)
  {
    a == b || Before(a, b)
  }

  lemma {:induction false} StrBeforeIrreflexive(a: string)
    ensures !StrBefore(a, a)
    decreases |a|
  {
    if |a| > 0 {
      StrBeforeIrreflexive(a[1..]);
    }
  }

  lemma {:induction false} StrBeforeTransitive(a: string, b: string, c: string)
    requires StrBefore(a, b) && StrBefore(b, c)
    ensures StrBefore(a, c)
    decreases |a|
  {
    if |a| > 0 && a[0] == b[0] && b[0] == c[0] {
      StrBeforeTransitive(a[1..], b[1..], c[1..]);
    }
  }

  lemma {:induction false} StrBeforeTotal(a: string, b: string)
    ensures a == b || StrBefore(a, b) || StrBefore(b, a)
    decreases |a|
  {
    if |a| > 0 && |b| > 0 && a[0] == b[0] {
      StrBeforeTotal(a[1..], b[1..]);
      if a[1..] == b[1..] {
        assert a == [a[0]] + a[1..] && b == [b[0]] + b[1..];
      }
    }
  }

  lemma {:induction false} StrBeforeAsymmetric(a: string, b: string)
    requires StrBefore(a, b)
    ensures !StrBefore(b, a)
  {
    if StrBefore(b, a) {
      StrBeforeTransitive(a, b, a);
      StrBeforeIrreflexive(a);
    }
  }

  lemma BeforeIrreflexive(a: Row)
    ensures !Before(a, a)
  {
    StrBeforeIrreflexive(a.id);
  }

  lemma BeforeTransitive(a: Row, b: Row, c: Row)
    requires Before(a, b) && Before(b, c)
    ensures Before(a, c)
  {
    if a.sortTime == b.sortTime == c.sortTime && a.kind == b.kind == c.kind {
      if StrBefore(a.id, b.id) && StrBefore(b.id, c.id) {
        StrBeforeTransitive(a.id, b.id, c.id);
      }
    }
  }

  /** Any two rows are comparable: the order is total. */
  lemma BeforeTotal(a: Row, b: Row)
    ensures a == b || Before(a, b) || Before(b, a)
  {
    StrBeforeTotal(a.id, b.id);
  }

  lemma LeTransitive(a: Row, b: Row, c: Row)
    requires Le(a, b) && Le(b, c)
    ensures Le(a, c)
  {
    if a != b && b != c {
      BeforeTransitive(a, b, c);
    }
  }

  lemma LeAntisymmetric(a: Row, b: Row)
    requires Le(a, b) && Le(b, a)
    ensures a == b
  {
    if a != b {
      BeforeTransitive(a, b, a);
      BeforeIrreflexive(a);
    }
  }

  /** The fixed order refines the query's `ORDER BY "sortTime" DESC`. */
  lemma LeNewerFirst(a: Row, b: Row)
    requires Le(a, b)
    ensures a.sortTime >= b.sortTime
  {
  }

  /** Listed in feed order (hence non-increasing in sortTime). */
  ghost predicate Sorted(s: seq<Row>)
  {
    forall i, j :: 0 <= i < j < |s| ==> Le(s[i], s[j])
  }

  /** Every row of `s` may be listed after `x`. */
  ghost predicate FirstOf(x: Row, s: seq<Row>)
  {
    forall i :: 0 <= i < |s| ==> Le(x, s[i])
  }

  lemma FirstOfMultiset(x: Row, s: seq<Row>, t: seq<Row>)
    requires FirstOf(x, s) && multiset(t) <= multiset(s)
    ensures FirstOf(x, t)
  {
    forall i | 0 <= i < |t| ensures Le(x, t[i]) {
      assert t[i] in multiset(t);
      assert t[i] in multiset(s);
      var j :| 0 <= j < |s| && s[j] == t[i];
    }
  }

  lemma SortedTail(s: seq<Row>)
    requires Sorted(s) && s != []
    ensures FirstOf(s[0], s[1..]) && Sorted(s[1..])
  {
  }

  /** A row listed no later than the head of a sorted sequence comes before all of it. */
  lemma FirstOfSorted(x: Row, s: seq<Row>)
    requires Sorted(s) && s != [] && Le(x, s[0])
    ensures FirstOf(x, s)
  {
    forall i | 0 <= i < |s| ensures Le(x, s[i]) {
      if i > 0 { LeTransitive(x, s[0], s[i]); }
    }
  }

  lemma FirstOfConcat(x: Row, s: seq<Row>, t: seq<Row>)
    requires FirstOf(x, s) && FirstOf(x, t)
    ensures FirstOf(x, s + t)
  {
    forall i | 0 <= i < |s + t| ensures Le(x, (s + t)[i]) {
      if i >= |s| { assert (s + t)[i] == t[i - |s|]; }
    }
  }

  lemma ConsSorted(x: Row, s: seq<Row>)
    requires FirstOf(x, s) && Sorted(s)
    ensures Sorted([x] + s)
  {
    forall i, j | 0 <= i < j < |[x] + s| ensures Le(([x] + s)[i], ([x] + s)[j]) {
      assert ([x] + s)[j] == s[j - 1];
      if i > 0 { assert ([x] + s)[i] == s[i - 1]; }
    }
  }

  lemma MultisetTail(s: seq<Row>)
    requires s != []
    ensures multiset(s[1..]) == multiset(s) - multiset{s[0]}
  {
    assert s == [s[0]] + s[1..];
  }

  /** The head of a sorted sequence comes no later than any of its rows. */
  lemma HeadFirst(s: seq<Row>, y: Row)
    requires Sorted(s) && y in s
    ensures Le(s[0], y)
  {
    var i :| 0 <= i < |s| && s[i] == y;
    if i > 0 { assert Le(s[0], s[i]); }
  }

  function Insert(x: Row, s: seq<Row>): (r: seq<Row>)
    ensures |r| == |s| + 1
  {
    if s == [] then [x]
    else if Le(x, s[0]) then [x] + s
    else [s[0]] + Insert(x, s[1..])
  }

  lemma {:induction false} InsertMultiset(x: Row, s: seq<Row>)
    ensures multiset(Insert(x, s)) == multiset(s) + multiset{x}
  {
    if s != [] && !Le(x, s[0]) {
      assert s == [s[0]] + s[1..];
      InsertMultiset(x, s[1..]);
    }
  }

  lemma {:induction false} InsertSorted(x: Row, s: seq<Row>)
    requires Sorted(s)
    ensures Sorted(Insert(x, s))
  {
    if s == [] {
    } else if Le(x, s[0]) {
      forall j | 0 <= j < |s| ensures Le(x, s[j]) {
        if j > 0 { LeTransitive(x, s[0], s[j]); }
      }
    } else {
      InsertSorted(x, s[1..]);
      var rest := Insert(x, s[1..]);
      InsertMultiset(x, s[1..]);
      assert s == [s[0]] + s[1..];
      BeforeTotal(x, s[0]);
      assert FirstOf(s[0], s[1..] + [x]);
      FirstOfMultiset(s[0], s[1..] + [x], rest);
    }
  }

  /** The rows of `s` in feed order (insertion sort). */
  function Sort(s: seq<Row>): (r: seq<Row>)
    ensures |r| == |s|
  {
    if s == [] then []
    else Insert(s[0], Sort(s[1..]))
  }

  /** Sorting only reorders: the same rows, each as often. */
  lemma {:induction false} SortMultiset(s: seq<Row>)
    ensures multiset(Sort(s)) == multiset(s)
  {
    if s != [] {
      assert s == [s[0]] + s[1..];
      SortMultiset(s[1..]);
      InsertMultiset(s[0], Sort(s[1..]));
    }
  }

  lemma {:induction false} SortIsSorted(s: seq<Row>)
    ensures Sorted(Sort(s))
  {
    if s != [] {
      SortIsSorted(s[1..]);
      InsertSorted(s[0], Sort(s[1..]));
    }
  }

  /** Two sorted arrangements of the same rows start with the same row. */
  lemma SameHead(a: seq<Row>, b: seq<Row>)
    requires Sorted(a) && Sorted(b) && multiset(a) == multiset(b) && a != []
    ensures b != [] && a[0] == b[0]
  {
    assert a[0] in multiset(b);
    assert b[0] in multiset(a);
    HeadFirst(a, b[0]);
    HeadFirst(b, a[0]);
    LeAntisymmetric(a[0], b[0]);
  }

  /** A sorted sequence is determined by its rows: the order leaves no tie open. */
  lemma {:induction false} SortedUnique(a: seq<Row>, b: seq<Row>)
    requires Sorted(a) && Sorted(b) && multiset(a) == multiset(b)
    ensures a == b
    decreases |a|
  {
    if a != [] {
      SameHead(a, b);
      MultisetTail(a);
      MultisetTail(b);
      SortedTail(a);
      SortedTail(b);
      SortedUnique(a[1..], b[1..]);
      assert a == [a[0]] + a[1..] && b == [b[0]] + b[1..];
    }
  }

  /** Sorting depends only on which rows are present, not on their input order. */
  lemma SortPermutation(s: seq<Row>, t: seq<Row>)
    requires multiset(s) == multiset(t)
    ensures Sort(s) == Sort(t)
  {
    SortIsSorted(s);
    SortIsSorted(t);
    SortMultiset(s);
    SortMultiset(t);
    SortedUnique(Sort(s), Sort(t));
  }

  lemma SortSorted(s: seq<Row>)
    requires Sorted(s)
    ensures Sort(s) == s
  {
    SortIsSorted(s);
    SortMultiset(s);
    SortedUnique(Sort(s), s);
  }

  /** The first `k` elements, or all when there are fewer: SQL `LIMIT k`. */
  function Take<T>(s: seq<T>, k: nat): (r: seq<T>)
    ensures |r| == if k < |s| then k else |s|
    ensures r <= s
  {
    if k < |s| then s[..k] else s
  }

  /** Everything after the first `k` elements: SQL `OFFSET k`. */
  function Drop<T>(s: seq<T>, k: nat): (r: seq<T>)
    ensures |r| == if k < |s| then |s| - k else 0
    ensures forall i :: 0 <= i < |r| ==> r[i] == s[k + i]
  {
    if k < |s| then s[k..] else []
  }

  /** `OFFSET offset LIMIT limit`. */
  function Window<T>(s: seq<T>, offset: nat, limit: nat): (r: seq<T>)
    ensures |r| == if |s| <= offset then 0 else if |s| - offset < limit then |s| - offset else limit
    ensures forall i :: 0 <= i < |r| ==> r[i] == s[offset + i]
  {
    Take(Drop(s, offset), limit)
  }

  lemma SortedPrefix(s: seq<Row>, k: nat)
    requires Sorted(s)
    ensures Sorted(Take(s, k))
  {
  }

  lemma SortedWindow(s: seq<Row>, offset: nat, limit: nat)
    requires Sorted(s)
    ensures Sorted(Window(s, offset, limit))
  {
    var d := Drop(s, offset);
    assert Sorted(d) by {
      forall i, j | 0 <= i < j < |d| ensures Le(d[i], d[j]) {
        assert d[i] == s[offset + i] && d[j] == s[offset + j];
      }
    }
  }

  /** A page of the window depends only on the first `offset + limit` rows. */
  lemma WindowOfPrefix<T>(s: seq<T>, offset: nat, limit: nat)
    ensures Window(s, offset, limit) == Window(Take(s, offset + limit), offset, limit)
  {
  }

  /** Two sequences that agree on their first `offset + limit` elements have the same window. */
  lemma WindowAgrees<T>(s: seq<T>, t: seq<T>, offset: nat, limit: nat, k: nat)
    requires k == offset + limit
    requires Take(s, k) == Take(t, k)
    ensures Window(s, offset, limit) == Window(t, offset, limit)
  {
    WindowOfPrefix(s, offset, limit);
    WindowOfPrefix(t, offset, limit);
  }

  /**
   * Consecutive windows tile the sequence: the rest from `offset` is the
   * window followed by the rest from `k`, and nothing is left after a
   * window that comes back short.
   */
  lemma DropSplit<T>(s: seq<T>, offset: nat, limit: nat, k: nat)
    requires k == offset + limit
    ensures Drop(s, offset) == Window(s, offset, limit) + Drop(s, k)
    ensures |Window(s, offset, limit)| < limit ==> Drop(s, k) == []
  {
    if offset < |s| {
      var d := s[offset..];
      assert Drop(s, offset) == d;
      if limit < |d| {
        assert d[..limit] + d[limit..] == d;
        assert d[limit..] == s[k..];
      }
    }
  }

  /**
   * What a reader collects by taking at most `n` windows of `limit` rows
   * of `f` from `offset` on, stopping after the first short window.
   */
  function Pages<T>(f: seq<T>, offset: nat, limit: nat, n: nat): seq<T>
    decreases n
  {
    if n == 0 then []
    else
      var w := Window(f, offset, limit);
      if |w| == limit then w + Pages(f, offset + limit, limit, n - 1) else w
  }

  lemma PagesStep<T>(f: seq<T>, offset: nat, limit: nat, n: nat, k: nat)
    requires n > 0 && k == offset + limit
    ensures Pages(f, offset, limit, n)
            == if |Window(f, offset, limit)| == limit
               then Window(f, offset, limit) + Pages(f, k, limit, n - 1)
               else Window(f, offset, limit)
  {
  }

  /** Reading window after window yields every element from `offset` on, once and in order. */
  lemma {:induction false} PagesCover<T>(f: seq<T>, offset: nat, limit: nat, n: nat)
    requires limit > 0 && |Drop(f, offset)| < n * limit
    ensures Pages(f, offset, limit, n) == Drop(f, offset)
    decreases n
  {
    assert n != 0;
    var k := offset + limit;
    DropSplit(f, offset, limit, k);
    if |Window(f, offset, limit)| == limit {
      LessPage(|Drop(f, k)|, n, limit);
      PagesCover(f, k, limit, n - 1);
    }
  }

  /** Arithmetic step: one window fewer to go, one read fewer needed. */
  lemma LessPage(rest: nat, n: nat, limit: nat)
    requires n > 0 && rest + limit < n * limit
    ensures rest < (n - 1) * limit
  {
    assert (n - 1) * limit == n * limit - limit;
  }

  /** Merge of two sorted sequences. */
  function Merge(a: seq<Row>, b: seq<Row>): (r: seq<Row>)
    ensures |r| == |a| + |b|
    decreases |a| + |b|
  {
    if a == [] then b
    else if b == [] then a
    else if Le(a[0], b[0]) then [a[0]] + Merge(a[1..], b)
    else [b[0]] + Merge(a, b[1..])
  }

  lemma {:induction false} MergeMultiset(a: seq<Row>, b: seq<Row>)
    ensures multiset(Merge(a, b)) == multiset(a) + multiset(b)
    decreases |a| + |b|
  {
    if a != [] && b != [] {
      assert a == [a[0]] + a[1..] && b == [b[0]] + b[1..];
      if Le(a[0], b[0]) {
        MergeMultiset(a[1..], b);
      } else {
        MergeMultiset(a, b[1..]);
      }
    }
  }

  lemma {:induction false} MergeSorted(a: seq<Row>, b: seq<Row>)
    requires Sorted(a) && Sorted(b)
    ensures Sorted(Merge(a, b))
    decreases |a| + |b|
  {
    if a != [] && b != [] {
      SortedTail(a);
      SortedTail(b);
      if Le(a[0], b[0]) {
        MergeSorted(a[1..], b);
        MergeMultiset(a[1..], b);
        FirstOfSorted(a[0], b);
        FirstOfConcat(a[0], a[1..], b);
        FirstOfMultiset(a[0], a[1..] + b, Merge(a[1..], b));
        ConsSorted(a[0], Merge(a[1..], b));
      } else {
        BeforeTotal(a[0], b[0]);
        assert a == [a[0]] + a[1..];
        MergeSorted(a, b[1..]);
        MergeMultiset(a, b[1..]);
        FirstOfSorted(b[0], a);
        FirstOfConcat(b[0], a, b[1..]);
        FirstOfMultiset(b[0], a + b[1..], Merge(a, b[1..]));
        ConsSorted(b[0], Merge(a, b[1..]));
      }
    }
  }

  /** Sorting a concatenation merges the two sorted halves. */
  lemma SortConcat(a: seq<Row>, b: seq<Row>)
    ensures Sort(a + b) == Merge(Sort(a), Sort(b))
  {
    SortIsSorted(a);
    SortIsSorted(b);
    SortIsSorted(a + b);
    MergeSorted(Sort(a), Sort(b));
    MergeMultiset(Sort(a), Sort(b));
    SortMultiset(a);
    SortMultiset(b);
    SortMultiset(a + b);
    SortedUnique(Sort(a + b), Merge(Sort(a), Sort(b)));
  }

  /**
   * The first `k` rows of a merge never reach beyond the first `j >= k`
   * rows of either side.
   */
  lemma {:induction false} MergeTake(a: seq<Row>, b: seq<Row>, k: nat, j: nat)
    requires k <= j
    ensures Take(Merge(a, b), k) == Take(Merge(Take(a, j), b), k)
    decreases |a| + |b|
  {
    if k == 0 || a == [] {
    } else if b == [] {
    } else {
      var a' := Take(a, j);
      assert a'[0] == a[0] && a'[1..] == Take(a[1..], j - 1);
      if Le(a[0], b[0]) {
        MergeTake(a[1..], b, k - 1, j - 1);
        assert Merge(a, b) == [a[0]] + Merge(a[1..], b);
        assert Merge(a', b) == [a[0]] + Merge(a'[1..], b);
      } else {
        MergeTake(a, b[1..], k - 1, j);
        assert Merge(a, b) == [b[0]] + Merge(a, b[1..]);
        assert Merge(a', b) == [b[0]] + Merge(a', b[1..]);
      }
    }
  }

  /** What a source query returns: its rows in feed order, `LIMIT k`. */
  function Cap(s: seq<Row>, k: nat): (r: seq<Row>)
    ensures |r| <= k && |r| <= |s|
    ensures |s| >= k ==> |r| == k
    ensures multiset(r) <= multiset(s)
    ensures |s| <= k ==> multiset(r) == multiset(s)
  {
    var t := Sort(s);
    SortMultiset(s);
    assert t == Take(t, k) + t[|Take(t, k)|..];
    assert multiset(t) == multiset(Take(t, k)) + multiset(t[|Take(t, k)|..]);
    Take(t, k)
  }

  lemma CapSorted(s: seq<Row>, k: nat)
    ensures Sorted(Cap(s, k))
  {
    SortIsSorted(s);
    SortedPrefix(Sort(s), k);
  }

  /** A capped source keeps its newest rows: nothing it drops precedes anything it keeps. */
  lemma CapKeepsFirst(s: seq<Row>, k: nat, x: Row, y: Row)
    requires x in Cap(s, k)
    requires y in multiset(s) - multiset(Cap(s, k))
    ensures Le(x, y)
  {
    var t := Sort(s);
    SortIsSorted(s);
    SortMultiset(s);
    var kept := Take(t, k);
    var dropped := t[|kept|..];
    assert t == kept + dropped;
    assert multiset(t) == multiset(kept) + multiset(dropped);
    assert y in multiset(dropped);
    assert y in dropped;
    var i :| 0 <= i < |kept| && kept[i] == x;
    var j :| 0 <= j < |dropped| && dropped[j] == y;
    assert t[i] == x && t[|kept| + j] == y;
    assert i < |kept| + j;
  }

  /**
   * Capping one part of a union at `k` rows does not change the union's
   * first `k` rows in feed order.
   */
  lemma CapPreservesTop(a: seq<Row>, rest: seq<Row>, k: nat)
    ensures Take(Sort(Cap(a, k) + rest), k) == Take(Sort(a + rest), k)
  {
    SortConcat(a, rest);
    SortConcat(Cap(a, k), rest);
    CapSorted(a, k);
    SortSorted(Cap(a, k));
    SortIsSorted(a);
    SortIsSorted(rest);
    MergeTake(Sort(a), Sort(rest), k, k);
  }

  /** Moving the third of four parts to the front does not change the sort. */
  lemma SortRotate(x: seq<Row>, y: seq<Row>, z: seq<Row>, w: seq<Row>)
    ensures Sort(x + y + z + w) == Sort(z + (x + y + w))
  {
    assert multiset(x + y + z + w) == multiset(x) + multiset(y) + multiset(z) + multiset(w);
    assert multiset(z + (x + y + w)) == multiset(z) + multiset(x) + multiset(y) + multiset(w);
    SortPermutation(x + y + z + w, z + (x + y + w));
  }

  /** Swapping the heads of two unions of three parts does not change the sort. */
  lemma SortSwapFront(x: seq<Row>, y: seq<Row>, z: seq<Row>, w: seq<Row>)
    ensures Sort(x + (y + z + w)) == Sort(y + (x + z + w))
  {
    assert multiset(x + (y + z + w)) == multiset(x) + multiset(y) + multiset(z) + multiset(w);
    assert multiset(y + (x + z + w)) == multiset(x) + multiset(y) + multiset(z) + multiset(w);
    SortPermutation(x + (y + z + w), y + (x + z + w));
  }

  lemma SortSwapInner(x: seq<Row>, y: seq<Row>, z: seq<Row>, w: seq<Row>)
    ensures Sort(x + (y + z + w)) == Sort(x + (z + y + w))
  {
    assert multiset(x + (y + z + w)) == multiset(x) + multiset(y) + multiset(z) + multiset(w);
    assert multiset(x + (z + y + w)) == multiset(x) + multiset(y) + multiset(z) + multiset(w);
    SortPermutation(x + (y + z + w), x + (z + y + w));
  }

  lemma SortRegroup(x: seq<Row>, y: seq<Row>, z: seq<Row>, w: seq<Row>)
    ensures Sort(x + (y + z + w)) == Sort(x + y + z + w)
  {
    assert multiset(x + (y + z + w)) == multiset(x) + multiset(y) + multiset(z) + multiset(w);
    assert multiset(x + y + z + w) == multiset(x) + multiset(y) + multiset(z) + multiset(w);
    SortPermutation(x + (y + z + w), x + y + z + w);
  }

  /** Capping the first three parts of a four-part union at `k` rows each keeps its first `k` rows. */
  lemma CapsPreserveTop(a: seq<Row>, b: seq<Row>, m: seq<Row>, v: seq<Row>, k: nat)
    ensures Take(Sort(Cap(a, k) + Cap(b, k) + Cap(m, k) + v), k) == Take(Sort(a + b + m + v), k)
  {
    var a', b', m' := Cap(a, k), Cap(b, k), Cap(m, k);
    // bring the Mention part to the front and lift its cap
    SortRotate(a', b', m', v);
    assert Take(Sort(a' + b' + m' + v), k) == Take(Sort(m' + (a' + b' + v)), k);
    CapPreservesTop(m, a' + b' + v, k);
    assert Take(Sort(m' + (a' + b' + v)), k) == Take(Sort(m + (a' + b' + v)), k);
    // then the Votification part
    SortSwapFront(m, b', a', v);
    assert Sort(m + (b' + a' + v)) == Sort(b' + (m + a' + v));
    SortSwapInner(m, a', b', v);
    CapPreservesTop(b, m + a' + v, k);
    assert Take(Sort(b' + (m + a' + v)), k) == Take(Sort(b + (m + a' + v)), k);
    // then the Reply part
    SortSwapFront(b, a', m, v);
    assert Sort(b + (a' + m + v)) == Sort(a' + (b + m + v));
    SortSwapInner(b, m, a', v);
    CapPreservesTop(a, b + m + v, k);
    assert Take(Sort(a' + (b + m + v)), k) == Take(Sort(a + (b + m + v)), k);
    SortRegroup(a, b, m, v);
    assert Take(Sort(a' + b' + m' + v), k) == Take(Sort(a + b + m + v), k);
  }

  /**
   * Capping the first three parts of a four-part union at `k = offset + limit`
   * rows each leaves the window `OFFSET offset LIMIT limit` unchanged.
   */
  lemma CapsPreserveWindow(a: seq<Row>, b: seq<Row>, m: seq<Row>, v: seq<Row>, offset: nat, limit: nat, k: nat)
    requires k == offset + limit
    ensures Window(Sort(Cap(a, k) + Cap(b, k) + Cap(m, k) + v), offset, limit)
            == Window(Sort(a + b + m + v), offset, limit)
  {
    CapsPreserveTop(a, b, m, v, k);
    WindowAgrees(Sort(Cap(a, k) + Cap(b, k) + Cap(m, k) + v), Sort(a + b + m + v), offset, limit, k);
  }

}
