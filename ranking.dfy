/** The result entries of `search_all_files` and their ranking:
    `results.sort(key=lambda x: x['match_count'], reverse=True)`.  Python's sort is
    stable, so entries with equal counts keep the order in which the files were
    scanned.  `SortByCount` is that ordering as a function (insertion of each entry
    after every entry whose count is at least its own); `SortByMatchCount` sorts an
    array in place and is proved to produce it. */
module Ranking {
  import opened Matching

  /** One result entry: `{'filename', 'filepath', 'type', 'matches', 'match_count'}`. */
  datatype DocumentResult = DocumentResult(
    filename: string, filepath: string, kind: string, matches: seq<MatchRecord>, matchCount: nat)

  /** Counts never increase along the list. */
  predicate SortedByCount(s: seq<DocumentResult>) {
    forall i, j :: 0 <= i < j < |s| ==> s[i].matchCount >= s[j].matchCount
  }

  /** The entries whose count is `c`, in list order. */
  function WithCount(s: seq<DocumentResult>, c: nat): seq<DocumentResult> {
    if s == [] then []
    else if s[0].matchCount == c then [s[0]] + WithCount(s[1..], c)
    else WithCount(s[1..], c)
  }

  /** `sum(r['match_count'] for r in s)`. */
  function SumCounts(s: seq<DocumentResult>): nat {
    if s == [] then 0 else s[0].matchCount + SumCounts(s[1..])
  }

  /** Places `x` after every entry of `sorted` whose count is at least its own. */
  function Insert(sorted: seq<DocumentResult>, x: DocumentResult): seq<DocumentResult> {
    if sorted == [] then [x]
    else if sorted[0].matchCount >= x.matchCount then [sorted[0]] + Insert(sorted[1..], x)
    else [x] + sorted
  }

  /** The stable descending ordering by count of the scanned entries. */
  function SortByCount(s: seq<DocumentResult>): seq<DocumentResult> {
    if s == [] then []
    else Insert(SortByCount(s[..|s| - 1]), s[|s| - 1])
  }

  // ---------------------------------------------------------------------------

  /** Insertion adds `x` and keeps every other entry. */
  lemma {:induction false} InsertPermutes(sorted: seq<DocumentResult>, x: DocumentResult)
    ensures multiset(Insert(sorted, x)) == multiset(sorted) + multiset{x}
  {
    if sorted != [] && sorted[0].matchCount >= x.matchCount {
      InsertPermutes(sorted[1..], x);
      assert sorted == [sorted[0]] + sorted[1..];
    }
  }

  /** The ranking is a permutation of the scanned entries. */
  lemma {:induction false} SortByCountPermutes(s: seq<DocumentResult>)
    ensures multiset(SortByCount(s)) == multiset(s)
  {
    if s != [] {
      var pre, x := s[..|s| - 1], s[|s| - 1];
      calc {
        multiset(SortByCount(s));
        multiset(Insert(SortByCount(pre), x));
        { InsertPermutes(SortByCount(pre), x); }
        multiset(SortByCount(pre)) + multiset{x};
        { SortByCountPermutes(pre); }
        multiset(pre) + multiset{x};
        { assert pre + [x] == s; }
        multiset(s);
      }
    }
  }

  /** Inserting into a sorted list keeps it sorted. */
  lemma {:induction false} InsertSorted(sorted: seq<DocumentResult>, x: DocumentResult)
    requires SortedByCount(sorted)
    ensures SortedByCount(Insert(sorted, x))
  {
    if sorted != [] && sorted[0].matchCount >= x.matchCount {
      var tail := sorted[1..];
      InsertSorted(tail, x);
      var t := Insert(tail, x);
      InsertPermutes(tail, x);
      forall k | 0 <= k < |t| ensures sorted[0].matchCount >= t[k].matchCount {
        assert t[k] in multiset(t);
        assert t[k] in multiset(tail) || t[k] == x;
        if t[k] in multiset(tail) {
          var m :| 0 <= m < |tail| && tail[m] == t[k];
          assert tail[m] == sorted[m + 1];
        }
      }
    }
  }

  /** The entries with a given count are unchanged by splitting a list in two. */
  lemma {:induction false} WithCountAppend(a: seq<DocumentResult>, b: seq<DocumentResult>, c: nat)
    ensures WithCount(a + b, c) == WithCount(a, c) + WithCount(b, c)
  {
    if a == [] {
      assert a + b == b;
    } else {
      WithCountAppend(a[1..], b, c);
      assert (a + b)[0] == a[0];
      assert (a + b)[1..] == a[1..] + b;
    }
  }

  /** A list with no entry of count `c` has none to keep. */
  lemma {:induction false} WithCountNone(s: seq<DocumentResult>, c: nat)
    requires forall k :: 0 <= k < |s| ==> s[k].matchCount < c
    ensures WithCount(s, c) == []
  {
    if s != [] {
      WithCountNone(s[1..], c);
    }
  }

  /** Insertion puts `x` after every entry of the same count. */
  lemma {:induction false} InsertWithCount(sorted: seq<DocumentResult>, x: DocumentResult, c: nat)
    requires SortedByCount(sorted)
    ensures WithCount(Insert(sorted, x), c) == WithCount(sorted, c) + (if x.matchCount == c then [x] else [])
  {
    if sorted == [] {
    } else if sorted[0].matchCount >= x.matchCount {
      InsertWithCount(sorted[1..], x, c);
      assert ([sorted[0]] + Insert(sorted[1..], x))[1..] == Insert(sorted[1..], x);
    } else {
      assert ([x] + sorted)[1..] == sorted;
      if x.matchCount == c {
        WithCountNone(sorted, c);
      }
    }
  }

  /** The ranking is sorted by count, descending. */
  lemma {:induction false} SortByCountSorted(s: seq<DocumentResult>)
    ensures SortedByCount(SortByCount(s))
  {
    if s != [] {
      var n := |s| - 1;
      SortByCountSorted(s[..n]);
      InsertSorted(SortByCount(s[..n]), s[n]);
    }
  }

  /** The ranking is stable: the entries with count `c` appear in scan order. */
  lemma {:induction false} SortByCountStable(s: seq<DocumentResult>, c: nat)
    ensures WithCount(SortByCount(s), c) == WithCount(s, c)
  {
    if s != [] {
      var pre, x := s[..|s| - 1], s[|s| - 1];
      var last := if x.matchCount == c then [x] else [];
      calc {
        WithCount(SortByCount(s), c);
        WithCount(Insert(SortByCount(pre), x), c);
        { SortByCountSorted(pre); InsertWithCount(SortByCount(pre), x, c); }
        WithCount(SortByCount(pre), c) + last;
        { SortByCountStable(pre, c); }
        WithCount(pre, c) + last;
        { assert [x][1..] == []; }
        WithCount(pre, c) + WithCount([x], c);
        { WithCountAppend(pre, [x], c); assert pre + [x] == s; }
        WithCount(s, c);
      }
    }
  }

  /** Ranking does not change the total number of matches. */
  lemma {:induction false} SumCountsSorted(s: seq<DocumentResult>)
    ensures SumCounts(SortByCount(s)) == SumCounts(s)
  {
    if s != [] {
      var n := |s| - 1;
      SumCountsSorted(s[..n]);
      SumCountsInsert(SortByCount(s[..n]), s[n]);
      assert s == s[..n] + [s[n]];
      SumCountsAppend(s[..n], [s[n]]);
    }
  }

  lemma {:induction false} SumCountsInsert(sorted: seq<DocumentResult>, x: DocumentResult)
    ensures SumCounts(Insert(sorted, x)) == SumCounts(sorted) + x.matchCount
  {
    if sorted != [] && sorted[0].matchCount >= x.matchCount {
      SumCountsInsert(sorted[1..], x);
      assert ([sorted[0]] + Insert(sorted[1..], x))[1..] == Insert(sorted[1..], x);
    } else if sorted != [] {
      assert ([x] + sorted)[1..] == sorted;
    }
  }

  lemma {:induction false} SumCountsAppend(a: seq<DocumentResult>, b: seq<DocumentResult>)
    ensures SumCounts(a + b) == SumCounts(a) + SumCounts(b)
  {
    if a == [] {
      assert a + b == b;
    } else {
      SumCountsAppend(a[1..], b);
      assert (a + b)[1..] == a[1..] + b;
    }
  }

  /** When `x` goes after the first `j` entries and before the rest, insertion is a
      splice at `j`. */
  lemma {:induction false} InsertAt(sorted: seq<DocumentResult>, x: DocumentResult, j: nat)
    requires j <= |sorted|
    requires forall k :: 0 <= k < j ==> sorted[k].matchCount >= x.matchCount
    requires j < |sorted| ==> sorted[j].matchCount < x.matchCount
    ensures Insert(sorted, x) == sorted[..j] + [x] + sorted[j..]
  {
    if j > 0 {
      InsertAt(sorted[1..], x, j - 1);
      assert sorted[1..][..j - 1] == sorted[1..j];
      assert sorted[1..][j - 1..] == sorted[j..];
      assert [sorted[0]] + sorted[1..j] == sorted[..j];
    } else if sorted != [] {
      assert sorted[..0] == [] && sorted[0..] == sorted;
    }
  }

  /** A list that holds `sorted` with `x` spliced in after the entries of count
      at least its own is the insertion of `x`. */
  lemma InsertSplice(sorted: seq<DocumentResult>, x: DocumentResult, j: nat, result: seq<DocumentResult>)
    requires SortedByCount(sorted)
    requires j <= |sorted| && |result| == |sorted| + 1
    requires j > 0 ==> sorted[j - 1].matchCount >= x.matchCount
    requires forall k :: j <= k < |sorted| ==> sorted[k].matchCount < x.matchCount
    requires forall k :: 0 <= k < j ==> result[k] == sorted[k]
    requires result[j] == x
    requires forall k :: j < k < |result| ==> result[k] == sorted[k - 1]
    ensures result == Insert(sorted, x)
  {
    assert forall k :: 0 <= k < j ==> sorted[k].matchCount >= sorted[j - 1].matchCount;
    InsertAt(sorted, x, j);
    var spliced := sorted[..j] + [x] + sorted[j..];
    forall k | 0 <= k < |result| ensures result[k] == spliced[k] {
      if k < j {
        assert spliced[k] == sorted[k];
      } else if k > j {
        assert spliced[k] == sorted[k - 1];
      }
    }
  }

  /** Moves the entries just before position `i` whose count is below `c` one place
      to the right, and returns the hole left where an entry of count `c` belongs. */
  method ShiftSmaller(a: array<DocumentResult>, i: nat, c: nat) returns (j: nat)
    requires i < a.Length
    modifies a
    ensures j <= i
    ensures forall k :: 0 <= k < a.Length && (k < j || i < k) ==> a[k] == old(a[k])
    ensures forall k :: j < k <= i ==> a[k] == old(a[k - 1])
    ensures forall k :: j <= k < i ==> old(a[k]).matchCount < c
    ensures j > 0 ==> old(a[j - 1]).matchCount >= c
  {
    j := i;
    while j > 0 && a[j - 1].matchCount < c
      invariant 0 <= j <= i
      invariant forall k :: 0 <= k < a.Length && (k < j || i < k) ==> a[k] == old(a[k])
      invariant forall k :: j < k <= i ==> a[k] == old(a[k - 1])
      invariant forall k :: j <= k < i ==> old(a[k]).matchCount < c
    {
      assert a[j - 1] == old(a[j - 1]);
      a[j] := a[j - 1];
      j := j - 1;
    }
  }

  /** One step of the insertion sort: with `a[..i]` ranked, moves `a[i]` left past
      the entries of smaller count, so that `a[..i + 1]` is the insertion of it. */
  method InsertLast(a: array<DocumentResult>, i: nat)
    requires i < a.Length
    requires SortedByCount(a[..i])
    modifies a
    ensures a[..i + 1] == Insert(old(a[..i]), old(a[i]))
    ensures a[i + 1..] == old(a[i + 1..])
  {
    ghost var sorted := a[..i];
    var x := a[i];
    var j := ShiftSmaller(a, i, x.matchCount);
    a[j] := x;
    ghost var result := a[..i + 1];
    assert forall k :: 0 <= k < j ==> result[k] == sorted[k];
    assert forall k :: j < k < |result| ==> result[k] == sorted[k - 1];
    InsertSplice(sorted, x, j, result);
    assert a[i + 1..] == old(a[i + 1..]);
  }

  /** `results.sort(key=lambda x: x['match_count'], reverse=True)`, in place, as an
      insertion sort.  What the ranking is (sorted, a permutation, stable) is proved
      of `SortByCount` above. */
  method SortByMatchCount(a: array<DocumentResult>)
    modifies a
    ensures a[..] == SortByCount(old(a[..]))
  {
    ghost var input := a[..];
    for i := 0 to a.Length
      invariant a[..i] == SortByCount(input[..i])
      invariant a[i..] == input[i..]
    {
      SortByCountSorted(input[..i]);
      InsertLast(a, i);
      assert input[..i + 1] == input[..i] + [input[i]];
      assert input[..i + 1][..i] == input[..i];
    }
    assert input[..a.Length] == input;
  }
}
