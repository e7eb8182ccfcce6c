/** The histogram of clock_info: deltas of samples, sorted, with runs of equal ones compressed in place. */
module Histogram {
  /** histent_t */
  datatype Entry = Entry(diff: int, count: int)

  // ---- What a histogram says ----

  function Sum(s: seq<int>): int {
    if s == [] then 0 else Sum(s[..|s| - 1]) + s[|s| - 1]
  }

  function Counts(h: seq<Entry>): int {
    if h == [] then 0 else Counts(h[..|h| - 1]) + h[|h| - 1].count
  }

  /** Differences, each as often as it was counted. */
  function Weighted(h: seq<Entry>): int {
    if h == [] then 0 else Weighted(h[..|h| - 1]) + h[|h| - 1].diff * h[|h| - 1].count
  }

  /** How often the entries count a difference. */
  function Counted(h: seq<Entry>, d: int): int {
    if h == [] then 0 else Counted(h[..|h| - 1], d) + if h[|h| - 1].diff == d then h[|h| - 1].count else 0
  }

  /** hcomp_diff */
  function Compare(a: Entry, b: Entry): int {
    if a.diff == b.diff then 0 else if a.diff < b.diff then -1 else 1
  }

  /** As qsort() wants it: a total preorder, and the order of the differences. */
  lemma ComparesDiffs(a: Entry, b: Entry, c: Entry)
    ensures Compare(a, b) == -Compare(b, a) && (Compare(a, b) <= 0 || Compare(b, a) <= 0)
    ensures Compare(a, b) <= 0 && Compare(b, c) <= 0 ==> Compare(a, c) <= 0
    ensures (Compare(a, b) < 0 <==> a.diff < b.diff) && (Compare(a, b) == 0 <==> a.diff == b.diff)
  {}

  /** What qsort() promises of entries, in terms of the comparison. */
  predicate InOrder(h: seq<Entry>) {
    forall i, j | 0 <= i < j < |h| :: Compare(h[i], h[j]) <= 0
  }

  predicate Sorted(s: seq<int>) {
    forall i, j | 0 <= i < j < |s| :: s[i] <= s[j]
  }

  predicate StrictlyIncreasing(h: seq<Entry>) {
    forall i, j | 0 <= i < j < |h| :: h[i].diff < h[j].diff
  }

  predicate Positive(h: seq<Entry>) {
    forall i | 0 <= i < |h| :: h[i].count > 0
  }

  /** `s` without its order: every difference once, in increasing order, with the number of its occurrences. */
  ghost predicate HistogramOf(h: seq<Entry>, s: seq<int>) {
    && StrictlyIncreasing(h) && Positive(h)
    && forall d: int :: Counted(h, d) == multiset(s)[d]
  }

  function Deltas(ns: seq<int>): (d: seq<int>)
    requires |ns| >= 1
    ensures |d| == |ns| - 1
  {
    seq(|ns| - 1, i requires 0 <= i < |ns| - 1 => ns[i + 1] - ns[i])
  }

  /** Entries in which nothing is counted yet. */
  function Uncounted(s: seq<int>): (h: seq<Entry>)
    ensures |h| == |s|
  {
    seq(|s|, i requires 0 <= i < |s| => Entry(s[i], 0))
  }

  /** One more difference behind a sequence whose runs are `h`. */
  function Extended(h: seq<Entry>, d: int): (g: seq<Entry>)
    ensures g != [] && g[|g| - 1].diff == d && |g| <= |h| + 1
  {
    if h != [] && h[|h| - 1].diff == d then h[..|h| - 1] + [Entry(d, h[|h| - 1].count + 1)] else h + [Entry(d, 1)]
  }

  /** The runs of a sequence. */
  function Runs(s: seq<int>): (h: seq<Entry>)
    ensures |h| <= |s| && (s != [] ==> h != [] && h[|h| - 1].diff == s[|s| - 1])
  {
    if s == [] then [] else Extended(Runs(s[..|s| - 1]), s[|s| - 1])
  }

  /** clock_info_t: the samples, one more than there are deltas, and the entries in use. */
  class Info {
    const nsbuf: array<int>
    const hbuf: array<Entry>
    var hbufe: nat

    constructor (nsbuf: array<int>, hbuf: array<Entry>)
      ensures this.nsbuf == nsbuf && this.hbuf == hbuf
    {
      this.nsbuf, this.hbuf, hbufe := nsbuf, hbuf, 0;
    }

    predicate Valid()
      reads this
    {
      1 <= hbuf.Length && nsbuf.Length == hbuf.Length + 1
    }

    /** gen_deltas */
    method GenDeltas()
      requires Valid()
      modifies hbuf
      ensures hbuf[..] == Uncounted(Deltas(nsbuf[..]))
      ensures forall k | 0 <= k < hbuf.Length :: hbuf[k].diff == nsbuf[k + 1] - nsbuf[k] && hbuf[k].count == 0
    {
      var last, n := nsbuf[0], 1;
      while n < nsbuf.Length
        invariant 1 <= n <= nsbuf.Length && last == nsbuf[n - 1]
        invariant forall k | 0 <= k < n - 1 :: hbuf[k] == Entry(nsbuf[k + 1] - nsbuf[k], 0)
      {
        var cur := nsbuf[n];
        hbuf[n - 1] := Entry(cur - last, 0);
        last, n := cur, n + 1;
      }
    }

    /** hsort_diff; the order that qsort() finds is a parameter. */
    method HsortDiff(sorted: seq<int>, ghost s: seq<int>)
      requires hbuf[..] == Uncounted(s) && multiset(sorted) == multiset(s) && InOrder(Uncounted(sorted))
      modifies hbuf
      ensures hbuf[..] == Uncounted(sorted)
    {
      assert |sorted| == |multiset(sorted)| == |multiset(s)| == hbuf.Length;
      forall k | 0 <= k < hbuf.Length {
        hbuf[k] := Entry(sorted[k], 0);
      }
    }

    /** hcoll_diff */
    method HcollDiff(ghost s: seq<int>)
      requires Valid() && hbuf[..] == Uncounted(s)
      modifies this`hbufe, hbuf
      ensures hbufe <= hbuf.Length && hbuf[..hbufe] == Runs(s)
    {
      hide InRun;
      var hpi, hpo, hpe := 0, 0, hbuf.Length;
      FirstRun(hbuf[..], s);
      while hpi < hpe
        invariant 0 <= hpo <= hpi <= hpe && hpo < hpe
        invariant InRun(hbuf[..], s, hpi, hpo)
        decreases hpe - hpi, if hpi < hpe && hbuf[hpi].diff == hbuf[hpo].diff then 0 else 1
      {
        ghost var b := hbuf[..];
        if hbuf[hpi].diff == hbuf[hpo].diff {
          CountNext(b, s, hpi, hpo);
          hbuf[hpo] := Entry(hbuf[hpo].diff, hbuf[hpo].count + 1);
          hpi := hpi + 1;
        } else {
          StartNext(b, s, hpi, hpo);
          hpo := hpo + 1;
          hbuf[hpo] := hbuf[hpi];
        }
      }
      hbufe := hpo + 1;
      AllCounted(hbuf[..], s, hpo);
    }

    /** gen_hist */
    method GenHist(sorted: seq<int>)
      requires Valid() && multiset(sorted) == multiset(Deltas(nsbuf[..])) && InOrder(Uncounted(sorted))
      modifies this`hbufe, hbuf
      ensures hbufe <= hbuf.Length
      ensures var h := hbuf[..hbufe];
              && HistogramOf(h, Deltas(nsbuf[..]))
              && Counts(h) == hbuf.Length && Weighted(h) == nsbuf[nsbuf.Length - 1] - nsbuf[0]
    {
      hide Runs, Weighted, Counts, Counted, Sum, Sorted, InOrder, Uncounted, Deltas, HistogramOf;
      InOrderSorted(sorted);
      GenDeltas();
      ghost var d := Deltas(nsbuf[..]);
      HsortDiff(sorted, d);
      HcollDiff(sorted);
      Compressed(sorted, d);
      Telescopes(nsbuf[..]);
    }
  }

  lemma InOrderSorted(s: seq<int>)
    ensures InOrder(Uncounted(s)) <==> Sorted(s)
  {
    var h := Uncounted(s);
    if InOrder(h) {
      forall i, j | 0 <= i < j < |s|
        ensures s[i] <= s[j]
      {
        assert Compare(h[i], h[j]) <= 0;
      }
    }
  }

  /** The loop of hcoll_diff stands in a run, at `hpo`, or at the start of one in which nothing is counted yet. */
  predicate InRun(b: seq<Entry>, s: seq<int>, hpi: nat, hpo: nat)
    requires |b| == |s| && hpi <= |s| && hpo < |s|
  {
    var h := Runs(s[..hpi]);
    && hpo <= hpi
    && (forall k | hpi <= k < |s| && k > hpo :: b[k] == Entry(s[k], 0))
    && if hpo + 1 == |h| then b[..hpo + 1] == h && hpo < hpi
       else
         && hpi < |s| && hpo == |h| && b[..hpo] == h && b[hpo] == Entry(s[hpi], 0)
         && (h == [] || h[|h| - 1].diff != s[hpi])
  }

  lemma FirstRun(b: seq<Entry>, s: seq<int>)
    requires s != [] && b == Uncounted(s)
    ensures InRun(b, s, 0, 0)
  {
    assert s[..0] == [];
  }

  lemma CountNext(b: seq<Entry>, s: seq<int>, hpi: nat, hpo: nat)
    requires |b| == |s| && hpo <= hpi < |s| && InRun(b, s, hpi, hpo) && b[hpi].diff == b[hpo].diff
    ensures InRun(b[hpo := Entry(b[hpo].diff, b[hpo].count + 1)], s, hpi + 1, hpo)
  {
    hide Runs, Extended;
    RunsStep(s, hpi);
    ExtendedIs(Runs(s[..hpi]), s[hpi], b[..hpo + 1]);
  }

  lemma StartNext(b: seq<Entry>, s: seq<int>, hpi: nat, hpo: nat)
    requires |b| == |s| && hpo <= hpi < |s| && InRun(b, s, hpi, hpo) && b[hpi].diff != b[hpo].diff
    ensures hpo + 1 <= hpi && InRun(b[hpo + 1 := b[hpi]], s, hpi, hpo + 1)
  {
    hide Runs;
  }

  lemma AllCounted(b: seq<Entry>, s: seq<int>, hpo: nat)
    requires |b| == |s| && hpo < |s| && InRun(b, s, |s|, hpo)
    ensures b[..hpo + 1] == Runs(s)
  {
    assert s[..|s|] == s;
  }

  lemma RunsStep(s: seq<int>, i: nat)
    requires i < |s|
    ensures Runs(s[..i + 1]) == Extended(Runs(s[..i]), s[i])
  {
    assert s[..i + 1][..i] == s[..i];
  }

  /** Counting one more at the end of what the loop has in hand. */
  lemma ExtendedIs(h: seq<Entry>, d: int, g: seq<Entry>)
    requires g != [] && g[|g| - 1].diff == d
    requires g == h || (g == h + [Entry(d, 0)] && (h == [] || h[|h| - 1].diff != d))
    ensures Extended(h, d) == g[|g| - 1 := Entry(d, g[|g| - 1].count + 1)]
  {}

  // ---- Runs of a sequence ----

  lemma AddEntry(h: seq<Entry>, e: Entry)
    ensures Counts(h + [e]) == Counts(h) + e.count
    ensures Weighted(h + [e]) == Weighted(h) + e.diff * e.count
    ensures forall d: int :: Counted(h + [e], d) == Counted(h, d) + if e.diff == d then e.count else 0
  {
    assert (h + [e])[..|h|] == h;
  }

  /** One more difference is counted, once. */
  lemma CountsOne(h: seq<Entry>, d: int)
    ensures var g := Extended(h, d);
            && Counts(g) == Counts(h) + 1 && Weighted(g) == Weighted(h) + d
            && forall x: int :: Counted(g, x) == Counted(h, x) + if x == d then 1 else 0
  {
    hide Counts, Weighted, Counted;
    if h != [] && h[|h| - 1].diff == d {
      var k, c := h[..|h| - 1], h[|h| - 1].count;
      AddEntry(k, Entry(d, c + 1));
      AddEntry(k, Entry(d, c));
      assert h == k + [Entry(d, c)];
      assert d * (c + 1) == d * c + d;
    } else {
      AddEntry(h, Entry(d, 1));
    }
  }

  lemma {:induction false} RunsCount(s: seq<int>)
    ensures Counts(Runs(s)) == |s| && Weighted(Runs(s)) == Sum(s)
    ensures forall d: int :: Counted(Runs(s), d) == multiset(s)[d]
    decreases |s|
  {
    hide Counts, Weighted, Counted, Extended, Runs, Sum;
    if s == [] {
      NothingCounted();
    } else {
      var init := s[..|s| - 1];
      RunsCount(init);
      assert s[..|s|] == s == init + [s[|s| - 1]];
      RunsStep(s, |s| - 1);
      CountsOne(Runs(init), s[|s| - 1]);
      SumStep(s);
    }
  }

  lemma NothingCounted()
    ensures Runs([]) == [] && Counts([]) == 0 && Weighted([]) == 0 && Sum([]) == 0
    ensures forall d: int :: Counted([], d) == 0
  {}

  lemma SumStep(s: seq<int>)
    requires s != []
    ensures Sum(s) == Sum(s[..|s| - 1]) + s[|s| - 1]
  {}

  lemma {:induction false} RunsIncrease(s: seq<int>)
    requires Sorted(s)
    ensures StrictlyIncreasing(Runs(s)) && Positive(Runs(s))
    decreases |s|
  {
    if s != [] {
      RunsIncrease(s[..|s| - 1]);
      StillIncreasing(Runs(s[..|s| - 1]), s[|s| - 1]);
    }
  }

  lemma StillIncreasing(h: seq<Entry>, d: int)
    requires StrictlyIncreasing(h) && Positive(h) && (h != [] ==> h[|h| - 1].diff <= d)
    ensures StrictlyIncreasing(Extended(h, d)) && Positive(Extended(h, d))
  {
    var g := Extended(h, d);
    forall i, j | 0 <= i < j < |g|
      ensures g[i].diff < g[j].diff
    {
      if j < |h| {
        assert h[i].diff < h[j].diff;
      } else if i < |h| - 1 {
        assert h[i].diff < h[|h| - 1].diff;
      }
    }
  }

  /** The runs of the sorted deltas are their histogram, and keep their number and their sum. */
  lemma Compressed(sorted: seq<int>, d: seq<int>)
    requires Sorted(sorted) && multiset(sorted) == multiset(d)
    ensures HistogramOf(Runs(sorted), d) && Counts(Runs(sorted)) == |d| && Weighted(Runs(sorted)) == Sum(d)
  {
    hide Runs, Sorted, Sum, Weighted, Counts, Counted;
    RunsCount(sorted);
    RunsIncrease(sorted);
    SameSum(sorted, d);
    assert |sorted| == |multiset(sorted)| == |multiset(d)| == |d|;
  }

  /** An entry of a histogram counts exactly the occurrences of its difference, and none is missing. */
  lemma {:induction false} EntryCounts(h: seq<Entry>, i: nat)
    requires StrictlyIncreasing(h) && i < |h|
    ensures Counted(h, h[i].diff) == h[i].count
    decreases |h|
  {
    var init, n := h[..|h| - 1], |h| - 1;
    if i == n {
      NotCounted(init, h[n].diff);
    } else {
      EntryCounts(init, i);
    }
  }

  lemma {:induction false} NotCounted(h: seq<Entry>, d: int)
    requires forall i | 0 <= i < |h| :: h[i].diff != d
    ensures Counted(h, d) == 0
    decreases |h|
  {
    if h != [] {
      NotCounted(h[..|h| - 1], d);
    }
  }

  /** A histogram has exactly the differences that occur, in increasing order, each with how often it occurs. */
  lemma HistogramEntries(h: seq<Entry>, s: seq<int>)
    requires HistogramOf(h, s)
    ensures forall i | 0 <= i < |h| :: h[i].count == multiset(s)[h[i].diff] > 0
    ensures forall i, j | 0 <= i < j < |h| :: h[i].diff < h[j].diff
    ensures forall d | d in s :: exists i | 0 <= i < |h| :: h[i].diff == d
  {
    hide Counted;
    forall i | 0 <= i < |h|
      ensures h[i].count == multiset(s)[h[i].diff] > 0
    {
      EntryCounts(h, i);
    }
    forall d | d in s
      ensures exists i | 0 <= i < |h| :: h[i].diff == d
    {
      assert Counted(h, d) == multiset(s)[d];
      CountedOccurs(h, d);
    }
  }

  lemma CountedOccurs(h: seq<Entry>, d: int)
    requires Counted(h, d) != 0
    ensures exists i | 0 <= i < |h| :: h[i].diff == d
  {
    if forall i | 0 <= i < |h| :: h[i].diff != d {
      NotCounted(h, d);
    }
  }

  // ---- Sums ----

  lemma {:induction false} SumAppend(a: seq<int>, b: seq<int>)
    ensures Sum(a + b) == Sum(a) + Sum(b)
    decreases |b|
  {
    if b == [] {
      assert a + b == a;
    } else {
      assert (a + b)[..|a + b| - 1] == a + b[..|b| - 1];
      SumAppend(a, b[..|b| - 1]);
    }
  }

  lemma TakenOut(b: seq<int>, j: nat)
    requires j < |b|
    ensures var rest := b[..j] + b[j + 1..];
            Sum(b) == Sum(rest) + b[j] && multiset(rest) == multiset(b) - multiset{b[j]}
  {
    hide Sum;
    SumAppend(b[..j], b[j + 1..]);
    SumAppend(b[..j + 1], b[j + 1..]);
    SumStep(b[..j + 1]);
    assert b == b[..j + 1] + b[j + 1..];
    assert b[..j + 1] == b[..j] + [b[j]];
  }

  lemma {:induction false} SameSum(a: seq<int>, b: seq<int>)
    requires multiset(a) == multiset(b)
    ensures Sum(a) == Sum(b)
    decreases |a|
  {
    assert |multiset(a)| == |a| && |multiset(b)| == |b|;
    hide Sum;
    if a != [] {
      var n := |a| - 1;
      assert a[n] in multiset(b);
      var j :| 0 <= j < |b| && b[j] == a[n];
      TakenOut(b, j);
      TakenOut(a, n);
      assert a[..n] + a[n + 1..] == a[..n];
      SameSum(a[..n], b[..j] + b[j + 1..]);
    } else {
      assert b == [];
    }
  }

  /** The deltas add up to the distance between the first and the last sample. */
  lemma {:induction false} Telescopes(ns: seq<int>)
    requires |ns| >= 1
    ensures Sum(Deltas(ns)) == ns[|ns| - 1] - ns[0]
    decreases |ns|
  {
    if |ns| > 1 {
      Telescopes(ns[..|ns| - 1]);
      var d := Deltas(ns);
      assert d[..|d| - 1] == Deltas(ns[..|ns| - 1]);
    }
  }
}
