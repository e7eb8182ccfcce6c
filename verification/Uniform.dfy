/** arc4random_uniform: rejection sampling, exactly uniform. */
module Uniform {
  import opened Bytes
  import opened Arc4Random

  const DRAWS: nat := 0x1_0000_0000

  /** `-upper_bound % upper_bound` on 32-bit unsigned integers: the draws below it are rejected. */
  function Min(bound: u32): (m: nat)
    requires bound >= 2
    ensures m < bound
  {
    (DRAWS - bound) % bound
  }

  /** The integers from `lo` up to `hi` with remainder `v`. */
  function WithRemainder(lo: nat, hi: nat, b: nat, v: nat): set<int>
    requires b > 0
  {
    set r: int | lo <= r < hi && r % b == v
  }

  /** The accepted draws that give `v`. */
  function Giving(bound: u32, v: nat): set<int>
    requires bound >= 2
  {
    WithRemainder(Min(bound), DRAWS, bound, v)
  }

  lemma Distributes(b: nat, p: int, d: nat)
    ensures b * (p + d) == b * p + b * d && b * d >= 0
  {}

  lemma MulGrows(b: nat, p: int, q: int)
    requires p < q
    ensures b * p + b <= b * q
  {
    Distributes(b, p, 1);
    Distributes(b, p + 1, q - (p + 1));
  }

  lemma DivUnique(b: nat, q: int, v: nat, k: int, w: nat)
    requires v < b && w < b && b * q + v == b * k + w
    ensures q == k && v == w
  {
    if q < k {
      MulGrows(b, q, k);
    } else if k < q {
      MulGrows(b, k, q);
    }
  }

  lemma ModOf(b: nat, q: int, v: nat)
    requires v < b
    ensures (b * q + v) % b == v
  {
    var x := b * q + v;
    DivUnique(b, q, v, x / b, x % b);
  }

  lemma FirstWith(a: nat, b: nat, v: nat) returns (r0: nat)
    requires v < b
    ensures a <= r0 < a + b && r0 % b == v
  {
    var p := b * (a / b);
    assert a == p + a % b;
    if v >= a % b {
      r0 := p + v;
      ModOf(b, a / b, v);
    } else {
      r0 := p + b + v;
      ModOf(b, a / b + 1, v);
      assert b * (a / b + 1) == p + b;
    }
  }

  /** Any `b` consecutive integers hold exactly one with remainder `v`. */
  lemma OnePerPeriod(a: nat, b: nat, v: nat) returns (r0: nat)
    requires v < b
    ensures a <= r0 < a + b && r0 % b == v
    ensures forall r: int | a <= r < a + b && r % b == v :: r == r0
  {
    r0 := FirstWith(a, b, v);
    forall r: int | a <= r < a + b && r % b == v
      ensures r == r0
    {
      SamePeriod(a, b, v, r, r0);
    }
  }

  lemma SamePeriod(a: nat, b: nat, v: nat, r: int, s: int)
    requires v < b && a <= r < a + b && a <= s < a + b && r % b == v && s % b == v
    ensures r == s
  {
    if r / b < s / b {
      MulGrows(b, r / b, s / b);
    } else if s / b < r / b {
      MulGrows(b, s / b, r / b);
    }
  }

  lemma {:induction false} CountPeriods(lo: nat, b: nat, k: nat, v: nat)
    requires v < b
    ensures |WithRemainder(lo, lo + b * k, b, v)| == k
  {
    if k == 0 {
      assert WithRemainder(lo, lo, b, v) == {};
    } else {
      var mid := lo + b * (k - 1);
      CountPeriods(lo, b, k - 1, v);
      assert mid + b == lo + b * k;
      AnotherPeriod(lo, mid, b, v);
    }
  }

  lemma AnotherPeriod(lo: nat, mid: nat, b: nat, v: nat)
    requires v < b && lo <= mid
    ensures |WithRemainder(lo, mid + b, b, v)| == |WithRemainder(lo, mid, b, v)| + 1
  {
    var r0 := OnePerPeriod(mid, b, v);
    assert WithRemainder(lo, mid + b, b, v) == WithRemainder(lo, mid, b, v) + {r0};
  }

  /** The rejected draws leave a whole number of periods. */
  lemma AcceptedSpan(bound: u32)
    requires bound >= 2
    ensures 0x1_0000_0000 - Min(bound) == bound * (0x1_0000_0000 / bound)
  {
    var b: nat := bound;
    var q, m := DRAWS / b, DRAWS % b;
    assert DRAWS - b == b * (q - 1) + m;
    ModOf(b, q - 1, m);
  }

  /** Every result below the bound is given by the same number of draws. */
  lemma ExactlyUniform(bound: u32, v: nat)
    requires bound >= 2 && v < bound
    ensures |Giving(bound, v)| == 0x1_0000_0000 / bound
    ensures forall r :: r in Giving(bound, v) ==> 0 <= r < 0x1_0000_0000 && r % bound == v
  {
    AcceptedSpan(bound);
    CountPeriods(Min(bound), bound, DRAWS / bound, v);
  }

  /** The draws below Min are the rejected ones: fewer than half of all. */
  lemma FewRejected(bound: u32)
    requires bound >= 2
    ensures 2 * Min(bound) < 0x1_0000_0000
  {
    if 2 * bound as int > DRAWS {
      ModOf(bound, 0, DRAWS - bound);
    }
  }

  // ---- The loop over the generator ----

  datatype Drawn = Drawn(found: bool, value: u32, gen: Gen, count: nat)

  /** The first acceptable of at most |entropy| draws, reduced. */
  function Sample(g: Gen, count: nat, bound: u32, entropy: seq<seq<byte>>): Drawn
    requires bound >= 2
    decreases |entropy|
  {
    if entropy == [] then Drawn(false, 0, g, count)
    else
      var d := Draw(Reseeded(g, count, 4, entropy[0]));
      if d.0 >= Min(bound) then Drawn(true, d.0 % bound, d.1, Budget(count, 4))
      else Sample(d.1, Budget(count, 4), bound, entropy[1..])
  }

  /** The first `n` draws, whatever becomes of them: their values, and the generator with its budget behind them. */
  function Drawing(g: Gen, count: nat, entropy: seq<seq<byte>>, n: nat): (r: (seq<u32>, Gen, nat))
    requires n <= |entropy|
    ensures |r.0| == n
  {
    if n == 0 then ([], g, count)
    else
      var before := Drawing(g, count, entropy, n - 1);
      var d := Draw(Reseeded(before.1, before.2, 4, entropy[n - 1]));
      (before.0 + [d.0], d.1, Budget(before.2, 4))
  }

  /** One draw gives `v` exactly if it is one of those counted for `v`. */
  lemma OneDraw(g: Gen, count: nat, bound: u32, e: seq<byte>, v: nat)
    requires bound >= 2 && v < bound
    ensures Draw(Reseeded(g, count, 4, e)).0 in Giving(bound, v) <==>
            Sample(g, count, bound, [e]).found && Sample(g, count, bound, [e]).value == v
  {
    hide Draw, Reseeded, Budget;
  }

  lemma {:induction false} DrawingTail(g: Gen, count: nat, entropy: seq<seq<byte>>, n: nat)
    requires n < |entropy|
    ensures var first, all := Drawing(g, count, entropy, 1), Drawing(g, count, entropy, n + 1);
            var rest := Drawing(first.1, first.2, entropy[1..], n);
            all == (first.0 + rest.0, rest.1, rest.2)
  {
    hide Draw, Reseeded, Budget;
    if n > 0 {
      DrawingTail(g, count, entropy, n - 1);
      assert entropy[1..][n - 1] == entropy[n];
      var first := Drawing(g, count, entropy, 1);
      var init, rest := Drawing(first.1, first.2, entropy[1..], n - 1), Drawing(first.1, first.2, entropy[1..], n);
      var x := rest.0[n - 1];
      assert rest.0 == init.0 + [x];
      assert first.0 + (init.0 + [x]) == first.0 + init.0 + [x];
    } else {
      var first := Drawing(g, count, entropy, 1);
      assert Drawing(first.1, first.2, entropy[1..], 0) == ([], first.1, first.2);
      assert first.0 + [] == first.0;
    }
  }

  /** A draw that is counted for no value. */
  ghost predicate Rejected(bound: u32, r: u32)
    requires bound >= 2
  {
    forall v: nat | v < bound :: r !in Giving(bound, v)
  }

  lemma RejectedExactly(bound: u32, r: u32)
    requires bound >= 2
    ensures Rejected(bound, r) <==> r < Min(bound)
    ensures r >= Min(bound) ==> r in Giving(bound, r % bound)
  {
    if r >= Min(bound) {
      assert r in Giving(bound, r % bound);
    }
  }

  /**
   The value is that of the first draw that is counted for any value: every draw before is counted for none, and nothing
   is drawn behind it. Nothing is found exactly if all draws are rejected.
   */
  lemma {:induction false} FirstCounted(g: Gen, count: nat, bound: u32, entropy: seq<seq<byte>>) returns (k: nat)
    requires bound >= 2
    ensures k <= |entropy| && (Sample(g, count, bound, entropy).found <==> k < |entropy|)
    ensures var s, d := Sample(g, count, bound, entropy), Drawing(g, count, entropy, |entropy|).0;
            && (forall i | 0 <= i < k :: Rejected(bound, d[i]))
            && (s.found ==> s.value < bound && d[k] in Giving(bound, s.value))
    ensures var s := Sample(g, count, bound, entropy);
            var end := Drawing(g, count, entropy, if s.found then k + 1 else k);
            s.gen == end.1 && s.count == end.2
    decreases |entropy|
  {
    hide Draw, Reseeded, Budget, Min, Giving, Rejected;
    if entropy == [] {
      k := 0;
    } else {
      var first := Drawing(g, count, entropy, 1);
      var r := first.0[0];
      FirstDraw(g, count, entropy);
      DrawingTail(g, count, entropy, |entropy| - 1);
      RejectedExactly(bound, r);
      if r >= Min(bound) {
        k := 0;
      } else {
        var rest := FirstCounted(first.1, first.2, bound, entropy[1..]);
        k := rest + 1;
        if rest < |entropy| - 1 {
          DrawingTail(g, count, entropy, rest + 1);
        } else {
          DrawingTail(g, count, entropy, rest);
        }
      }
    }
  }

  lemma FirstDraw(g: Gen, count: nat, entropy: seq<seq<byte>>)
    requires entropy != []
    ensures var d, first := Draw(Reseeded(g, count, 4, entropy[0])), Drawing(g, count, entropy, 1);
            first == ([d.0], d.1, Budget(count, 4))
  {
    hide Draw, Reseeded, Budget;
    assert Drawing(g, count, entropy, 0) == ([], g, count);
    var r := Draw(Reseeded(g, count, 4, entropy[0])).0;
    assert [] + [r] == [r];
  }

  /** arc4random_uniform, given up after |entropy| draws; entropy[k] is what getentropy would give in draw k. */
  method ArcUniform(st: RandState, bound: u32, entropy: seq<seq<byte>>) returns (found: bool, value: u32)
    requires st.Valid()
    modifies st, st.input, st.buf
    ensures st.Valid()
    ensures bound < 2 ==> found && value == 0 && st.Value() == old(st.Value()) && st.count == old(st.count)
    ensures bound >= 2 ==>
              Drawn(found, value, st.Value(), st.count) == Sample(old(st.Value()), old(st.count), bound, entropy)
    ensures bound >= 2 && found ==> value < bound
  {
    hide Draw, Reseeded, Budget;
    if bound < 2 {
      return true, 0;
    }
    var min := Min(bound);
    var i := 0;
    while i < |entropy|
      invariant 0 <= i <= |entropy| && st.Valid()
      invariant Sample(old(st.Value()), old(st.count), bound, entropy) ==
                Sample(st.Value(), st.count, bound, entropy[i..])
    {
      var r := st.RandomU32(entropy[i]);
      if r >= min {
        return true, r % bound;
      }
      assert entropy[i..][1..] == entropy[i + 1..];
      i := i + 1;
    }
    return false, 0;
  }
}
