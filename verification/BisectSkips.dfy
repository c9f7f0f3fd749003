/**
 How many tests a bisection takes when builds are skipped (`bisect.rs`). Against an oracle that
 answers from here on: at most the depth of the search tree drawn on the open positions. Against
 one that may go on skipping: at most one test for each open build. Both are reached, and both
 can exceed the bound attached to an offer.
 */
module BisectSkips {
  import opened Options
  import opened Bisect

  /** The candidates in `lo..hi` that were not skipped, in order. */
  function Free(skips: set<nat>, lo: nat, hi: nat): seq<nat>
    requires lo <= hi
    decreases hi - lo
  {
    if lo == hi then [] else (if lo in skips then [] else [lo]) + Free(skips, lo + 1, hi)
  }

  lemma {:induction false} FreeMember(skips: set<nat>, lo: nat, hi: nat, i: nat)
    requires lo <= hi
    ensures i in Free(skips, lo, hi) <==> lo <= i < hi && i !in skips
    decreases hi - lo
  {
    if lo < hi {
      FreeMember(skips, lo + 1, hi, i);
    }
  }

  /** The candidate offered between the bounds. */
  function Offer(skips: set<nat>, g: nat, b: nat): (i: nat)
    requires g < b && Free(skips, g + 1, b) != []
    ensures g < i < b && i !in skips
  {
    var i := Nearest(Free(skips, g + 1, b), (g + b) / 2);
    FreeMember(skips, g + 1, b, i);
    i
  }

  /** The longest run of answers: an offer, then the longer of what a good and a bad verdict leave. */
  function Longest(skips: set<nat>, g: nat, b: nat): nat
    requires g < b
    decreases b - g
  {
    if Free(skips, g + 1, b) == [] then 0
    else
      var i := Offer(skips, g, b);
      var low, high := Longest(skips, g, i), Longest(skips, i, b);
      1 + if high >= low then high else low
  }

  lemma LongestDone(skips: set<nat>, g: nat, b: nat)
    requires g < b && Free(skips, g + 1, b) == []
    ensures Longest(skips, g, b) == 0
  {
  }

  lemma LongestVia(skips: set<nat>, g: nat, b: nat, i: nat)
    requires g < b && Free(skips, g + 1, b) != [] && Offer(skips, g, b) == i
    ensures var low, high := Longest(skips, g, i), Longest(skips, i, b);
            Longest(skips, g, b) == 1 + if high >= low then high else low
  {
    hide Free, Offer;
  }

  /** A first bad build that makes the search take that run. */
  function Hardest(skips: set<nat>, g: nat, b: nat): (culprit: nat)
    requires g < b
    ensures g < culprit <= b
    decreases b - g
  {
    if Free(skips, g + 1, b) == [] then b
    else
      var i := Offer(skips, g, b);
      if Longest(skips, i, b) >= Longest(skips, g, i) then Hardest(skips, i, b) else Hardest(skips, g, i)
  }

  /** Both bounds are known, and between them exactly these candidates were skipped and none other tested. */
  ghost predicate Narrowed(candidates: seq<string>, results: seq<Entry>, skips: set<nat>, g: nat, b: nat) {
    && Wellformed(candidates, results)
    && LastGood(results) == Some(g) && FirstBad(results) == Some(b) && g < b < |candidates|
    && forall i :: g < i < b ==> VerdictOf(results, i) == if i in skips then Some(Skip) else None
  }

  /** The oracle answers on every candidate still open. */
  ghost predicate Answers(oracle: Oracle, skips: set<nat>, g: nat, b: nat) {
    forall i: nat :: g < i < b && i !in skips ==> oracle(i) != Skip
  }

  lemma {:induction false} OpenIsFree(results: seq<Entry>, skips: set<nat>, lo: nat, hi: nat)
    requires lo <= hi
    requires forall i :: lo <= i < hi ==> VerdictOf(results, i) == if i in skips then Some(Skip) else None
    ensures Open(results, lo, hi) == Free(skips, lo, hi)
    decreases hi - lo
  {
    hide VerdictOf;
    if lo < hi {
      OpenIsFree(results, skips, lo + 1, hi);
      assert VerdictOf(results, lo).None? <==> lo !in skips;
    }
  }

  lemma NarrowedStep(candidates: seq<string>, results: seq<Entry>, skips: set<nat>, g: nat, b: nat)
    requires Narrowed(candidates, results, skips, g, b)
    ensures var free := Free(skips, g + 1, b);
            var step := NextStep(candidates, results);
            if free == [] then !step.Test?
            else var i := Offer(skips, g, b); step == Test(i, candidates[i], |free|, Bits(|free|))
  {
    hide VerdictOf, LastGood, FirstBad, Open, SkippedNames, Nearest, Bits, Free;
    OpenIsFree(results, skips, g + 1, b);
  }

  lemma NarrowedAnswered(candidates: seq<string>, oracle: Oracle, results: seq<Entry>, skips: set<nat>, g: nat, b: nat, i: nat)
    requires Narrowed(candidates, results, skips, g, b) && g < i < b && i !in skips && oracle(i) != Skip
    ensures var more := results + [Entry(i, oracle(i))];
            if oracle(i) == Good then Narrowed(candidates, more, skips, i, b)
            else Narrowed(candidates, more, skips, g, i)
  {
    hide VerdictOf, LastGood, FirstBad;
    var e := Entry(i, oracle(i));
    AppendBounds(results, e);
    forall j | g < j < b && j != i ensures VerdictOf(results + [e], j) == VerdictOf(results, j) {
      AppendVerdict(results, e, j);
    }
  }

  /** No oracle makes the search take longer than the longest run. */
  lemma {:induction false} AtMostLongest(candidates: seq<string>, oracle: Oracle, results: seq<Entry>, skips: set<nat>, g: nat, b: nat)
    requires Narrowed(candidates, results, skips, g, b) && Answers(oracle, skips, g, b)
    ensures Tests(candidates, oracle, results) <= Longest(skips, g, b)
    decreases b - g
  {
    hide NextStep, Finished, Tests, Narrowed, Offer;
    NarrowedWellformed(candidates, results, skips, g, b);
    NarrowedStep(candidates, results, skips, g, b);
    TestsUnfold(candidates, oracle, results);
    if Free(skips, g + 1, b) != [] {
      var i := Offer(skips, g, b);
      NarrowedAnswered(candidates, oracle, results, skips, g, b, i);
      var more := results + [Entry(i, oracle(i))];
      if oracle(i) == Good {
        AtMostLongest(candidates, oracle, more, skips, i, b);
      } else {
        AtMostLongest(candidates, oracle, more, skips, g, i);
      }
    }
  }

  lemma NarrowedWellformed(candidates: seq<string>, results: seq<Entry>, skips: set<nat>, g: nat, b: nat)
    requires Narrowed(candidates, results, skips, g, b)
    ensures Wellformed(candidates, results) && g < b
  {
  }

  ghost function FailsFrom(culprit: nat): Oracle {
    i => if i < culprit then Good else Bad
  }

  /** And an honest one takes exactly that long. */
  lemma {:induction false} LongestIsTaken(candidates: seq<string>, results: seq<Entry>, skips: set<nat>, g: nat, b: nat)
    requires Narrowed(candidates, results, skips, g, b)
    ensures Wellformed(candidates, results)
    ensures Tests(candidates, FailsFrom(Hardest(skips, g, b)), results) == Longest(skips, g, b)
    decreases b - g
  {
    hide NextStep, Finished, Tests, Narrowed, Offer;
    NarrowedWellformed(candidates, results, skips, g, b);
    var oracle := FailsFrom(Hardest(skips, g, b));
    NarrowedStep(candidates, results, skips, g, b);
    TestsUnfold(candidates, oracle, results);
    if Free(skips, g + 1, b) != [] {
      var i := Offer(skips, g, b);
      NarrowedAnswered(candidates, oracle, results, skips, g, b, i);
      var more := results + [Entry(i, oracle(i))];
      if Longest(skips, i, b) >= Longest(skips, g, i) {
        LongestIsTaken(candidates, more, skips, i, b);
      } else {
        LongestIsTaken(candidates, more, skips, g, i);
      }
    }
  }

  /**
   With builds skipped, the bound attached to an offer is right for every oracle that answers on
   the open candidates exactly when the search tree on their positions is no deeper.
   */
  lemma BoundAfterSkips(candidates: seq<string>, results: seq<Entry>, skips: set<nat>, g: nat, b: nat)
    requires Narrowed(candidates, results, skips, g, b) && Free(skips, g + 1, b) != []
    ensures Wellformed(candidates, results) && NextStep(candidates, results).Test?
    ensures (forall oracle: Oracle :: Answers(oracle, skips, g, b) ==>
               Tests(candidates, oracle, results) - 1 <= NextStep(candidates, results).maxFurtherTests)
            <==> Longest(skips, g, b) <= Bits(|Free(skips, g + 1, b)|) + 1
  {
    hide NextStep, Tests, Longest, Bits, Narrowed, Hardest;
    NarrowedWellformed(candidates, results, skips, g, b);
    NarrowedStep(candidates, results, skips, g, b);
    LongestIsTaken(candidates, results, skips, g, b);
    assert Answers(FailsFrom(Hardest(skips, g, b)), skips, g, b);
    forall oracle: Oracle | Answers(oracle, skips, g, b)
      ensures Tests(candidates, oracle, results) <= Longest(skips, g, b)
    {
      AtMostLongest(candidates, oracle, results, skips, g, b);
    }
  }

  // ------------------------------------------------------------------ no skips

  lemma {:induction false} FreeOfSkips(skips: set<nat>, lo: nat, hi: nat)
    requires lo <= hi && forall i :: lo <= i < hi ==> i !in skips
    ensures |Free(skips, lo, hi)| == hi - lo
    decreases hi - lo
  {
    if lo < hi {
      FreeOfSkips(skips, lo + 1, hi);
    }
  }

  lemma HalvesOfWorst(m: nat, low: nat, high: nat)
    requires m >= 1 && high == m / 2 && low + high + 1 == m
    ensures Worst(low) <= Worst(high) && Worst(m) == 1 + Worst(high)
  {
    BitsMonotone(low, high);
  }

  /** Where nothing was skipped the tree is as shallow as the bound says. */
  lemma {:induction false} LongestWithoutSkips(skips: set<nat>, g: nat, b: nat)
    requires g < b && forall i :: g < i < b ==> i !in skips
    ensures Longest(skips, g, b) == Worst(b - g - 1)
    decreases b - g
  {
    hide Free, Bits, Longest;
    FreeOfSkips(skips, g + 1, b);
    if b == g + 1 {
      LongestDone(skips, g, b);
    } else {
      var mid := (g + b) / 2;
      FreeMember(skips, g + 1, b, mid);
      assert Offer(skips, g, b) == mid by {
        assert Distance(Offer(skips, g, b), mid) == 0;
      }
      LongestVia(skips, g, b, mid);
      LongestWithoutSkips(skips, g, mid);
      LongestWithoutSkips(skips, mid, b);
      hide Offer;
      HalvesOfWorst(b - g - 1, mid - g - 1, b - mid - 1);
    }
  }

  // ------------------------------------------------------------------ oracles that skip

  lemma {:induction false} FreeSplit(skips: set<nat>, lo: nat, mid: nat, hi: nat)
    requires lo <= mid <= hi
    ensures Free(skips, lo, hi) == Free(skips, lo, mid) + Free(skips, mid, hi)
    decreases mid - lo
  {
    if lo < mid {
      FreeSplit(skips, lo + 1, mid, hi);
    } else {
      assert Free(skips, lo, mid) == [];
    }
  }

  lemma {:induction false} FreeSame(skips: set<nat>, more: set<nat>, lo: nat, hi: nat)
    requires lo <= hi && forall i :: lo <= i < hi ==> (i in skips <==> i in more)
    ensures Free(skips, lo, hi) == Free(more, lo, hi)
    decreases hi - lo
  {
    if lo < hi {
      FreeSame(skips, more, lo + 1, hi);
    }
  }

  /** What an answer on an open candidate leaves open: fewer, and exactly one fewer if it was skipped. */
  lemma FreeAfter(skips: set<nat>, g: nat, b: nat, i: nat)
    requires g < i < b && i !in skips
    ensures |Free(skips, g + 1, i)| < |Free(skips, g + 1, b)|
    ensures |Free(skips, i + 1, b)| < |Free(skips, g + 1, b)|
    ensures |Free(skips + {i}, g + 1, b)| == |Free(skips, g + 1, b)| - 1
  {
    FreeSplit(skips, g + 1, i, b);
    assert Free(skips, i, b) == [i] + Free(skips, i + 1, b);
    var more := skips + {i};
    FreeSplit(more, g + 1, i, b);
    assert Free(more, i, b) == [] + Free(more, i + 1, b);
    FreeSame(skips, more, g + 1, i);
    FreeSame(skips, more, i + 1, b);
  }

  lemma NarrowedSkipped(candidates: seq<string>, results: seq<Entry>, skips: set<nat>, g: nat, b: nat, i: nat)
    requires Narrowed(candidates, results, skips, g, b) && g < i < b && i !in skips
    ensures Narrowed(candidates, results + [Entry(i, Skip)], skips + {i}, g, b)
  {
    hide VerdictOf, LastGood, FirstBad;
    var e := Entry(i, Skip);
    AppendBounds(results, e);
    forall j | g < j < b
      ensures VerdictOf(results + [e], j) == if j in skips + {i} then Some(Skip) else None
    {
      AppendVerdict(results, e, j);
    }
  }

  /** No oracle, skipping or not, is asked about more than the open candidates. */
  lemma {:induction false} AtMostFree(candidates: seq<string>, oracle: Oracle, results: seq<Entry>, skips: set<nat>, g: nat, b: nat)
    requires Narrowed(candidates, results, skips, g, b)
    ensures Wellformed(candidates, results) && g < b
    ensures Tests(candidates, oracle, results) <= |Free(skips, g + 1, b)|
    decreases |Untested(|candidates|, results)|
  {
    hide NextStep, Finished, Tests, Narrowed, Offer, Free, Untested;
    NarrowedWellformed(candidates, results, skips, g, b);
    NarrowedStep(candidates, results, skips, g, b);
    TestsUnfold(candidates, oracle, results);
    if Free(skips, g + 1, b) != [] {
      var i := Offer(skips, g, b);
      var e := Entry(i, oracle(i));
      OfferUntested(candidates, results, skips, g, b);
      TestShrinks(|candidates|, results, e);
      FreeAfter(skips, g, b, i);
      if oracle(i) == Skip {
        NarrowedSkipped(candidates, results, skips, g, b, i);
        AtMostFree(candidates, oracle, results + [e], skips + {i}, g, b);
      } else {
        NarrowedAnswered(candidates, oracle, results, skips, g, b, i);
        if oracle(i) == Good {
          AtMostFree(candidates, oracle, results + [e], skips, i, b);
        } else {
          AtMostFree(candidates, oracle, results + [e], skips, g, i);
        }
      }
    }
  }

  lemma OfferUntested(candidates: seq<string>, results: seq<Entry>, skips: set<nat>, g: nat, b: nat)
    requires Narrowed(candidates, results, skips, g, b) && Free(skips, g + 1, b) != []
    ensures Offer(skips, g, b) < |candidates| && VerdictOf(results, Offer(skips, g, b)).None?
  {
    hide VerdictOf, LastGood, FirstBad, Free, Offer;
  }

  /** An oracle that skips everything strictly between two builds. */
  ghost predicate SkipsBetween(oracle: Oracle, g: nat, b: nat) {
    forall i: nat :: g < i < b ==> oracle(i) == Skip
  }

  /** An oracle that skips them all is asked about every one. */
  lemma {:induction false} SkippingTakesAll(candidates: seq<string>, oracle: Oracle, results: seq<Entry>, skips: set<nat>, g: nat, b: nat)
    requires Narrowed(candidates, results, skips, g, b) && SkipsBetween(oracle, g, b)
    ensures Wellformed(candidates, results) && g < b
    ensures Tests(candidates, oracle, results) == |Free(skips, g + 1, b)|
    decreases |Untested(|candidates|, results)|
  {
    hide NextStep, Finished, Tests, Narrowed, Offer, Free, Untested;
    NarrowedWellformed(candidates, results, skips, g, b);
    NarrowedStep(candidates, results, skips, g, b);
    TestsUnfold(candidates, oracle, results);
    if Free(skips, g + 1, b) != [] {
      var i := Offer(skips, g, b);
      var e := Entry(i, Skip);
      assert oracle(i) == Skip;
      OfferUntested(candidates, results, skips, g, b);
      TestShrinks(|candidates|, results, e);
      FreeAfter(skips, g, b, i);
      NarrowedSkipped(candidates, results, skips, g, b, i);
      SkippingTakesAll(candidates, oracle, results + [e], skips + {i}, g, b);
    }
  }

  /** What was recorded between the bounds, which can only be skips. */
  ghost function Passed(results: seq<Entry>, g: nat, b: nat): set<nat> {
    set i: nat | g < i < b && VerdictOf(results, i).Some?
  }

  /** Every state with both bounds known and in order is such a state. */
  lemma AlwaysNarrowed(candidates: seq<string>, results: seq<Entry>)
    requires Wellformed(candidates, results)
    requires LastGood(results).Some? && FirstBad(results).Some?
    requires LastGood(results).value < FirstBad(results).value
    ensures var g, b := LastGood(results).value, FirstBad(results).value;
            Narrowed(candidates, results, Passed(results, g, b), g, b)
  {
    BoundsRecorded(results);
    hide LastGood, FirstBad, VerdictOf;
    var g, b := LastGood(results).value, FirstBad(results).value;
    forall i | g < i < b
      ensures VerdictOf(results, i) == if i in Passed(results, g, b) then Some(Skip) else None
    {
      BetweenIsSkipped(results, g, b, i);
    }
  }

  lemma {:induction false} BitsSmall(m: nat)
    requires m >= 1
    ensures m <= Bits(m) + 1 <==> m <= 2
    ensures m <= Bits(m) + 2 <==> m <= 4
    ensures m <= Bits(m) + 3 <==> m <= 5
  {
    if m > 5 {
      BitsSmall(m / 2);
    } else {
      assert Bits(1) == 0 && Bits(2) == 1;
    }
  }

  /**
   In any state of any search, an offer made between the bounds carries a bound that is right for
   every oracle, one that may go on skipping included, exactly when at most two candidates remain.
   */
  lemma OfferBoundIff(candidates: seq<string>, results: seq<Entry>)
    requires Wellformed(candidates, results)
    requires LastGood(results).Some? && FirstBad(results).Some? && NextStep(candidates, results).Test?
    ensures var step := NextStep(candidates, results);
            (forall oracle: Oracle :: Tests(candidates, oracle, results) - 1 <= step.maxFurtherTests)
            <==> step.remaining <= 2
  {
    hide NextStep, Tests, Bits, Narrowed, LastGood, FirstBad, Passed, Free, Offer;
    BoundsInOrder(candidates, results);
    var g, b := LastGood(results).value, FirstBad(results).value;
    var skips := Passed(results, g, b);
    AlwaysNarrowed(candidates, results);
    NarrowedStep(candidates, results, skips, g, b);
    var m := |Free(skips, g + 1, b)|;
    BitsSmall(m);
    var skipping: Oracle := _ => Skip;
    SkippingTakesAll(candidates, skipping, results, skips, g, b);
    forall oracle: Oracle ensures Tests(candidates, oracle, results) <= m {
      AtMostFree(candidates, oracle, results, skips, g, b);
    }
  }

  lemma BoundsInOrder(candidates: seq<string>, results: seq<Entry>)
    requires Wellformed(candidates, results)
    requires LastGood(results).Some? && FirstBad(results).Some? && NextStep(candidates, results).Test?
    ensures LastGood(results).value < FirstBad(results).value
  {
    BoundsRecorded(results);
    hide LastGood, FirstBad, VerdictOf, Open, SkippedNames, Nearest, Bits;
  }

  /** Good at the first build, bad at the last, skipped between. */
  ghost function OnlyEnds(n: nat): Oracle {
    i => if i == 0 then Good else if i == n - 1 then Bad else Skip
  }

  /** A search that finds only its ends testable tests everything. */
  lemma OnlyEndsTakesAll(candidates: seq<string>)
    requires |candidates| >= 2
    ensures Tests(candidates, OnlyEnds(|candidates|), []) == |candidates|
  {
    hide NextStep, Tests, Finished, Narrowed, LastGood, FirstBad, VerdictOf, Bits, Free;
    var n := |candidates|;
    var oracle := OnlyEnds(n);
    FirstEnd(candidates, oracle);
    var one, two := [Entry(0, Good)], [Entry(0, Good), Entry(n - 1, Bad)];
    assert [] + one == one && one + [Entry(n - 1, Bad)] == two;
    TestsUnfold(candidates, oracle, []);
    TestsUnfold(candidates, oracle, one);
    EndsNarrowed(candidates);
    SkippingTakesAll(candidates, oracle, two, {}, 0, n - 1);
    FreeOfSkips({}, 1, n - 1);
  }

  lemma EndsNarrowed(candidates: seq<string>)
    requires |candidates| >= 2
    ensures Narrowed(candidates, [Entry(0, Good), Entry(|candidates| - 1, Bad)], {}, 0, |candidates| - 1)
  {
    var e, f := Entry(0, Good), Entry(|candidates| - 1, Bad);
    assert [] + [e] == [e] && [e] + [f] == [e, f];
    AppendBounds([], e);
    AppendBounds([e], f);
    forall i: nat | 0 < i < |candidates| - 1 ensures VerdictOf([e, f], i) == None {
      AppendVerdict([], e, i);
      AppendVerdict([e], f, i);
    }
  }

  /**
   The bound attached to the first offer of a search, `bits(n) + 1` further tests, is right for
   every oracle, skipping ones included, exactly when there are at most four builds.
   */
  lemma FirstOfferBoundIff(candidates: seq<string>)
    requires candidates != []
    ensures NextStep(candidates, []).Test?
    ensures (forall oracle: Oracle ::
               Tests(candidates, oracle, []) - 1 <= NextStep(candidates, []).maxFurtherTests)
            <==> |candidates| <= 4
  {
    var n := |candidates|;
    assert NextStep(candidates, []) == Test(0, candidates[0], n, Bits(n) + 1);
    hide NextStep, Tests, Bits;
    BitsSmall(n);
    forall oracle: Oracle ensures Tests(candidates, oracle, []) <= n {
      AtMostEveryCandidateOnce(candidates, oracle);
    }
    if n >= 2 {
      OnlyEndsTakesAll(candidates);
    }
  }

  /** At the other end, offered once the first build is good, the same bound is right up to five builds. */
  lemma SecondOfferBoundIff(candidates: seq<string>)
    requires |candidates| >= 2
    ensures var results := [Entry(0, Good)];
            && Wellformed(candidates, results) && NextStep(candidates, results).Test?
            && ((forall oracle: Oracle ::
                   Tests(candidates, oracle, results) - 1 <= NextStep(candidates, results).maxFurtherTests)
                <==> |candidates| <= 5)
  {
    hide NextStep, Tests, Bits, Untested, Finished;
    var n, results := |candidates|, [Entry(0, Good)];
    BitsSmall(n);
    assert [] + results == results;
    FirstEnd(candidates, OnlyEnds(n));
    forall oracle: Oracle ensures Tests(candidates, oracle, results) <= n - 1 {
      UntestedIsEverything(n);
      TestShrinks(n, [], results[0]);
      SearchTerminates(candidates, oracle, results);
    }
    OnlyEndsTakesAll(candidates);
    TestsUnfold(candidates, OnlyEnds(n), []);
  }

  /** Five builds of which only the ends can be tested: three further tests promised, four needed. */
  lemma FiveBuildsOfSkips(candidates: seq<string>)
    requires |candidates| == 5
    ensures NextStep(candidates, []).Test? && NextStep(candidates, []).maxFurtherTests == 3
    ensures Tests(candidates, OnlyEnds(5), []) - 1 == 4
  {
    assert Bits(5) == 2;
    assert NextStep(candidates, []) == Test(0, candidates[0], 5, Bits(5) + 1);
    hide NextStep, Tests;
    OnlyEndsTakesAll(candidates);
  }

  /** Three builds open and nothing skipped yet: one further test promised, two needed. */
  lemma ThreeOpenOfSkips(candidates: seq<string>)
    requires |candidates| == 5
    ensures var results := [Entry(0, Good), Entry(4, Bad)];
            && Wellformed(candidates, results)
            && NextStep(candidates, results).Test? && NextStep(candidates, results).maxFurtherTests == 1
            && Tests(candidates, OnlyEnds(5), results) - 1 == 2
  {
    hide NextStep, Tests, Narrowed, Offer, Free;
    var results := [Entry(0, Good), Entry(4, Bad)];
    EndsNarrowed(candidates);
    SkippingTakesAll(candidates, OnlyEnds(5), results, {}, 0, 4);
    NarrowedStep(candidates, results, {}, 0, 4);
    FreeOfSkips({}, 1, 4);
    assert Bits(3) == 1;
  }

  // ------------------------------------------------------------------ the bound fails

  /** Six builds, the first good, the last bad, the third skipped: one more test offered, two needed. */
  lemma SkipCostsOneMore(candidates: seq<string>)
    requires |candidates| == 6
    ensures var results := [Entry(0, Good), Entry(5, Bad), Entry(2, Skip)];
            && Wellformed(candidates, results)
            && NextStep(candidates, results) == Test(1, candidates[1], 3, 1)
            && Tests(candidates, FailsFrom(Hardest({2}, 0, 5)), results) == 3
  {
    hide NextStep, Tests, Narrowed, Free, Offer, Longest;
    var results := [Entry(0, Good), Entry(5, Bad), Entry(2, Skip)];
    SixNarrowed(candidates);
    LongestIsTaken(candidates, results, {2}, 0, 5);
    NarrowedStep(candidates, results, {2}, 0, 5);
    FreeOfSix();
    assert Bits(3) == 1;
  }

  lemma SixNarrowed(candidates: seq<string>)
    requires |candidates| == 6
    ensures Narrowed(candidates, [Entry(0, Good), Entry(5, Bad), Entry(2, Skip)], {2}, 0, 5)
  {
    var a, b, c := Entry(0, Good), Entry(5, Bad), Entry(2, Skip);
    assert [] + [a] == [a] && [a] + [b] == [a, b] && [a, b] + [c] == [a, b, c];
    AppendBounds([], a);
    AppendBounds([a], b);
    AppendBounds([a, b], c);
    forall i: nat
      ensures VerdictOf([a, b, c], i) ==
              if i == 0 then Some(Good) else if i == 5 then Some(Bad) else if i == 2 then Some(Skip) else None
    {
      AppendVerdict([], a, i);
      AppendVerdict([a], b, i);
      AppendVerdict([a, b], c, i);
    }
  }

  lemma FreeOfSix()
    ensures Free({2}, 1, 5) == [1, 3, 4] && Offer({2}, 0, 5) == 1 && Longest({2}, 0, 5) == 3
  {
    hide Free, Longest, Offer;
    var skips: set<nat> := {2};
    FreesOfSix();
    OffersOfSix();
    LongestDone(skips, 0, 1);
    LongestDone(skips, 1, 3);
    LongestDone(skips, 3, 4);
    LongestDone(skips, 4, 5);
    LongestVia(skips, 3, 5, 4);
    LongestVia(skips, 1, 5, 3);
    LongestVia(skips, 0, 5, 1);
  }

  lemma OffersOfSix()
    ensures Free({2}, 1, 5) != [] && Free({2}, 2, 5) != [] && Free({2}, 4, 5) != []
    ensures Offer({2}, 0, 5) == 1 && Offer({2}, 1, 5) == 3 && Offer({2}, 3, 5) == 4
  {
    hide Free;
    FreesOfSix();
    NearestOf134();
    hide Nearest;
  }

  lemma FreesOfSix()
    ensures Free({2}, 1, 5) == [1, 3, 4] && Free({2}, 2, 5) == [3, 4] && Free({2}, 4, 5) == [4]
    ensures Free({2}, 1, 1) == [] && Free({2}, 2, 3) == [] && Free({2}, 4, 4) == [] && Free({2}, 5, 5) == []
  {
    var skips: set<nat> := {2};
    assert Free(skips, 3, 3) == [];
    assert Free(skips, 3, 5) == [3] + Free(skips, 4, 5);
    assert Free(skips, 2, 5) == [] + Free(skips, 3, 5);
  }

  lemma NearestOf134()
    ensures Nearest([1, 3, 4], 2) == 1 && Nearest([3, 4], 3) == 3 && Nearest([4], 4) == 4
  {
    var three, two, one: seq<nat> := [1, 3, 4], [3, 4], [4];
    assert three[1..] == two && two[1..] == one;
    assert Nearest(one, 2) == 4 && Nearest(one, 3) == 4;
    assert Nearest(two, 2) == 3;
  }
}
