/**
 Bisecting an ordered list of builds (`bisect.rs`): what to test next, and what the
 answer means when the builds are driven by an oracle that may decline to answer.
 */
module Bisect {
  import opened Options
  import opened Powers

  datatype Verdict = Good | Bad | Skip

  datatype Entry = Entry(idx: nat, verdict: Verdict)

  datatype Step =
    | Test(index: nat, candidate: string, remaining: nat, maxFurtherTests: nat)
    | Found(index: nat, candidate: string, lastGood: Option<string>)
    | Inconclusive(after: string, upTo: string, skipped: seq<string>)
    | NeedEnds

  /** The verdict recorded for a candidate. */
  function VerdictOf(results: seq<Entry>, idx: nat): Option<Verdict>
  {
    if results == [] then None
    else if results[0].idx == idx then Some(results[0].verdict)
    else VerdictOf(results[1..], idx)
  }

  /** The last candidate with a good verdict. */
  function LastGood(results: seq<Entry>): Option<nat>
  {
    if results == [] then None
    else
      var rest := LastGood(results[1..]);
      var e := results[0];
      if e.verdict == Good && (rest.None? || rest.value < e.idx) then Some(e.idx) else rest
  }

  /** The first candidate with a bad verdict. */
  function FirstBad(results: seq<Entry>): Option<nat>
  {
    if results == [] then None
    else
      var rest := FirstBad(results[1..]);
      var e := results[0];
      if e.verdict == Bad && (rest.None? || e.idx < rest.value) then Some(e.idx) else rest
  }

  lemma {:induction false} VerdictRecorded(results: seq<Entry>, idx: nat)
    ensures VerdictOf(results, idx).Some? ==> Entry(idx, VerdictOf(results, idx).value) in results
  {
    if results != [] {
      VerdictRecorded(results[1..], idx);
    }
  }

  lemma {:induction false} RecordedVerdict(results: seq<Entry>, e: Entry)
    requires e in results
    ensures VerdictOf(results, e.idx).Some?
  {
    if results[0].idx != e.idx {
      assert e in results[1..];
      RecordedVerdict(results[1..], e);
    }
  }

  /** The bounds are recorded verdicts, so they name real candidates. */
  lemma {:induction false} BoundsRecorded(results: seq<Entry>)
    ensures LastGood(results).Some? ==> Entry(LastGood(results).value, Good) in results
    ensures FirstBad(results).Some? ==> Entry(FirstBad(results).value, Bad) in results
  {
    if results != [] {
      BoundsRecorded(results[1..]);
    }
  }

  /** No good verdict lies above the one bound, no bad one below the other. */
  lemma {:induction false} BoundsExtreme(results: seq<Entry>, e: Entry)
    requires e in results
    ensures e.verdict == Good ==> LastGood(results).Some? && e.idx <= LastGood(results).value
    ensures e.verdict == Bad ==> FirstBad(results).Some? && FirstBad(results).value <= e.idx
  {
    if e != results[0] {
      assert e in results[1..];
      BoundsExtreme(results[1..], e);
    }
  }

  /** A good verdict at or after a bad one. */
  predicate Contradiction(results: seq<Entry>)
  {
    var g, b := LastGood(results), FirstBad(results);
    g.Some? && b.Some? && g.value >= b.value
  }

  /** Candidates in `lo..hi` without a verdict, in order. */
  function Open(results: seq<Entry>, lo: nat, hi: nat): seq<nat>
    requires lo <= hi
    decreases hi - lo
  {
    if lo == hi then []
    else (if VerdictOf(results, lo).None? then [lo] else []) + Open(results, lo + 1, hi)
  }

  lemma {:induction false} OpenMember(results: seq<Entry>, lo: nat, hi: nat, i: nat)
    requires lo <= hi
    ensures i in Open(results, lo, hi) <==> lo <= i < hi && VerdictOf(results, i).None?
    decreases hi - lo
  {
    if lo < hi {
      OpenMember(results, lo + 1, hi, i);
    }
  }

  /** Names of the skipped candidates in `lo..hi`, in order. */
  function SkippedNames(candidates: seq<string>, results: seq<Entry>, lo: nat, hi: nat): seq<string>
    requires lo <= hi <= |candidates|
    decreases hi - lo
  {
    if lo == hi then []
    else (if VerdictOf(results, lo) == Some(Skip) then [candidates[lo]] else [])
         + SkippedNames(candidates, results, lo + 1, hi)
  }

  function Distance(a: nat, b: nat): nat
  {
    if a < b then b - a else a - b
  }

  ghost predicate ClearlyFarther(others: seq<nat>, r: nat, mid: nat) {
    forall j :: 0 <= j < |others| ==> Distance(r, mid) < Distance(others[j], mid)
  }

  /** The first of the candidates closest to `mid`. */
  function Nearest(open: seq<nat>, mid: nat): (r: nat)
    requires open != []
    ensures forall j :: j in open ==> Distance(r, mid) <= Distance(j, mid)
    ensures r in open
  {
    if |open| == 1 then open[0]
    else
      var rest := Nearest(open[1..], mid);
      assert open == [open[0]] + open[1..];
      if Distance(rest, mid) < Distance(open[0], mid) then rest else open[0]
  }

  /** On a tie the earlier candidate is taken: all before it are farther off. */
  lemma {:induction false} NearestIsFirst(open: seq<nat>, mid: nat) returns (k: nat)
    requires open != []
    ensures k < |open| && open[k] == Nearest(open, mid) && ClearlyFarther(open[..k], open[k], mid)
  {
    k := 0;
    if |open| > 1 {
      var j := NearestIsFirst(open[1..], mid);
      if Distance(open[j + 1], mid) < Distance(open[0], mid) {
        k := j + 1;
        assert open[..k] == [open[0]] + open[1..][..j];
      }
    }
  }

  /** Halvings until one candidate is left. */
  function Bits(n: nat): nat
  {
    if n <= 1 then 0 else 1 + Bits(n / 2)
  }

  method ComputeBits(n: nat) returns (c: nat)
    ensures c == Bits(n)
    ensures n >= 1 ==> Pow2(c) <= n < 2 * Pow2(c)
  {
    if n >= 1 {
      BitsBound(n);
    }
    var m := n;
    c := 0;
    while m > 1
      invariant c + Bits(m) == Bits(n)
    {
      m := m / 2;
      c := c + 1;
    }
  }

  /** Recorded verdicts name real candidates. */
  ghost predicate Wellformed(candidates: seq<string>, results: seq<Entry>) {
    candidates != [] && forall e :: e in results ==> e.idx < |candidates|
  }

  /** Every candidate strictly between the bounds was skipped. */
  ghost predicate AllSkipped(results: seq<Entry>, g: nat, b: nat) {
    forall i :: g < i < b ==> VerdictOf(results, i) == Some(Skip)
  }

  /** Nothing good or bad is recorded strictly between the bounds, so what is recorded there was skipped. */
  lemma BetweenIsSkipped(results: seq<Entry>, g: nat, b: nat, i: nat)
    requires LastGood(results) == Some(g) && FirstBad(results) == Some(b) && g < i < b
    ensures VerdictOf(results, i).Some? ==> VerdictOf(results, i) == Some(Skip)
  {
    hide LastGood, FirstBad, VerdictOf;
    VerdictRecorded(results, i);
    if VerdictOf(results, i).Some? {
      BoundsExtreme(results, Entry(i, VerdictOf(results, i).value));
    }
  }

  lemma {:induction false} SkippedAreNamed(candidates: seq<string>, results: seq<Entry>, lo: nat, hi: nat)
    requires lo <= hi <= |candidates| && forall i :: lo <= i < hi ==> VerdictOf(results, i) == Some(Skip)
    ensures SkippedNames(candidates, results, lo, hi) == candidates[lo..hi]
    decreases hi - lo
  {
    if lo < hi {
      SkippedAreNamed(candidates, results, lo + 1, hi);
      assert candidates[lo..hi] == [candidates[lo]] + candidates[lo + 1..hi];
    }
  }

  ghost predicate StepIsRight(candidates: seq<string>, results: seq<Entry>, step: Step)
    requires candidates != []
  {
    var n, good, bad := |candidates|, LastGood(results), FirstBad(results);
    && (step.NeedEnds? ==>
          && (good.None? || bad.None?)
          && (good.None? ==> VerdictOf(results, 0).Some?)
          && (bad.None? ==> VerdictOf(results, n - 1).Some?))
    && (step.Found? ==>
          && good.Some? && bad.Some? && good.value < n && bad.value < n
          && step == Found(bad.value, candidates[bad.value], Some(candidates[good.value]))
          && (good.value + 1 == bad.value || Contradiction(results)))
    && (step.Inconclusive? ==>
          && good.Some? && bad.Some? && good.value + 1 < bad.value < n
          && AllSkipped(results, good.value, bad.value)
          && step == Inconclusive(candidates[good.value], candidates[bad.value],
                                  candidates[good.value + 1..bad.value]))
    && (step.Test? ==>
          && step.index < n && step.candidate == candidates[step.index]
          && VerdictOf(results, step.index).None?
          && (if good.Some? && bad.Some?
              then good.value < step.index < bad.value && step.remaining == |Open(results, good.value + 1, bad.value)|
              else (step.index == 0 || step.index == n - 1) && step.remaining == n))
  }

  /** Once nothing between the bounds is open, all of it was skipped, and is named. */
  lemma NothingOpen(candidates: seq<string>, results: seq<Entry>, g: nat, b: nat)
    requires LastGood(results) == Some(g) && FirstBad(results) == Some(b) && g < b < |candidates|
    requires Open(results, g + 1, b) == []
    ensures AllSkipped(results, g, b)
    ensures SkippedNames(candidates, results, g + 1, b) == candidates[g + 1..b]
  {
    hide LastGood, FirstBad, VerdictOf, SkippedNames, Open;
    forall i | g < i < b ensures VerdictOf(results, i) == Some(Skip) {
      OpenMember(results, g + 1, b, i);
      BetweenIsSkipped(results, g, b, i);
    }
    SkippedAreNamed(candidates, results, g + 1, b);
  }

  /**
   What to do next, and what each answer means: a culprit is named only when it directly follows
   the last good build, or when the verdicts contradict each other; a search that gives up names
   everything between the bounds; and a missing end is only reported once it was tested in vain.
   */
  function NextStep(candidates: seq<string>, results: seq<Entry>): (step: Step)
    requires Wellformed(candidates, results)
    ensures step.Test? ==> step.index < |candidates| && VerdictOf(results, step.index).None?
    ensures StepIsRight(candidates, results, step)
  {
    hide LastGood, FirstBad, VerdictOf, SkippedNames, Open, Nearest, Bits;
    var n := |candidates|;
    var good, bad := LastGood(results), FirstBad(results);
    BoundsRecorded(results);
    if good.None? || bad.None? then
      if good.None? && VerdictOf(results, 0).None? then
        Test(0, candidates[0], n, Bits(n) + 1)
      else if bad.None? && VerdictOf(results, n - 1).None? then
        Test(n - 1, candidates[n - 1], n, Bits(n) + 1)
      else NeedEnds
    else
      var g, b := good.value, bad.value;
      if g >= b then Found(b, candidates[b], Some(candidates[g]))
      else
        var open := Open(results, g + 1, b);
        if open == [] then
          NothingOpen(candidates, results, g, b);
          var skipped := SkippedNames(candidates, results, g + 1, b);
          if skipped == [] then Found(b, candidates[b], Some(candidates[g]))
          else Inconclusive(candidates[g], candidates[b], skipped)
        else
          var i := Nearest(open, (g + b) / 2);
          OpenMember(results, g + 1, b, i);
          Test(i, candidates[i], |open|, Bits(|open|))
  }

  // ------------------------------------------------------------------ whole runs

  type Oracle = nat -> Verdict

  ghost function Untested(n: nat, results: seq<Entry>): set<nat> {
    set i: nat | 0 <= i < n && VerdictOf(results, i).None?
  }

  lemma AppendVerdict(results: seq<Entry>, e: Entry, i: nat)
    ensures VerdictOf(results + [e], i) ==
            if VerdictOf(results, i).Some? then VerdictOf(results, i)
            else if e.idx == i then Some(e.verdict) else None
  {
    if results == [] {
      assert [e][1..] == [];
    } else {
      assert (results + [e])[1..] == results[1..] + [e];
      AppendVerdict(results[1..], e, i);
    }
  }

  lemma TestShrinks(n: nat, results: seq<Entry>, e: Entry)
    requires e.idx < n && VerdictOf(results, e.idx).None?
    ensures |Untested(n, results + [e])| < |Untested(n, results)|
  {
    forall i: nat ensures VerdictOf(results + [e], i).None? <==> VerdictOf(results, i).None? && i != e.idx {
      AppendVerdict(results, e, i);
    }
    assert Untested(n, results + [e]) == Untested(n, results) - {e.idx};
  }

  /** Everything recorded once the search stops asking. */
  ghost function Finished(candidates: seq<string>, oracle: Oracle, results: seq<Entry>): (final: seq<Entry>)
    requires Wellformed(candidates, results)
    ensures Wellformed(candidates, final)
    ensures !NextStep(candidates, final).Test?
    ensures results <= final
    decreases |Untested(|candidates|, results)|
  {
    match NextStep(candidates, results)
    case Test(i, _, _, _) =>
      var e := Entry(i, oracle(i));
      TestShrinks(|candidates|, results, e);
      Finished(candidates, oracle, results + [e])
    case _ => results
  }

  /** How many tests the search asks for from here on. */
  ghost function Tests(candidates: seq<string>, oracle: Oracle, results: seq<Entry>): nat
    requires Wellformed(candidates, results)
  {
    |Finished(candidates, oracle, results)| - |results|
  }

  lemma TestsUnfold(candidates: seq<string>, oracle: Oracle, results: seq<Entry>)
    requires Wellformed(candidates, results)
    ensures var step := NextStep(candidates, results);
            if step.Test?
            then Tests(candidates, oracle, results)
              == 1 + Tests(candidates, oracle, results + [Entry(step.index, oracle(step.index))])
            else Tests(candidates, oracle, results) == 0
  {
    hide NextStep;
    var step := NextStep(candidates, results);
    if step.Test? {
      TestShrinks(|candidates|, results, Entry(step.index, oracle(step.index)));
    }
  }

  ghost predicate NoRepeats(results: seq<Entry>) {
    forall i, j :: 0 <= i < j < |results| ==> results[i].idx != results[j].idx
  }

  /** Whatever the oracle answers: no candidate twice, and no more tests than untested candidates. */
  lemma {:induction false} SearchTerminates(candidates: seq<string>, oracle: Oracle, results: seq<Entry>)
    requires Wellformed(candidates, results) && NoRepeats(results)
    ensures NoRepeats(Finished(candidates, oracle, results))
    ensures Tests(candidates, oracle, results) <= |Untested(|candidates|, results)|
    decreases |Untested(|candidates|, results)|
  {
    var step := NextStep(candidates, results);
    if step.Test? {
      var e := Entry(step.index, oracle(step.index));
      TestShrinks(|candidates|, results, e);
      forall i | 0 <= i < |results| ensures results[i].idx != e.idx {
        RecordedVerdict(results, results[i]);
      }
      SearchTerminates(candidates, oracle, results + [e]);
    }
  }

  lemma {:induction false} UntestedIsEverything(n: nat)
    ensures |Untested(n, [])| == n
  {
    if n == 0 {
      assert Untested(0, []) == {};
    } else {
      UntestedIsEverything(n - 1);
      assert Untested(n, []) == Untested(n - 1, []) + {n - 1};
    }
  }

  /** A fresh search tests each candidate at most once, so it asks at most `n` times. */
  lemma AtMostEveryCandidateOnce(candidates: seq<string>, oracle: Oracle)
    requires candidates != []
    ensures NoRepeats(Finished(candidates, oracle, []))
    ensures Tests(candidates, oracle, []) <= |candidates|
  {
    SearchTerminates(candidates, oracle, []);
    UntestedIsEverything(|candidates|);
  }

  // ------------------------------------------------------------------ the answer is right

  /**
   The builds before `culprit` work, the rest do not, the ends can be tested, and any
   build in between may be untestable.
   */
  ghost predicate Monotone(n: nat, culprit: nat, oracle: Oracle) {
    && 0 < culprit < n
    && oracle(0) == Good && oracle(n - 1) == Bad
    && forall i: nat :: i < n && oracle(i) != Skip ==> (oracle(i) == Bad <==> culprit <= i)
  }

  ghost predicate Honest(oracle: Oracle, results: seq<Entry>) {
    forall e :: e in results ==> e.verdict == oracle(e.idx)
  }

  lemma {:induction false} FinishedIsHonest(candidates: seq<string>, oracle: Oracle, results: seq<Entry>)
    requires Wellformed(candidates, results) && Honest(oracle, results)
    ensures Honest(oracle, Finished(candidates, oracle, results))
    decreases |Untested(|candidates|, results)|
  {
    var step := NextStep(candidates, results);
    if step.Test? {
      var e := Entry(step.index, oracle(step.index));
      TestShrinks(|candidates|, results, e);
      FinishedIsHonest(candidates, oracle, results + [e]);
    }
  }

  lemma HonestVerdict(oracle: Oracle, results: seq<Entry>, i: nat)
    requires Honest(oracle, results) && VerdictOf(results, i).Some?
    ensures VerdictOf(results, i).value == oracle(i)
    ensures Entry(i, oracle(i)) in results
  {
    VerdictRecorded(results, i);
  }

  lemma {:induction false} SkippedNamesOf(candidates: seq<string>, oracle: Oracle, results: seq<Entry>, lo: nat, hi: nat)
    requires lo <= hi <= |candidates| && Honest(oracle, results)
    requires forall i :: lo <= i < hi ==> VerdictOf(results, i).Some? && oracle(i) == Skip
    ensures SkippedNames(candidates, results, lo, hi) == candidates[lo..hi]
    decreases hi - lo
  {
    if lo < hi {
      HonestVerdict(oracle, results, lo);
      SkippedNamesOf(candidates, oracle, results, lo + 1, hi);
    }
  }

  /** When the search stops: the bounds bracket the culprit and everything between was skipped. */
  lemma Brackets(candidates: seq<string>, culprit: nat, oracle: Oracle, final: seq<Entry>)
    requires Wellformed(candidates, final) && Honest(oracle, final)
    requires Monotone(|candidates|, culprit, oracle)
    requires !NextStep(candidates, final).Test?
    ensures LastGood(final).Some? && FirstBad(final).Some?
    ensures var g, b := LastGood(final).value, FirstBad(final).value;
            && g < culprit <= b < |candidates|
            && oracle(g) == Good && oracle(b) == Bad
            && (forall i :: g < i < b ==> VerdictOf(final, i).Some? && oracle(i) == Skip)
  {
    var n := |candidates|;
    hide VerdictOf, LastGood, FirstBad, Open, SkippedNames, Nearest, Bits;
    if VerdictOf(final, 0).Some? {
      HonestVerdict(oracle, final, 0);
      BoundsExtreme(final, Entry(0, Good));
    }
    if VerdictOf(final, n - 1).Some? {
      HonestVerdict(oracle, final, n - 1);
      BoundsExtreme(final, Entry(n - 1, Bad));
    }
    assert LastGood(final).Some? && FirstBad(final).Some?;
    BoundsRecorded(final);
    var g, b := LastGood(final).value, FirstBad(final).value;
    forall i | g < i < b ensures VerdictOf(final, i).Some? && oracle(i) == Skip {
      assert Open(final, g + 1, b) == [];
      OpenMember(final, g + 1, b, i);
      HonestVerdict(oracle, final, i);
      BoundsExtreme(final, Entry(i, oracle(i)));
    }
  }

  /** What is reported once everything between the bounds has been skipped. */
  lemma Report(candidates: seq<string>, oracle: Oracle, final: seq<Entry>, g: nat, b: nat)
    requires Wellformed(candidates, final) && Honest(oracle, final)
    requires LastGood(final) == Some(g) && FirstBad(final) == Some(b) && g < b < |candidates|
    requires forall i :: g < i < b ==> VerdictOf(final, i).Some? && oracle(i) == Skip
    ensures NextStep(candidates, final)
         == if b == g + 1 then Found(b, candidates[b], Some(candidates[g]))
            else Inconclusive(candidates[g], candidates[b], candidates[g + 1..b])
  {
    hide VerdictOf, LastGood, FirstBad, Nearest, Bits, Open, SkippedNames;
    SkippedNamesOf(candidates, oracle, final, g + 1, b);
    var open := Open(final, g + 1, b);
    if open != [] {
      OpenMember(final, g + 1, b, open[0]);
    }
  }

  /** The candidate named is exactly the first bad one, and naming happens exactly when it can. */
  lemma NamesTheCulprit(candidates: seq<string>, culprit: nat, oracle: Oracle)
    requires candidates != [] && Monotone(|candidates|, culprit, oracle)
    ensures var final := Finished(candidates, oracle, []);
            var step := NextStep(candidates, final);
            var named := oracle(culprit) != Skip && oracle(culprit - 1) != Skip;
            && !Contradiction(final)
            && (named ==> step == Found(culprit, candidates[culprit], Some(candidates[culprit - 1])))
            && (!named ==> step.Inconclusive?)
  {
    var final := Finished(candidates, oracle, []);
    FinishedIsHonest(candidates, oracle, []);
    hide NextStep, VerdictOf, LastGood, FirstBad, Finished;
    Brackets(candidates, culprit, oracle, final);
    Report(candidates, oracle, final, LastGood(final).value, FirstBad(final).value);
  }

  /** An inconclusive search reports the bracket and exactly the untestable builds inside it. */
  lemma InconclusiveBrackets(candidates: seq<string>, culprit: nat, oracle: Oracle)
    requires candidates != [] && Monotone(|candidates|, culprit, oracle)
    requires oracle(culprit) == Skip || oracle(culprit - 1) == Skip
    ensures var step := NextStep(candidates, Finished(candidates, oracle, []));
            exists g, b :: && 0 <= g < culprit <= b < |candidates|
                           && oracle(g) == Good && oracle(b) == Bad
                           && (forall i :: g < i < b ==> oracle(i) == Skip)
                           && step == Inconclusive(candidates[g], candidates[b], candidates[g + 1..b])
  {
    hide NextStep, VerdictOf, LastGood, FirstBad, Finished;
    var final := Finished(candidates, oracle, []);
    FinishedIsHonest(candidates, oracle, []);
    Brackets(candidates, culprit, oracle, final);
    var g, b := LastGood(final).value, FirstBad(final).value;
    Report(candidates, oracle, final, g, b);
    hide Monotone;
    assert b != g + 1;
  }

  // ------------------------------------------------------------------ how many tests

  lemma {:induction false} BitsBound(n: nat)
    requires n >= 1
    ensures Pow2(Bits(n)) <= n < 2 * Pow2(Bits(n))
  {
    if n > 1 {
      BitsBound(n / 2);
    }
  }

  lemma {:induction false} BitsMonotone(m: nat, n: nat)
    requires m <= n
    ensures Bits(m) <= Bits(n)
  {
    if m > 1 {
      BitsMonotone(m / 2, n / 2);
    }
  }

  lemma {:induction false} BitsBelow(n: nat, k: nat)
    requires 1 <= n < Pow2(k)
    ensures Bits(n) < k
  {
    if n > 1 {
      BitsBelow(n / 2, k - 1);
    }
  }

  lemma {:induction false} BitsAtLeast(n: nat, k: nat)
    requires n >= Pow2(k)
    ensures Bits(n) >= k
  {
    if k > 0 {
      BitsAtLeast(n / 2, k - 1);
    }
  }

  /** Tests that always suffice for `m` open candidates. */
  ghost function Worst(m: nat): nat {
    if m == 0 then 0 else 1 + Bits(m)
  }

  lemma WorstHalf(m: nat, left: nat)
    requires m >= 1 && left <= m / 2
    ensures Worst(left) <= Bits(m)
  {
    BitsMonotone(left, m / 2);
  }

  /** Both ends known, nothing between them recorded, and the oracle answers there. */
  ghost predicate Halving(candidates: seq<string>, oracle: Oracle, results: seq<Entry>, g: nat, b: nat) {
    && Wellformed(candidates, results)
    && LastGood(results) == Some(g) && FirstBad(results) == Some(b) && g < b < |candidates|
    && (forall i :: g < i < b ==> VerdictOf(results, i).None? && oracle(i) != Skip)
  }

  lemma {:induction false} OpenIsEverything(results: seq<Entry>, lo: nat, hi: nat)
    requires lo <= hi
    requires forall i :: lo <= i < hi ==> VerdictOf(results, i).None?
    ensures |Open(results, lo, hi)| == hi - lo
    decreases hi - lo
  {
    if lo < hi {
      OpenIsEverything(results, lo + 1, hi);
    }
  }

  lemma {:induction false} NoneSkipped(candidates: seq<string>, results: seq<Entry>, lo: nat, hi: nat)
    requires lo <= hi <= |candidates|
    requires forall i :: lo <= i < hi ==> VerdictOf(results, i) != Some(Skip)
    ensures SkippedNames(candidates, results, lo, hi) == []
    decreases hi - lo
  {
    if lo < hi {
      NoneSkipped(candidates, results, lo + 1, hi);
    }
  }

  /** In the halving phase the midpoint is offered, with the documented bound attached. */
  lemma HalvingStep(candidates: seq<string>, oracle: Oracle, results: seq<Entry>, g: nat, b: nat)
    requires Halving(candidates, oracle, results, g, b)
    ensures var step := NextStep(candidates, results);
            if b == g + 1 then step == Found(b, candidates[b], Some(candidates[g]))
            else step == Test((g + b) / 2, candidates[(g + b) / 2], b - g - 1, Bits(b - g - 1))
  {
    BoundsRecorded(results);
    hide VerdictOf, LastGood, FirstBad, Open, SkippedNames, Nearest, Bits;
    OpenIsEverything(results, g + 1, b);
    NoneSkipped(candidates, results, g + 1, b);
    if b > g + 1 {
      var open := Open(results, g + 1, b);
      OpenMember(results, g + 1, b, (g + b) / 2);
      assert Distance(Nearest(open, (g + b) / 2), (g + b) / 2) == 0;
    }
  }

  lemma {:induction false} AppendBounds(results: seq<Entry>, e: Entry)
    ensures var g, b := LastGood(results), FirstBad(results);
            && LastGood(results + [e])
               == (if e.verdict == Good && (g.None? || g.value < e.idx) then Some(e.idx) else g)
            && FirstBad(results + [e])
               == (if e.verdict == Bad && (b.None? || e.idx < b.value) then Some(e.idx) else b)
  {
    if results == [] {
      assert [e][1..] == [];
      assert results + [e] == [e];
    } else {
      assert (results + [e])[1..] == results[1..] + [e];
      AppendBounds(results[1..], e);
    }
  }

  lemma HalvingAnswered(candidates: seq<string>, oracle: Oracle, results: seq<Entry>, g: nat, b: nat, i: nat)
    requires Halving(candidates, oracle, results, g, b) && g < i < b
    ensures var more := results + [Entry(i, oracle(i))];
            if oracle(i) == Good then Halving(candidates, oracle, more, i, b)
            else Halving(candidates, oracle, more, g, i)
  {
    var e := Entry(i, oracle(i));
    BoundsRecorded(results);
    AppendBounds(results, e);
    forall j | g < j < b && j != i ensures VerdictOf(results + [e], j).None? {
      AppendVerdict(results, e, j);
    }
  }

  /** The bound attached to an offer is never exceeded, whatever the answers. */
  lemma {:induction false} HalvingBound(candidates: seq<string>, oracle: Oracle, results: seq<Entry>, g: nat, b: nat)
    requires Halving(candidates, oracle, results, g, b)
    ensures Tests(candidates, oracle, results) <= Worst(b - g - 1)
    ensures var step := NextStep(candidates, results);
            step.Test? ==> Tests(candidates, oracle, results) - 1 <= step.maxFurtherTests
    decreases b - g
  {
    hide NextStep, Finished, Tests, Bits, LastGood, FirstBad, VerdictOf;
    HalvingStep(candidates, oracle, results, g, b);
    TestsUnfold(candidates, oracle, results);
    if b > g + 1 {
      var i := (g + b) / 2;
      var more := results + [Entry(i, oracle(i))];
      HalvingAnswered(candidates, oracle, results, g, b, i);
      if oracle(i) == Good {
        HalvingBound(candidates, oracle, more, i, b);
        WorstHalf(b - g - 1, b - i - 1);
      } else {
        HalvingBound(candidates, oracle, more, g, i);
        WorstHalf(b - g - 1, i - g - 1);
      }
    }
  }

  /** When every answer is good the bound is met exactly. */
  lemma {:induction false} HalvingWorstCase(candidates: seq<string>, oracle: Oracle, results: seq<Entry>, g: nat, b: nat)
    requires Halving(candidates, oracle, results, g, b)
    requires forall i :: g < i < b ==> oracle(i) == Good
    ensures Tests(candidates, oracle, results) == Worst(b - g - 1)
    decreases b - g
  {
    hide NextStep, Finished, Tests, LastGood, FirstBad, VerdictOf;
    HalvingStep(candidates, oracle, results, g, b);
    TestsUnfold(candidates, oracle, results);
    if b > g + 1 {
      var i := (g + b) / 2;
      HalvingAnswered(candidates, oracle, results, g, b, i);
      HalvingWorstCase(candidates, oracle, results + [Entry(i, oracle(i))], i, b);
      assert b - i - 1 == (b - g - 1) / 2;
    }
  }

  /** Only the last build fails. */
  ghost predicate LateFailure(n: nat, oracle: Oracle) {
    forall i: nat :: i < n ==> oracle(i) == if i == n - 1 then Bad else Good
  }

  ghost predicate NeverSkips(n: nat, oracle: Oracle) {
    forall i: nat :: i < n ==> oracle(i) != Skip
  }

  /** The two ends of a fresh search, and what is left to halve. */
  lemma Ends(candidates: seq<string>, oracle: Oracle)
    requires |candidates| >= 2 && NeverSkips(|candidates|, oracle)
    ensures var n := |candidates|;
            var both := [Entry(0, Good), Entry(n - 1, Bad)];
            if oracle(0) == Good && oracle(n - 1) == Bad
            then Halving(candidates, oracle, both, 0, n - 1)
                 && Tests(candidates, oracle, []) == 2 + Tests(candidates, oracle, both)
            else Tests(candidates, oracle, []) <= 2
  {
    hide NextStep, Tests, Finished, LastGood, FirstBad, VerdictOf, Bits, Halving;
    var n := |candidates|;
    FirstEnd(candidates, oracle);
    TestsUnfold(candidates, oracle, []);
    var one := [Entry(0, oracle(0))];
    assert [] + one == one;
    TestsUnfold(candidates, oracle, one);
    var two := [Entry(0, oracle(0)), Entry(n - 1, oracle(n - 1))];
    assert one + [Entry(n - 1, oracle(n - 1))] == two;
    SecondEnd(candidates, oracle);
    TestsUnfold(candidates, oracle, two);
  }

  lemma FirstEnd(candidates: seq<string>, oracle: Oracle)
    requires |candidates| >= 2 && oracle(0) != Skip
    ensures var n := |candidates|;
            var one := [Entry(0, oracle(0))];
            && NextStep(candidates, []) == Test(0, candidates[0], n, Bits(n) + 1)
            && Wellformed(candidates, one)
            && if oracle(0) == Good
               then NextStep(candidates, one) == Test(n - 1, candidates[n - 1], n, Bits(n) + 1)
               else NextStep(candidates, one).NeedEnds?
  {
    var n := |candidates|;
    var e := Entry(0, oracle(0));
    assert [] + [e] == [e];
    AppendBounds([], e);
    AppendVerdict([], e, n - 1);
    AppendVerdict([], e, 0);
    hide Bits, Open, SkippedNames, Nearest;
  }

  lemma SecondEnd(candidates: seq<string>, oracle: Oracle)
    requires |candidates| >= 2 && NeverSkips(|candidates|, oracle)
    ensures var n := |candidates|;
            var two := [Entry(0, oracle(0)), Entry(n - 1, oracle(n - 1))];
            && Wellformed(candidates, two)
            && (oracle(0) == Good && oracle(n - 1) == Bad ==> Halving(candidates, oracle, two, 0, n - 1))
            && (oracle(0) == Good && oracle(n - 1) == Good ==> NextStep(candidates, two).NeedEnds?)
  {
    hide Bits, Open, SkippedNames, Nearest;
    var n := |candidates|;
    var e, f := Entry(0, oracle(0)), Entry(n - 1, oracle(n - 1));
    assert [] + [e] == [e] && [e] + [f] == [e, f];
    AppendBounds([], e);
    AppendBounds([e], f);
    forall i: nat ensures VerdictOf([e, f], i).Some? <==> i == 0 || i == n - 1 {
      AppendVerdict([], e, i);
      AppendVerdict([e], f, i);
    }
  }

  /**
   The bound attached to the very first offer, `bits(n) + 1` further tests, is right for
   every oracle exactly when `n` is at most one above the power of two it reaches.
   */
  lemma FirstOfferBound(candidates: seq<string>)
    requires candidates != []
    ensures var n := |candidates|;
            (forall oracle: Oracle :: NeverSkips(n, oracle) ==>
                Tests(candidates, oracle, []) - 1 <= NextStep(candidates, []).maxFurtherTests)
            <==> n < Pow2(Bits(n)) + 2
  {
    var n := |candidates|;
    assert NextStep(candidates, []) == Test(0, candidates[0], n, Bits(n) + 1);
    hide NextStep, Tests, Finished;
    if n < Pow2(Bits(n)) + 2 {
      hide Bits, Pow2;
      forall oracle: Oracle | NeverSkips(n, oracle)
        ensures Tests(candidates, oracle, []) - 1 <= Bits(n) + 1
      {
        if n == 1 {
          AtMostEveryCandidateOnce(candidates, oracle);
        } else {
          FirstOfferKept(candidates, oracle);
        }
      }
    } else {
      var oracle: Oracle := i => if i == n - 1 then Bad else Good;
      FirstOfferExceeded(candidates, oracle);
      assert NeverSkips(n, oracle);
    }
  }

  lemma FirstOfferKept(candidates: seq<string>, oracle: Oracle)
    requires |candidates| >= 2 && NeverSkips(|candidates|, oracle)
    requires |candidates| < Pow2(Bits(|candidates|)) + 2
    ensures Tests(candidates, oracle, []) <= Bits(|candidates|) + 2
  {
    hide Tests, Halving, Bits, Finished, NextStep, Pow2;
    var n := |candidates|;
    Ends(candidates, oracle);
    if oracle(0) == Good && oracle(n - 1) == Bad {
      HalvingBound(candidates, oracle, [Entry(0, Good), Entry(n - 1, Bad)], 0, n - 1);
      if n > 2 {
        BitsBelow(n - 2, Bits(n));
      }
    }
  }

  /** Otherwise a single late failure already takes one test more. */
  lemma FirstOfferExceeded(candidates: seq<string>, oracle: Oracle)
    requires |candidates| >= 2 && |candidates| >= Pow2(Bits(|candidates|)) + 2
    requires LateFailure(|candidates|, oracle)
    ensures Tests(candidates, oracle, []) == Bits(|candidates|) + 3
  {
    var n := |candidates|;
    Ends(candidates, oracle);
    hide Tests, Halving, Bits, Pow2;
    HalvingWorstCase(candidates, oracle, [Entry(0, Good), Entry(n - 1, Bad)], 0, n - 1);
    BitsAtLeast(n - 2, Bits(n));
    BitsMonotone(n - 2, n);
  }

  /** Six builds are the first case where the first bound is one short. */
  lemma SixBuildsTakeOneMore(candidates: seq<string>, oracle: Oracle)
    requires |candidates| == 6 && LateFailure(6, oracle)
    ensures NextStep(candidates, []).maxFurtherTests == 3
    ensures Tests(candidates, oracle, []) - 1 == 4
  {
    assert Bits(6) == 2 && Pow2(2) == 4;
    FirstEnd(candidates, oracle);
    hide NextStep, Tests;
    FirstOfferExceeded(candidates, oracle);
  }
}
