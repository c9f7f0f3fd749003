/**
 What the template miner guarantees over every run: a wildcard means two lines disagreed,
 the books balance, every template is filed once and stays reachable, and no template
 dissolves.
 */
module DrainTheorems {
  import opened Sequences
  import opened DrainTree
  import opened Drain

  /** A mined line, and whether it was cut to its head. */
  datatype Line = Line(tokens: seq<Token>, cut: bool)

  /** The miner together with the lines each template absorbed and the address it was filed at. */
  datatype History = History(miner: Miner, absorbed: seq<seq<Line>>, home: seq<seq<Token>>)

  ghost predicate Aligned(h: History) {
    |h.absorbed| == |h.miner.templates| == |h.home|
  }

  function LineOf(cfg: Config, tokens: seq<Token>): Line
  {
    Line(Mined(cfg, tokens), |tokens| > cfg.maxLineTokens)
  }

  ghost function Record(cfg: Config, h: History, tokens: seq<Token>): (h': History)
    requires Aligned(h)
    ensures Aligned(h')
  {
    var m := Add(cfg, h.miner, tokens).0;
    var line := LineOf(cfg, tokens);
    match Target(cfg, h.miner, tokens)
    case Some(idx) => History(m, h.absorbed[idx := h.absorbed[idx] + [line]], h.home)
    case None =>
      var address := Address(RootOf(h.miner, |line.tokens|), Prefix(cfg, line.tokens), cfg.maxChildren);
      History(m, h.absorbed + [[line]], h.home + [address])
  }

  /** A whole run of `add_tokens` calls on a fresh miner. */
  ghost function Mine(cfg: Config, lines: seq<seq<Token>>): (h: History)
    ensures Aligned(h)
  {
    if lines == [] then History(FRESH, [], [])
    else Record(cfg, Mine(cfg, lines[..|lines| - 1]), lines[|lines| - 1])
  }

  // ------------------------------------------------------------------ least general generalisation

  ghost predicate Agree(lines: seq<Line>, j: nat)
    requires forall a :: 0 <= a < |lines| ==> j < |lines[a].tokens|
  {
    forall a, b :: 0 <= a < |lines| && 0 <= b < |lines| ==> lines[a].tokens[j] == lines[b].tokens[j]
  }

  /** The common token where all lines agree, a wildcard where two disagree. */
  ghost predicate IsLgg(t: seq<Token>, lines: seq<Line>) {
    && lines != []
    && (forall a :: 0 <= a < |lines| ==> |lines[a].tokens| == |t|)
    && forall j :: 0 <= j < |t| ==> t[j] == if Agree(lines, j) then lines[0].tokens[j] else WILDCARD
  }

  lemma LggOfOne(line: Line)
    ensures IsLgg(line.tokens, [line])
  {
  }

  lemma LggOfMore(t: seq<Token>, lines: seq<Line>, line: Line)
    requires IsLgg(t, lines) && |line.tokens| == |t|
    ensures IsLgg(Generalized(t, line.tokens), lines + [line])
  {
    var g, more := Generalized(t, line.tokens), lines + [line];
    forall j | 0 <= j < |g|
      ensures g[j] == if Agree(more, j) then more[0].tokens[j] else WILDCARD
    {
      var last := |lines|;
      if Agree(more, j) {
        assert more[0].tokens[j] == more[last].tokens[j];
        forall a, b | 0 <= a < |lines| && 0 <= b < |lines|
          ensures lines[a].tokens[j] == lines[b].tokens[j]
        {
          assert more[a] == lines[a] && more[b] == lines[b];
        }
        assert Agree(lines, j);
      } else if Agree(lines, j) {
        var a, b :| 0 <= a < |more| && 0 <= b < |more| && more[a].tokens[j] != more[b].tokens[j];
        assert a < last ==> more[a] == lines[a] && lines[a].tokens[j] == t[j];
        assert b < last ==> more[b] == lines[b] && lines[b].tokens[j] == t[j];
        assert line.tokens[j] != t[j];
      }
    }
  }

  // ------------------------------------------------------------------ the books

  ghost function Total(absorbed: seq<seq<Line>>): nat {
    if absorbed == [] then 0 else Total(absorbed[..|absorbed| - 1]) + |absorbed[|absorbed| - 1]|
  }

  lemma {:induction false} TotalUpdate(absorbed: seq<seq<Line>>, idx: nat, line: Line)
    requires idx < |absorbed|
    ensures Total(absorbed[idx := absorbed[idx] + [line]]) == Total(absorbed) + 1
  {
    var n := |absorbed| - 1;
    var more := absorbed[idx := absorbed[idx] + [line]];
    if idx == n {
      assert more[..n] == absorbed[..n];
    } else {
      assert more[..n] == absorbed[..n][idx := absorbed[..n][idx] + [line]];
      TotalUpdate(absorbed[..n], idx, line);
    }
  }

  lemma TotalAppend(absorbed: seq<seq<Line>>, lines: seq<Line>)
    ensures Total(absorbed + [lines]) == Total(absorbed) + |lines|
  {
    assert (absorbed + [lines])[..|absorbed|] == absorbed;
  }

  ghost predicate AnyCut(lines: seq<Line>) {
    exists a :: 0 <= a < |lines| && lines[a].cut
  }

  /** One template against the lines it absorbed. */
  ghost predicate Accounted(t: Template, lines: seq<Line>, idx: nat) {
    && t.id == idx + 1
    && t.count == |lines|
    && IsLgg(t.tokens, lines)
    && (t.headOnly <==> AnyCut(lines))
  }

  ghost predicate Books(h: History, calls: nat) {
    && Aligned(h)
    && h.miner.nextId == |h.miner.templates| + 1
    && Total(h.absorbed) == calls
    && forall i :: 0 <= i < |h.miner.templates| ==> Accounted(h.miner.templates[i], h.absorbed[i], i)
  }

  lemma AccountedMore(cfg: Config, t: Template, lines: seq<Line>, idx: nat, tokens: seq<Token>)
    requires Accounted(t, lines, idx) && |t.tokens| == |Mined(cfg, tokens)|
    ensures Accounted(Joined(cfg, t, tokens), lines + [LineOf(cfg, tokens)], idx)
  {
    var line := LineOf(cfg, tokens);
    LggOfMore(t.tokens, lines, line);
    var more := lines + [line];
    assert more[|lines|] == line;
    assert forall a :: 0 <= a < |lines| ==> more[a] == lines[a];
  }

  lemma JoinBooks(cfg: Config, h: History, tokens: seq<Token>, calls: nat)
    requires Books(h, calls) && Target(cfg, h.miner, tokens).Some?
    ensures Books(Record(cfg, h, tokens), calls + 1)
  {
    hide Insert, Accounted, Total, Generalized, Mined;
    var idx := Target(cfg, h.miner, tokens).value;
    TotalUpdate(h.absorbed, idx, LineOf(cfg, tokens));
    AccountedMore(cfg, h.miner.templates[idx], h.absorbed[idx], idx, tokens);
    hide Target;
  }

  lemma FileBooks(cfg: Config, h: History, tokens: seq<Token>, calls: nat)
    requires Books(h, calls) && Target(cfg, h.miner, tokens).None?
    ensures Books(Record(cfg, h, tokens), calls + 1)
  {
    hide Target, Insert, Accounted, Total, Address;
    var h', line := Record(cfg, h, tokens), LineOf(cfg, tokens);
    TotalAppend(h.absorbed, [line]);
    NewAccounted(line, |h.miner.templates|);
    forall i | 0 <= i < |h'.miner.templates| ensures Accounted(h'.miner.templates[i], h'.absorbed[i], i) {
      assert i < |h.miner.templates| ==> h'.miner.templates[i] == h.miner.templates[i];
    }
  }

  lemma RecordBooks(cfg: Config, h: History, tokens: seq<Token>, calls: nat)
    requires Books(h, calls)
    ensures Books(Record(cfg, h, tokens), calls + 1)
  {
    hide Target, Books, Record;
    if Target(cfg, h.miner, tokens).Some? {
      JoinBooks(cfg, h, tokens, calls);
    } else {
      FileBooks(cfg, h, tokens, calls);
    }
  }

  lemma NewAccounted(line: Line, idx: nat)
    ensures Accounted(Template(idx + 1, line.tokens, 1, line.cut), [line], idx)
  {
    LggOfOne(line);
    assert [line][0] == line;
  }

  /**
   After any run each template is the least general generalisation of the lines it absorbed,
   counts them, and is numbered in creation order; the counts add up to the number of calls.
   */
  lemma {:induction false} TemplatesAreGeneralisations(cfg: Config, lines: seq<seq<Token>>)
    ensures Books(Mine(cfg, lines), |lines|)
  {
    if lines != [] {
      hide Books, Record;
      TemplatesAreGeneralisations(cfg, lines[..|lines| - 1]);
      RecordBooks(cfg, Mine(cfg, lines[..|lines| - 1]), lines[|lines| - 1], |lines| - 1);
    }
  }

  /** A wildcard where no line literally read `<*>` means two lines disagreed, and conversely. */
  lemma WildcardMeansDisagreement(cfg: Config, lines: seq<seq<Token>>, i: nat, j: nat)
    ensures var h := Mine(cfg, lines);
            i < |h.miner.templates| && j < |h.miner.templates[i].tokens| ==>
              && (forall a :: 0 <= a < |h.absorbed[i]| ==> j < |h.absorbed[i][a].tokens|)
              && ((forall a :: 0 <= a < |h.absorbed[i]| ==> h.absorbed[i][a].tokens[j] != WILDCARD) ==>
                    (h.miner.templates[i].tokens[j] == WILDCARD <==> !Agree(h.absorbed[i], j)))
  {
    hide Mine;
    TemplatesAreGeneralisations(cfg, lines);
    var h := Mine(cfg, lines);
    if i < |h.miner.templates| {
      assert Accounted(h.miner.templates[i], h.absorbed[i], i);
    }
  }

  // ------------------------------------------------------------------ the tree

  /** The templates filed for lines of `n` tokens at one address. */
  ghost function At(m: Miner, n: nat, keys: seq<Token>): seq<nat> {
    ClustersAt(RootOf(m, n), keys)
  }

  ghost predicate Once(s: seq<nat>) {
    forall a, b :: 0 <= a < b < |s| ==> s[a] != s[b]
  }

  /** The line that created a template. */
  ghost function Creator(h: History, i: nat): seq<Token>
    requires i < |h.absorbed|
  {
    if h.absorbed[i] == [] then [] else h.absorbed[i][0].tokens
  }

  ghost predicate Housed(cfg: Config, h: History, i: nat)
    requires Aligned(h) && i < |h.home|
  {
    var c := Creator(h, i);
    && h.absorbed[i] != []
    && |c| == |h.miner.templates[i].tokens|
    && |h.home[i]| == Depth(cfg, |c|)
    && i in At(h.miner, |c|, h.home[i])
    && Routed(RootOf(h.miner, |c|), Prefix(cfg, c), cfg.maxChildren, i)
  }

  /** Whatever sits at an address belongs there, and sits there once. */
  ghost predicate Belongs(h: History, n: nat, keys: seq<Token>)
    requires Aligned(h)
  {
    && Once(At(h.miner, n, keys))
    && forall i :: i in At(h.miner, n, keys) ==>
         i < |h.home| && h.home[i] == keys && |h.miner.templates[i].tokens| == n
  }

  ghost predicate Filed(cfg: Config, h: History) {
    && Aligned(h)
    && (forall i :: 0 <= i < |h.home| ==> Housed(cfg, h, i))
    && (forall n, keys :: Belongs(h, n, keys))
    && (forall n :: n in h.miner.roots ==> Narrow(h.miner.roots[n], cfg.maxChildren))
    && Wellformed(h.miner)
  }

  lemma JoinKeepsFiled(cfg: Config, h: History, tokens: seq<Token>)
    requires Filed(cfg, h) && Target(cfg, h.miner, tokens).Some?
    ensures Filed(cfg, Record(cfg, h, tokens))
  {
    hide Target, Narrow, Bounded, Routed, ClustersAt, Once;
    var h' := Record(cfg, h, tokens);
    forall i | 0 <= i < |h'.home| ensures Housed(cfg, h', i) {
      assert Housed(cfg, h, i);
    }
    forall n, keys ensures Belongs(h', n, keys) {
      assert Belongs(h, n, keys);
    }
  }

  lemma OnceMore(s: seq<nat>, i: nat)
    requires Once(s) && i !in s
    ensures Once(s + [i])
  {
  }

  lemma NewKeepsFiled(cfg: Config, h: History, tokens: seq<Token>)
    requires Filed(cfg, h) && Target(cfg, h.miner, tokens).None?
    ensures Filed(cfg, Record(cfg, h, tokens))
  {
    hide Target, Narrow, Bounded, Routed, ClustersAt, Once, Insert, Address;
    var h' := Record(cfg, h, tokens);
    var line := LineOf(cfg, tokens);
    var n, path, new_ := |line.tokens|, Prefix(cfg, line.tokens), |h.home|;
    var root := RootOf(h.miner, n);
    forall i | 0 <= i < |h'.home| ensures Housed(cfg, h', i) {
      if i < new_ {
        assert Housed(cfg, h, i);
        var c := Creator(h, i);
        if |c| == n {
          RouteKept(root, Prefix(cfg, c), cfg.maxChildren, i, path, new_);
          InsertAt(root, path, cfg.maxChildren, new_, h.home[i]);
        }
      } else {
        InsertRoutes(root, path, cfg.maxChildren, new_);
        InsertAt(root, path, cfg.maxChildren, new_, h'.home[i]);
      }
    }
    forall k, keys ensures Belongs(h', k, keys) {
      NewBelongs(cfg, h, tokens, k, keys);
    }
    EmptyIsFine(cfg.maxChildren, new_ + 1);
    InsertNarrow(root, path, cfg.maxChildren, new_);
    forall k | k in h'.miner.roots ensures Bounded(h'.miner.roots[k], new_ + 1) {
      if k in h.miner.roots {
        BoundedMore(h.miner.roots[k], new_, new_ + 1);
      }
      if k == n {
        InsertBounded(root, path, cfg.maxChildren, new_, new_ + 1);
      }
    }
  }

  lemma EmptyIsFine(maxChildren: nat, n: nat)
    ensures Narrow(EMPTY, maxChildren) && Bounded(EMPTY, n)
  {
  }

  lemma NewBelongs(cfg: Config, h: History, tokens: seq<Token>, k: nat, keys: seq<Token>)
    requires Filed(cfg, h) && Target(cfg, h.miner, tokens).None?
    ensures Belongs(Record(cfg, h, tokens), k, keys)
  {
    hide Target, Narrow, Bounded, Routed, ClustersAt, Once, Insert, Address;
    var h' := Record(cfg, h, tokens);
    var line := LineOf(cfg, tokens);
    var n, path, new_ := |line.tokens|, Prefix(cfg, line.tokens), |h.home|;
    assert Belongs(h, k, keys);
    if k == n {
      InsertAt(RootOf(h.miner, n), path, cfg.maxChildren, new_, keys);
      if keys == h'.home[new_] {
        OnceMore(At(h.miner, n, keys), new_);
      } else {
        Unit(At(h.miner, n, keys));
      }
    }
  }

  /**
   Over every run: each template is filed exactly once, under the root for its length, at the
   configured depth; no node outgrows its limit; and the line that created it is still routed
   to it.
   */
  lemma {:induction false} TreeInvariant(cfg: Config, lines: seq<seq<Token>>)
    ensures Filed(cfg, Mine(cfg, lines))
  {
    if lines == [] {
      forall n, keys ensures Belongs(Mine(cfg, lines), n, keys) {
        EmptyHasNone(keys);
      }
    } else {
      var h := Mine(cfg, lines[..|lines| - 1]);
      TreeInvariant(cfg, lines[..|lines| - 1]);
      hide Filed, Record;
      if Target(cfg, h.miner, lines[|lines| - 1]).Some? {
        JoinKeepsFiled(cfg, h, lines[|lines| - 1]);
      } else {
        NewKeepsFiled(cfg, h, lines[|lines| - 1]);
      }
    }
  }

  /** Exactly one address holds a template. */
  lemma FiledExactlyOnce(cfg: Config, lines: seq<seq<Token>>, i: nat, n: nat, keys: seq<Token>)
    ensures var h := Mine(cfg, lines);
            i in At(h.miner, n, keys) <==>
            i < |h.miner.templates| && n == |h.miner.templates[i].tokens| && keys == h.home[i]
  {
    hide Mine;
    TreeInvariant(cfg, lines);
    var h := Mine(cfg, lines);
    assert Belongs(h, n, keys);
    if i < |h.home| {
      assert Housed(cfg, h, i);
    }
  }

  /** The line that created a template always has it among its candidates. */
  lemma CreatorFindsTemplate(cfg: Config, lines: seq<seq<Token>>, i: nat)
    ensures var h := Mine(cfg, lines);
            i < |h.miner.templates| ==> i in CandidatesFor(cfg, h.miner, Creator(h, i)).0
  {
    hide Mine, Gather;
    TreeInvariant(cfg, lines);
    var h := Mine(cfg, lines);
    if i < |h.miner.templates| {
      assert Housed(cfg, h, i);
      var c := Creator(h, i);
      RoutedGathers(RootOf(h.miner, |c|), Prefix(cfg, c), cfg.maxChildren, i, []);
    }
  }

  /** Sorting the gathered indices into range loses none of them. */
  lemma NothingOutOfRange(cfg: Config, lines: seq<seq<Token>>, tokens: seq<Token>)
    requires |tokens| in Mine(cfg, lines).miner.roots
    ensures var m := Mine(cfg, lines).miner;
            forall i :: i in CandidatesFor(cfg, m, tokens).0 <==>
                        i in Gather(m.roots[|tokens|], Prefix(cfg, tokens), []).0
  {
    hide Mine, Gather, Bounded;
    TreeInvariant(cfg, lines);
    var m := Mine(cfg, lines).miner;
    GatherBelow(m.roots[|tokens|], Prefix(cfg, tokens), [], |m.templates|);
  }

  /** A template of this length, filed at an address this line's prefix fits. */
  ghost predicate Fits(cfg: Config, h: History, tokens: seq<Token>, i: nat)
    requires Aligned(h)
  {
    && i < |h.home|
    && |h.miner.templates[i].tokens| == |tokens|
    && Covers(h.home[i], Prefix(cfg, tokens))
  }

  /**
   After any run a line is compared with a fitting template exactly when that is within the walk's
   reach: at the end of the walk, or among the first 512 of a wildcard branch the walk passes by.
   */
  lemma FittingTemplatesAreCompared(cfg: Config, lines: seq<seq<Token>>, tokens: seq<Token>, i: nat)
    ensures var h := Mine(cfg, lines);
            Fits(cfg, h, tokens, i) ==>
              (i in CandidatesFor(cfg, h.miner, tokens).0 <==>
               Within(RootOf(h.miner, |tokens|), Prefix(cfg, tokens), h.home[i], i))
  {
    hide Mine, Gather, Within, Covers, Routed;
    TreeInvariant(cfg, lines);
    var h := Mine(cfg, lines);
    if Fits(cfg, h, tokens, i) {
      var root := RootOf(h.miner, |tokens|);
      forall keys ensures i in ClustersAt(root, keys) <==> keys == h.home[i] {
        FiledExactlyOnce(cfg, lines, i, |tokens|, keys);
      }
      EmptyHasNone(h.home[i]);
      CoveringIsGatheredIff(root, Prefix(cfg, tokens), [], h.home[i], i);
    }
  }

  /** So as long as no such branch holds more than 512 templates, no fitting template is missed. */
  lemma NoneMissedBelowTheCap(cfg: Config, lines: seq<seq<Token>>, tokens: seq<Token>, i: nat)
    ensures var h := Mine(cfg, lines);
            Fits(cfg, h, tokens, i) && Scannable(RootOf(h.miner, |tokens|), Prefix(cfg, tokens)) ==>
              i in CandidatesFor(cfg, h.miner, tokens).0
  {
    hide Mine, Gather, Within, Scannable, Covers, Routed;
    FittingTemplatesAreCompared(cfg, lines, tokens, i);
    TreeInvariant(cfg, lines);
    var h := Mine(cfg, lines);
    if Fits(cfg, h, tokens, i) && Scannable(RootOf(h.miner, |tokens|), Prefix(cfg, tokens)) {
      assert Housed(cfg, h, i);
      SmallBranchesAreWithin(RootOf(h.miner, |tokens|), Prefix(cfg, tokens), h.home[i], i);
    }
  }

  // ------------------------------------------------------------------ choosing

  lemma {:induction false} BestDominates(cfg: Config, templates: seq<Template>, cands: seq<nat>, tokens: seq<Token>, widened: bool, c: nat)
    requires Below(cands, |templates|) && c in cands && Eligible(cfg, templates[c].tokens, tokens, widened)
    ensures var best := Best(cfg, templates, cands, tokens, widened);
            best.Some? && !Beats(templates[c].tokens, templates[best.value].tokens, tokens)
  {
    hide Agreeing, Wild;
    var n := |cands| - 1;
    BelowTake(cands, n, |templates|);
    assert cands == cands[..n] + [cands[n]];
    if c in cands[..n] {
      BestDominates(cfg, templates, cands[..n], tokens, widened, c);
    }
  }

  lemma MulAtLeast(a: int, b: int, d: nat)
    requires a <= b
    ensures a * d <= b * d
  {
  }

  lemma PassesMore(cfg: Config, widened: bool, a: nat, b: nat, n: nat)
    requires Passes(cfg, widened, a, n) && a <= b
    ensures Passes(cfg, widened, b, n)
  {
    MulAtLeast(a, b, cfg.simDen);
  }

  /** A line joins a template exactly when some eligible candidate is similar enough. */
  lemma MatchesIff(cfg: Config, templates: seq<Template>, cands: seq<nat>, tokens: seq<Token>, widened: bool)
    requires Below(cands, |templates|)
    ensures BestMatch(cfg, templates, cands, tokens, widened).Some? <==>
            exists c :: c in cands && Eligible(cfg, templates[c].tokens, tokens, widened)
                        && Passes(cfg, widened, Score(templates[c].tokens, tokens), |tokens|)
  {
    hide Agreeing, Wild, Best, Passes;
    forall c | c in cands && Eligible(cfg, templates[c].tokens, tokens, widened)
               && Passes(cfg, widened, Score(templates[c].tokens, tokens), |tokens|)
      ensures BestMatch(cfg, templates, cands, tokens, widened).Some?
    {
      BestDominates(cfg, templates, cands, tokens, widened, c);
      var best := Best(cfg, templates, cands, tokens, widened);
      PassesMore(cfg, widened, Score(templates[c].tokens, tokens),
                 Score(templates[best.value].tokens, tokens), |tokens|);
    }
  }

  /** The template joined agrees at least as well as every other eligible candidate. */
  lemma JoinsTheMostSimilar(cfg: Config, templates: seq<Template>, cands: seq<nat>, tokens: seq<Token>, widened: bool, c: nat)
    requires Below(cands, |templates|) && c in cands && Eligible(cfg, templates[c].tokens, tokens, widened)
    requires BestMatch(cfg, templates, cands, tokens, widened).Some?
    ensures var t := templates[BestMatch(cfg, templates, cands, tokens, widened).value].tokens;
            && Score(templates[c].tokens, tokens) <= Score(t, tokens)
            && (Score(templates[c].tokens, tokens) == Score(t, tokens) ==> Wild(templates[c].tokens) <= Wild(t))
  {
    hide Agreeing, Wild, Best;
    BestDominates(cfg, templates, cands, tokens, widened, c);
  }

  // ------------------------------------------------------------------ nothing dissolves

  /** After joining, the literal positions are exactly those that agreed. */
  lemma {:induction false} WildAfter(t: seq<Token>, tokens: seq<Token>)
    requires |t| == |tokens|
    ensures Wild(Generalized(t, tokens)) + Agreeing(t, tokens) == |t|
  {
    if t != [] {
      var n := |t| - 1;
      WildAfter(t[..n], tokens[..n]);
      var g := Generalized(t, tokens);
      assert g[..n] == Generalized(t[..n], tokens[..n]);
    }
  }

  /** A widened match leaves at least a tenth of the template, and at least one token, literal. */
  lemma WidenedKeepsLiterals(cfg: Config, m: Miner, tokens: seq<Token>)
    requires Target(cfg, m, tokens).Some?
    requires CandidatesFor(cfg, m, Mined(cfg, tokens)).1 && Mined(cfg, tokens) != []
    ensures var t := Add(cfg, m, tokens).0.templates[Target(cfg, m, tokens).value].tokens;
            var literal := |t| - Wild(t);
            10 * literal >= |t| && literal >= 1
  {
    hide Agreeing, Wild, CandidatesFor, Best;
    var mined := Mined(cfg, tokens);
    var t := m.templates[Target(cfg, m, tokens).value].tokens;
    WildAfter(t, mined);
  }

  /** The template reads the line's own token or a wildcard everywhere. */
  ghost predicate Matches(t: seq<Token>, tokens: seq<Token>) {
    |t| == |tokens| && forall j :: 0 <= j < |t| ==> t[j] == WILDCARD || t[j] == tokens[j]
  }

  lemma {:induction false} FullScoreIff(t: seq<Token>, tokens: seq<Token>)
    requires |t| == |tokens|
    ensures Score(t, tokens) <= |t|
    ensures Score(t, tokens) == |t| <==> Matches(t, tokens)
  {
    if t != [] {
      var n := |t| - 1;
      FullScoreIff(t[..n], tokens[..n]);
      assert Matches(t, tokens) <==> Matches(t[..n], tokens[..n]) && (t[n] == WILDCARD || t[n] == tokens[n]);
    }
  }

  lemma FullMarksPass(cfg: Config, widened: bool, n: nat)
    requires cfg.simNum <= cfg.simDen
    ensures Passes(cfg, widened, n, n)
  {
    MulAtLeast(cfg.simNum, cfg.simDen, if n == 0 then 1 else n);
  }

  lemma NeverWidenedWithoutPrefix(cfg: Config, m: Miner, tokens: seq<Token>)
    requires CandidatesFor(cfg, m, tokens).1
    ensures Depth(cfg, |tokens|) > 0
  {
  }

  /** A widened search turns down a template that matches exactly when most of it is wildcards. */
  lemma MatchingIsEligibleIff(cfg: Config, t: seq<Token>, tokens: seq<Token>, widened: bool)
    requires Matches(t, tokens) && (widened ==> Depth(cfg, |tokens|) > 0)
    ensures Eligible(cfg, t, tokens, widened) <==> (widened ==> 2 * Wild(t) <= |t|)
  {
  }

  /** A candidate that matches, and is not turned down, is enough: some template is joined, and none changes. */
  lemma MatchingCandidateChangesNothing(cfg: Config, m: Miner, tokens: seq<Token>, c: nat)
    requires cfg.simNum <= cfg.simDen
    requires var mined := Mined(cfg, tokens);
             var (cands, widened) := CandidatesFor(cfg, m, mined);
             && c in cands && Matches(m.templates[c].tokens, mined)
             && (widened ==> 2 * Wild(m.templates[c].tokens) <= |mined|)
    ensures ChangesNothing(cfg, m, tokens)
  {
    hide Agreeing, Wild, CandidatesFor, Best, Passes, BestMatch, Eligible, Insert;
    var mined := Mined(cfg, tokens);
    var (cands, widened) := CandidatesFor(cfg, m, mined);
    if widened {
      NeverWidenedWithoutPrefix(cfg, m, mined);
    }
    MatchingIsEligibleIff(cfg, m.templates[c].tokens, mined, widened);
    FullScoreIff(m.templates[c].tokens, mined);
    FullMarksPass(cfg, widened, |mined|);
    MatchesIff(cfg, m.templates, cands, mined, widened);
    JoinsTheMostSimilar(cfg, m.templates, cands, mined, widened, c);
    var t := m.templates[Target(cfg, m, tokens).value].tokens;
    FullScoreIff(t, mined);
    var g := Generalized(t, mined);
    assert forall i :: 0 <= i < |t| ==> g[i] == t[i];
    assert g == t;
  }

  /** A candidate that matches the line and is not turned down. */
  ghost predicate Welcomes(cfg: Config, m: Miner, mined: seq<Token>, c: nat) {
    var (cands, widened) := CandidatesFor(cfg, m, mined);
    && c in cands && Matches(m.templates[c].tokens, mined)
    && (widened ==> 2 * Wild(m.templates[c].tokens) <= |mined|)
  }

  /** Adding this line creates no template and changes none but by counting. */
  ghost predicate ChangesNothing(cfg: Config, m: Miner, tokens: seq<Token>) {
    var (m', r) := Add(cfg, m, tokens);
    && !r.created && !r.generalized && |m'.templates| == |m.templates|
    && forall i :: 0 <= i < |m.templates| ==> m'.templates[i].tokens == m.templates[i].tokens
  }

  /** What a line joins without changing it had matched the line and was not turned down. */
  lemma JoinedUnchangedWelcomes(cfg: Config, m: Miner, tokens: seq<Token>)
    requires var r := Add(cfg, m, tokens).1; !r.created && !r.generalized
    ensures Target(cfg, m, tokens).Some?
    ensures Welcomes(cfg, m, Mined(cfg, tokens), Target(cfg, m, tokens).value)
  {
    hide Agreeing, Wild, CandidatesFor, Best, Passes, Insert;
    var mined := Mined(cfg, tokens);
    var (cands, widened) := CandidatesFor(cfg, m, mined);
    var t := m.templates[Target(cfg, m, tokens).value].tokens;
    assert Eligible(cfg, t, mined, widened);
    hide Target, Eligible;
    var g := Generalized(t, mined);
    assert g == t;
    assert forall j :: 0 <= j < |t| ==> g[j] == t[j];
    assert Matches(t, mined);
    if widened {
      NeverWidenedWithoutPrefix(cfg, m, mined);
    }
    MatchingIsEligibleIff(cfg, t, mined, widened);
  }

  /**
   On any miner, adding a line changes nothing exactly when some candidate matches it everywhere,
   by its own token or a wildcard, and is not turned down for being mostly wildcards in a widened
   search.
   */
  lemma NothingChangesIff(cfg: Config, m: Miner, tokens: seq<Token>)
    requires cfg.simNum <= cfg.simDen
    ensures ChangesNothing(cfg, m, tokens) <==> exists c: nat :: Welcomes(cfg, m, Mined(cfg, tokens), c)
  {
    hide Add, Target, CandidatesFor, Wild;
    if ChangesNothing(cfg, m, tokens) {
      JoinedUnchangedWelcomes(cfg, m, tokens);
    }
    if c: nat :| Welcomes(cfg, m, Mined(cfg, tokens), c) {
      MatchingCandidateChangesNothing(cfg, m, tokens, c);
    }
  }

  /**
   After any run, adding the line that created a template again changes nothing exactly when its
   own template is not turned down, that is unless the search is widened and most of the template
   is wildcards, or when another candidate matches and is not.
   */
  lemma CreatorRejoins(cfg: Config, lines: seq<seq<Token>>, i: nat, tokens: seq<Token>)
    requires cfg.simNum <= cfg.simDen
    ensures var h, mined := Mine(cfg, lines), Mined(cfg, tokens);
            i < |h.miner.templates| && mined == Creator(h, i) ==>
              (ChangesNothing(cfg, h.miner, tokens) <==>
                || (CandidatesFor(cfg, h.miner, mined).1 ==> 2 * Wild(h.miner.templates[i].tokens) <= |mined|)
                || exists c: nat :: c != i && Welcomes(cfg, h.miner, mined, c))
  {
    hide Mine, Add, CandidatesFor, Wild;
    var h, mined := Mine(cfg, lines), Mined(cfg, tokens);
    if i < |h.miner.templates| && mined == Creator(h, i) {
      TemplatesAreGeneralisations(cfg, lines);
      CreatorFindsTemplate(cfg, lines, i);
      assert Accounted(h.miner.templates[i], h.absorbed[i], i);
      assert Matches(h.miner.templates[i].tokens, mined);
      NothingChangesIff(cfg, h.miner, tokens);
      assert Welcomes(cfg, h.miner, mined, i) <==>
             (CandidatesFor(cfg, h.miner, mined).1 ==> 2 * Wild(h.miner.templates[i].tokens) <= |mined|);
      hide Welcomes, ChangesNothing;
    }
  }

  /** A template that matches a line has at least the wildcards the line itself reads. */
  lemma {:induction false} MatchingIsWilder(t: seq<Token>, tokens: seq<Token>)
    requires Matches(t, tokens)
    ensures Wild(tokens) <= Wild(t)
  {
    if t != [] {
      MatchingIsWilder(t[..|t| - 1], tokens[..|t| - 1]);
    }
  }

  /**
   Adding a line again right after it created a template changes nothing exactly unless the
   second search is widened and most of the line literally reads `<*>`.
   */
  lemma ReAddingIsIdempotent(cfg: Config, m: Miner, tokens: seq<Token>)
    requires cfg.simNum <= cfg.simDen
    requires Add(cfg, m, tokens).1.created
    ensures var m1, mined := Add(cfg, m, tokens).0, Mined(cfg, tokens);
            ChangesNothing(cfg, m1, tokens) <==> (CandidatesFor(cfg, m1, mined).1 ==> 2 * Wild(mined) <= |mined|)
  {
    hide CandidatesFor, Wild, ChangesNothing;
    var m1, mined, idx := Add(cfg, m, tokens).0, Mined(cfg, tokens), |m.templates|;
    NothingChangesIff(cfg, m1, tokens);
    CreatedIsCandidate(cfg, m, tokens);
    if CandidatesFor(cfg, m1, mined).1 ==> 2 * Wild(mined) <= |mined| {
      assert Welcomes(cfg, m1, mined, idx);
    } else {
      forall c: nat ensures !Welcomes(cfg, m1, mined, c) {
        if Welcomes(cfg, m1, mined, c) {
          MatchingIsWilder(m1.templates[c].tokens, mined);
        }
      }
    }
  }

  /** A line that has just created a template finds it. */
  lemma CreatedIsCandidate(cfg: Config, m: Miner, tokens: seq<Token>)
    requires Add(cfg, m, tokens).1.created
    ensures var m1, idx, mined := Add(cfg, m, tokens).0, |m.templates|, Mined(cfg, tokens);
            && idx in CandidatesFor(cfg, m1, mined).0 && idx < |m1.templates|
            && m1.templates[idx].tokens == mined
  {
    hide Insert, Gather, BestMatch;
    var mined := Mined(cfg, tokens);
    var n, path, idx := |mined|, Prefix(cfg, mined), |m.templates|;
    var m1 := Add(cfg, m, tokens).0;
    InsertRoutes(RootOf(m, n), path, cfg.maxChildren, idx);
    RoutedGathers(m1.roots[n], path, cfg.maxChildren, idx, []);
  }
}
