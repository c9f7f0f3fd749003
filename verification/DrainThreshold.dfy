/**
 How similar is similar enough: when a line joins a template of the miner, written out as counts
 over positions, and what the answer reported for a line says.
 */
module DrainThreshold {
  import opened Options
  import opened Sequences
  import opened DrainTree
  import opened Drain
  import opened DrainTheorems

  /** Positions where the template reads the line's own token, literally. */
  ghost function SameAt(t: seq<Token>, tokens: seq<Token>): set<nat> {
    set i: nat | i < |t| && i < |tokens| && t[i] == tokens[i] && t[i] != "<*>"
  }

  /** Positions where the template reads a wildcard. */
  ghost function WildAt(t: seq<Token>): set<nat> {
    set i: nat | i < |t| && t[i] == "<*>"
  }

  lemma {:induction false} AgreeingCounts(t: seq<Token>, tokens: seq<Token>)
    requires |t| == |tokens|
    ensures Agreeing(t, tokens) == |SameAt(t, tokens)|
  {
    if t == [] {
      assert SameAt(t, tokens) == {};
    } else {
      var n := |t| - 1;
      AgreeingCounts(t[..n], tokens[..n]);
      SameAtMore(t, tokens);
      hide SameAt;
    }
  }

  lemma SameAtMore(t: seq<Token>, tokens: seq<Token>)
    requires |t| == |tokens| > 0
    ensures var n := |t| - 1;
            |SameAt(t, tokens)| == |SameAt(t[..n], tokens[..n])| + if t[n] == tokens[n] && t[n] != "<*>" then 1 else 0
  {
    var n := |t| - 1;
    var front := SameAt(t[..n], tokens[..n]);
    assert SameAt(t, tokens) == front + if t[n] == tokens[n] && t[n] != "<*>" then {n} else {};
  }

  lemma {:induction false} WildCounts(t: seq<Token>)
    ensures Wild(t) == |WildAt(t)|
  {
    if t == [] {
      assert WildAt(t) == {};
    } else {
      var n := |t| - 1;
      WildCounts(t[..n]);
      assert WildAt(t) == WildAt(t[..n]) + if t[n] == "<*>" then {n} else {};
    }
  }

  /** The similarity asked for: agreement and wildcards out of all positions. */
  ghost predicate SimilarEnough(cfg: Config, t: seq<Token>, tokens: seq<Token>) {
    if |tokens| == 0 then cfg.simNum <= cfg.simDen
    else cfg.simNum * |tokens| <= (|SameAt(t, tokens)| + |WildAt(t)|) * cfg.simDen
  }

  /** The routing tokens agree: all but one of the levels below the root, of which there are two fewer than the depth. */
  ghost predicate SameRoute(cfg: Config, t: seq<Token>, tokens: seq<Token>) {
    && cfg.depth > 2 && |tokens| > 0
    && forall i :: 0 <= i < |t| && i < |tokens| && i < cfg.depth - 2 ==> t[i] == tokens[i] || t[i] == "<*>"
  }

  /**
   Off the line's own route more is asked: six tenths, at most half of the template wildcards, and
   three literal tokens in common or the same route.
   */
  ghost predicate SurelySimilar(cfg: Config, t: seq<Token>, tokens: seq<Token>) {
    |tokens| == 0
    || (&& 6 * |tokens| <= 10 * (|SameAt(t, tokens)| + |WildAt(t)|)
        && 2 * |WildAt(t)| <= |tokens|
        && (|SameAt(t, tokens)| >= 3 || SameRoute(cfg, t, tokens)))
  }

  ghost predicate Joinable(cfg: Config, t: seq<Token>, tokens: seq<Token>, widened: bool) {
    && |t| == |tokens|
    && SimilarEnough(cfg, t, tokens)
    && (widened ==> SurelySimilar(cfg, t, tokens))
  }

  lemma JoinableIs(cfg: Config, t: seq<Token>, tokens: seq<Token>, widened: bool)
    ensures Joinable(cfg, t, tokens, widened) <==>
            Eligible(cfg, t, tokens, widened) && Passes(cfg, widened, Score(t, tokens), |tokens|)
  {
    if |t| == |tokens| {
      AgreeingCounts(t, tokens);
      WildCounts(t);
      hide Agreeing, Wild, SameAt, WildAt;
      RouteIs(cfg, t, tokens);
      hide PrefixAgrees, SameRoute;
    }
  }

  lemma RouteIs(cfg: Config, t: seq<Token>, tokens: seq<Token>)
    requires |t| == |tokens|
    ensures PrefixAgrees(cfg, t, tokens) <==> SameRoute(cfg, t, tokens)
  {
    if SameRoute(cfg, t, tokens) {
      forall i | 0 <= i < Depth(cfg, |tokens|) ensures t[i] == tokens[i] || t[i] == WILDCARD {
      }
    }
  }

  /** A line joins a template if and only if one of its candidates is similar enough, counted position by position. */
  lemma JoinsIffSimilar(cfg: Config, m: Miner, tokens: seq<Token>)
    ensures var mined := Mined(cfg, tokens);
            var (cands, widened) := CandidatesFor(cfg, m, mined);
            Add(cfg, m, tokens).1.created <==>
              forall c :: c in cands ==> !Joinable(cfg, m.templates[c].tokens, mined, widened)
  {
    hide CandidatesFor, Joinable, Passes, BestMatch, Agreeing, Wild, Insert;
    var mined := Mined(cfg, tokens);
    var (cands, widened) := CandidatesFor(cfg, m, mined);
    forall c | c in cands
      ensures Joinable(cfg, m.templates[c].tokens, mined, widened) <==>
              Eligible(cfg, m.templates[c].tokens, mined, widened)
              && Passes(cfg, widened, Score(m.templates[c].tokens, mined), |mined|)
    {
      JoinableIs(cfg, m.templates[c].tokens, mined, widened);
    }
    MatchesIff(cfg, m.templates, cands, mined, widened);
  }

  // ------------------------------------------------------------------ which one is joined

  /** Of equally good candidates the first is joined: every earlier eligible one is strictly beaten. */
  lemma {:induction false} EarlierAreBeaten(cfg: Config, templates: seq<Template>, cands: seq<nat>, tokens: seq<Token>, widened: bool) returns (k: nat)
    requires Below(cands, |templates|)
    ensures var best := Best(cfg, templates, cands, tokens, widened);
            best.Some? ==>
              && k < |cands| && cands[k] == best.value
              && forall j :: 0 <= j < k && cands[j] < |templates| && Eligible(cfg, templates[cands[j]].tokens, tokens, widened) ==>
                   Beats(templates[best.value].tokens, templates[cands[j]].tokens, tokens)
  {
    hide Agreeing, Wild;
    k := 0;
    if cands != [] {
      var n := |cands| - 1;
      BelowTake(cands, n, |templates|);
      assert cands[n] in cands;
      var front := Best(cfg, templates, cands[..n], tokens, widened);
      var best := Best(cfg, templates, cands, tokens, widened);
      var i := EarlierAreBeaten(cfg, templates, cands[..n], tokens, widened);
      var t := templates[cands[n]].tokens;
      if Eligible(cfg, t, tokens, widened) && (front.None? || Beats(t, templates[front.value].tokens, tokens)) {
        k := n;
        forall j | 0 <= j < n && cands[j] < |templates| && Eligible(cfg, templates[cands[j]].tokens, tokens, widened)
          ensures Beats(t, templates[cands[j]].tokens, tokens)
        {
          assert cands[..n][j] == cands[j] && cands[j] in cands[..n];
          BestDominates(cfg, templates, cands[..n], tokens, widened, cands[j]);
        }
      } else {
        k := i;
        assert forall j :: 0 <= j < n ==> cands[..n][j] == cands[j];
      }
    }
  }

  // ------------------------------------------------------------------ what is reported

  /**
   The answer for a line names the template that took it: after any run, the template with that
   number is the one whose last line this is; it is new if and only if so reported, and has changed
   if and only if so reported.
   */
  lemma AnswerIsTrue(cfg: Config, lines: seq<seq<Token>>, tokens: seq<Token>)
    ensures AnswersFor(cfg, Mine(cfg, lines), Mine(cfg, lines + [tokens]), tokens, Add(cfg, Mine(cfg, lines).miner, tokens).1)
  {
    hide Add, Record, Books;
    assert (lines + [tokens])[..|lines|] == lines;
    TemplatesAreGeneralisations(cfg, lines);
    TemplatesAreGeneralisations(cfg, lines + [tokens]);
    var h, h' := Mine(cfg, lines), Mine(cfg, lines + [tokens]);
    assert h' == Record(cfg, h, tokens);
    hide Mine;
    IdsCount(h, |lines|);
    IdsCount(h', |lines| + 1);
    if Target(cfg, h.miner, tokens).Some? {
      JoinAnswer(cfg, h, tokens);
    } else {
      FileAnswer(cfg, h, tokens);
    }
  }

  /** Templates are numbered by their place. */
  ghost predicate Numbered(h: History) {
    && Aligned(h) && h.miner.nextId == |h.miner.templates| + 1
    && forall i :: 0 <= i < |h.miner.templates| ==> h.miner.templates[i].id == i + 1
  }

  ghost predicate AnswersFor(cfg: Config, h: History, h': History, tokens: seq<Token>, r: Match)
    requires Aligned(h) && Aligned(h')
  {
    && 1 <= r.templateId <= |h'.absorbed|
    && h'.miner.templates[r.templateId - 1].id == r.templateId
    && h'.absorbed[r.templateId - 1] != []
    && h'.absorbed[r.templateId - 1][|h'.absorbed[r.templateId - 1]| - 1] == LineOf(cfg, tokens)
    && (r.created <==> r.templateId == |h.miner.templates| + 1)
    && (!r.created ==> r.templateId <= |h.miner.templates|)
    && (r.generalized <==>
          !r.created && r.templateId <= |h.miner.templates|
          && h'.miner.templates[r.templateId - 1].tokens != h.miner.templates[r.templateId - 1].tokens)
  }

  lemma JoinAnswer(cfg: Config, h: History, tokens: seq<Token>)
    requires Numbered(h) && Target(cfg, h.miner, tokens).Some?
    ensures AnswersFor(cfg, h, Record(cfg, h, tokens), tokens, Add(cfg, h.miner, tokens).1)
  {
    hide Insert, Address, Generalized, LineOf, Mined;
    var idx := Target(cfg, h.miner, tokens).value;
    assert h.miner.templates[idx].id == idx + 1;
    hide Target;
  }

  lemma FileAnswer(cfg: Config, h: History, tokens: seq<Token>)
    requires Numbered(h) && Target(cfg, h.miner, tokens).None?
    ensures AnswersFor(cfg, h, Record(cfg, h, tokens), tokens, Add(cfg, h.miner, tokens).1)
  {
    hide Insert, Address, Target;
  }

  lemma IdsCount(h: History, calls: nat)
    requires Books(h, calls)
    ensures Numbered(h)
  {
    forall i | 0 <= i < |h.miner.templates| ensures h.miner.templates[i].id == i + 1 {
      assert Accounted(h.miner.templates[i], h.absorbed[i], i);
    }
  }

  // ------------------------------------------------------------------ the limits, written out

  /** Mining looks at the head of a line, as long as the limit allows. */
  lemma MinesTheHead(cfg: Config, tokens: seq<Token>)
    ensures Mined(cfg, tokens) <= tokens
    ensures |tokens| <= cfg.maxLineTokens ==> Mined(cfg, tokens) == tokens
    ensures |tokens| > cfg.maxLineTokens ==> |Mined(cfg, tokens)| == cfg.maxLineTokens
  {
  }

  /** After any run a template is filed under its first tokens, two fewer than the depth or all of them. */
  lemma FiledAtDepth(cfg: Config, lines: seq<seq<Token>>, i: nat)
    ensures var h := Mine(cfg, lines);
            i < |h.miner.templates| ==>
              var n := |h.miner.templates[i].tokens|;
              |h.home[i]| == if cfg.depth <= 2 then 0 else if n <= cfg.depth - 2 then n else cfg.depth - 2
  {
    hide Mine;
    TreeInvariant(cfg, lines);
    var h := Mine(cfg, lines);
    if i < |h.miner.templates| {
      assert Housed(cfg, h, i);
    }
  }

  /** A scan returns everything below a node, up to the first 512. */
  lemma ScanIs(node: Node)
    ensures Subtree(node) <= Clusters(Nodes(node))
    ensures |Clusters(Nodes(node))| <= 512 ==> Subtree(node) == Clusters(Nodes(node))
    ensures |Clusters(Nodes(node))| > 512 ==> |Subtree(node)| == 512
  {
    hide Nodes, Clusters;
  }

  // ------------------------------------------------------------------ both sides of each bound

  /** The second of two lines of a length, under a routing token of its own. */
  ghost predicate Siblings(cfg: Config, a: seq<Token>, b: seq<Token>) {
    && cfg.depth > 2 && cfg.maxChildren >= 2
    && 0 < |a| == |b| <= cfg.maxLineTokens
    && a[0] != b[0] && forall i :: 0 <= i < |a| ==> a[i] != "<*>" && b[i] != "<*>"
  }

  lemma PrefixOfSibling(cfg: Config, a: seq<Token>)
    requires cfg.depth > 2 && 0 < |a| <= cfg.maxLineTokens
    ensures Mined(cfg, a) == a && |Prefix(cfg, a)| > 0 && Prefix(cfg, a)[0] == a[0]
  {
  }

  lemma InsertIntoEmpty(path: seq<Token>, maxChildren: nat, idx: nat)
    requires path != [] && maxChildren >= 2
    ensures var root := Insert(EMPTY, path, maxChildren, idx);
            root.children.Keys == {path[0]}
  {
    assert ChildKey(EMPTY, path[0], maxChildren) == path[0];
  }

  /** What the first line leaves behind: one template, under its own routing token. */
  lemma FirstOfTwo(cfg: Config, a: seq<Token>)
    requires cfg.depth > 2 && cfg.maxChildren >= 2 && 0 < |a| <= cfg.maxLineTokens
    ensures var m := Add(cfg, FRESH, a).0;
            && m.templates == [Template(1, a, 1, false)]
            && |a| in m.roots && m.roots[|a|].children.Keys == {a[0]}
            && m.roots[|a|] == Insert(EMPTY, Prefix(cfg, a), cfg.maxChildren, 0)
  {
    hide Insert, Gather;
    PrefixOfSibling(cfg, a);
    InsertIntoEmpty(Prefix(cfg, a), cfg.maxChildren, 0);
    assert BestMatch(cfg, [], [], a, false) == None;
  }

  /** An index below the one filed branch is found by a scan of the root. */
  lemma ScannedFromRoot(cfg: Config, a: seq<Token>)
    requires cfg.depth > 2 && cfg.maxChildren >= 2 && 0 < |a| <= cfg.maxLineTokens
    ensures 0 in Subtree(Insert(EMPTY, Prefix(cfg, a), cfg.maxChildren, 0))
  {
    var path := Prefix(cfg, a);
    var root := Insert(EMPTY, path, cfg.maxChildren, 0);
    var keys := Address(EMPTY, path, cfg.maxChildren);
    InsertAt(EMPTY, path, cfg.maxChildren, 0, keys);
    EmptyHasNone(keys);
    FiledIsScanned(root, keys, 0);
    OnlyZero(root, path, cfg.maxChildren);
  }

  /** Nothing else is filed there, so the scan is not cut before it. */
  lemma OnlyZero(root: Node, path: seq<Token>, maxChildren: nat)
    requires root == Insert(EMPTY, path, maxChildren, 0) && 0 in Clusters(Nodes(root))
    ensures 0 in Subtree(root)
  {
    SingleChain(EMPTY, path, maxChildren);
    hide Nodes, Clusters;
  }

  lemma {:induction false} SingleChain(node: Node, path: seq<Token>, maxChildren: nat)
    requires node == EMPTY
    ensures |Clusters(Nodes(Insert(node, path, maxChildren, 0)))| == 1
    decreases |path|
  {
    var after := Insert(node, path, maxChildren, 0);
    if path == [] {
      assert after == Node(map[], [0]);
      assert NodesUnder(after, []) == [];
      assert Nodes(after) == [after] && [after][1..] == [];
      assert Clusters([after]) == [0] + Clusters([]);
    } else {
      var key := ChildKey(node, path[0], maxChildren);
      var child := Insert(EMPTY, path[1..], maxChildren, 0);
      assert after == Node(map[key := child], []);
      SingleChain(EMPTY, path[1..], maxChildren);
      OneChild(key, child);
    }
  }

  lemma OneChild(key: Token, child: Node)
    ensures var node := Node(map[key := child], []);
            Clusters(Nodes(node)) == Clusters(Nodes(child))
  {
    var node := Node(map[key := child], []);
    assert node.children.Keys == {key};
    OneSorted(key);
    var below := NodesUnder(node, [key]);
    assert [key][..0] == [];
    assert below == Nodes(child) + NodesUnder(node, []);
    Unit(Nodes(child));
    assert Nodes(node) == [node] + below && ([node] + below)[1..] == below;
    assert Clusters([node] + below) == [] + Clusters(below);
  }

  lemma OneSorted(key: Token)
    ensures Sorted({key}) == [key]
  {
    assert Least({key}) == key;
    assert {key} - {key} == {};
  }

  /**
   The thresholds, on both sides of each: the second of two sibling lines joins the first if and
   only if three tokens or more agree, and six tenths of all, and as many as the similarity asks.
   */
  lemma SiblingJoinsIff(cfg: Config, a: seq<Token>, b: seq<Token>)
    requires Siblings(cfg, a, b)
    ensures var same := |SameAt(a, b)|;
            !Add(cfg, Add(cfg, FRESH, a).0, b).1.created <==>
              same >= 3 && 10 * same >= 6 * |a| && same * cfg.simDen >= cfg.simNum * |a|
  {
    hide Insert, Subtree, SameAt, WildAt, Prefix, Add, CandidatesFor;
    FirstOfTwo(cfg, a);
    PrefixOfSibling(cfg, b);
    var m := Add(cfg, FRESH, a).0;
    SiblingCandidates(cfg, a, b);
    JoinsIffSimilar(cfg, m, b);
    NoWildcards(a);
    assert !SameRoute(cfg, a, b);
    var same := |SameAt(a, b)|;
    assert same + |WildAt(a)| == same;
    assert Joinable(cfg, a, b, true) <==>
           same >= 3 && 10 * same >= 6 * |a| && same * cfg.simDen >= cfg.simNum * |a|;
    hide Joinable;
    var cands: seq<nat> := [0];
    assert forall c :: c in cands ==> c == 0;
    assert 0 in cands && m.templates[0].tokens == a;
  }

  lemma NoWildcards(a: seq<Token>)
    requires forall i :: 0 <= i < |a| ==> a[i] != "<*>"
    ensures |WildAt(a)| == 0
  {
    assert WildAt(a) == {};
  }

  lemma SiblingCandidates(cfg: Config, a: seq<Token>, b: seq<Token>)
    requires Siblings(cfg, a, b)
    ensures var (cands, widened) := CandidatesFor(cfg, Add(cfg, FRESH, a).0, b);
            widened && cands == [0]
  {
    hide Insert, Subtree, Add, Prefix, Ascending;
    FirstOfTwo(cfg, a);
    PrefixOfSibling(cfg, b);
    ScannedFromRoot(cfg, a);
    var m := Add(cfg, FRESH, a).0;
    var root := m.roots[|a|];
    assert WILDCARD !in root.children && b[0] !in root.children;
    assert Gather(root, Prefix(cfg, b), []) == (Subtree(root) + [], true);
    AscendingOne(Subtree(root) + []);
    assert |m.templates| == 1 && |b| in m.roots && m.roots[|b|] == root;
    assert CandidatesFor(cfg, m, b) == (Ascending(Subtree(root) + [], 1), true);
  }

  lemma AscendingOne(s: seq<nat>)
    requires 0 in s
    ensures Ascending(s, 1) == [0]
  {
    assert Ascending(s, 1) == Ascending(s, 0) + [0];
  }

  /** The settings a fresh installation mines with. */
  const USUAL := Config(4, 10, 4, 100, 128)

  /** Nine tokens under the usual settings: six in common join, five file a template of their own. */
  lemma SixOfNine(a: seq<Token>, b: seq<Token>)
    requires |a| == |b| == 9 && a[0] != b[0]
    requires forall i :: 0 <= i < 9 ==> a[i] != "<*>" && b[i] != "<*>"
    ensures |SameAt(a, b)| == 6 ==> !Add(USUAL, Add(USUAL, FRESH, a).0, b).1.created
    ensures |SameAt(a, b)| == 5 ==> Add(USUAL, Add(USUAL, FRESH, a).0, b).1.created
  {
    hide Add, SameAt;
    SiblingJoinsIff(USUAL, a, b);
  }
}
