/**
 Runs that show where the template miner's search falls short: a creator turned away from its
 own template, and a template past the cap of a scan.
 */
module DrainExamples {
  import opened Options
  import opened Sequences
  import opened DrainTree
  import opened Drain
  import opened DrainTheorems

  /** Similarity 0.3, one routing token, two children to a node. */
  const NARROW := Config(3, 10, 3, 2, 100)

  ghost predicate Literal(tokens: seq<Token>) {
    && (forall i :: 0 <= i < |tokens| ==> tokens[i] != WILDCARD)
    && forall i, j :: 0 <= i < j < |tokens| ==> tokens[i] != tokens[j]
  }

  lemma OfThree(t: seq<Token>, tokens: seq<Token>)
    requires |t| == |tokens| == 3
    ensures Agreeing(t, tokens) == (if t[0] != WILDCARD && t[0] == tokens[0] then 1 else 0)
                                   + (if t[1] != WILDCARD && t[1] == tokens[1] then 1 else 0)
                                   + (if t[2] != WILDCARD && t[2] == tokens[2] then 1 else 0)
    ensures Wild(t) == (if t[0] == WILDCARD then 1 else 0) + (if t[1] == WILDCARD then 1 else 0)
                       + (if t[2] == WILDCARD then 1 else 0)
  {
    var t1, s1, t2, s2 := t[..1], tokens[..1], t[..2], tokens[..2];
    assert t1[..0] == [] && s1[..0] == [] && t2[..1] == t1 && s2[..1] == s1;
    assert Agreeing(t1, s1) == if t[0] != WILDCARD && t[0] == tokens[0] then 1 else 0;
    assert Wild(t1) == if t[0] == WILDCARD then 1 else 0;
    assert Agreeing(t2, s2) == Agreeing(t1, s1) + if t[1] != WILDCARD && t[1] == tokens[1] then 1 else 0;
    assert Wild(t2) == Wild(t1) + if t[1] == WILDCARD then 1 else 0;
  }

  /** A line no candidate of which may be considered files a new template. */
  lemma NothingEligible(cfg: Config, m: Miner, tokens: seq<Token>)
    requires var (cands, widened) := CandidatesFor(cfg, m, Mined(cfg, tokens));
             forall c :: c in cands ==> !Eligible(cfg, m.templates[c].tokens, Mined(cfg, tokens), widened)
    ensures Target(cfg, m, tokens) == None
  {
    hide CandidatesFor, Eligible, Best, BestMatch;
    var (cands, widened) := CandidatesFor(cfg, m, Mined(cfg, tokens));
    MatchesIff(cfg, m.templates, cands, Mined(cfg, tokens), widened);
  }

  lemma PathOfThree(tokens: seq<Token>)
    requires |tokens| == 3
    ensures Mined(NARROW, tokens) == tokens && Prefix(NARROW, tokens) == [tokens[0]]
    ensures [tokens[0]][1..] == []
  {
  }

  function Leaf(idx: nat): Node
  {
    Node(map[], [idx])
  }

  lemma LoneLeaf(a: Token)
    requires a != WILDCARD
    ensures Insert(EMPTY, [a], 2, 0) == Node(map[a := Leaf(0)], [])
    ensures Gather(Node(map[a := Leaf(0)], []), [a], []) == ([0], false)
  {
    assert [a][1..] == [];
    assert Insert(EMPTY, [], 2, 0) == Leaf(0);
    var root := Node(map[a := Leaf(0)], []);
    assert WILDCARD !in root.children && a in root.children;
    assert Gather(Leaf(0), [], []).0 == [0];
  }

  /** The first line files a template. */
  lemma FirstLine(a: seq<Token>)
    requires |a| == 3 && a[0] != WILDCARD
    ensures Target(NARROW, FRESH, a) == None
    ensures Add(NARROW, FRESH, a).0
         == Miner(map[3 := Node(map[a[0] := Leaf(0)], [])], [Template(1, a, 1, false)], 2)
  {
    PathOfThree(a);
    LoneLeaf(a[0]);
    hide Insert, Gather;
  }

  /** The second generalises most of it away. */
  lemma SecondLine(a: seq<Token>, b: seq<Token>)
    requires |a| == |b| == 3 && Literal(a + b[1..]) && a[0] == b[0]
    ensures var m := Miner(map[3 := Node(map[a[0] := Leaf(0)], [])], [Template(1, a, 1, false)], 2);
            && Target(NARROW, m, b) == Some(0)
            && Add(NARROW, m, b).0
               == m.(templates := [Template(1, [a[0], WILDCARD, WILDCARD], 2, false)])
  {
    hide Insert, Gather, Ascending, Agreeing, Wild, BestMatch;
    var all := a + b[1..];
    assert all[0] == a[0] && all[1] == a[1] && all[2] == a[2] && all[3] == b[1] && all[4] == b[2];
    PathOfThree(b);
    LoneLeaf(a[0]);
    OneAscending();
    OfThree(a, b);
    var m := Miner(map[3 := Node(map[a[0] := Leaf(0)], [])], [Template(1, a, 1, false)], 2);
    OnlyCandidate(NARROW, m, b);
    hide Target;
    assert Generalized(a, b) == [a[0], WILDCARD, WILDCARD];
  }

  lemma OneAscending()
    ensures Ascending([0], 1) == [0]
  {
    assert Ascending([0], 1) == Ascending([0], 0) + [0];
  }

  lemma OnlyCandidate(cfg: Config, m: Miner, tokens: seq<Token>)
    requires |m.templates| == 1 && CandidatesFor(cfg, m, Mined(cfg, tokens)) == ([0], false)
    requires var t := m.templates[0].tokens;
             && |t| == |Mined(cfg, tokens)|
             && Passes(cfg, false, Score(t, Mined(cfg, tokens)), |Mined(cfg, tokens)|)
    ensures Target(cfg, m, tokens) == Some(0)
  {
    hide CandidatesFor, Agreeing, Wild, Passes;
    var cands: seq<nat> := [0];
    assert cands[..0] == [];
    assert Below(cands, 1);
    assert Best(cfg, m.templates, cands, Mined(cfg, tokens), false) == Some(0);
  }

  /** A line under a new routing token overflows into the wildcard branch. */
  lemma ThirdLine(a: Token, c: seq<Token>)
    requires |c| == 3 && Literal([a] + c)
    ensures var root := Node(map[a := Leaf(0)], []);
            var m := Miner(map[3 := root], [Template(1, [a, WILDCARD, WILDCARD], 2, false)], 2);
            && Target(NARROW, m, c) == None
            && Add(NARROW, m, c).0
               == Miner(map[3 := Node(map[a := Leaf(0), WILDCARD := Leaf(1)], [])],
                        [Template(1, [a, WILDCARD, WILDCARD], 2, false), Template(2, c, 1, false)], 3)
  {
    hide Subtree, Ascending;
    var all := [a] + c;
    assert all[0] == a && all[1] == c[0] && all[2] == c[1] && all[3] == c[2];
    PathOfThree(c);
    var t: seq<Token> := [a, WILDCARD, WILDCARD];
    var root := Node(map[a := Leaf(0)], []);
    var m := Miner(map[3 := root], [Template(1, t, 2, false)], 2);
    OfThree(t, c);
    assert CandidatesFor(NARROW, m, c).1;
    hide Agreeing, Wild, CandidatesFor, Gather;
    NothingEligible(NARROW, m, c);
    Overflow(a, c[0]);
    hide Insert, Target, Eligible;
  }

  lemma Overflow(a: Token, token: Token)
    requires a != token && a != WILDCARD
    ensures Insert(Node(map[a := Leaf(0)], []), [token], 2, 1) == Node(map[a := Leaf(0), WILDCARD := Leaf(1)], [])
  {
    var root := Node(map[a := Leaf(0)], []);
    assert Insert(EMPTY, [], 2, 1) == Leaf(1);
    assert root.children.Keys == {a};
    assert ChildKey(root, token, 2) == WILDCARD;
  }

  lemma WidenedPast(a: Token)
    requires a != WILDCARD
    ensures Gather(Node(map[a := Leaf(0), WILDCARD := Leaf(1)], []), [a], []).1
  {
    var root := Node(map[a := Leaf(0), WILDCARD := Leaf(1)], []);
    assert [a][1..] == [];
    LeafSubtree(Leaf(1));
    hide Subtree;
    Unit([1 as nat]);
    assert Gather(root, [a], []) == Gather(Leaf(0), [], [1]);
  }

  /** The first line comes again: the search is widened, and its template is mostly wildcards. */
  lemma FirstAgain(a: seq<Token>, c: seq<Token>)
    requires |a| == |c| == 3 && Literal(a + c)
    ensures var m := Miner(map[3 := Node(map[a[0] := Leaf(0), WILDCARD := Leaf(1)], [])],
                           [Template(1, [a[0], WILDCARD, WILDCARD], 2, false), Template(2, c, 1, false)], 3);
            Target(NARROW, m, a) == None
  {
    var all := a + c;
    assert all[0] == a[0] && all[1] == a[1] && all[2] == a[2] && all[3] == c[0] && all[4] == c[1] && all[5] == c[2];
    PathOfThree(a);
    var t: seq<Token> := [a[0], WILDCARD, WILDCARD];
    var root := Node(map[a[0] := Leaf(0), WILDCARD := Leaf(1)], []);
    var m := Miner(map[3 := root], [Template(1, t, 2, false), Template(2, c, 1, false)], 3);
    hide Agreeing, Wild, Subtree, Ascending;
    OfThree(t, a);
    OfThree(c, a);
    WidenedPast(a[0]);
    assert CandidatesFor(NARROW, m, a).1 by {
      hide Gather;
    }
    assert !PrefixAgrees(NARROW, c, a) by {
      assert c[0] != a[0] && c[0] != WILDCARD;
    }
    hide CandidatesFor;
    NothingEligible(NARROW, m, a);
  }

  /**
   The exception of `CreatorRejoins` is reachable: after three lines of distinct words, of which
   the first two share their routing token, the first line is turned away from the template it
   created and files a second one.
   */
  lemma CreatorTurnedAway(a: seq<Token>, b: seq<Token>, c: seq<Token>)
    requires |a| == |b| == |c| == 3 && a[0] == b[0] && Literal(a + b[1..]) && Literal(a + c)
    ensures var h := Mine(NARROW, [a, b, c]);
            && |h.miner.templates| == 2 && Creator(h, 0) == a
            && Add(NARROW, h.miner, a).1.created
  {
    hide Target, Add;
    assert (a + c)[0] == a[0];
    FirstLine(a);
    SecondLine(a, b);
    assert Literal([a[0]] + c) by {
      var all, some := a + c, [a[0]] + c;
      assert forall i :: 0 <= i < 4 ==> some[i] == if i == 0 then all[0] else all[i + 2];
    }
    ThirdLine(a[0], c);
    FirstAgain(a, c);
    PathOfThree(a);
    MineThree(NARROW, a, b, c);
    CreatedIff(NARROW, Mine(NARROW, [a, b, c]).miner, a);
    hide Mine;
  }

  lemma CreatedIff(cfg: Config, m: Miner, tokens: seq<Token>)
    ensures Add(cfg, m, tokens).1.created <==> Target(cfg, m, tokens).None?
  {
    hide Target, Insert;
  }

  /** One line more that files a template, or joins one. */
  lemma Filed(cfg: Config, lines: seq<seq<Token>>, tokens: seq<Token>)
    requires Target(cfg, Mine(cfg, lines).miner, tokens) == None
    ensures var h, h' := Mine(cfg, lines), Mine(cfg, lines + [tokens]);
            h'.miner == Add(cfg, h.miner, tokens).0 && h'.absorbed == h.absorbed + [[LineOf(cfg, tokens)]]
  {
    hide Target, Add, Address;
    assert (lines + [tokens])[..|lines|] == lines;
  }

  lemma FiledAt(cfg: Config, lines: seq<seq<Token>>, tokens: seq<Token>)
    requires Target(cfg, Mine(cfg, lines).miner, tokens) == None
    ensures var h, h', mined := Mine(cfg, lines), Mine(cfg, lines + [tokens]), Mined(cfg, tokens);
            && h'.miner == Add(cfg, h.miner, tokens).0
            && h'.home == h.home + [Address(RootOf(h.miner, |mined|), Prefix(cfg, mined), cfg.maxChildren)]
  {
    hide Target, Add, Address;
    assert (lines + [tokens])[..|lines|] == lines;
  }

  lemma JoinedFirst(cfg: Config, lines: seq<seq<Token>>, tokens: seq<Token>)
    requires Target(cfg, Mine(cfg, lines).miner, tokens) == Some(0)
    ensures var h, h' := Mine(cfg, lines), Mine(cfg, lines + [tokens]);
            && h'.miner == Add(cfg, h.miner, tokens).0
            && |h.absorbed| > 0 && h'.absorbed == h.absorbed[0 := h.absorbed[0] + [LineOf(cfg, tokens)]]
  {
    hide Add, Address, BestMatch, CandidatesFor;
    assert (lines + [tokens])[..|lines|] == lines;
  }

  /** A run of three lines that file, join and file. */
  lemma MineThree(cfg: Config, a: seq<Token>, b: seq<Token>, c: seq<Token>)
    requires Mined(cfg, a) == a
    requires Target(cfg, FRESH, a) == None
    requires Target(cfg, Add(cfg, FRESH, a).0, b) == Some(0)
    requires Target(cfg, Add(cfg, Add(cfg, FRESH, a).0, b).0, c) == None
    ensures var h := Mine(cfg, [a, b, c]);
            && h.miner == Add(cfg, Add(cfg, Add(cfg, FRESH, a).0, b).0, c).0
            && |h.absorbed| == 2 && Creator(h, 0) == a
  {
    hide Target, Add;
    assert Mine(cfg, []).miner == FRESH && Mine(cfg, []).absorbed == [];
    hide Mine;
    Filed(cfg, [], a);
    assert [] + [a] == [a];
    JoinedFirst(cfg, [a], b);
    assert [a] + [b] == [a, b];
    Filed(cfg, [a, b], c);
    assert [a, b] + [c] == [a, b, c];
  }

  // ------------------------------------------------------------------ past the cap

  /** One-word lines. */
  function OneWord(words: seq<Token>): seq<seq<Token>>
  {
    seq(|words|, i requires 0 <= i < |words| => [words[i]])
  }

  /** The indices from 1 up to `n`. */
  function UpTo(n: nat): (r: seq<nat>)
    ensures |r| == n && forall i :: 0 <= i < n ==> r[i] == i + 1
  {
    seq(n, i requires 0 <= i < n => i + 1)
  }

  /** The tree once all words but the first have overflowed. */
  ghost function Flooded(words: seq<Token>): Node
    requires |words| >= 2
  {
    Node(map[words[0] := Leaf(0), WILDCARD := Node(map[], UpTo(|words| - 1))], [])
  }

  /** Every word has its own template, and every one but the first sits in the wildcard branch. */
  ghost predicate IsFlooded(h: History, words: seq<Token>) {
    && |words| >= 2 && |h.miner.templates| == |h.home| == |words|
    && h.miner.roots == map[1 := Flooded(words)]
    && (forall i :: 0 <= i < |words| ==> h.miner.templates[i].tokens == [words[i]])
    && forall i :: 1 <= i < |words| ==> h.home[i] == [WILDCARD]
  }

  lemma PathOfOne(word: Token)
    ensures Mined(NARROW, [word]) == [word] && Prefix(NARROW, [word]) == [word] && [word][1..] == []
  {
  }

  lemma OfOne(t: Token, word: Token)
    ensures Agreeing([t], [word]) <= 1
  {
  }

  /** Among distinct words a widened search finds nothing to join. */
  lemma WordStandsAlone(m: Miner, word: Token)
    requires word != WILDCARD && CandidatesFor(NARROW, m, [word]).1
    requires forall i :: 0 <= i < |m.templates| ==>
               |m.templates[i].tokens| == 1 && m.templates[i].tokens[0] !in {word, WILDCARD}
    ensures Target(NARROW, m, [word]) == None
  {
    hide CandidatesFor, Agreeing, Wild;
    PathOfOne(word);
    var (cands, widened) := CandidatesFor(NARROW, m, [word]);
    forall c | c in cands ensures !Eligible(NARROW, m.templates[c].tokens, [word], widened) {
      var t := m.templates[c].tokens;
      assert t == [t[0]];
      OfOne(t[0], word);
      assert !PrefixAgrees(NARROW, t, [word]);
    }
    NothingEligible(NARROW, m, [word]);
  }

  lemma LiteralFront(words: seq<Token>)
    requires words != [] && Literal(words)
    ensures Literal(words[..|words| - 1]) && words[|words| - 1] !in words[..|words| - 1]
  {
  }

  lemma OverflowMore(words: seq<Token>, word: Token)
    requires |words| >= 2 && words[0] != WILDCARD && word != words[0] && word != WILDCARD
    ensures Insert(Flooded(words), [word], 2, |words|) == Flooded(words + [word])
    ensures Address(Flooded(words), [word], 2) == [WILDCARD]
  {
    var root, n := Flooded(words), |words|;
    var branch, leaf := Node(map[], UpTo(n - 1)), Node(map[], UpTo(n));
    FullKey(words[0], branch, word);
    LeafMore(n);
    hide UpTo, ChildKey, Insert, Address;
    InsertOne(root, word, WILDCARD, branch, n);
    FloodedMore(words, word);
  }

  lemma FullKey(a: Token, branch: Node, word: Token)
    requires a != WILDCARD && word != a && word != WILDCARD
    ensures ChildKey(Node(map[a := Leaf(0), WILDCARD := branch], []), word, 2) == WILDCARD
  {
    assert map[a := Leaf(0), WILDCARD := branch].Keys == {a, WILDCARD};
  }

  lemma LeafMore(n: nat)
    requires n > 0
    ensures Insert(Node(map[], UpTo(n - 1)), [], 2, n) == Node(map[], UpTo(n))
    ensures Address(Node(map[], UpTo(n - 1)), [], 2) == []
  {
    assert UpTo(n - 1) + [n] == UpTo(n);
  }

  lemma FloodedMore(words: seq<Token>, word: Token)
    requires |words| >= 2 && words[0] != WILDCARD
    ensures Flooded(words + [word])
         == Node(Flooded(words).children[WILDCARD := Node(map[], UpTo(|words|))], [])
  {
    hide UpTo;
    var leaf := Node(map[], UpTo(|words|));
    assert (words + [word])[0] == words[0];
    assert Flooded(words).children[WILDCARD := leaf] == map[words[0] := Leaf(0), WILDCARD := leaf];
  }

  lemma InsertOne(node: Node, word: Token, key: Token, child: Node, idx: nat)
    requires ChildKey(node, word, 2) == key && key in node.children && node.children[key] == child
    ensures Insert(node, [word], 2, idx) == node.(children := node.children[key := Insert(child, [], 2, idx)])
    ensures Address(node, [word], 2) == [key] + Address(child, [], 2)
  {
    hide ChildKey;
    assert [word][1..] == [];
  }

  lemma FloodMore(words: seq<Token>, word: Token)
    requires IsFlooded(Mine(NARROW, OneWord(words)), words) && Literal(words + [word])
    ensures IsFlooded(Mine(NARROW, OneWord(words + [word])), words + [word])
  {
    hide Mine, Insert, Address, Flooded, Gather, Ascending;
    var h, all := Mine(NARROW, OneWord(words)), words + [word];
    assert all[0] == words[0] && all[|words|] == word;
    forall i | 0 <= i < |words| ensures h.miner.templates[i].tokens[0] !in {word, WILDCARD} {
      assert all[i] == words[i];
    }
    PathOfOne(word);
    FloodedIsWidened(words, word);
    assert CandidatesFor(NARROW, h.miner, [word]).1;
    WordStandsAlone(h.miner, word);
    hide CandidatesFor, Target;
    OverflowMore(words, word);
    FiledAt(NARROW, OneWord(words), [word]);
    assert OneWord(words) + [[word]] == OneWord(all);
    hide Literal;
  }

  lemma FloodedIsWidened(words: seq<Token>, word: Token)
    requires |words| >= 2 && word != WILDCARD && word != words[0] && words[0] != WILDCARD
    ensures Gather(Flooded(words), [word], []).1
  {
    var branch := Node(map[], UpTo(|words| - 1));
    LeafSubtree(branch);
    hide Subtree;
    assert [word][1..] == [];
    assert Gather(Flooded(words), [word], []) == Gather(branch, [], [] + Subtree(branch));
  }

  /** What the first word leaves behind. */
  lemma FirstWord(a: Token)
    requires a != WILDCARD
    ensures var h := Mine(NARROW, [[a]]);
            && h.miner == Miner(map[1 := Node(map[a := Leaf(0)], [])], [Template(1, [a], 1, false)], 2)
            && |h.home| == 1
  {
    hide Target, Subtree, Ascending, Address;
    PathOfOne(a);
    assert Mine(NARROW, []).miner == FRESH && Mine(NARROW, []).home == [];
    hide Mine;
    LoneLeaf(a);
    NothingEligible(NARROW, FRESH, [a]);
    FiledAt(NARROW, [], [a]);
    assert [] + [[a]] == [[a]];
    hide Insert;
  }

  lemma FloodTwo(words: seq<Token>)
    requires |words| == 2 && Literal(words)
    ensures IsFlooded(Mine(NARROW, OneWord(words)), words)
  {
    hide Target, Subtree, Ascending, Mine;
    var a, b := words[0], words[1];
    PathOfOne(b);
    FirstWord(a);
    var m := Mine(NARROW, [[a]]).miner;
    assert CandidatesFor(NARROW, m, [b]).1;
    WordStandsAlone(m, b);
    hide CandidatesFor;
    FiledAt(NARROW, [[a]], [b]);
    assert [[a]] + [[b]] == OneWord(words);
    Overflow(a, b);
    OverflowAddress(a, b);
    assert UpTo(1) == [1];
    hide Insert, Address;
  }

  lemma OverflowAddress(a: Token, b: Token)
    requires a != b && a != WILDCARD
    ensures Address(Node(map[a := Leaf(0)], []), [b], 2) == [WILDCARD]
  {
    var root := Node(map[a := Leaf(0)], []);
    assert root.children.Keys == {a};
    assert ChildKey(root, b, 2) == WILDCARD;
    assert [b][1..] == [];
  }

  lemma {:induction false} Flood(words: seq<Token>)
    requires |words| >= 2 && Literal(words)
    ensures IsFlooded(Mine(NARROW, OneWord(words)), words)
    decreases |words|
  {
    hide Mine, IsFlooded;
    if |words| == 2 {
      FloodTwo(words);
    } else {
      var n := |words| - 1;
      LiteralFront(words);
      Flood(words[..n]);
      assert words[..n] + [words[n]] == words;
      FloodMore(words[..n], words[n]);
    }
  }

  /**
   The cap costs a comparison on a real run: after any 514 distinct one-word lines the first of
   them is not compared with the last template, although its address fits.
   */
  lemma LastTemplateMissed(words: seq<Token>)
    requires |words| == MAX_SCAN + 2 && Literal(words)
    ensures var h := Mine(NARROW, OneWord(words));
            && Fits(NARROW, h, [words[0]], MAX_SCAN + 1)
            && MAX_SCAN + 1 !in CandidatesFor(NARROW, h.miner, [words[0]]).0
  {
    hide Mine;
    var h := Mine(NARROW, OneWord(words));
    Flood(words);
    PathOfOne(words[0]);
    FittingTemplatesAreCompared(NARROW, OneWord(words), [words[0]], MAX_SCAN + 1);
    hide CandidatesFor;
    var branch := Node(map[], UpTo(MAX_SCAN + 1));
    LeafSubtree(branch);
    hide Subtree;
    assert MAX_SCAN + 1 !in Subtree(branch);
    assert Flooded(words).children[WILDCARD] == branch && words[0] in Flooded(words).children;
    assert !Within(Flooded(words), [words[0]], [WILDCARD], MAX_SCAN + 1);
  }
}
