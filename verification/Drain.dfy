/**
 The template miner (`drain.rs`): routing a line to candidate templates, choosing the best
 match, generalising it in place or filing a new template.

 Similarities are ratios of token counts; every comparison of ratios is made by
 cross-multiplication.
 */
module Drain {
  import opened Options
  import opened DrainTree

  type Positive = n: nat | n > 0 witness 1

  /** `similarity` is `simNum / simDen`. */
  datatype Config = Config(simNum: int, simDen: Positive, depth: nat, maxChildren: nat, maxLineTokens: nat)

  datatype Template = Template(id: nat, tokens: seq<Token>, count: nat, headOnly: bool)

  datatype Match = Match(templateId: nat, created: bool, generalized: bool)

  datatype Miner = Miner(roots: map<nat, Node>, templates: seq<Template>, nextId: nat)

  const FRESH := Miner(map[], [], 1)

  /** Every filed index names a template. */
  ghost predicate Wellformed(m: Miner) {
    forall n :: n in m.roots ==> Bounded(m.roots[n], |m.templates|)
  }

  function Mined(cfg: Config, tokens: seq<Token>): seq<Token>
  {
    if |tokens| > cfg.maxLineTokens then tokens[..cfg.maxLineTokens] else tokens
  }

  /** How many leading tokens route a line of `n` tokens. */
  function Depth(cfg: Config, n: nat): (d: nat)
    ensures d <= n
  {
    var inner := if cfg.depth < 2 then 0 else cfg.depth - 2;
    if inner < n then inner else n
  }

  function Prefix(cfg: Config, tokens: seq<Token>): seq<Token>
  {
    tokens[..Depth(cfg, |tokens|)]
  }

  // ------------------------------------------------------------------ similarity

  /** Positions where the template is literal and agrees. */
  function Agreeing(t: seq<Token>, tokens: seq<Token>): (k: nat)
    requires |t| == |tokens|
    ensures k <= |t|
  {
    if t == [] then 0
    else
      var n := |t| - 1;
      Agreeing(t[..n], tokens[..n]) + if t[n] != WILDCARD && t[n] == tokens[n] then 1 else 0
  }

  /** Wildcard positions. */
  function Wild(t: seq<Token>): (k: nat)
    ensures k <= |t|
  {
    if t == [] then 0 else Wild(t[..|t| - 1]) + if t[|t| - 1] == WILDCARD then 1 else 0
  }

  /** Agreement counting the template's wildcards, out of `|t|`. */
  function Score(t: seq<Token>, tokens: seq<Token>): nat
    requires |t| == |tokens|
  {
    Agreeing(t, tokens) + Wild(t)
  }

  method SeqDistance(t: seq<Token>, tokens: seq<Token>) returns (score: nat, params: nat)
    requires |t| == |tokens|
    ensures score == Score(t, tokens) && params == Wild(t)
  {
    var sim := 0;
    params := 0;
    for i := 0 to |t|
      invariant sim == Agreeing(t[..i], tokens[..i]) && params == Wild(t[..i])
    {
      assert t[..i + 1][..i] == t[..i] && tokens[..i + 1][..i] == tokens[..i];
      if t[i] == WILDCARD {
        params := params + 1;
      } else if t[i] == tokens[i] {
        sim := sim + 1;
      }
    }
    assert t[..|t|] == t && tokens[..|t|] == tokens;
    score := sim + params;
  }

  /** `score / n >= floor`; off the routing path the floor is at least 0.6. */
  predicate Passes(cfg: Config, widened: bool, score: nat, n: nat)
  {
    var s, d := if n == 0 then 1 else score, if n == 0 then 1 else n;
    s * cfg.simDen >= cfg.simNum * d && (widened ==> 10 * s >= 6 * d)
  }

  predicate PrefixAgrees(cfg: Config, t: seq<Token>, tokens: seq<Token>)
    requires |t| == |tokens|
  {
    var d := Depth(cfg, |tokens|);
    d > 0 && forall i :: 0 <= i < d ==> t[i] == tokens[i] || t[i] == WILDCARD
  }

  /** May this template be considered at all? A widened search asks for more evidence. */
  predicate Eligible(cfg: Config, t: seq<Token>, tokens: seq<Token>, widened: bool)
  {
    && |t| == |tokens|
    && (widened && t != [] ==> 2 * Wild(t) <= |t| && (Agreeing(t, tokens) >= 3 || PrefixAgrees(cfg, t, tokens)))
  }

  /** Higher agreement wins; on a tie the more general template. */
  predicate Beats(t: seq<Token>, u: seq<Token>, tokens: seq<Token>)
    requires |t| == |tokens| && |u| == |tokens|
  {
    Score(t, tokens) > Score(u, tokens) || (Score(t, tokens) == Score(u, tokens) && Wild(t) > Wild(u))
  }

  lemma BelowTake(s: seq<nat>, k: nat, n: nat)
    requires k <= |s| && Below(s, n)
    ensures Below(s[..k], n)
  {
    forall i | i in s[..k] ensures i < n {
      assert i in s;
    }
  }

  /** The first of the best eligible candidates. */
  function Best(cfg: Config, templates: seq<Template>, cands: seq<nat>, tokens: seq<Token>, widened: bool)
    : (best: Option<nat>)
    requires Below(cands, |templates|)
    ensures best.Some? ==> best.value in cands && Eligible(cfg, templates[best.value].tokens, tokens, widened)
  {
    if cands == [] then None
    else
      var n := |cands| - 1;
      assert cands[n] in cands;
      BelowTake(cands, n, |templates|);
      var best := Best(cfg, templates, cands[..n], tokens, widened);
      var t := templates[cands[n]].tokens;
      if Eligible(cfg, t, tokens, widened) && (best.None? || Beats(t, templates[best.value].tokens, tokens))
      then Some(cands[n]) else best
  }

  function BestMatch(cfg: Config, templates: seq<Template>, cands: seq<nat>, tokens: seq<Token>, widened: bool)
    : (best: Option<nat>)
    requires Below(cands, |templates|)
    ensures best.Some? ==> best.value in cands && Eligible(cfg, templates[best.value].tokens, tokens, widened)
  {
    var best := Best(cfg, templates, cands, tokens, widened);
    if best.Some? && Passes(cfg, widened, Score(templates[best.value].tokens, tokens), |tokens|) then best else None
  }

  // ------------------------------------------------------------------ candidates

  /** Sorted and without repeats. */
  function Ascending(s: seq<nat>, n: nat): (r: seq<nat>)
    ensures Below(r, n)
    ensures forall i :: i in r <==> i < n && i in s
    ensures forall j, k :: 0 <= j < k < |r| ==> r[j] < r[k]
  {
    if n == 0 then []
    else
      var front := Ascending(s, n - 1);
      assert forall j :: 0 <= j < |front| ==> front[j] in front;
      front + if n - 1 in s then [n - 1] else []
  }

  function CandidatesFor(cfg: Config, m: Miner, tokens: seq<Token>): (r: (seq<nat>, bool))
    ensures Below(r.0, |m.templates|)
  {
    if |tokens| !in m.roots then ([], false)
    else
      var (out, widened) := Gather(m.roots[|tokens|], Prefix(cfg, tokens), []);
      (Ascending(out, |m.templates|), widened)
  }

  // ------------------------------------------------------------------ one line

  /** A literal that disagrees becomes a wildcard. */
  function Generalized(t: seq<Token>, tokens: seq<Token>): (r: seq<Token>)
    requires |t| == |tokens|
    ensures |r| == |t|
    ensures forall i :: 0 <= i < |t| ==> r[i] == if t[i] == tokens[i] then t[i] else WILDCARD
  {
    seq(|t|, i requires 0 <= i < |t| => if t[i] == tokens[i] then t[i] else WILDCARD)
  }

  /** The template a line joins, if any. */
  function Target(cfg: Config, m: Miner, tokens: seq<Token>): (idx: Option<nat>)
    ensures idx.Some? ==> idx.value < |m.templates| && |m.templates[idx.value].tokens| == |Mined(cfg, tokens)|
  {
    var mined := Mined(cfg, tokens);
    var (cands, widened) := CandidatesFor(cfg, m, mined);
    BestMatch(cfg, m.templates, cands, mined, widened)
  }

  function Joined(cfg: Config, t: Template, tokens: seq<Token>): Template
    requires |t.tokens| == |Mined(cfg, tokens)|
  {
    Template(t.id, Generalized(t.tokens, Mined(cfg, tokens)), t.count + 1,
             t.headOnly || |tokens| > cfg.maxLineTokens)
  }

  function RootOf(m: Miner, n: nat): Node
  {
    if n in m.roots then m.roots[n] else EMPTY
  }

  function Add(cfg: Config, m: Miner, tokens: seq<Token>): (Miner, Match)
  {
    var mined := Mined(cfg, tokens);
    match Target(cfg, m, tokens)
    case Some(idx) =>
      var t := m.templates[idx];
      var joined := Joined(cfg, t, tokens);
      (m.(templates := m.templates[idx := joined]), Match(t.id, false, joined.tokens != t.tokens))
    case None =>
      var n := |mined|;
      var root := Insert(RootOf(m, n), Prefix(cfg, mined), cfg.maxChildren, |m.templates|);
      (Miner(m.roots[n := root],
             m.templates + [Template(m.nextId, mined, 1, |tokens| > cfg.maxLineTokens)],
             m.nextId + 1),
       Match(m.nextId, true, false))
  }

  class Drain {
    const cfg: Config
    var roots: map<nat, Node>
    var templates: seq<Template>
    var nextId: nat

    ghost function View(): Miner
      reads this
    {
      Miner(roots, templates, nextId)
    }

    constructor (cfg: Config)
      ensures View() == FRESH && this.cfg == cfg
    {
      this.cfg := cfg;
      roots := map[];
      templates := [];
      nextId := 1;
    }

    /** Mine a line that is already split into tokens. */
    method AddTokens(tokens: seq<Token>) returns (r: Match)
      modifies this
      ensures (View(), r) == Add(cfg, old(View()), tokens)
    {
      hide Insert, Gather;
      var headOnly := |tokens| > cfg.maxLineTokens;
      var mined := Mined(cfg, tokens);
      var cands, widened := FindCandidates(mined);
      var found := FindBest(cands, mined, widened);
      if found.Some? {
        var idx := found.value;
        var t := templates[idx];
        var after, generalized := Generalize(t.tokens, mined);
        templates := templates[idx := Template(t.id, after, t.count + 1, t.headOnly || headOnly)];
        r := Match(t.id, false, generalized);
      } else {
        var id, idx := nextId, |templates|;
        nextId := nextId + 1;
        templates := templates + [Template(id, mined, 1, headOnly)];
        var root := if |mined| in roots then roots[|mined|] else EMPTY;
        roots := roots[|mined| := Insert(root, Prefix(cfg, mined), cfg.maxChildren, idx)];
        r := Match(id, true, false);
      }
    }

    method Generalize(t: seq<Token>, tokens: seq<Token>) returns (after: seq<Token>, changed: bool)
      requires |t| == |tokens|
      ensures after == Generalized(t, tokens)
      ensures changed == (after != t)
    {
      after, changed := t, false;
      for i := 0 to |t|
        invariant |after| == |t|
        invariant forall j :: 0 <= j < i ==> after[j] == if t[j] == tokens[j] then t[j] else WILDCARD
        invariant forall j :: i <= j < |t| ==> after[j] == t[j]
        invariant changed <==> exists j :: 0 <= j < i && after[j] != t[j]
      {
        if after[i] != WILDCARD && after[i] != tokens[i] {
          after := after[i := WILDCARD];
          changed := true;
        }
      }
    }

    /** Walk down, collecting the wildcard branches passed on the way. */
    method FindCandidates(tokens: seq<Token>) returns (cands: seq<nat>, widened: bool)
      ensures (cands, widened) == CandidatesFor(cfg, View(), tokens)
    {
      if |tokens| !in roots {
        return [], false;
      }
      hide Subtree;
      var cur := roots[|tokens|];
      var path := Prefix(cfg, tokens);
      var also: seq<nat> := [];
      ghost var whole := Gather(cur, path, also);
      for i := 0 to |path|
        invariant Gather(cur, path[i..], also) == whole
      {
        assert path[i..][0] == path[i] && path[i..][1..] == path[i + 1..];
        if WILDCARD in cur.children && path[i] != WILDCARD {
          var wild := SubtreeClusters(cur.children[WILDCARD]);
          also := also + wild;
        }
        if path[i] in cur.children {
          cur := cur.children[path[i]];
        } else if WILDCARD in cur.children {
          cur := cur.children[WILDCARD];
        } else {
          var under := SubtreeClusters(cur);
          return Ascending(under + also, |templates|), true;
        }
      }
      widened := also != [];
      cands := Ascending(cur.clusters + also, |templates|);
    }

    method FindBest(cands: seq<nat>, tokens: seq<Token>, widened: bool) returns (found: Option<nat>)
      requires Below(cands, |templates|)
      ensures found == BestMatch(cfg, templates, cands, tokens, widened)
    {
      found := None;
      var bestScore, bestParams := 0, 0;
      for i := 0 to |cands|
        invariant Below(cands[..i], |templates|)
        invariant found == Best(cfg, templates, cands[..i], tokens, widened)
        invariant found.Some? ==> bestScore == Score(templates[found.value].tokens, tokens)
                                  && bestParams == Wild(templates[found.value].tokens)
      {
        assert cands[..i + 1][..i] == cands[..i];
        assert cands[i] in cands;
        BelowTake(cands, i + 1, |templates|);
        var t := templates[cands[i]].tokens;
        assert Best(cfg, templates, cands[..i + 1], tokens, widened)
            == if Eligible(cfg, t, tokens, widened) && (found.None? || Beats(t, templates[found.value].tokens, tokens))
               then Some(cands[i]) else found;
        hide Agreeing, Wild, Best;
        if Eligible(cfg, t, tokens, widened) {
          var score, params := SeqDistance(t, tokens);
          if found.None? || score > bestScore || (score == bestScore && params > bestParams) {
            found, bestScore, bestParams := Some(cands[i]), score, params;
          }
        }
      }
      assert cands[..|cands|] == cands;
      if found.Some? && !Passes(cfg, widened, bestScore, |tokens|) {
        found := None;
      }
    }
  }
}
