/**
 The text a controller prints about its boot-mode overrides: exactly which lines report a level or
 a mode, and what a read amounts to, told from the characters alone.
 */
module OverridesText {
  import opened Options
  import opened Text
  import opened Overrides

  ghost predicate AllSpace(s: string) {
    forall i :: 0 <= i < |s| ==> IsSpace(s[i])
  }

  /** No space at either end. */
  ghost predicate Tight(s: string) {
    s == [] || (!IsSpace(s[0]) && !IsSpace(s[|s| - 1]))
  }

  /** One word. */
  ghost predicate Solid(s: string) {
    s != [] && forall i :: 0 <= i < |s| ==> !IsSpace(s[i])
  }

  const NAME_LETTERS := "ABCDEFGHIJKLMNOPQRSTUVWXYZ0123456789_"

  /** Names are made of these letters, and never empty. */
  ghost predicate ValidName(s: string) {
    s != [] && forall i :: 0 <= i < |s| ==> s[i] in NAME_LETTERS
  }

  lemma LetterIs(c: char)
    ensures c in NAME_LETTERS <==> 'A' <= c <= 'Z' || '0' <= c <= '9' || c == '_'
  {
    assert forall i :: 0 <= i < 26 ==> NAME_LETTERS[i] as int == 65 + i;
    assert forall i :: 26 <= i < 36 ==> NAME_LETTERS[i] as int == 22 + i;
    assert NAME_LETTERS[36] == '_' && |NAME_LETTERS| == 37;
    if 'A' <= c <= 'Z' {
      assert NAME_LETTERS[c as int - 65] == c;
    } else if '0' <= c <= '9' {
      assert NAME_LETTERS[c as int - 22] == c;
    }
  }

  lemma NameIs(s: string)
    ensures IsName(s) <==> ValidName(s)
  {
    forall i | 0 <= i < |s|
      ensures s[i] in NAME_LETTERS <==> 'A' <= s[i] <= 'Z' || '0' <= s[i] <= '9' || s[i] == '_'
    {
      LetterIs(s[i]);
    }
    hide NAME_LETTERS;
  }

  lemma NameIsSolid(s: string)
    requires IsName(s)
    ensures Solid(s) && Tight(s) && '=' !in s && s[0] != 'm'
  {
  }

  /** The twenty-five code points that count as spaces. */
  lemma SpaceIs(c: char)
    ensures IsSpace(c) <==>
            c as int in {9, 10, 11, 12, 13, 32, 133, 160, 5760, 8192, 8193, 8194, 8195, 8196, 8197, 8198, 8199,
                         8200, 8201, 8202, 8232, 8233, 8239, 8287, 12288}
  {
  }

  // ------------------------------------------------------------------ trimming

  lemma {:induction false} TrimStartSkips(a: string, s: string)
    requires AllSpace(a)
    ensures TrimStart(a + s) == TrimStart(s)
  {
    if a == [] {
      assert a + s == s;
    } else {
      assert (a + s)[1..] == a[1..] + s;
      TrimStartSkips(a[1..], s);
    }
  }

  lemma {:induction false} TrimEndSkips(s: string, d: string)
    requires AllSpace(d)
    ensures TrimEnd(s + d) == TrimEnd(s)
  {
    if d == [] {
      assert s + d == s;
    } else {
      assert (s + d)[..|s + d| - 1] == s + d[..|d| - 1];
      TrimEndSkips(s, d[..|d| - 1]);
    }
  }

  /** Trimming takes off exactly the spaces around. */
  lemma TrimOf(a: string, v: string, d: string)
    requires AllSpace(a) && AllSpace(d) && Tight(v)
    ensures Trim(a + v + d) == v
  {
    assert a + v + d == a + (v + d);
    TrimStartSkips(a, v + d);
    if v == [] {
      assert v + d == d + [];
      TrimStartSkips(d, []);
    } else {
      assert TrimStart(v + d) == v + d;
      TrimEndSkips(v, d);
    }
  }

  lemma {:induction false} TrimStartSplit(s: string) returns (a: string)
    ensures AllSpace(a) && s == a + TrimStart(s)
    ensures TrimStart(s) == [] || !IsSpace(TrimStart(s)[0])
  {
    a := [];
    if s != [] && IsSpace(s[0]) {
      var rest := TrimStartSplit(s[1..]);
      a := [s[0]] + rest;
      assert s == [s[0]] + s[1..];
    }
  }

  lemma {:induction false} TrimEndSplit(s: string) returns (d: string)
    ensures AllSpace(d) && s == TrimEnd(s) + d
    ensures TrimEnd(s) == [] || !IsSpace(TrimEnd(s)[|TrimEnd(s)| - 1])
  {
    d := [];
    if s != [] && IsSpace(s[|s| - 1]) {
      var rest := TrimEndSplit(s[..|s| - 1]);
      d := rest + [s[|s| - 1]];
      assert s == s[..|s| - 1] + [s[|s| - 1]];
    }
  }

  lemma TrimSplit(s: string) returns (a: string, d: string)
    ensures AllSpace(a) && AllSpace(d) && Tight(Trim(s)) && s == a + Trim(s) + d
  {
    a := TrimStartSplit(s);
    d := TrimEndSplit(TrimStart(s));
    var t := TrimStart(s);
    assert t == Trim(s) + d;
    if Trim(s) != [] {
      assert t[0] == Trim(s)[0];
    }
  }

  // ------------------------------------------------------------------ words

  lemma {:induction false} WordsSkip(a: string, s: string)
    requires AllSpace(a)
    ensures Words(a + s) == Words(s)
  {
    if a == [] {
      assert a + s == s;
    } else {
      assert (a + s)[1..] == a[1..] + s;
      WordsSkip(a[1..], s);
    }
  }

  lemma {:induction false} WordLengthIs(w: string, rest: string)
    requires (forall i :: 0 <= i < |w| ==> !IsSpace(w[i])) && (rest == [] || IsSpace(rest[0]))
    ensures WordLength(w + rest) == |w|
  {
    if w == [] {
      assert w + rest == rest;
    } else {
      assert (w + rest)[1..] == w[1..] + rest;
      WordLengthIs(w[1..], rest);
    }
  }

  lemma WordsTake(w: string, rest: string)
    requires Solid(w) && (rest == [] || IsSpace(rest[0]))
    ensures Words(w + rest) == [w] + Words(rest)
  {
    WordLengthIs(w, rest);
    assert (w + rest)[..|w|] == w && (w + rest)[|w|..] == rest;
  }

  lemma {:induction false} WordEnds(s: string)
    ensures forall i :: 0 <= i < WordLength(s) ==> !IsSpace(s[i])
    ensures WordLength(s) < |s| ==> IsSpace(s[WordLength(s)])
  {
    if s != [] && !IsSpace(s[0]) {
      WordEnds(s[1..]);
    }
  }

  /** The first word of a text, and what surrounds it. */
  lemma {:induction false} WordsSplit(s: string) returns (a: string, w: string, rest: string)
    requires Words(s) != []
    ensures AllSpace(a) && Solid(w) && (rest == [] || IsSpace(rest[0]))
    ensures s == a + w + rest && Words(s) == [w] + Words(rest)
  {
    hide IsSpace;
    if IsSpace(s[0]) {
      var b, v, r := WordsSplit(s[1..]);
      a, w, rest := [s[0]] + b, v, r;
      assert s == [s[0]] + (b + v + r);
      assert [s[0]] + (b + v + r) == a + w + rest;
    } else {
      WordEnds(s);
      a, w, rest := [], s[..WordLength(s)], s[WordLength(s)..];
      assert s == a + w + rest;
    }
  }

  lemma {:induction false} NoWords(s: string)
    requires Words(s) == []
    ensures AllSpace(s)
  {
    if s != [] {
      assert IsSpace(s[0]);
      NoWords(s[1..]);
    }
  }

  // ------------------------------------------------------------------ a signal line

  ghost predicate SignalParts(line: string, name: string, v: string, a: string, b: string, c: string, d: string) {
    && line == a + name + b + "=" + c + v + d
    && AllSpace(a) && AllSpace(b) && AllSpace(c) && AllSpace(d)
  }

  /** The line reads `name=value`, with any spaces around either. */
  ghost predicate Says(line: string, name: string, v: string) {
    && ValidName(name) && Tight(v)
    && exists a, b, c, d :: SignalParts(line, name, v, a, b, c, d)
  }

  lemma {:induction false} EqualsAt(p: string, rest: string)
    requires '=' !in p
    ensures IndexOfEquals(p + "=" + rest) == |p|
  {
    var s := p + "=" + rest;
    if p != [] {
      assert s[0] == p[0] && p[0] in p;
      assert s[1..] == p[1..] + "=" + rest;
      EqualsAt(p[1..], rest);
    }
  }

  lemma {:induction false} EqualsSplit(s: string)
    ensures IndexOfEquals(s) < |s| ==> s[IndexOfEquals(s)] == '='
  {
    if s != [] && s[0] != '=' {
      EqualsSplit(s[1..]);
    }
  }

  lemma NotAModeLine(a: string, x: char, rest: string)
    requires AllSpace(a) && !IsSpace(x) && x != 'm'
    ensures Words(a + [x] + rest) != [] && Words(a + [x] + rest)[0] != "mode"
  {
    var s := [x] + rest;
    assert a + [x] + rest == a + s;
    WordsSkip(a, s);
    assert Words(s)[0] == s[..WordLength(s)];
    assert s[..WordLength(s)][0] == x;
  }

  lemma TrimmedSignal(line: string, name: string, v: string, a: string, b: string, c: string, d: string)
    requires SignalParts(line, name, v, a, b, c, d) && IsName(name) && Tight(v)
    ensures exists value :: Trim(line) == name + b + "=" + value && Trim(value) == v
  {
    NameIsSolid(name);
    if v == [] {
      var core := name + b + "=";
      assert !IsSpace('=');
      assert line == a + core + (c + d);
      TrimOf(a, core, c + d);
      assert core == name + b + "=" + [];
      var none: string := [];
      TrimOf(none, none, none);
      assert none + none + none == none;
    } else {
      var core := name + b + "=" + (c + v);
      assert line == a + core + d;
      assert core[|core| - 1] == v[|v| - 1];
      TrimOf(a, core, d);
      TrimOf(c, v, []);
      assert c + v + [] == c + v;
    }
  }

  lemma ClassifyAsSignal(line: string, name: string, b: string, value: string)
    requires Words(line) != [] && Words(line)[0] != "mode"
    requires Trim(line) == name + b + "=" + value && '=' !in name + b && Trim(name + b) == name && IsName(name)
    ensures Classify(line) == Signal(name, ParseLevel(value))
  {
    hide Words, Trim, IndexOfEquals, IsName, ParseLevel;
    EqualsAt(name + b, value);
    var s, i := Trim(line), |name + b|;
    assert s[..i] == name + b && s[i + 1..] == value;
  }

  lemma SaidIsClassified(line: string, name: string, v: string)
    requires Says(line, name, v)
    ensures Classify(line) == Signal(name, ParseLevel(v)) && Trim(v) == v
  {
    hide Classify, Words, Trim, IsName, AllSpace, ValidName;
    var a, b, c, d :| SignalParts(line, name, v, a, b, c, d);
    NameIs(name);
    NameIsSolid(name);
    TrimmedSignal(line, name, v, a, b, c, d);
    var value :| Trim(line) == name + b + "=" + value && Trim(value) == v;
    SpacesHaveNoEquals(b);
    TrimTight(name, b);
    TrimTight(v, []);
    assert v + [] == v;
    StartsLike(line, name, a, b + "=" + c + v + d);
    ClassifyAsSignal(line, name, b, value);
    assert ParseLevel(value) == ParseLevel(v);
  }

  lemma TrimTight(v: string, d: string)
    requires Tight(v) && AllSpace(d)
    ensures Trim(v + d) == v && AllSpace([])
  {
    hide Trim;
    TrimOf([], v, d);
    assert [] + v + d == v + d;
  }

  lemma StartsLike(line: string, name: string, a: string, rest: string)
    requires Solid(name) && name[0] != 'm' && AllSpace(a) && line == a + name + rest
    ensures Words(line) != [] && Words(line)[0] != "mode"
  {
    hide Words, AllSpace;
    assert line == a + [name[0]] + (name[1..] + rest);
    NotAModeLine(a, name[0], name[1..] + rest);
  }

  lemma SpacesHaveNoEquals(b: string)
    requires AllSpace(b)
    ensures '=' !in b
  {
  }

  lemma ClassifiedParts(line: string)
    requires Classify(line).Signal?
    ensures var s := Trim(line);
            var i := IndexOfEquals(s);
            && i < |s| && Classify(line).name == Trim(s[..i]) && IsName(Classify(line).name)
  {
    hide Words, Trim, IndexOfEquals, IsName, ParseLevel;
  }

  lemma Assemble(line: string, s: string, p: string, q: string, a: string, d: string, a1: string, name: string, b: string, c: string, v: string, d1: string)
    requires line == a + s + d && s == p + "=" + q && p == a1 + name + b && q == c + v + d1
    ensures line == (a + a1) + name + b + "=" + c + v + (d1 + d)
  {
    assert p + "=" + q == a1 + name + b + "=" + c + v + d1;
    assert a + (a1 + name + b + "=" + c + v + d1) == (a + a1) + name + b + "=" + c + v + d1;
  }

  lemma SpacesJoin(a: string, b: string)
    requires AllSpace(a) && AllSpace(b)
    ensures AllSpace(a + b)
  {
  }

  lemma ClassifiedIsSaid(line: string)
    requires Classify(line).Signal?
    ensures IndexOfEquals(Trim(line)) < |Trim(line)|
    ensures Says(line, Classify(line).name, Trim(Trim(line)[IndexOfEquals(Trim(line)) + 1..]))
  {
    hide Classify, Words, Trim, IndexOfEquals, IsName, AllSpace, ValidName;
    ClassifiedParts(line);
    var s := Trim(line);
    var i := IndexOfEquals(s);
    EqualsSplit(s);
    var p, q := s[..i], s[i + 1..];
    assert s == p + "=" + q;
    var a, d := TrimSplit(line);
    var a1, b := TrimSplit(p);
    var c, d1 := TrimSplit(q);
    NameIs(Trim(p));
    Assemble(line, s, p, q, a, d, a1, Trim(p), b, c, Trim(q), d1);
    SpacesJoin(a, a1);
    SpacesJoin(d1, d);
    assert SignalParts(line, Trim(p), Trim(q), a + a1, b, c, d1 + d);
  }

  /**
   Which lines report a level: exactly `name=value` with a valid name and any spaces. The line is
   released when the value is 0, asserted when it is 1, and unknown for every other value.
   */
  lemma SignalIff(line: string, name: string, level: Level)
    ensures Classify(line) == Signal(name, level) <==>
            exists v :: Says(line, name, v)
                        && (level == Released <==> v == "0") && (level == Asserted <==> v == "1")
  {
    hide Classify, Says;
    if Classify(line) == Signal(name, level) {
      ClassifiedIsSaid(line);
      var v := Trim(Trim(line)[IndexOfEquals(Trim(line)) + 1..]);
      SaidIsClassified(line, name, v);
      LevelOfText(v);
    }
    if v :| Says(line, name, v) && (level == Released <==> v == "0") && (level == Asserted <==> v == "1") {
      SaidIsClassified(line, name, v);
      LevelOfText(v);
    }
  }

  lemma LevelOfText(v: string)
    requires Trim(v) == v
    ensures ParseLevel(v) == if v == "0" then Released else if v == "1" then Asserted else Unknown
  {
    hide Trim;
  }

  /** A line says one thing. */
  lemma SaysOneThing(line: string, name: string, v: string, other: string, w: string)
    requires Says(line, name, v) && Says(line, other, w)
    ensures name == other && (v == "0" <==> w == "0") && (v == "1" <==> w == "1")
  {
    hide Classify, Says;
    SaidIsClassified(line, name, v);
    SaidIsClassified(line, other, w);
    LevelOfText(v);
    LevelOfText(w);
  }

  // ------------------------------------------------------------------ a mode line

  ghost predicate ModeParts(line: string, mode: string, held: string, sp: seq<string>) {
    && |sp| == 5 && (forall i :: 0 <= i < 5 ==> AllSpace(sp[i])) && sp[1] != [] && sp[2] != [] && sp[3] != []
    && line == sp[0] + "mode" + sp[1] + mode + sp[2] + "asserts" + sp[3] + held + sp[4]
  }

  /** The line reads `mode M asserts L`, each a word. */
  ghost predicate Declared(line: string, mode: string, held: string) {
    Solid(mode) && Solid(held) && exists sp :: ModeParts(line, mode, held, sp)
  }

  lemma WordThen(a: string, w: string, rest: string)
    requires AllSpace(a) && Solid(w) && (rest == [] || IsSpace(rest[0]))
    ensures Words(a + (w + rest)) == [w] + Words(rest)
  {
    WordsSkip(a, w + rest);
    WordsTake(w, rest);
  }

  lemma DeclaredWords(line: string, mode: string, held: string)
    requires Declared(line, mode, held)
    ensures Words(line) == ["mode", mode, "asserts", held]
  {
    hide Words, IsSpace, AllSpace;
    var sp :| ModeParts(line, mode, held, sp);
    LiteralWords();
    hide Solid;
    SpacesStart(sp[4], []);
    assert sp[4] + [] == sp[4];
    var r3 := sp[4];
    var r2 := sp[3] + (held + r3);
    var r1 := sp[2] + ("asserts" + r2);
    var r0 := sp[1] + (mode + r1);
    assert line == sp[0] + ("mode" + r0);
    SpacesStart(sp[3], held + r3);
    SpacesStart(sp[2], "asserts" + r2);
    SpacesStart(sp[1], mode + r1);
    WordThen(sp[3], held, r3);
    WordThen(sp[2], "asserts", r2);
    WordThen(sp[1], mode, r1);
    WordThen(sp[0], "mode", r0);
    SpacesHaveNoWords(r3);
    assert [held] + [] == [held];
    assert ["mode"] + ([mode] + (["asserts"] + [held])) == ["mode", mode, "asserts", held];
  }

  lemma LiteralWords()
    ensures Solid("mode") && Solid("asserts")
  {
  }

  lemma SpacesStart(sp: string, s: string)
    requires AllSpace(sp)
    ensures sp != [] ==> IsSpace((sp + s)[0])
  {
    hide IsSpace;
  }

  lemma SpacesHaveNoWords(s: string)
    requires AllSpace(s)
    ensures Words(s) == []
  {
    WordsSkip(s, []);
    assert s + [] == s;
  }

  lemma FourWords(line: string, mode: string, held: string)
    requires Words(line) == ["mode", mode, "asserts", held]
    ensures Declared(line, mode, held)
  {
    hide Words;
    var a0, w0, r0 := WordsSplit(line);
    HeadAndTail(w0, Words(r0), "mode", [mode, "asserts", held]);
    var a1, w1, r1 := WordsSplit(r0);
    HeadAndTail(w1, Words(r1), mode, ["asserts", held]);
    var a2, w2, r2 := WordsSplit(r1);
    HeadAndTail(w2, Words(r2), "asserts", [held]);
    var a3, w3, r3 := WordsSplit(r2);
    HeadAndTail(w3, Words(r3), held, []);
    NoWords(r3);
    var sp := [a0, a1, a2, a3, r3];
    WordFirst(a1, w1, r1);
    WordFirst(a2, w2, r2);
    WordFirst(a3, w3, r3);
    FourParts(line, mode, held, sp, r0, r1, r2);
  }

  lemma HeadAndTail(w: string, ws: seq<string>, x: string, xs: seq<string>)
    requires [w] + ws == [x] + xs
    ensures w == x && ws == xs
  {
    assert ([w] + ws)[0] == w && ([w] + ws)[1..] == ws;
    assert ([x] + xs)[0] == x && ([x] + xs)[1..] == xs;
  }

  lemma FourParts(line: string, mode: string, held: string, sp: seq<string>, r0: string, r1: string, r2: string)
    requires |sp| == 5 && line == sp[0] + "mode" + r0 && r0 == sp[1] + mode + r1
    requires r1 == sp[2] + "asserts" + r2 && r2 == sp[3] + held + sp[4]
    requires (forall i :: 0 <= i < 5 ==> AllSpace(sp[i])) && sp[1] != [] && sp[2] != [] && sp[3] != []
    ensures ModeParts(line, mode, held, sp)
  {
  }

  /** A word does not start with a space. */
  lemma WordFirst(a: string, w: string, rest: string)
    requires Solid(w)
    ensures a == [] ==> !IsSpace((a + w + rest)[0])
  {
    assert a == [] ==> (a + w + rest)[0] == w[0];
  }

  /** Which lines declare a mode: exactly `mode M asserts L` with two valid names. */
  lemma ModeIff(line: string, mode: string, held: string)
    ensures Classify(line) == ModeLine(mode, held) <==>
            ValidName(mode) && ValidName(held) && Declared(line, mode, held)
  {
    hide Words, Trim, IndexOfEquals, IsName, ValidName, Declared;
    NameIs(mode);
    NameIs(held);
    if Classify(line) == ModeLine(mode, held) {
      assert Words(line) == ["mode", mode, "asserts", held];
      FourWords(line, mode, held);
    }
    if Declared(line, mode, held) {
      DeclaredWords(line, mode, held);
    }
  }

  // ------------------------------------------------------------------ the read

  /** Some output line says so. */
  ghost predicate SaidIn(lines: seq<string>, name: string, v: string) {
    exists i :: 0 <= i < |lines| && Says(lines[i], name, v)
  }

  lemma ReportedText(lines: seq<string>, name: string)
    ensures Released in Reported(lines, name) <==> SaidIn(lines, name, "0")
    ensures Asserted in Reported(lines, name) <==> SaidIn(lines, name, "1")
    ensures Unknown in Reported(lines, name) <==> exists v :: v != "0" && v != "1" && SaidIn(lines, name, v)
  {
    hide Classify, Says;
    forall i | 0 <= i < |lines| && Classify(lines[i]).Signal? && Classify(lines[i]).name == name
      ensures exists v :: SaidIn(lines, name, v) && (Classify(lines[i]).level == Released <==> v == "0")
                          && (Classify(lines[i]).level == Asserted <==> v == "1")
    {
      SignalIff(lines[i], name, Classify(lines[i]).level);
      var v :| Says(lines[i], name, v) && (Classify(lines[i]).level == Released <==> v == "0")
               && (Classify(lines[i]).level == Asserted <==> v == "1");
      assert SaidIn(lines, name, v);
    }
    forall v | SaidIn(lines, name, v)
      ensures (if v == "0" then Released else if v == "1" then Asserted else Unknown) in Reported(lines, name)
    {
      var i :| 0 <= i < |lines| && Says(lines[i], name, v);
      SaidIsClassified(lines[i], name, v);
      LevelOfText(v);
    }
  }

  /** Every value said for a name, if any, is this one, and one is said. */
  ghost predicate OnlySaid(lines: seq<string>, name: string, v: string) {
    SaidIn(lines, name, v) && forall w :: SaidIn(lines, name, w) ==> w == v
  }

  lemma OnlyLevel(levels: set<Level>, level: Level)
    requires level in levels && forall l :: l != level ==> l !in levels
    ensures levels == {level}
  {
  }

  lemma SettledText(lines: seq<string>, name: string)
    ensures Settled(Reported(lines, name)) == Some(Released) <==> OnlySaid(lines, name, "0")
    ensures Settled(Reported(lines, name)) == Some(Asserted) <==> OnlySaid(lines, name, "1")
    ensures Settled(Reported(lines, name)) == None <==> forall v :: !SaidIn(lines, name, v)
  {
    hide Reported, SaidIn;
    ReportedText(lines, name);
    var levels := Reported(lines, name);
    assert "0"[0] != "1"[0];
    if OnlySaid(lines, name, "0") {
      assert Released in levels && Asserted !in levels && Unknown !in levels;
      OnlyLevel(levels, Released);
    }
    if OnlySaid(lines, name, "1") {
      assert Asserted in levels && Released !in levels && Unknown !in levels;
      OnlyLevel(levels, Asserted);
    }
    if v :| SaidIn(lines, name, v) {
      assert Released in levels || Asserted in levels || Unknown in levels;
    }
    if levels == {Released} {
      assert Released in levels && Asserted !in levels && Unknown !in levels;
    }
    if levels == {Asserted} {
      assert Asserted in levels && Released !in levels && Unknown !in levels;
    }
    if levels != {} {
      var l :| l in levels;
      match l {
        case Released => assert SaidIn(lines, name, "0");
        case Asserted => assert SaidIn(lines, name, "1");
        case Unknown => assert exists v :: SaidIn(lines, name, v);
      }
    }
  }

  /** The level read for a name, from the text: 0 if all that is said of it is 0, 1 if all is 1, unknown if anything else is said. */
  lemma LevelText(lines: seq<string>, name: string)
    ensures var level := LevelOf(Parsed(lines).signals, name);
            && (level == Some(Released) <==> OnlySaid(lines, name, "0"))
            && (level == Some(Asserted) <==> OnlySaid(lines, name, "1"))
            && (level == None <==> forall v :: !SaidIn(lines, name, v))
  {
    hide Parsed, Reported, Settled, OnlySaid, SaidIn;
    LevelIsSettled(lines, name);
    SettledText(lines, name);
  }

  /**
   The three verdicts, from the text: clear if some signal is read and every value said is exactly 0,
   latched if of some name nothing but 1 is said, and unclear otherwise.
   */
  lemma SummaryText(lines: seq<string>)
    ensures var some := exists name, v :: SaidIn(lines, name, v);
            var allZero := forall name, v :: SaidIn(lines, name, v) ==> v == "0";
            var held := exists name :: OnlySaid(lines, name, "1");
            && (Summarise(Parsed(lines)) == Clear <==> some && allZero)
            && (Summarise(Parsed(lines)) == Latched <==> held)
            && (Summarise(Parsed(lines)) == Unclear <==> !held && !(some && allZero))
            && (AllReleased(Parsed(lines)) <==> some && allZero)
  {
    LatchedText(lines);
    ClearText(lines);
    hide Parsed, SaidIn, OnlySaid;
  }

  lemma LatchedText(lines: seq<string>)
    ensures Summarise(Parsed(lines)) == Latched <==> exists name :: OnlySaid(lines, name, "1")
  {
    hide Parsed, Reported, Settled, OnlySaid, SaidIn, HasLevel;
    HasLevelIff(lines, Asserted);
    forall name ensures Settled(Reported(lines, name)) == Some(Asserted) <==> OnlySaid(lines, name, "1") {
      SettledText(lines, name);
    }
  }

  lemma ClearText(lines: seq<string>)
    ensures Summarise(Parsed(lines)) == Clear <==>
            && (exists name, v :: SaidIn(lines, name, v))
            && (forall name, v :: SaidIn(lines, name, v) ==> v == "0")
  {
    hide Parsed, Classify, Says, Summarise, HasLevel;
    ClearIff(lines);
    if AllReleased(Parsed(lines)) {
      var i :| SignalAt(lines, i);
      SignalIff(lines[i], Classify(lines[i]).name, Classify(lines[i]).level);
      var v :| Says(lines[i], Classify(lines[i]).name, v);
      assert SaidIn(lines, Classify(lines[i]).name, v);
      forall name, w | SaidIn(lines, name, w) ensures w == "0" {
        var j :| 0 <= j < |lines| && Says(lines[j], name, w);
        SaidIsClassified(lines[j], name, w);
        LevelOfText(w);
        assert SignalAt(lines, j);
      }
    }
    if (exists name, v :: SaidIn(lines, name, v)) && (forall name, v :: SaidIn(lines, name, v) ==> v == "0") {
      var name, v :| SaidIn(lines, name, v);
      var i :| 0 <= i < |lines| && Says(lines[i], name, v);
      SaidIsClassified(lines[i], name, v);
      assert SignalAt(lines, i);
      forall j | SignalAt(lines, j) ensures Classify(lines[j]).level == Released {
        SignalIff(lines[j], Classify(lines[j]).name, Classify(lines[j]).level);
        var w :| Says(lines[j], Classify(lines[j]).name, w) && (Classify(lines[j]).level == Released <==> w == "0");
        assert SaidIn(lines, Classify(lines[j]).name, w);
      }
    }
  }

  // ------------------------------------------------------------------ an example

  /** One strap at 1 blocks a normal boot, and the same at 0 clears it. */
  lemma OneStrap()
    ensures Summarise(Parsed(["MD_EDL=1"])) == Latched
    ensures Summarise(Parsed([" MD_EDL = 0\r"])) == Clear
  {
    var one, zero := ["MD_EDL=1"], [" MD_EDL = 0\r"];
    OneStrapSays();
    SummaryText(one);
    SummaryText(zero);
    hide Says, Parsed, Summarise;
    assert Says(one[0], "MD_EDL", "1") && Says(zero[0], "MD_EDL", "0");
    assert SaidIn(one, "MD_EDL", "1") && SaidIn(zero, "MD_EDL", "0");
    forall name, v | SaidIn(one, name, v) ensures name == "MD_EDL" && v == "1" {
      SaysOneThing(one[0], "MD_EDL", "1", name, v);
    }
    assert OnlySaid(one, "MD_EDL", "1");
    forall name, v | SaidIn(zero, name, v) ensures v == "0" {
      SaysOneThing(zero[0], "MD_EDL", "0", name, v);
    }
  }

  lemma OneStrapSays()
    ensures Says("MD_EDL=1", "MD_EDL", "1") && Says(" MD_EDL = 0\r", "MD_EDL", "0")
  {
    NameIs("MD_EDL");
    hide ValidName;
    PlainParts("MD_EDL", "1");
    SpacedParts("MD_EDL", "0");
    assert SignalParts("MD_EDL=1", "MD_EDL", "1", "", "", "", "") by {
      assert "MD_EDL" + "=" + "1" == "MD_EDL=1";
    }
    assert SignalParts(" MD_EDL = 0\r", "MD_EDL", "0", " ", " ", " ", "\r") by {
      assert " " + "MD_EDL" + " " + "=" + " " + "0" + "\r" == " MD_EDL = 0\r";
    }
  }

  lemma PlainParts(name: string, v: string)
    ensures SignalParts(name + "=" + v, name, v, "", "", "", "")
  {
  }

  lemma SpacedParts(name: string, v: string)
    ensures SignalParts(" " + name + " " + "=" + " " + v + "\r", name, v, " ", " ", " ", "\r")
  {
  }
}
