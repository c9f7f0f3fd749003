/**
 Reading a controller's boot-mode overrides (`overrides.rs`): the result depends only on
 which lines were printed, never on their order or number, and it fails safe.
 */
module Overrides {
  import opened Options
  import opened Text

  datatype Level = Released | Asserted | Unknown

  datatype Summary = Clear | Latched | Unclear

  /** What one output line says. */
  datatype Report = Signal(name: string, level: Level) | ModeLine(mode: string, held: string) | Other

  datatype BootOverrides = BootOverrides(signals: seq<(string, Level)>, modes: seq<(string, string)>)

  const UNREADABLE := BootOverrides([], [])

  // ------------------------------------------------------------------ one line

  function TrimStart(s: string): string
  {
    if s != [] && IsSpace(s[0]) then TrimStart(s[1..]) else s
  }

  function TrimEnd(s: string): string
  {
    if s != [] && IsSpace(s[|s| - 1]) then TrimEnd(s[..|s| - 1]) else s
  }

  function Trim(s: string): string
  {
    TrimEnd(TrimStart(s))
  }

  function WordLength(s: string): (n: nat)
    ensures n <= |s|
  {
    if s == [] || IsSpace(s[0]) then 0 else 1 + WordLength(s[1..])
  }

  function Words(s: string): seq<string>
    decreases |s|
  {
    if s == [] then []
    else if IsSpace(s[0]) then Words(s[1..])
    else
      var n := WordLength(s);
      [s[..n]] + Words(s[n..])
  }

  function IndexOfEquals(s: string): (i: nat)
    ensures i <= |s|
  {
    if s == [] || s[0] == '=' then 0 else 1 + IndexOfEquals(s[1..])
  }

  predicate IsName(s: string)
  {
    s != [] && forall i :: 0 <= i < |s| ==> 'A' <= s[i] <= 'Z' || '0' <= s[i] <= '9' || s[i] == '_'
  }

  function ParseLevel(value: string): Level
  {
    var v := Trim(value);
    if v == "0" then Released else if v == "1" then Asserted else Unknown
  }

  function Classify(line: string): Report
  {
    var words := Words(line);
    if |words| == 4 && words[0] == "mode" && words[2] == "asserts" then
      if IsName(words[1]) && IsName(words[3]) then ModeLine(words[1], words[3]) else Other
    else
      var s := Trim(line);
      var i := IndexOfEquals(s);
      if i == |s| then Other
      else
        var name := Trim(s[..i]);
        if IsName(name) then Signal(name, ParseLevel(s[i + 1..])) else Other
  }

  // ------------------------------------------------------------------ the whole read

  function LevelOf(signals: seq<(string, Level)>, name: string): Option<Level>
  {
    if signals == [] then None
    else if signals[0].0 == name then Some(signals[0].1)
    else LevelOf(signals[1..], name)
  }

  /** A second report of a name keeps its level if it agrees, and makes it unknown if not. */
  function Merge(signals: seq<(string, Level)>, name: string, level: Level): seq<(string, Level)>
  {
    if signals == [] then [(name, level)]
    else if signals[0].0 == name then
      [(name, if signals[0].1 != level then Unknown else level)] + signals[1..]
    else [signals[0]] + Merge(signals[1..], name, level)
  }

  function Absorb(o: BootOverrides, r: Report): BootOverrides
  {
    match r
    case Other => o
    case Signal(name, level) => o.(signals := Merge(o.signals, name, level))
    case ModeLine(mode, held) =>
      if (mode, held) in o.modes then o else o.(modes := o.modes + [(mode, held)])
  }

  function Parsed(lines: seq<string>): BootOverrides
  {
    if lines == [] then UNREADABLE else Absorb(Parsed(lines[..|lines| - 1]), Classify(lines[|lines| - 1]))
  }

  method Parse(lines: seq<string>) returns (o: BootOverrides)
    ensures o == Parsed(lines)
  {
    hide Classify;
    o := UNREADABLE;
    for i := 0 to |lines|
      invariant o == Parsed(lines[..i])
    {
      assert lines[..i + 1][..i] == lines[..i];
      var r := Classify(lines[i]);
      match r {
        case Other =>
        case ModeLine(mode, held) =>
          if (mode, held) !in o.modes {
            o := o.(modes := o.modes + [(mode, held)]);
          }
        case Signal(name, level) =>
          var signals := MergeInPlace(o.signals, name, level);
          o := o.(signals := signals);
      }
    }
    assert lines[..|lines|] == lines;
  }

  method MergeInPlace(signals: seq<(string, Level)>, name: string, level: Level) returns (after: seq<(string, Level)>)
    ensures after == Merge(signals, name, level)
  {
    var i := 0;
    while i < |signals| && signals[i].0 != name
      invariant 0 <= i <= |signals|
      invariant forall j :: 0 <= j < i ==> signals[j].0 != name
    {
      i := i + 1;
    }
    MergeAt(signals, name, level, i);
    if i == |signals| {
      after := signals + [(name, level)];
    } else {
      after := signals[i := (name, if signals[i].1 != level then Unknown else level)];
    }
  }

  /** Merging rewrites the entry for the name, or appends one. */
  lemma {:induction false} MergeAt(signals: seq<(string, Level)>, name: string, level: Level, i: nat)
    requires i <= |signals| && forall j :: 0 <= j < i ==> signals[j].0 != name
    requires i < |signals| ==> signals[i].0 == name
    ensures Merge(signals, name, level)
         == if i == |signals| then signals + [(name, level)]
            else signals[i := (name, if signals[i].1 != level then Unknown else level)]
  {
    if i > 0 {
      MergePast(signals, name, level);
      hide Merge;
      var rest := signals[1..];
      MergeAt(rest, name, level, i - 1);
      assert signals == [signals[0]] + rest;
    } else if signals != [] {
      hide Merge;
      MergeHere(signals, name, level);
    }
  }

  lemma MergePast(signals: seq<(string, Level)>, name: string, level: Level)
    requires signals != [] && signals[0].0 != name
    ensures Merge(signals, name, level) == [signals[0]] + Merge(signals[1..], name, level)
  {
  }

  lemma MergeHere(signals: seq<(string, Level)>, name: string, level: Level)
    requires signals != [] && signals[0].0 == name
    ensures Merge(signals, name, level) == signals[0 := (name, if signals[0].1 != level then Unknown else level)]
  {
  }

  predicate HasLevel(o: BootOverrides, level: Level)
  {
    exists i :: 0 <= i < |o.signals| && o.signals[i].1 == level
  }

  function Summarise(o: BootOverrides): Summary
  {
    if HasLevel(o, Asserted) then Latched
    else if o.signals == [] || HasLevel(o, Unknown) then Unclear
    else Clear
  }

  /** Every line that reported is known to be released, and one did. */
  predicate AllReleased(o: BootOverrides)
  {
    Summarise(o) == Clear
  }

  function LinesOf(modes: seq<(string, string)>, mode: string): seq<string>
  {
    if modes == [] then []
    else (if modes[0].0 == mode then [modes[0].1] else []) + LinesOf(modes[1..], mode)
  }

  /** The level of the line this mode was declared to hold. */
  function ModeLevel(o: BootOverrides, mode: string): Option<Level>
  {
    var lines := LinesOf(o.modes, mode);
    if lines == [] then None
    else if |lines| > 1 then Some(Unknown)
    else
      var level := LevelOf(o.signals, lines[0]);
      Some(if level.Some? then level.value else Unknown)
  }

  // ------------------------------------------------------------------ what a read amounts to

  /** The levels reported for a name, as a set. */
  ghost function Reported(lines: seq<string>, name: string): set<Level> {
    set i | 0 <= i < |lines| && Classify(lines[i]).Signal? && Classify(lines[i]).name == name
      :: Classify(lines[i]).level
  }

  /** All answers equal: that answer. Different answers: unknown. */
  ghost function Settled(levels: set<Level>): Option<Level> {
    if levels == {} then None
    else if levels == {Released} then Some(Released)
    else if levels == {Asserted} then Some(Asserted)
    else Some(Unknown)
  }

  lemma {:induction false} MergeLevel(signals: seq<(string, Level)>, name: string, level: Level, other: string)
    ensures LevelOf(Merge(signals, name, level), other)
         == if other != name then LevelOf(signals, other)
            else match LevelOf(signals, name)
                 case None => Some(level)
                 case Some(prev) => Some(if prev != level then Unknown else level)
  {
    if signals != [] {
      MergeLevel(signals[1..], name, level, other);
      var head, rest := [signals[0]], Merge(signals[1..], name, level);
      assert (head + rest)[1..] == rest;
      assert ([(name, if signals[0].1 != level then Unknown else level)] + signals[1..])[1..] == signals[1..];
    }
  }

  lemma SettledMore(levels: set<Level>, level: Level)
    ensures Settled(levels + {level})
         == match Settled(levels)
            case None => Some(level)
            case Some(prev) => Some(if prev != level then Unknown else level)
  {
    assert levels == {} ==> levels + {level} == {level};
    assert levels == {level} ==> levels + {level} == levels;
    forall l | levels != {} && levels + {level} == {l} ensures levels == {l} {
      assert forall x :: x in levels ==> x in levels + {level};
    }
  }

  /** The level of a name is a function of the set of answers given for it. */
  lemma {:induction false} LevelIsSettled(lines: seq<string>, name: string)
    ensures LevelOf(Parsed(lines).signals, name) == Settled(Reported(lines, name))
  {
    hide Classify;
    if lines == [] {
      assert Reported(lines, name) == {};
    } else {
      var n := |lines| - 1;
      var front := lines[..n];
      LevelIsSettled(front, name);
      var r := Classify(lines[n]);
      ReportedMore(front, lines[n], name);
      assert front + [lines[n]] == lines;
      if r.Signal? {
        MergeLevel(Parsed(front).signals, r.name, r.level, name);
        if r.name == name {
          SettledMore(Reported(front, name), r.level);
        }
      }
    }
  }

  lemma ReportedMore(lines: seq<string>, line: string, name: string)
    ensures Reported(lines + [line], name) == Reported(lines, name)
            + if Classify(line).Signal? && Classify(line).name == name then {Classify(line).level} else {}
  {
    hide Classify;
    var all := lines + [line];
    assert all[|lines|] == line;
    forall l | l in Reported(lines, name) ensures l in Reported(all, name) {
      var i :| 0 <= i < |lines| && Classify(lines[i]).Signal? && Classify(lines[i]).name == name
               && Classify(lines[i]).level == l;
      assert all[i] == lines[i];
    }
  }

  /** Two reads with the same lines, in any order and any number. */
  ghost predicate SameLines(a: seq<string>, b: seq<string>) {
    forall l :: l in a <==> l in b
  }

  lemma SameReports(a: seq<string>, b: seq<string>, name: string)
    requires SameLines(a, b)
    ensures Reported(a, name) == Reported(b, name)
  {
    hide Classify;
    SubReports(a, b, name);
    SubReports(b, a, name);
  }

  lemma SubReports(a: seq<string>, b: seq<string>, name: string)
    requires forall l :: l in a ==> l in b
    ensures Reported(a, name) <= Reported(b, name)
  {
    hide Classify;
    forall level | level in Reported(a, name) ensures level in Reported(b, name) {
      var i :| 0 <= i < |a| && Classify(a[i]).Signal? && Classify(a[i]).name == name
               && Classify(a[i]).level == level;
      assert a[i] in b;
      var j :| 0 <= j < |b| && b[j] == a[i];
    }
  }

  /** Names are listed once, so what a signal list holds is what its names read. */
  ghost predicate Distinct(signals: seq<(string, Level)>) {
    forall i, j :: 0 <= i < j < |signals| ==> signals[i].0 != signals[j].0
  }

  lemma {:induction false} LevelAt(signals: seq<(string, Level)>, i: nat)
    requires Distinct(signals) && i < |signals|
    ensures LevelOf(signals, signals[i].0) == Some(signals[i].1)
  {
    if i > 0 {
      assert signals[0].0 != signals[i].0;
      LevelAt(signals[1..], i - 1);
    }
  }

  lemma {:induction false} LevelSomewhere(signals: seq<(string, Level)>, name: string)
    ensures LevelOf(signals, name).Some? ==>
              exists i :: 0 <= i < |signals| && signals[i].0 == name && signals[i].1 == LevelOf(signals, name).value
  {
    if signals != [] {
      if signals[0].0 != name {
        LevelSomewhere(signals[1..], name);
        if LevelOf(signals, name).Some? {
          var i :| 0 <= i < |signals[1..]| && signals[1..][i].0 == name
                   && signals[1..][i].1 == LevelOf(signals, name).value;
          assert signals[i + 1].0 == name;
        }
      }
    }
  }

  lemma {:induction false} MergeNames(signals: seq<(string, Level)>, name: string, level: Level)
    requires Distinct(signals)
    ensures Distinct(Merge(signals, name, level))
    ensures forall s :: s in Merge(signals, name, level) ==> s.0 == name || s in signals
  {
    if signals != [] && signals[0].0 != name {
      var rest := Merge(signals[1..], name, level);
      MergeNames(signals[1..], name, level);
      var all := [signals[0]] + rest;
      forall i, j | 0 <= i < j < |all| ensures all[i].0 != all[j].0 {
        if i == 0 {
          assert rest[j - 1] in rest;
          assert rest[j - 1].0 == name || rest[j - 1] in signals[1..];
        }
      }
    }
  }

  lemma {:induction false} ParsedDistinct(lines: seq<string>)
    ensures Distinct(Parsed(lines).signals)
  {
    hide Classify;
    if lines != [] {
      var n := |lines| - 1;
      ParsedDistinct(lines[..n]);
      var r := Classify(lines[n]);
      if r.Signal? {
        MergeNames(Parsed(lines[..n]).signals, r.name, r.level);
      }
    }
  }

  lemma HasLevelIff(lines: seq<string>, level: Level)
    ensures HasLevel(Parsed(lines), level) <==> exists name :: Settled(Reported(lines, name)) == Some(level)
  {
    hide Classify, Parsed, Reported, Settled;
    var signals := Parsed(lines).signals;
    ParsedDistinct(lines);
    if HasLevel(Parsed(lines), level) {
      var i :| 0 <= i < |signals| && signals[i].1 == level;
      LevelAt(signals, i);
      LevelIsSettled(lines, signals[i].0);
    }
    if exists name :: Settled(Reported(lines, name)) == Some(level) {
      var name :| Settled(Reported(lines, name)) == Some(level);
      LevelIsSettled(lines, name);
      LevelSomewhere(signals, name);
    }
  }

  /** Reordering or repeating output lines changes no level and no verdict. */
  lemma OrderDoesNotMatter(a: seq<string>, b: seq<string>)
    requires SameLines(a, b)
    ensures forall name :: LevelOf(Parsed(a).signals, name) == LevelOf(Parsed(b).signals, name)
    ensures Summarise(Parsed(a)) == Summarise(Parsed(b))
  {
    hide Classify, Parsed, Reported, Settled, SameLines;
    forall name ensures Reported(a, name) == Reported(b, name)
                 && LevelOf(Parsed(a).signals, name) == LevelOf(Parsed(b).signals, name)
    {
      SameReports(a, b, name);
      LevelIsSettled(a, name);
      LevelIsSettled(b, name);
    }
    HasLevelIff(a, Asserted);
    HasLevelIff(b, Asserted);
    HasLevelIff(a, Unknown);
    HasLevelIff(b, Unknown);
    EmptyIff(Parsed(a).signals);
    EmptyIff(Parsed(b).signals);
  }

  lemma EmptyIff(signals: seq<(string, Level)>)
    ensures signals == [] <==> forall name :: LevelOf(signals, name).None?
  {
    if signals != [] {
      assert LevelOf(signals, signals[0].0).Some?;
    }
  }

  ghost predicate SignalAt(lines: seq<string>, i: int) {
    0 <= i < |lines| && Classify(lines[i]).Signal?
  }

  /** A normal boot is cleared exactly when some line was read and every one of them reads 0. */
  lemma ClearIff(lines: seq<string>)
    ensures AllReleased(Parsed(lines)) <==>
            && (exists i :: SignalAt(lines, i))
            && (forall i :: SignalAt(lines, i) ==> Classify(lines[i]).level == Released)
  {
    hide Classify, Parsed;
    var signals := Parsed(lines).signals;
    HasLevelIff(lines, Asserted);
    HasLevelIff(lines, Unknown);
    EmptyIff(signals);
    if exists i :: SignalAt(lines, i) {
      var i :| SignalAt(lines, i);
      var name := Classify(lines[i]).name;
      LevelIsSettled(lines, name);
      assert Classify(lines[i]).level in Reported(lines, name);
      assert LevelOf(signals, name).Some?;
    } else {
      forall i | 0 <= i < |lines| ensures !Classify(lines[i]).Signal? {
        assert !SignalAt(lines, i);
      }
      forall name ensures LevelOf(signals, name).None? {
        LevelIsSettled(lines, name);
        assert Reported(lines, name) == {};
      }
    }
    if AllReleased(Parsed(lines)) {
      forall i | SignalAt(lines, i) ensures Classify(lines[i]).level == Released {
        var name := Classify(lines[i]).name;
        assert Classify(lines[i]).level in Reported(lines, name);
        assert Settled(Reported(lines, name)) == Some(Released);
      }
    } else if forall i :: SignalAt(lines, i) ==> Classify(lines[i]).level == Released {
      forall name ensures Reported(lines, name) <= {Released} {
        forall level | level in Reported(lines, name) ensures level == Released {
          var i :| 0 <= i < |lines| && Classify(lines[i]).Signal? && Classify(lines[i]).name == name
                   && Classify(lines[i]).level == level;
          assert SignalAt(lines, i);
        }
      }
    }
  }

  /** Once a line has been reported as not released, no further output makes the read clear. */
  lemma NeverClearedByMore(lines: seq<string>, more: seq<string>, i: nat)
    requires SignalAt(lines, i) && Classify(lines[i]).level != Released
    ensures !AllReleased(Parsed(lines + more))
  {
    hide Classify, Parsed;
    ClearIff(lines + more);
    assert (lines + more)[i] == lines[i];
    assert SignalAt(lines + more, i);
  }

  // ------------------------------------------------------------------ modes

  ghost predicate Declares(lines: seq<string>, mode: string, held: string) {
    exists i :: 0 <= i < |lines| && Classify(lines[i]) == ModeLine(mode, held)
  }

  lemma {:induction false} ModesDeclared(lines: seq<string>)
    ensures forall mode, held :: (mode, held) in Parsed(lines).modes <==> Declares(lines, mode, held)
    ensures forall i, j :: 0 <= i < j < |Parsed(lines).modes| ==> Parsed(lines).modes[i] != Parsed(lines).modes[j]
  {
    hide Classify;
    if lines != [] {
      var n := |lines| - 1;
      ModesDeclared(lines[..n]);
      forall mode, held
        ensures Declares(lines, mode, held) <==>
                Declares(lines[..n], mode, held) || Classify(lines[n]) == ModeLine(mode, held)
      {
        if Declares(lines[..n], mode, held) {
          var i :| 0 <= i < n && Classify(lines[..n][i]) == ModeLine(mode, held);
          assert Classify(lines[i]) == ModeLine(mode, held);
        }
      }
    }
  }

  lemma {:induction false} LinesOfMember(modes: seq<(string, string)>, mode: string, held: string)
    ensures held in LinesOf(modes, mode) <==> (mode, held) in modes
  {
    if modes != [] {
      LinesOfMember(modes[1..], mode, held);
    }
  }

  lemma {:induction false} LinesOfDistinct(modes: seq<(string, string)>, mode: string)
    requires forall i, j :: 0 <= i < j < |modes| ==> modes[i] != modes[j]
    ensures forall i, j :: 0 <= i < j < |LinesOf(modes, mode)| ==> LinesOf(modes, mode)[i] != LinesOf(modes, mode)[j]
  {
    if modes != [] {
      LinesOfDistinct(modes[1..], mode);
      if modes[0].0 == mode {
        LinesOfMember(modes[1..], mode, modes[0].1);
        assert modes[0] !in modes[1..];
      }
    }
  }

  /** A mode reads the one line it was declared to hold; two declarations are no knowledge. */
  lemma ModeLevelIs(lines: seq<string>, mode: string)
    ensures var level := ModeLevel(Parsed(lines), mode);
            if !exists held :: Declares(lines, mode, held) then level == None
            else if exists a, b :: a != b && Declares(lines, mode, a) && Declares(lines, mode, b)
            then level == Some(Unknown)
            else forall held :: Declares(lines, mode, held) ==>
                   level == Some(match Settled(Reported(lines, held)) case None => Unknown case Some(l) => l)
  {
    hide Classify, Parsed, Settled, Reported, Declares;
    var o := Parsed(lines);
    var held := LinesOf(o.modes, mode);
    ModesDeclared(lines);
    LinesOfDistinct(o.modes, mode);
    forall h ensures h in held <==> Declares(lines, mode, h) {
      LinesOfMember(o.modes, mode, h);
    }
    if held != [] {
      assert held[0] in held;
      LevelIsSettled(lines, held[0]);
      if |held| > 1 {
        assert held[1] in held && held[0] != held[1];
      }
    }
  }

  /** So a mode's level, too, is blind to order and repetition. */
  lemma ModeOrderDoesNotMatter(a: seq<string>, b: seq<string>, mode: string)
    requires SameLines(a, b)
    ensures ModeLevel(Parsed(a), mode) == ModeLevel(Parsed(b), mode)
  {
    hide Classify, Parsed, Settled, Reported;
    forall held ensures Declares(a, mode, held) <==> Declares(b, mode, held) {
      if Declares(a, mode, held) {
        SubDeclares(a, b, mode, held);
      }
      if Declares(b, mode, held) {
        SubDeclares(b, a, mode, held);
      }
    }
    forall name ensures Reported(a, name) == Reported(b, name) {
      SameReports(a, b, name);
    }
    ModeLevelIs(a, mode);
    ModeLevelIs(b, mode);
    hide ModeLevel, Declares;
  }

  lemma SubDeclares(a: seq<string>, b: seq<string>, mode: string, held: string)
    requires (forall l :: l in a ==> l in b) && Declares(a, mode, held)
    ensures Declares(b, mode, held)
  {
    hide Classify;
    var i :| 0 <= i < |a| && Classify(a[i]) == ModeLine(mode, held);
    assert a[i] in b;
    var j :| 0 <= j < |b| && b[j] == a[i];
  }
}
