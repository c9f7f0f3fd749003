/**
 Reconciling the device registry with what is plugged in (`discovery.rs`): nothing is ever
 forgotten, presence is exact after every scan, and a second look changes nothing.

 The registry is a map from canonical name to row, and the order the rows were created in;
 `notes` stands for the nickname, tags and line settings an operator attaches to a row.
 */
module Discovery {
  import opened Options

  datatype Presence = Unset | Discovered | Gone | Ignored

  datatype Row = Row(state: Presence, ignored: bool, remote: bool, port: Option<nat>, lastSeen: int, notes: string)

  type Registry = map<string, Row>

  datatype Reconciled = Reconciled(
    added: seq<string>, returned: seq<string>, gone: seq<string>, ignored: seq<string>, steady: nat)

  const NOTHING := Reconciled([], [], [], [], 0)

  predicate Changed(r: Reconciled)
  {
    r.added != [] || r.returned != [] || r.gone != []
  }

  /** Include and exclude rules, first port to hand out, and the line settings of a new row. */
  datatype Rules = Rules(included: string -> bool, basePort: nat, defaults: string -> string)

  function Upsert(reg: Registry, name: string, now: int): Registry
  {
    if name in reg then reg[name := reg[name].(lastSeen := now)]
    else reg[name := Row(Unset, false, false, None, now, "")]
  }

  ghost function UsedPorts(reg: Registry): set<nat> {
    set n | n in reg && reg[n].port.Some? :: reg[n].port.value
  }

  function AtLeast(used: set<nat>, base: nat): set<nat>
  {
    set q | q in used && q >= base
  }

  /** The lowest port from `base` on that is not taken. */
  function LowestFree(used: set<nat>, base: nat): (p: nat)
    ensures p !in used && p >= base
    ensures forall q :: base <= q < p ==> q in used
    decreases |AtLeast(used, base)|
  {
    if base !in used then base
    else
      assert base in AtLeast(used, base) && base !in AtLeast(used, base + 1);
      SmallerSet(AtLeast(used, base + 1), AtLeast(used, base));
      LowestFree(used, base + 1)
  }

  lemma SmallerSet(a: set<nat>, b: set<nat>)
    requires a < b
    ensures |a| < |b|
  {
    assert b == a + (b - a);
    assert |b - a| > 0 by {
      var x :| x in b - a;
    }
  }

  ghost function AssignPort(reg: Registry, name: string, base: nat): Registry
    requires name in reg
  {
    if reg[name].port.Some? then reg
    else reg[name := reg[name].(port := Some(LowestFree(UsedPorts(reg), base)))]
  }

  /** One device found on this host. */
  ghost function Sight(rules: Rules, reg: Registry, name: string, now: int): Registry {
    var seen := Upsert(reg, name, now);
    if !rules.included(name) then seen[name := seen[name].(ignored := true, state := Ignored)]
    else
      var ported := AssignPort(seen[name := seen[name].(ignored := false)], name, rules.basePort);
      if name !in reg then ported[name := ported[name].(state := Discovered, notes := rules.defaults(name))]
      else if reg[name].state == Gone then ported[name := ported[name].(state := Discovered)]
      else ported
  }

  ghost function Tally(rules: Rules, reg: Registry, name: string, r: Reconciled): Reconciled {
    if !rules.included(name) then r.(ignored := r.ignored + [name])
    else if name !in reg then r.(added := r.added + [name])
    else if reg[name].state == Gone then r.(returned := r.returned + [name])
    else r.(steady := r.steady + 1)
  }

  /** Everything found, in order. */
  ghost function SightAll(rules: Rules, reg: Registry, found: seq<string>, now: int): Registry {
    if found == [] then reg
    else Sight(rules, SightAll(rules, reg, found[..|found| - 1], now), found[|found| - 1], now)
  }

  ghost function TallyAll(rules: Rules, reg: Registry, found: seq<string>, now: int): Reconciled {
    if found == [] then NOTHING
    else
      var n := |found| - 1;
      Tally(rules, SightAll(rules, reg, found[..n], now), found[n], TallyAll(rules, reg, found[..n], now))
  }

  /** A sibling store is an internal handle, never a cable. */
  predicate Sibling(name: string)
  {
    '#' in name
  }

  /** A local cable that is not on the bus. */
  predicate Absent(row: Row, found: seq<string>, name: string)
  {
    !row.remote && !Sibling(name) && name !in found
  }

  predicate Missing(reg: Registry, found: seq<string>, name: string)
  {
    name in reg && Absent(reg[name], found, name)
  }

  function Swept(reg: Registry, found: seq<string>): Registry
  {
    map n | n in reg :: if Missing(reg, found, n) then reg[n].(state := Gone) else reg[n]
  }

  /** The sweep when it has come past these rows. */
  ghost function SweptAmong(reg: Registry, found: seq<string>, names: seq<string>): Registry {
    map n | n in reg :: if n in names && Missing(reg, found, n) then reg[n].(state := Gone) else reg[n]
  }

  lemma SweptMore(reg: Registry, found: seq<string>, names: seq<string>, name: string)
    requires name in reg && name !in names
    ensures var mid := SweptAmong(reg, found, names);
            && mid[name] == reg[name]
            && SweptAmong(reg, found, names + [name])
               == if Missing(reg, found, name) && reg[name].state != Gone then mid[name := reg[name].(state := Gone)]
                  else mid
  {
    var mid, after := SweptAmong(reg, found, names), SweptAmong(reg, found, names + [name]);
    forall n | n in reg && n != name ensures after[n] == mid[n] {
      assert n in names + [name] <==> n in names;
    }
    assert name in names + [name];
  }

  lemma SweptKeys(reg: Registry, found: seq<string>, names: seq<string>)
    ensures SweptAmong(reg, found, names).Keys == reg.Keys
  {
  }

  lemma SweptNone(reg: Registry, found: seq<string>)
    ensures SweptAmong(reg, found, []) == reg
  {
  }

  lemma SweptAll(reg: Registry, found: seq<string>, order: seq<string>)
    requires Ordered(reg, order)
    ensures SweptAmong(reg, found, order) == Swept(reg, found)
  {
  }

  /** The cables that have just vanished, in row order. */
  function NewlyGone(reg: Registry, found: seq<string>, order: seq<string>): seq<string>
  {
    if order == [] then []
    else
      var name := order[|order| - 1];
      NewlyGone(reg, found, order[..|order| - 1])
      + if Missing(reg, found, name) && reg[name].state != Gone then [name] else []
  }

  /** New rows go to the end of the row order. */
  function Enlist(order: seq<string>, name: string): seq<string>
  {
    if name in order then order else order + [name]
  }

  function EnlistAll(order: seq<string>, found: seq<string>): seq<string>
  {
    if found == [] then order else Enlist(EnlistAll(order, found[..|found| - 1]), found[|found| - 1])
  }

  ghost predicate Once(names: seq<string>) {
    forall i, j :: 0 <= i < j < |names| ==> names[i] != names[j]
  }

  /** Every row stands in the row order, once. */
  ghost predicate Ordered(reg: Registry, order: seq<string>) {
    Once(order) && forall n :: n in reg <==> n in order
  }

  /** The registry after a pass. */
  ghost function Pass(rules: Rules, reg: Registry, found: seq<string>, now: int): Registry {
    Swept(SightAll(rules, reg, found, now), found)
  }

  /** What a pass reports. */
  ghost function Report(rules: Rules, reg: Registry, order: seq<string>, found: seq<string>, now: int): Reconciled {
    TallyAll(rules, reg, found, now).(
      gone := NewlyGone(SightAll(rules, reg, found, now), found, EnlistAll(order, found)))
  }

  class Store {
    var rows: Registry
    var order: seq<string>

    ghost predicate Valid()
      reads this
    {
      Ordered(rows, order)
    }

    constructor (rows: Registry, order: seq<string>)
      requires Ordered(rows, order)
      ensures Valid() && this.rows == rows && this.order == order
    {
      this.rows := rows;
      this.order := order;
    }

    method PortFor(name: string, base: nat)
      requires name in rows
      modifies this`rows
      ensures rows == AssignPort(old(rows), name, base)
    {
      if rows[name].port.Some? {
        return;
      }
      var used := set n | n in rows && rows[n].port.Some? :: rows[n].port.value;
      assert used == UsedPorts(rows);
      var port := base;
      while port in used
        invariant port >= base && LowestFree(used, port) == LowestFree(used, base)
        decreases LowestFree(used, base) - port
      {
        port := port + 1;
      }
      rows := rows[name := rows[name].(port := Some(port))];
    }

    /** One device found on this host. */
    method See(rules: Rules, name: string, now: int, r: Reconciled) returns (r': Reconciled)
      requires Valid()
      modifies this
      ensures Valid()
      ensures rows == Sight(rules, old(rows), name, now)
      ensures order == Enlist(old(order), name)
      ensures r' == Tally(rules, old(rows), name, r)
    {
      hide LowestFree, Once;
      OnceMore(order, name);
      var existed := if name in rows then Some(rows[name]) else None;
      rows := Upsert(rows, name, now);
      if existed.None? {
        order := order + [name];
      }
      if !rules.included(name) {
        rows := rows[name := rows[name].(ignored := true, state := Ignored)];
        return r.(ignored := r.ignored + [name]);
      }
      rows := rows[name := rows[name].(ignored := false)];
      PortFor(name, rules.basePort);
      if existed.None? {
        rows := rows[name := rows[name].(state := Discovered, notes := rules.defaults(name))];
        r' := r.(added := r.added + [name]);
      } else if existed.value.state == Gone {
        rows := rows[name := rows[name].(state := Discovered)];
        r' := r.(returned := r.returned + [name]);
      } else {
        r' := r.(steady := r.steady + 1);
      }
    }

    /** Mark every local cable the scan did not see. */
    method Sweep(found: seq<string>) returns (gone: seq<string>)
      requires Valid()
      modifies this`rows
      ensures Valid()
      ensures rows == Swept(old(rows), found)
      ensures gone == NewlyGone(old(rows), found, order)
    {
      hide Absent, SweptAmong, Swept;
      ghost var seen := rows;
      gone := [];
      SweptNone(seen, found);
      for i := 0 to |order|
        invariant rows == SweptAmong(seen, found, order[..i])
        invariant gone == NewlyGone(seen, found, order[..i])
      {
        var n := order[i];
        assert order[..i + 1] == order[..i] + [n] && order[..i + 1][..i] == order[..i];
        assert n in seen && n !in order[..i];
        SweptMore(seen, found, order[..i], n);
        SweptKeys(seen, found, order[..i]);
        if Absent(rows[n], found, n) && rows[n].state != Gone {
          rows := rows[n := rows[n].(state := Gone)];
          gone := gone + [n];
        }
      }
      assert order[..|order|] == order;
      SweptAll(seen, found, order);
      SweptKeys(seen, found, order);
    }

    /** After a scan: take in what was found, then mark what was not. */
    method Reconcile(rules: Rules, found: seq<string>, now: int) returns (r: Reconciled)
      requires Valid()
      modifies this
      ensures Valid()
      ensures rows == Pass(rules, old(rows), found, now)
      ensures order == EnlistAll(old(order), found)
      ensures r == Report(rules, old(rows), old(order), found, now)
    {
      hide Sight, Tally, Swept, NewlyGone, Ordered, Enlist;
      r := NOTHING;
      for i := 0 to |found|
        invariant Valid()
        invariant rows == SightAll(rules, old(rows), found[..i], now)
        invariant order == EnlistAll(old(order), found[..i])
        invariant r == TallyAll(rules, old(rows), found[..i], now)
      {
        assert found[..i + 1][..i] == found[..i];
        r := See(rules, found[i], now, r);
      }
      assert found[..|found|] == found;
      var gone := Sweep(found);
      r := r.(gone := gone);
    }
  }

  // ------------------------------------------------------------------ one pass

  /** Nothing an operator attached, and no port, is ever lost. */
  ghost predicate Survives(before: Registry, after: Registry) {
    forall n :: n in before ==>
      && n in after
      && after[n].remote == before[n].remote && after[n].notes == before[n].notes
      && (before[n].port.Some? ==> after[n].port == before[n].port)
  }

  ghost predicate PortsDistinct(reg: Registry) {
    forall m, n :: m in reg && n in reg && reg[m].port.Some? && reg[m].port == reg[n].port ==> m == n
  }

  /** What one sighting does to the row it names, and that it touches no other. */
  lemma SightRow(rules: Rules, reg: Registry, name: string, now: int)
    ensures var after := Sight(rules, reg, name, now);
            && after.Keys == reg.Keys + {name}
            && (forall n :: n in reg && n != name ==> after[n] == reg[n])
            && after[name].state != Gone
            && (name !in reg ==> !after[name].remote)
  {
  }

  lemma SightSurvives(rules: Rules, reg: Registry, name: string, now: int)
    ensures Survives(reg, Sight(rules, reg, name, now))
  {
    hide Sight;
    SightRow(rules, reg, name, now);
    if name in reg {
      SightedRow(rules, reg, name, now);
    }
  }

  lemma SightedRow(rules: Rules, reg: Registry, name: string, now: int)
    requires name in reg
    ensures var row := Sight(rules, reg, name, now)[name];
            && row.remote == reg[name].remote && row.notes == reg[name].notes
            && (reg[name].port.Some? ==> row.port == reg[name].port)
  {
    hide LowestFree;
  }

  lemma SightPorts(rules: Rules, reg: Registry, name: string, now: int)
    requires PortsDistinct(reg)
    ensures PortsDistinct(Sight(rules, reg, name, now))
  {
    hide Sight;
    SightRow(rules, reg, name, now);
    forall n | n in reg && n != name && reg[n].port.Some?
      ensures Sight(rules, reg, name, now)[name].port != reg[n].port
    {
      FreshPort(rules, reg, name, now, n);
    }
  }

  lemma FreshPort(rules: Rules, reg: Registry, name: string, now: int, other: string)
    requires PortsDistinct(reg) && other in reg && other != name && reg[other].port.Some?
    ensures name in Sight(rules, reg, name, now)
    ensures Sight(rules, reg, name, now)[name].port != reg[other].port
  {
    hide LowestFree;
    var seen := Upsert(reg, name, now);
    var cleared := seen[name := seen[name].(ignored := false)];
    assert cleared[other] == reg[other];
    assert reg[other].port.value in UsedPorts(cleared);
  }

  lemma SurvivesTransitive(a: Registry, b: Registry, c: Registry)
    requires Survives(a, b) && Survives(b, c)
    ensures Survives(a, c)
  {
  }

  lemma {:induction false} SightAllSurvives(rules: Rules, reg: Registry, found: seq<string>, now: int)
    ensures Survives(reg, SightAll(rules, reg, found, now))
    ensures PortsDistinct(reg) ==> PortsDistinct(SightAll(rules, reg, found, now))
  {
    if found != [] {
      hide Sight, PortsDistinct, Survives;
      var k := |found| - 1;
      var mid := SightAll(rules, reg, found[..k], now);
      SightAllSurvives(rules, reg, found[..k], now);
      SightSurvives(rules, mid, found[k], now);
      SurvivesTransitive(reg, mid, Sight(rules, mid, found[k], now));
      if PortsDistinct(reg) {
        SightPorts(rules, mid, found[k], now);
      }
    }
  }

  lemma {:induction false} SightAllRows(rules: Rules, reg: Registry, found: seq<string>, now: int)
    ensures var after := SightAll(rules, reg, found, now);
            && (forall n :: n in after <==> n in reg || n in found)
            && (forall n :: n in reg && n !in found ==> after[n] == reg[n])
            && (forall n :: n in found ==> after[n].state != Gone)
  {
    if found != [] {
      hide Sight;
      var k := |found| - 1;
      var front, name := found[..k], found[k];
      SightAllRows(rules, reg, front, now);
      assert forall n :: n in found <==> n in front || n == name;
      SightRow(rules, SightAll(rules, reg, front, now), name, now);
    }
  }

  /** Every local cable is marked gone exactly when this scan did not see it. */
  ghost predicate Exact(reg: Registry, found: seq<string>) {
    forall n :: n in reg && !reg[n].remote && '#' !in n ==> (reg[n].state == Gone <==> n !in found)
  }

  /** After any pass: no row lost, presence exact, peers untouched, ports still distinct. */
  lemma PassIsExact(rules: Rules, reg: Registry, found: seq<string>, now: int)
    ensures var after := Pass(rules, reg, found, now);
            && Survives(reg, after)
            && Exact(after, found)
            && (forall n :: n in reg && reg[n].remote && n !in found ==> after[n] == reg[n])
            && (forall n :: n in reg && '#' in n && n !in found ==> after[n] == reg[n])
            && (PortsDistinct(reg) ==> PortsDistinct(after))
  {
    hide SightAll;
    SightAllSurvives(rules, reg, found, now);
    SightAllRows(rules, reg, found, now);
  }

  lemma {:induction false} NewlyGoneIs(reg: Registry, found: seq<string>, order: seq<string>, name: string)
    ensures name in NewlyGone(reg, found, order) <==>
            name in order && Missing(reg, found, name) && reg[name].state != Gone
    ensures Once(order) ==> Once(NewlyGone(reg, found, order))
  {
    hide Missing, Once;
    if order == [] {
      NobodyOnce();
    } else {
      var k := |order| - 1;
      var front, last := order[..k], order[k];
      NewlyGoneIs(reg, found, front, name);
      NewlyGoneIs(reg, found, front, last);
      assert order == front + [last];
      if Once(order) {
        OnceBefore(order);
        OnceMore(NewlyGone(reg, found, front), last);
        assert NewlyGone(reg, found, front) + [] == NewlyGone(reg, found, front);
      }
    }
  }

  lemma NobodyOnce()
    ensures Once([])
  {
  }

  lemma OnceBefore(names: seq<string>)
    requires names != [] && Once(names)
    ensures Once(names[..|names| - 1]) && names[|names| - 1] !in names[..|names| - 1]
  {
  }

  lemma {:induction false} EnlistAllOrdered(rules: Rules, reg: Registry, order: seq<string>, found: seq<string>, now: int)
    requires Ordered(reg, order)
    ensures Ordered(SightAll(rules, reg, found, now), EnlistAll(order, found))
  {
    if found != [] {
      hide Sight, Once;
      var k := |found| - 1;
      EnlistAllOrdered(rules, reg, order, found[..k], now);
      SightRow(rules, SightAll(rules, reg, found[..k], now), found[k], now);
      OnceMore(EnlistAll(order, found[..k]), found[k]);
    }
  }

  lemma OnceMore(names: seq<string>, name: string)
    requires Once(names)
    ensures Once(Enlist(names, name))
  {
  }

  /** What is reported gone is exactly what vanished since the last pass, each device once. */
  lemma GoneIsWhatVanished(rules: Rules, reg: Registry, order: seq<string>, found: seq<string>, now: int, name: string)
    requires Ordered(reg, order)
    ensures var gone := Report(rules, reg, order, found, now).gone;
            && Once(gone)
            && (name in gone <==>
                  name in reg && !reg[name].remote && '#' !in name && name !in found && reg[name].state != Gone)
  {
    hide SightAll, TallyAll, Once, EnlistAll, NewlyGone;
    SightAllSurvives(rules, reg, found, now);
    SightAllRows(rules, reg, found, now);
    EnlistAllOrdered(rules, reg, order, found, now);
    NewlyGoneIs(SightAll(rules, reg, found, now), found, EnlistAll(order, found), name);
  }

  /** The presence a scan leaves behind for a device it saw. */
  ghost function Seen(rules: Rules, reg: Registry, name: string): Presence {
    if !rules.included(name) then Ignored
    else if name !in reg || reg[name].state == Gone then Discovered
    else reg[name].state
  }

  lemma SightState(rules: Rules, reg: Registry, name: string, now: int)
    ensures Sight(rules, reg, name, now)[name].state == Seen(rules, reg, name)
  {
    hide LowestFree;
  }

  lemma {:induction false} SightAllState(rules: Rules, reg: Registry, found: seq<string>, now: int, name: string)
    requires name in found
    ensures name in SightAll(rules, reg, found, now)
    ensures SightAll(rules, reg, found, now)[name].state == Seen(rules, reg, name)
  {
    hide Sight;
    var k := |found| - 1;
    var front := found[..k];
    var mid := SightAll(rules, reg, front, now);
    SightAllRows(rules, reg, front, now);
    SightRow(rules, mid, found[k], now);
    if name in front {
      SightAllState(rules, reg, front, now, name);
    }
    SightState(rules, mid, found[k], now);
  }

  /** Which list of the report a device belongs on, judged by the registry before the scan. */
  ghost predicate Listed(rules: Rules, reg: Registry, found: seq<string>, r: Reconciled, name: string) {
    && (name in r.added <==> name in found && rules.included(name) && name !in reg)
    && (name in r.returned <==> name in found && rules.included(name) && name in reg && reg[name].state == Gone)
    && (name in r.ignored <==> name in found && !rules.included(name))
  }

  /** One more sighting, with the registry as the sightings before it left it. */
  lemma ListedMore(rules: Rules, reg: Registry, mid: Registry, front: seq<string>, r: Reconciled, last: string, name: string)
    requires Listed(rules, reg, front, r, name)
    requires last in mid <==> last in reg || last in front
    requires last in reg && last !in front ==> mid[last] == reg[last]
    requires last in front ==> mid[last].state != Gone
    ensures var r' := Tally(rules, mid, last, r);
            && Listed(rules, reg, front + [last], r', name)
            && |r'.added| + |r'.returned| + |r'.ignored| + r'.steady
               == |r.added| + |r.returned| + |r.ignored| + r.steady + 1
  {
    assert name in front + [last] <==> name in front || name == last;
  }

  lemma {:induction false} TallyIsExact(rules: Rules, reg: Registry, found: seq<string>, now: int, name: string)
    ensures var r := TallyAll(rules, reg, found, now);
            && Listed(rules, reg, found, r, name)
            && |r.added| + |r.returned| + |r.ignored| + r.steady == |found|
  {
    if found != [] {
      hide SightAll, Listed, Tally;
      var k := |found| - 1;
      var front, last := found[..k], found[k];
      TallyIsExact(rules, reg, front, now, name);
      assert front + [last] == found;
      SightAllRows(rules, reg, front, now);
      ListedMore(rules, reg, SightAll(rules, reg, front, now), front, TallyAll(rules, reg, front, now), last, name);
    }
  }

  /** The report lists devices by what was known of them before the scan, and counts every sighting. */
  lemma ReportIsExact(rules: Rules, reg: Registry, order: seq<string>, found: seq<string>, now: int, name: string)
    ensures var r := Report(rules, reg, order, found, now);
            && Listed(rules, reg, found, r, name)
            && |r.added| + |r.returned| + |r.ignored| + r.steady == |found|
  {
    hide SightAll, TallyAll, NewlyGone, Swept;
    TallyIsExact(rules, reg, found, now, name);
  }

  /** After a pass a device that was seen is back, newly found, excluded, or as it was. */
  lemma SeenState(rules: Rules, reg: Registry, found: seq<string>, now: int, name: string)
    requires name in found
    ensures var after := Pass(rules, reg, found, now);
            name in after && after[name].state == Seen(rules, reg, name)
  {
    hide SightAll, TallyAll;
    SightAllState(rules, reg, found, now, name);
  }

  /** What a scan gives a device it saw: the time, the port and the settings it needs. */
  ghost predicate Equipped(rules: Rules, reg: Registry, row: Row, name: string, now: int) {
    && row.lastSeen == now
    && row.ignored == !rules.included(name)
    && (if name in reg then row.notes == reg[name].notes && row.remote == reg[name].remote
        else row.notes == (if rules.included(name) then rules.defaults(name) else "") && !row.remote)
    && (if name in reg && reg[name].port.Some? then row.port == reg[name].port
        else if !rules.included(name) then row.port == None
        else row.port.Some? && row.port.value >= rules.basePort && row.port.value !in UsedPorts(reg))
  }

  lemma SightEquips(rules: Rules, reg: Registry, name: string, now: int)
    ensures Equipped(rules, reg, Sight(rules, reg, name, now)[name], name, now)
  {
    var seen := Upsert(reg, name, now);
    var cleared := seen[name := seen[name].(ignored := false)];
    forall n | n in reg && reg[n].port.Some? ensures reg[n].port.value in UsedPorts(cleared) {
      assert n in cleared && cleared[n].port == reg[n].port;
    }
    hide LowestFree;
  }

  /** Ports once handed out stay taken through a scan. */
  lemma PortsGrow(reg: Registry, after: Registry)
    requires Survives(reg, after)
    ensures UsedPorts(reg) <= UsedPorts(after)
  {
    forall q | q in UsedPorts(reg) ensures q in UsedPorts(after) {
      var n :| n in reg && reg[n].port.Some? && reg[n].port.value == q;
      assert n in after && after[n].port == reg[n].port;
    }
  }

  lemma {:induction false} SightAllEquips(rules: Rules, reg: Registry, found: seq<string>, now: int, name: string)
    requires name in found
    ensures name in SightAll(rules, reg, found, now)
    ensures Equipped(rules, reg, SightAll(rules, reg, found, now)[name], name, now)
  {
    hide Sight, Equipped, UsedPorts, Survives;
    var k := |found| - 1;
    var front, last := found[..k], found[k];
    var mid := SightAll(rules, reg, front, now);
    SightAllRows(rules, reg, front, now);
    SightAllSurvives(rules, reg, front, now);
    PortsGrow(reg, mid);
    SightRow(rules, mid, last, now);
    SightEquips(rules, mid, last, now);
    if last != name {
      SightAllEquips(rules, reg, front, now, name);
    } else {
      if name in front {
        SightAllEquips(rules, reg, front, now, name);
      }
      EquippedAgain(rules, reg, mid, Sight(rules, mid, name, now)[name], name, now, name in front);
    }
  }

  lemma EquippedAgain(rules: Rules, reg: Registry, mid: Registry, row: Row, name: string, now: int, again: bool)
    requires Equipped(rules, mid, row, name, now) && UsedPorts(reg) <= UsedPorts(mid)
    requires if again then name in mid && Equipped(rules, reg, mid[name], name, now)
             else (name in mid <==> name in reg) && (name in reg ==> mid[name] == reg[name])
    ensures Equipped(rules, reg, row, name, now)
  {
    hide UsedPorts;
  }

  /**
   After a pass every device seen bears the time and is ignored exactly if excluded. A new one gets
   the default settings if it is included; a row without a port gets one, from the base port on and
   nobody's before, unless excluded; a known row keeps its settings and its port.
   */
  lemma SeenIsEquipped(rules: Rules, reg: Registry, found: seq<string>, now: int, name: string)
    requires name in found
    ensures var after := Pass(rules, reg, found, now);
            name in after && Equipped(rules, reg, after[name], name, now)
  {
    hide SightAll, Equipped;
    SightAllEquips(rules, reg, found, now, name);
  }

  /** A device that is new here, back, or just gone. */
  ghost predicate News(rules: Rules, reg: Registry, found: seq<string>, name: string) {
    || (name in found && rules.included(name) && (name !in reg || reg[name].state == Gone))
    || (name in reg && !reg[name].remote && '#' !in name && name !in found && reg[name].state != Gone)
  }

  /** A pass reports a change exactly when some device is news. */
  lemma ChangedIff(rules: Rules, reg: Registry, order: seq<string>, found: seq<string>, now: int)
    requires Ordered(reg, order)
    ensures Changed(Report(rules, reg, order, found, now)) <==> exists name :: News(rules, reg, found, name)
  {
    hide Report, Ordered, Once;
    var r := Report(rules, reg, order, found, now);
    forall name ensures name in r.added || name in r.returned || name in r.gone <==> News(rules, reg, found, name) {
      ReportIsExact(rules, reg, order, found, now, name);
      GoneIsWhatVanished(rules, reg, order, found, now, name);
    }
    if Changed(r) {
      var name := if r.added != [] then r.added[0] else if r.returned != [] then r.returned[0] else r.gone[0];
      assert name in r.added || name in r.returned || name in r.gone;
    }
  }

  // ------------------------------------------------------------------ many passes

  datatype Scan = Scan(found: seq<string>, now: int)

  ghost function Passes(rules: Rules, reg: Registry, scans: seq<Scan>): Registry {
    if scans == [] then reg
    else
      var n := |scans| - 1;
      Pass(rules, Passes(rules, reg, scans[..n]), scans[n].found, scans[n].now)
  }

  /** Over any sequence of scans every row, its notes and its port survive, and ports never clash. */
  lemma {:induction false} NothingIsForgotten(rules: Rules, reg: Registry, scans: seq<Scan>)
    ensures var after := Passes(rules, reg, scans);
            && Survives(reg, after)
            && (PortsDistinct(reg) ==> PortsDistinct(after))
            && (scans != [] ==> Exact(after, scans[|scans| - 1].found))
  {
    if scans != [] {
      var n := |scans| - 1;
      NothingIsForgotten(rules, reg, scans[..n]);
      var mid := Passes(rules, reg, scans[..n]);
      hide Pass, Exact, PortsDistinct, Survives;
      PassIsExact(rules, mid, scans[n].found, scans[n].now);
      SurvivesTransitive(reg, mid, Pass(rules, mid, scans[n].found, scans[n].now));
    }
  }

  // ------------------------------------------------------------------ a second look

  /** What a pass leaves behind for a device it saw. */
  ghost predicate SettledRow(rules: Rules, row: Row, name: string) {
    if rules.included(name) then !row.ignored && row.port.Some? && row.state != Gone
    else row.ignored && row.state == Ignored
  }

  lemma SightSettles(rules: Rules, reg: Registry, name: string, now: int)
    ensures SettledRow(rules, Sight(rules, reg, name, now)[name], name)
  {
  }

  /** A settled device seen again is only stamped with the new time. */
  lemma SettledSight(rules: Rules, reg: Registry, name: string, now: int, r: Reconciled)
    requires name in reg && SettledRow(rules, reg[name], name)
    ensures Sight(rules, reg, name, now) == reg[name := reg[name].(lastSeen := now)]
    ensures Changed(Tally(rules, reg, name, r)) == Changed(r)
  {
    hide LowestFree;
    var after := Sight(rules, reg, name, now);
    assert after[name] == reg[name].(lastSeen := now);
  }

  lemma {:induction false} SightAllSettles(rules: Rules, reg: Registry, found: seq<string>, now: int)
    ensures forall n :: n in found ==>
              var after := SightAll(rules, reg, found, now); n in after && SettledRow(rules, after[n], n)
  {
    if found != [] {
      var k := |found| - 1;
      var front, name := found[..k], found[k];
      SightAllSettles(rules, reg, front, now);
      var mid := SightAll(rules, reg, front, now);
      SightSettles(rules, mid, name, now);
      SightRow(rules, mid, name, now);
      hide Sight, SettledRow;
      assert forall n :: n in found ==> n in front || n == name;
    }
  }

  /** The rows seen, stamped with a time. */
  ghost function Stamped(reg: Registry, found: seq<string>, now: int): Registry {
    map n | n in reg :: if n in found then reg[n].(lastSeen := now) else reg[n]
  }

  lemma {:induction false} SettledSightAll(rules: Rules, reg: Registry, found: seq<string>, now: int)
    requires forall n :: n in found ==> n in reg && SettledRow(rules, reg[n], n)
    ensures SightAll(rules, reg, found, now) == Stamped(reg, found, now)
    ensures !Changed(TallyAll(rules, reg, found, now))
  {
    if found == [] {
      assert Stamped(reg, [], now) == reg;
    } else {
      var k := |found| - 1;
      var front, name := found[..k], found[k];
      assert forall n :: n in found <==> n in front || n == name;
      SettledSightAll(rules, reg, front, now);
      var mid := Stamped(reg, front, now);
      SettledSight(rules, mid, name, now, TallyAll(rules, reg, front, now));
      hide Sight, Tally;
      assert mid[name := mid[name].(lastSeen := now)] == Stamped(reg, found, now);
    }
  }

  /**
   A second pass over the same scan, at any later or earlier reading of the clock, reports no
   change, and only stamps the devices seen with the new time.
   */
  lemma SecondLookChangesNothing(rules: Rules, reg: Registry, order: seq<string>, found: seq<string>, now: int, later: int)
    ensures var after := Pass(rules, reg, found, now);
            var again := Pass(rules, after, found, later);
            && !Changed(Report(rules, after, order, found, later))
            && again.Keys == after.Keys
            && forall n :: n in after ==> again[n] == if n in found then after[n].(lastSeen := later) else after[n]
  {
    var seen := SightAll(rules, reg, found, now);
    var after := Swept(seen, found);
    SightAllSettles(rules, reg, found, now);
    hide SettledRow;
    SettledSightAll(rules, after, found, later);
    hide SightAll, TallyAll, EnlistAll, NewlyGone;
    var stamped := Stamped(after, found, later);
    var gone := NewlyGone(stamped, found, EnlistAll(order, found));
    if gone != [] {
      NewlyGoneIs(stamped, found, EnlistAll(order, found), gone[0]);
    }
    assert Swept(stamped, found) == stamped;
  }
}
