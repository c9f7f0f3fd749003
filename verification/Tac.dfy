/**
 Driving a board's straps and power (`tac.rs`): the pin sequences of each action, the shadow
 register they update, and why clearing always undoes an interrupted action.
 */
module Tac {
  import opened Options

  /** One pin: which port, and which bit of it. A pin number of eight or more wraps, as the shift in `mask` does. */
  datatype PinRef = PinRef(bus: char, bit: nat) {
    function Line(): (n: nat)
      ensures n < 8
    {
      bit % 8
    }

    predicate Drives(bus: char, line: nat) {
      this.bus == bus && Line() == line
    }
  }

  /** The levels of one eight-bit port. */
  type Port = p: seq<bool> | |p| == 8 witness [false, false, false, false, false, false, false, false]

  datatype Action = On | Off | Cycle | Edl | SailEdl | Uefi | Fastboot | ClearAll

  datatype Step = Set(name: string, value: bool) | Delay(ms: nat)

  type Profile = map<string, PinRef>

  const STRAPS := ["sw_dnld", "ss_force_edl", "uefi", "usb2", "kpd_pwr"]

  /** Pins the action cannot do without. */
  function Needed(action: Action): seq<string>
  {
    match action
    case On => ["pwr_off"]
    case Off => ["pwr_off"]
    case Cycle => ["pwr_off"]
    case Edl => ["pwr_off", "sw_dnld", "ss_force_edl"]
    case SailEdl => ["pwr_off", "ss_force_edl"]
    case Uefi => ["pwr_off", "uefi", "kpd_pwr"]
    case Fastboot => ["pwr_off", "usb2"]
    case ClearAll => []
  }

  /** Every strap the profile has, low; power untouched. */
  function ClearSteps(profile: Profile, names: seq<string>): seq<Step>
  {
    if names == [] then []
    else (if names[0] in profile then [Set(names[0], false)] else []) + ClearSteps(profile, names[1..])
  }

  function StepsOf(profile: Profile, action: Action, settle: nat): seq<Step>
  {
    match action
    case On => [Set("pwr_off", false)]
    case Off => [Set("pwr_off", true)]
    case Cycle => [Set("pwr_off", true), Delay(settle), Set("pwr_off", false)]
    case Edl =>
      [Set("pwr_off", true), Set("sw_dnld", true), Set("ss_force_edl", true), Delay(settle),
       Set("pwr_off", false), Delay(5000), Set("sw_dnld", false), Set("ss_force_edl", false)]
    case SailEdl =>
      [Set("pwr_off", true), Set("ss_force_edl", true), Delay(settle), Set("pwr_off", false),
       Delay(5000), Set("ss_force_edl", false)]
    case Uefi =>
      [Set("pwr_off", true), Delay(settle), Set("pwr_off", false), Set("kpd_pwr", false), Set("uefi", true),
       Set("kpd_pwr", true), Delay(8000), Set("kpd_pwr", false), Set("uefi", false)]
    case Fastboot =>
      [Set("pwr_off", true), Delay(settle), Set("usb2", true), Delay(500), Set("pwr_off", false),
       Delay(8000), Set("usb2", false)]
    case ClearAll => ClearSteps(profile, STRAPS)
  }

  /** The sequence of an action, or nothing if the board lacks a pin for it. */
  function Sequence(profile: Profile, action: Action, settle: nat): Option<seq<Step>>
  {
    if forall i :: 0 <= i < |Needed(action)| ==> Needed(action)[i] in profile
    then Some(StepsOf(profile, action, settle))
    else None
  }

  type Ports = map<char, Port>

  /** Set or clear one bit of the shadow register and write it out. */
  function Write(ports: Ports, pin: PinRef, value: bool): Ports
    requires pin.bus in ports
  {
    ports[pin.bus := ports[pin.bus][pin.Line() := value]]
  }

  /** The board has this pin and its port is open. */
  predicate Drivable(profile: Profile, ports: Ports, name: string)
  {
    name in profile && profile[name].bus in ports
  }

  /** The pins after a run of steps; a pin that cannot be driven stops the run. */
  function Run(profile: Profile, ports: Ports, steps: seq<Step>): (after: Ports)
    ensures after.Keys == ports.Keys
  {
    if steps == [] then ports
    else
      match steps[0]
      case Delay(_) => Run(profile, ports, steps[1..])
      case Set(name, value) =>
        if !Drivable(profile, ports, name) then ports
        else Run(profile, Write(ports, profile[name], value), steps[1..])
  }

  class Controller {
    const profile: Profile
    var ports: Ports

    constructor (profile: Profile, ports: Ports)
      ensures this.profile == profile && this.ports == ports
    {
      this.profile := profile;
      this.ports := ports;
    }

    method SetPin(name: string, value: bool) returns (ok: bool)
      modifies this
      ensures ok == Drivable(profile, old(ports), name)
      ensures ports == if ok then Write(old(ports), profile[name], value) else old(ports)
    {
      if name !in profile || profile[name].bus !in ports {
        return false;
      }
      var pin := profile[name];
      ports := ports[pin.bus := ports[pin.bus][pin.Line() := value]];
      ok := true;
    }

    method RunSequence(steps: seq<Step>) returns (ok: bool)
      modifies this
      ensures ports == Run(profile, old(ports), steps)
      ensures ok <==> Known(profile, old(ports), steps)
    {
      for i := 0 to |steps|
        invariant ports.Keys == old(ports).Keys
        invariant Run(profile, ports, steps[i..]) == Run(profile, old(ports), steps)
        invariant forall j :: 0 <= j < i && steps[j].Set? ==> Drivable(profile, old(ports), steps[j].name)
      {
        assert steps[i..][0] == steps[i] && steps[i..][1..] == steps[i + 1..];
        if steps[i].Set? {
          var done := SetPin(steps[i].name, steps[i].value);
          if !done {
            return false;
          }
        }
      }
      ok := true;
    }
  }

  // ------------------------------------------------------------------ levels after a run

  function LevelAt(ports: Ports, bus: char, bit: nat): bool
    requires bus in ports && bit < 8
  {
    ports[bus][bit]
  }

  /** The last value a run of steps gives a pin. */
  function LastSet(steps: seq<Step>, name: string): Option<bool>
  {
    if steps == [] then None
    else
      var later := LastSet(steps[1..], name);
      if later.Some? then later
      else if steps[0].Set? && steps[0].name == name then Some(steps[0].value) else None
  }

  /** Every pin the steps name can be driven. */
  ghost predicate Known(profile: Profile, ports: Ports, steps: seq<Step>) {
    forall i :: 0 <= i < |steps| && steps[i].Set? ==> Drivable(profile, ports, steps[i].name)
  }

  /** Every pin of the board sits on an open port. */
  ghost predicate Wired(profile: Profile, ports: Ports) {
    forall n :: n in profile ==> profile[n].bus in ports
  }

  ghost predicate Distinct(profile: Profile) {
    forall m, n :: m in profile && n in profile && profile[m].Drives(profile[n].bus, profile[n].Line()) ==> m == n
  }

  /** A pin reads what it was last set to, and otherwise what it read before. */
  lemma {:induction false} PinAfter(profile: Profile, ports: Ports, steps: seq<Step>, name: string)
    requires Wired(profile, ports) && Distinct(profile) && Known(profile, ports, steps) && name in profile
    ensures var pin := profile[name];
            LevelAt(Run(profile, ports, steps), pin.bus, pin.Line())
            == match LastSet(steps, name)
               case Some(v) => v
               case None => LevelAt(ports, pin.bus, pin.Line())
  {
    if steps != [] {
      match steps[0]
      case Delay(_) =>
        PinAfter(profile, ports, steps[1..], name);
      case Set(other, value) =>
        assert Drivable(profile, ports, other);
        PinAfter(profile, Write(ports, profile[other], value), steps[1..], name);
        if other != name {
          assert !profile[other].Drives(profile[name].bus, profile[name].Line());
        }
    }
  }

  /** A bit no step names keeps its level. */
  lemma {:induction false} BitUntouched(profile: Profile, ports: Ports, steps: seq<Step>, bus: char, bit: nat)
    requires Wired(profile, ports) && Known(profile, ports, steps) && bus in ports && bit < 8
    requires forall i :: 0 <= i < |steps| && steps[i].Set? ==> !profile[steps[i].name].Drives(bus, bit)
    ensures LevelAt(Run(profile, ports, steps), bus, bit) == LevelAt(ports, bus, bit)
  {
    if steps != [] {
      match steps[0]
      case Delay(_) =>
        BitUntouched(profile, ports, steps[1..], bus, bit);
      case Set(name, value) =>
        assert Drivable(profile, ports, name) && !profile[name].Drives(bus, bit);
        BitUntouched(profile, Write(ports, profile[name], value), steps[1..], bus, bit);
    }
  }

  ghost predicate Handled(name: string) {
    name == "pwr_off" || name in STRAPS
  }

  ghost predicate OnlyHandled(steps: seq<Step>) {
    forall i :: 0 <= i < |steps| && steps[i].Set? ==> Handled(steps[i].name)
  }

  lemma {:induction false} ClearStepsAre(profile: Profile, names: seq<string>)
    ensures forall i :: 0 <= i < |ClearSteps(profile, names)| ==>
              var s := ClearSteps(profile, names)[i]; s.Set? && s.name in names && s.name in profile && !s.value
  {
    if names != [] {
      ClearStepsAre(profile, names[1..]);
    }
  }

  lemma {:induction false} ClearSetsLow(profile: Profile, names: seq<string>, name: string)
    ensures LastSet(ClearSteps(profile, names), name)
         == if name in names && name in profile then Some(false) else None
  {
    if names != [] {
      ClearSetsLow(profile, names[1..], name);
      var rest := ClearSteps(profile, names[1..]);
      if names[0] in profile {
        assert ([Set(names[0], false)] + rest)[1..] == rest;
      } else {
        assert [] + rest == rest;
      }
    }
  }

  /** Every action only drives power and the straps, and only pins the board has. */
  lemma SequenceIsKnown(profile: Profile, ports: Ports, action: Action, settle: nat)
    requires Wired(profile, ports) && Sequence(profile, action, settle).Some?
    ensures var steps := Sequence(profile, action, settle).value;
            Known(profile, ports, steps) && OnlyHandled(steps)
  {
    StrapNames();
    if action == ClearAll {
      ClearStepsAre(profile, STRAPS);
    } else {
      var needed := Needed(action);
      assert forall i :: 0 <= i < |needed| ==> needed[i] in profile;
      NeededCovers(profile, action, settle);
    }
  }

  lemma StrapNames()
    ensures "sw_dnld" in STRAPS && "ss_force_edl" in STRAPS && "uefi" in STRAPS
    ensures "usb2" in STRAPS && "kpd_pwr" in STRAPS && "pwr_off" !in STRAPS
  {
    assert STRAPS[0] == "sw_dnld" && STRAPS[1] == "ss_force_edl" && STRAPS[2] == "uefi";
    assert STRAPS[3] == "usb2" && STRAPS[4] == "kpd_pwr";
    assert |"pwr_off"| == 7 && |"sw_dnld"| == 7 && |"kpd_pwr"| == 7;
    assert "pwr_off"[0] != "sw_dnld"[0] && "pwr_off"[0] != "kpd_pwr"[0];
  }

  lemma NeededCovers(profile: Profile, action: Action, settle: nat)
    requires action != ClearAll
    ensures forall i :: 0 <= i < |StepsOf(profile, action, settle)| && StepsOf(profile, action, settle)[i].Set? ==>
              StepsOf(profile, action, settle)[i].name in Needed(action)
    ensures forall i :: 0 <= i < |Needed(action)| ==> Handled(Needed(action)[i])
  {
    StrapNames();
    hide STRAPS;
    var needed := Needed(action);
    if |needed| > 1 {
      assert needed[1] in needed;
    }
    if |needed| > 2 {
      assert needed[2] in needed;
    }
    assert needed[0] in needed;
  }

  lemma KnownPrefix(profile: Profile, ports: Ports, steps: seq<Step>, k: nat)
    requires k <= |steps| && Known(profile, ports, steps) && OnlyHandled(steps)
    ensures Known(profile, ports, steps[..k]) && OnlyHandled(steps[..k])
  {
  }

  /**
   Whatever action was interrupted, and wherever: clearing leaves every strap low, power as the
   interruption left it, and every other bit of every port as it was at the start.
   */
  lemma ClearRecovers(profile: Profile, ports: Ports, action: Action, settle: nat, k: nat)
    requires Wired(profile, ports) && Distinct(profile)
    requires Sequence(profile, action, settle).Some? && k <= |Sequence(profile, action, settle).value|
    ensures var cut := Run(profile, ports, Sequence(profile, action, settle).value[..k]);
            Wired(profile, cut)
    ensures var cut := Run(profile, ports, Sequence(profile, action, settle).value[..k]);
            var after := Run(profile, cut, ClearSteps(profile, STRAPS));
            && (forall s :: s in STRAPS && s in profile ==> !LevelAt(after, profile[s].bus, profile[s].Line()))
            && ("pwr_off" in profile ==>
                  var p := profile["pwr_off"]; LevelAt(after, p.bus, p.Line()) == LevelAt(cut, p.bus, p.Line()))
            && (forall bus, bit: nat :: bus in ports && bit < 8
                  && (forall n :: n in profile && Handled(n) ==> !profile[n].Drives(bus, bit))
                  ==> LevelAt(after, bus, bit) == LevelAt(ports, bus, bit))
  {
    hide StepsOf, ClearSteps, Run, Handled, STRAPS;
    var steps := Sequence(profile, action, settle).value;
    var clear := ClearSteps(profile, STRAPS);
    SequenceIsKnown(profile, ports, action, settle);
    KnownPrefix(profile, ports, steps, k);
    var cut := Run(profile, ports, steps[..k]);
    SequenceIsKnown(profile, cut, ClearAll, settle);
    assert Sequence(profile, ClearAll, settle) == Some(clear) by { ClearSequence(profile, settle); }
    StrapNames();
    forall s | s in STRAPS && s in profile
      ensures !LevelAt(Run(profile, cut, clear), profile[s].bus, profile[s].Line())
    {
      ClearSetsLow(profile, STRAPS, s);
      PinAfter(profile, cut, clear, s);
    }
    if "pwr_off" in profile {
      ClearSetsLow(profile, STRAPS, "pwr_off");
      PinAfter(profile, cut, clear, "pwr_off");
    }
    forall bus, bit: nat | bus in ports && bit < 8
      && (forall n :: n in profile && Handled(n) ==> !profile[n].Drives(bus, bit))
      ensures LevelAt(Run(profile, cut, clear), bus, bit) == LevelAt(ports, bus, bit)
    {
      BitUntouched(profile, ports, steps[..k], bus, bit);
      BitUntouched(profile, cut, clear, bus, bit);
    }
  }

  lemma ClearSequence(profile: Profile, settle: nat)
    ensures Sequence(profile, ClearAll, settle) == Some(ClearSteps(profile, STRAPS))
  {
  }

  /** Straps an action raises. */
  function Own(action: Action): seq<string>
  {
    match action
    case Edl => ["sw_dnld", "ss_force_edl"]
    case SailEdl => ["ss_force_edl"]
    case Uefi => ["uefi", "kpd_pwr"]
    case Fastboot => ["usb2"]
    case _ => []
  }

  lemma LastSetAt(steps: seq<Step>, i: nat)
    requires i < |steps| && steps[i].Set?
    requires forall j :: i < j < |steps| && steps[j].Set? ==> steps[j].name != steps[i].name
    ensures LastSet(steps, steps[i].name) == Some(steps[i].value)
  {
    if i > 0 {
      assert steps[1..][i - 1] == steps[i];
      LastSetAt(steps[1..], i - 1);
    } else {
      LastSetNone(steps[1..], steps[0].name);
    }
  }

  lemma {:induction false} LastSetNone(steps: seq<Step>, name: string)
    requires forall j :: 0 <= j < |steps| && steps[j].Set? ==> steps[j].name != name
    ensures LastSet(steps, name) == None
  {
    if steps != [] {
      LastSetNone(steps[1..], name);
    }
  }

  /** Left alone, a cycle or a boot mode ends with power on and its own straps released. */
  lemma CompletedActionReleases(profile: Profile, ports: Ports, action: Action, settle: nat)
    requires Wired(profile, ports) && Distinct(profile)
    requires action in {Cycle, Edl, SailEdl, Uefi, Fastboot} && Sequence(profile, action, settle).Some?
    ensures var after := Run(profile, ports, Sequence(profile, action, settle).value);
            && "pwr_off" in profile
            && !LevelAt(after, profile["pwr_off"].bus, profile["pwr_off"].Line())
            && forall s :: s in Own(action) ==>
                 s in profile && !LevelAt(after, profile[s].bus, profile[s].Line())
  {
    var steps := StepsOf(profile, action, settle);
    SequenceIsKnown(profile, ports, action, settle);
    EndsReleased(profile, action, settle);
    hide StepsOf, Run;
    forall s | s == "pwr_off" || s in Own(action)
      ensures s in profile && !LevelAt(Run(profile, ports, steps), profile[s].bus, profile[s].Line())
    {
      assert LastSet(steps, s) == Some(false);
      LastSetNames(steps, s);
      PinAfter(profile, ports, steps, s);
    }
  }

  lemma {:induction false} LastSetNames(steps: seq<Step>, name: string)
    requires LastSet(steps, name).Some?
    ensures exists i :: 0 <= i < |steps| && steps[i].Set? && steps[i].name == name
  {
    if LastSet(steps[1..], name).Some? {
      LastSetNames(steps[1..], name);
      var i :| 0 <= i < |steps[1..]| && steps[1..][i].Set? && steps[1..][i].name == name;
      assert steps[i + 1].Set? && steps[i + 1].name == name;
    }
  }

  lemma EndsReleased(profile: Profile, action: Action, settle: nat)
    requires action in {Cycle, Edl, SailEdl, Uefi, Fastboot}
    ensures LastSet(StepsOf(profile, action, settle), "pwr_off") == Some(false)
    ensures forall s :: s in Own(action) ==> LastSet(StepsOf(profile, action, settle), s) == Some(false)
  {
    var steps := StepsOf(profile, action, settle);
    hide LastSet;
    match action
    case Cycle =>
      LastSetAt(steps, 2);
    case Edl =>
      LastSetAt(steps, 4);
      LastSetAt(steps, 6);
      LastSetAt(steps, 7);
    case SailEdl =>
      LastSetAt(steps, 3);
      LastSetAt(steps, 5);
    case Uefi =>
      LastSetAt(steps, 2);
      LastSetAt(steps, 7);
      LastSetAt(steps, 8);
    case Fastboot =>
      LastSetAt(steps, 4);
      LastSetAt(steps, 6);
  }

  // ------------------------------------------------------------------ what the actions do

  ghost function PinLevel(profile: Profile, ports: Ports, name: string): bool
    requires name in profile && profile[name].bus in ports
  {
    LevelAt(ports, profile[name].bus, profile[name].Line())
  }

  /** An action is available exactly when the board has every pin its steps set; clearing always is. */
  lemma AvailableIff(profile: Profile, action: Action, settle: nat)
    ensures Sequence(profile, action, settle).Some? <==>
            forall i :: 0 <= i < |StepsOf(profile, action, settle)| && StepsOf(profile, action, settle)[i].Set? ==>
              StepsOf(profile, action, settle)[i].name in profile
  {
    if action == ClearAll {
      ClearStepsAre(profile, STRAPS);
    } else {
      NeededCovers(profile, action, settle);
      var steps, needed := StepsOf(profile, action, settle), Needed(action);
      forall i | 0 <= i < |needed| ensures exists j :: 0 <= j < |steps| && steps[j].Set? && steps[j].name == needed[i] {
        NeededIsSet(profile, action, settle, i);
      }
      hide StepsOf, Needed;
    }
  }

  lemma NeededIsSet(profile: Profile, action: Action, settle: nat, i: nat)
    requires action != ClearAll && i < |Needed(action)|
    ensures exists j :: 0 <= j < |StepsOf(profile, action, settle)| && StepsOf(profile, action, settle)[j].Set?
                        && StepsOf(profile, action, settle)[j].name == Needed(action)[i]
  {
    var steps := StepsOf(profile, action, settle);
    match action
    case On => assert steps[0].name == "pwr_off";
    case Off => assert steps[0].name == "pwr_off";
    case Cycle => assert steps[0].name == "pwr_off";
    case Edl => assert steps[0].name == "pwr_off" && steps[1].name == "sw_dnld" && steps[2].name == "ss_force_edl";
    case SailEdl => assert steps[0].name == "pwr_off" && steps[1].name == "ss_force_edl";
    case Uefi => assert steps[0].name == "pwr_off" && steps[4].name == "uefi" && steps[5].name == "kpd_pwr";
    case Fastboot => assert steps[0].name == "pwr_off" && steps[2].name == "usb2";
  }

  /** Switching on leaves the board powered, switching off leaves it without power. */
  lemma PowerFollows(profile: Profile, ports: Ports, settle: nat)
    requires Wired(profile, ports) && Distinct(profile) && "pwr_off" in profile
    ensures !PinLevel(profile, Run(profile, ports, StepsOf(profile, On, settle)), "pwr_off")
    ensures PinLevel(profile, Run(profile, ports, StepsOf(profile, Off, settle)), "pwr_off")
  {
    var on, off := StepsOf(profile, On, settle), StepsOf(profile, Off, settle);
    LastSetAt(on, 0);
    LastSetAt(off, 0);
    hide Run, LastSet;
    PinAfter(profile, ports, on, "pwr_off");
    PinAfter(profile, ports, off, "pwr_off");
  }

  /** The step with which a boot mode holds its straps for the board to sample. */
  function SamplingStep(action: Action): nat
  {
    match action
    case Edl => 5
    case SailEdl => 4
    case Uefi => 6
    case Fastboot => 5
    case _ => 0
  }

  /**
   A boot mode waits, five or eight seconds, with the power on and all its straps raised; only then
   does it release them.
   */
  lemma HeldWhileSampled(profile: Profile, ports: Ports, action: Action, settle: nat)
    requires Wired(profile, ports) && Distinct(profile)
    requires action in {Edl, SailEdl, Uefi, Fastboot} && Sequence(profile, action, settle).Some?
    ensures var steps, k := StepsOf(profile, action, settle), SamplingStep(action);
            && k < |steps|
            && steps[k] == Delay(if action in {Edl, SailEdl} then 5000 else 8000)
            && "pwr_off" in profile
            && !PinLevel(profile, Run(profile, ports, steps[..k]), "pwr_off")
            && forall s :: s in Own(action) ==> s in profile && PinLevel(profile, Run(profile, ports, steps[..k]), s)
  {
    var steps, k := StepsOf(profile, action, settle), SamplingStep(action);
    SequenceIsKnown(profile, ports, action, settle);
    KnownPrefix(profile, ports, steps, k);
    HeldSets(profile, action, settle);
    hide StepsOf, Run, LastSet;
    forall s | s == "pwr_off" || s in Own(action)
      ensures s in profile && PinLevel(profile, Run(profile, ports, steps[..k]), s) == (s != "pwr_off")
    {
      LastSetNames(steps[..k], s);
      PinAfter(profile, ports, steps[..k], s);
    }
  }

  lemma HeldSets(profile: Profile, action: Action, settle: nat)
    requires action in {Edl, SailEdl, Uefi, Fastboot}
    ensures SamplingStep(action) < |StepsOf(profile, action, settle)|
    ensures var held := StepsOf(profile, action, settle)[..SamplingStep(action)];
            && LastSet(held, "pwr_off") == Some(false)
            && "pwr_off" !in Own(action)
            && forall s :: s in Own(action) ==> LastSet(held, s) == Some(true)
  {
    hide LastSet;
    var held := StepsOf(profile, action, settle)[..SamplingStep(action)];
    match action
    case Edl =>
      LastSetAt(held, 4);
      LastSetAt(held, 1);
      LastSetAt(held, 2);
    case SailEdl =>
      LastSetAt(held, 3);
      LastSetAt(held, 1);
    case Uefi =>
      LastSetAt(held, 2);
      LastSetAt(held, 4);
      LastSetAt(held, 5);
    case Fastboot =>
      LastSetAt(held, 4);
      LastSetAt(held, 2);
  }

  /** The step with which an action waits for the power to drain. */
  function SettlingStep(action: Action): nat
  {
    match action
    case Edl => 3
    case SailEdl => 2
    case _ => 1
  }

  /** Before power comes back, it has been off for the settling time asked for. */
  lemma OffWhileSettling(profile: Profile, ports: Ports, action: Action, settle: nat)
    requires Wired(profile, ports) && Distinct(profile)
    requires action in {Cycle, Edl, SailEdl, Uefi, Fastboot} && Sequence(profile, action, settle).Some?
    ensures var steps, k := StepsOf(profile, action, settle), SettlingStep(action);
            && k < |steps| && steps[k] == Delay(settle)
            && "pwr_off" in profile && PinLevel(profile, Run(profile, ports, steps[..k]), "pwr_off")
            && forall j :: 0 <= j <= k ==> steps[j] != Set("pwr_off", false)
  {
    var steps, k := StepsOf(profile, action, settle), SettlingStep(action);
    SequenceIsKnown(profile, ports, action, settle);
    KnownPrefix(profile, ports, steps, k);
    SettledSets(profile, action, settle);
    hide StepsOf, Run, LastSet;
    LastSetNames(steps[..k], "pwr_off");
    PinAfter(profile, ports, steps[..k], "pwr_off");
  }

  lemma SettledSets(profile: Profile, action: Action, settle: nat)
    requires action in {Cycle, Edl, SailEdl, Uefi, Fastboot}
    ensures var steps, k := StepsOf(profile, action, settle), SettlingStep(action);
            && k < |steps| && steps[k] == Delay(settle)
            && LastSet(steps[..k], "pwr_off") == Some(true)
            && forall j :: 0 <= j <= k ==> steps[j] != Set("pwr_off", false)
  {
    hide LastSet;
    LastSetAt(StepsOf(profile, action, settle)[..SettlingStep(action)], 0);
  }

  /** Except for UEFI, which needs a running board, the straps are up before the power comes on. */
  lemma StrapsBeforePower(profile: Profile, ports: Ports, action: Action, settle: nat, k: nat)
    requires Wired(profile, ports) && Distinct(profile)
    requires action in {Edl, SailEdl, Fastboot} && Sequence(profile, action, settle).Some?
    requires k < |StepsOf(profile, action, settle)| && StepsOf(profile, action, settle)[k] == Set("pwr_off", false)
    ensures var before := Run(profile, ports, StepsOf(profile, action, settle)[..k]);
            && "pwr_off" in profile && PinLevel(profile, before, "pwr_off")
            && forall s :: s in Own(action) ==> s in profile && PinLevel(profile, before, s)
  {
    var steps := StepsOf(profile, action, settle);
    SequenceIsKnown(profile, ports, action, settle);
    KnownPrefix(profile, ports, steps, k);
    RaisedSets(profile, action, settle, k);
    hide StepsOf, Run, LastSet;
    forall s | s == "pwr_off" || s in Own(action)
      ensures s in profile && PinLevel(profile, Run(profile, ports, steps[..k]), s)
    {
      LastSetNames(steps[..k], s);
      PinAfter(profile, ports, steps[..k], s);
    }
  }

  lemma RaisedSets(profile: Profile, action: Action, settle: nat, k: nat)
    requires action in {Edl, SailEdl, Fastboot}
    requires k < |StepsOf(profile, action, settle)| && StepsOf(profile, action, settle)[k] == Set("pwr_off", false)
    ensures var held := StepsOf(profile, action, settle)[..k];
            forall s :: s == "pwr_off" || s in Own(action) ==> LastSet(held, s) == Some(true)
  {
    hide LastSet;
    var held := StepsOf(profile, action, settle)[..k];
    match action
    case Edl =>
      assert k == 4;
      LastSetAt(held, 0);
      LastSetAt(held, 1);
      LastSetAt(held, 2);
    case SailEdl =>
      assert k == 3;
      LastSetAt(held, 0);
      LastSetAt(held, 1);
    case Fastboot =>
      assert k == 4;
      LastSetAt(held, 0);
      LastSetAt(held, 2);
  }

  // ------------------------------------------------------------------ pins that share a line

  /** Some pin of the board among these drives this line. */
  ghost predicate Driven(profile: Profile, names: seq<string>, bus: char, line: nat) {
    exists i :: 0 <= i < |names| && names[i] in profile && profile[names[i]].Drives(bus, line)
  }

  /** Clearing lowers exactly the lines its straps drive, whether or not pins share them. */
  lemma {:induction false} ClearLowers(profile: Profile, ports: Ports, names: seq<string>, bus: char, line: nat)
    requires Wired(profile, ports) && bus in ports && line < 8
    ensures LevelAt(Run(profile, ports, ClearSteps(profile, names)), bus, line)
         <==> LevelAt(ports, bus, line) && !Driven(profile, names, bus, line)
    decreases |names|
  {
    if names != [] {
      var name, rest := names[0], names[1..];
      assert Driven(profile, names, bus, line) <==>
             (name in profile && profile[name].Drives(bus, line)) || Driven(profile, rest, bus, line) by {
        if Driven(profile, rest, bus, line) {
          var i :| 0 <= i < |rest| && rest[i] in profile && profile[rest[i]].Drives(bus, line);
          assert names[i + 1] == rest[i];
        }
      }
      var later := ClearSteps(profile, rest);
      if name in profile {
        assert ([Set(name, false)] + later)[1..] == later;
        ClearLowers(profile, Write(ports, profile[name], false), rest, bus, line);
      } else {
        assert [] + later == later;
        ClearLowers(profile, ports, rest, bus, line);
      }
    }
  }

  ghost predicate ClearKeepsPower(profile: Profile, ports: Ports)
    requires Wired(profile, ports) && "pwr_off" in profile
  {
    var p := profile["pwr_off"];
    LevelAt(Run(profile, ports, ClearSteps(profile, STRAPS)), p.bus, p.Line()) == LevelAt(ports, p.bus, p.Line())
  }

  lemma KeepsPowerAt(profile: Profile, ports: Ports)
    requires Wired(profile, ports) && "pwr_off" in profile
    ensures var p := profile["pwr_off"];
            ClearKeepsPower(profile, ports) <==>
            !(LevelAt(ports, p.bus, p.Line()) && Driven(profile, STRAPS, p.bus, p.Line()))
  {
    hide Run, Driven, STRAPS, ClearSteps;
    ClearLowers(profile, ports, STRAPS, profile["pwr_off"].bus, profile["pwr_off"].Line());
  }

  /** Every line of every port the board uses, high. */
  ghost function AllHigh(profile: Profile): (ports: Ports)
    ensures Wired(profile, ports)
    ensures forall b, line: nat :: b in ports && line < 8 ==> LevelAt(ports, b, line)
  {
    var buses := set n | n in profile :: profile[n].bus;
    map b | b in buses :: [true, true, true, true, true, true, true, true]
  }

  /** Clearing never moves power, whatever the levels, exactly when no strap shares the power line. */
  lemma ClearKeepsPowerIff(profile: Profile)
    requires "pwr_off" in profile
    ensures (forall ports :: Wired(profile, ports) ==> ClearKeepsPower(profile, ports)) <==>
            !Driven(profile, STRAPS, profile["pwr_off"].bus, profile["pwr_off"].Line())
  {
    hide Driven, STRAPS, ClearKeepsPower, AllHigh, LevelAt;
    forall ports | Wired(profile, ports)
      ensures !Driven(profile, STRAPS, profile["pwr_off"].bus, profile["pwr_off"].Line()) ==>
                ClearKeepsPower(profile, ports)
    {
      KeepsPowerAt(profile, ports);
    }
    KeepsPowerAt(profile, AllHigh(profile));
  }

  /** Such boards exist: bits 1 and 9 of a port are one line, and clearing the strap switches power on. */
  lemma SharedPowerLine()
    ensures var profile: Profile := map["pwr_off" := PinRef('D', 1), "uefi" := PinRef('D', 9)];
            && profile["pwr_off"] != profile["uefi"]
            && Driven(profile, STRAPS, 'D', 1)
            && !ClearKeepsPower(profile, AllHigh(profile))
  {
    StrapNames();
    hide STRAPS, AllHigh, ClearKeepsPower, LevelAt;
    var profile: Profile := map["pwr_off" := PinRef('D', 1), "uefi" := PinRef('D', 9)];
    DrivenBy(profile, STRAPS, "uefi", 'D', 1);
    hide Driven;
    HighPower(profile);
    KeepsPowerAt(profile, AllHigh(profile));
  }

  lemma DrivenBy(profile: Profile, names: seq<string>, name: string, bus: char, line: nat)
    requires name in names && name in profile && profile[name].Drives(bus, line)
    ensures Driven(profile, names, bus, line)
  {
    var i :| 0 <= i < |names| && names[i] == name;
  }

  lemma HighPower(profile: Profile)
    requires "pwr_off" in profile
    ensures var p := profile["pwr_off"]; LevelAt(AllHigh(profile), p.bus, p.Line())
  {
  }
}
