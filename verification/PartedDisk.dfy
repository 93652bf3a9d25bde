/** Reconciling a partition (lib/modules/parted.py, `main`): the two scripts one run builds,
    and what they do to a disk. */
module PartedDisk {
  import opened Strings
  import opened PartedSize
  import opened PartedText

  datatype Partition = Partition(ptype: string, fs: string, start: string, end: string, name: string, flags: set<string>)

  /** A disk: its label, and its partitions by number. */
  datatype Disk = Disk(table: string, parts: map<nat, Partition>)

  datatype Cmd =
    | Unit(unit: string)
    | MkLabel(table: string)
    | MkPart(ptype: string, fs: string, start: string, end: string)
    | Name(num: nat, name: string)
    | SetFlag(num: nat, flag: string, on: bool)
    | Rm(num: nat)
  type Script = seq<Cmd>

  /** The parameters; an empty string or set is one that was not given. */
  datatype Params = Params(number: Option<int>, unit: string, newTable: string, ptype: string, fs: string,
                           start: string, end: string, name: string, flags: set<string>)

  /** What parted decides on its own: whether there is room for a new partition, the number it
      gives it, and the flags it sets on it unasked. */
  datatype Parted = Parted(room: bool, slot: nat, born: set<string>)

  // ---------- the effect of commands ----------

  /** One command, or `None` if parted refuses it. */
  function Step(pt: Parted, d: Disk, c: Cmd): Option<Disk> {
    match c
    case Unit(_) => Some(d)
    case MkLabel(table) => Some(Disk(table, map[]))
    case MkPart(ptype, fs, start, end) =>
      if !pt.room || d.table in {"", "unknown"} || pt.slot in d.parts then None
      else Some(Disk(d.table, d.parts[pt.slot := Partition(ptype, fs, start, end, "", pt.born)]))
    case Name(num, name) =>
      if num !in d.parts then None else Some(Disk(d.table, d.parts[num := d.parts[num].(name := name)]))
    case SetFlag(num, flag, on) =>
      if num !in d.parts then None
      else
        var p := d.parts[num];
        Some(Disk(d.table, d.parts[num := p.(flags := if on then p.flags + {flag} else p.flags - {flag})]))
    case Rm(num) =>
      if num !in d.parts then None else Some(Disk(d.table, d.parts - {num}))
  }

  datatype Executed = Executed(disk: Disk, ok: bool)

  /** A script stops at the first command refused; what came before stays done. */
  function Execute(pt: Parted, d: Disk, s: Script): Executed
    decreases s
  {
    if s == [] then Executed(d, true)
    else
      match Step(pt, d, s[0])
      case None => Executed(d, false)
      case Some(next) => Execute(pt, next, s[1..])
  }

  lemma {:induction false} ExecuteAppend(pt: Parted, d: Disk, s: Script, t: Script)
    ensures Execute(pt, d, s + t) ==
      if !Execute(pt, d, s).ok then Execute(pt, d, s) else Execute(pt, Execute(pt, d, s).disk, t)
    decreases s
  {
    hide Step;
    if s == [] {
      assert s + t == t;
    } else {
      assert (s + t)[1..] == s[1..] + t;
      var next := Step(pt, d, s[0]);
      if next.Some? { ExecuteAppend(pt, next.value, s[1..], t); }
    }
  }

  // ---------- the scripts ----------

  const PARTED_UNITS: seq<string> := UNITS_SI + UNITS_IEC + ["s", "%", "cyl", "chs", "compact"]

  /** `check_size_format`; a size that cannot be read fails the run as well. */
  predicate SizeFormat(size: string) {
    var r := ParseUnit(size, "");
    r.Some? && r.value.1 in PARTED_UNITS
  }

  /** `part_exists` for the requested number: no number and number 0 never exist. */
  predicate Exists(parts: map<nat, Partition>, number: Option<int>) {
    number.Some? && number.value > 0 && number.value in parts
  }

  /** The label to write, empty for none: a disk without one gets `msdos`, even over the label
      asked for if parted reports no label at all. */
  function Label(table: string, newTable: string): string {
    if table == "" || (table == "unknown" && newTable == "") then "msdos" else newTable
  }

  function WithUnit(unit: string, s: Script): Script {
    if s != [] && unit != "" then [Unit(unit)] + s else s
  }

  /** The first script: label and partition. */
  function Creation(r: Params, d: Disk): Script {
    var newTable := Label(d.table, r.newTable);
    WithUnit(r.unit,
      (if newTable != "" then [MkLabel(newTable)] else [])
      + (if r.ptype != "" && !Exists(d.parts, r.number) then [MkPart(r.ptype, r.fs, r.start, r.end)] else []))
  }

  function Switches(num: nat, flags: seq<string>, on: bool): Script {
    if flags == [] then [] else Switches(num, flags[..|flags| - 1], on) + [SetFlag(num, flags[|flags| - 1], on)]
  }

  /** A flag change lists each flag to turn on and each to turn off once, in any order. */
  ghost predicate FlagChange(wanted: set<string>, have: set<string>, on: seq<string>, off: seq<string>) {
    if wanted == {} then on == [] && off == []
    else Distinct(on) && Distinct(off) && Elems(on) == wanted - have && Elems(off) == have - wanted
  }

  /** The second script: name and flags. */
  function Labelling(r: Params, num: nat, on: seq<string>, off: seq<string>): Script {
    WithUnit(r.unit, (if r.name != "" then [Name(num, r.name)] else []) + Switches(num, on, true) + Switches(num, off, false))
  }

  /** What the first script holds: the label and the partition, and the unit in front of them. */
  lemma CreationHolds(r: Params, d: Disk)
    ensures var s := Creation(r, d);
      && (forall l :: MkLabel(l) in s <==> l == Label(d.table, r.newTable) && l != "")
      && (forall t, f, a, b :: MkPart(t, f, a, b) in s <==>
            t == r.ptype != "" && f == r.fs && a == r.start && b == r.end && !Exists(d.parts, r.number))
      && (forall i, u :: 0 <= i < |s| && s[i] == Unit(u) <==> i == 0 && s != [] && u == r.unit != "")
      && (forall i | 0 <= i < |s| :: s[i].Unit? || s[i].MkLabel? || (s[i].MkPart? && i == |s| - 1))
  {
  }

  /** What the second script holds: the name and one command for each flag to change. */
  lemma LabellingHolds(r: Params, num: nat, on: seq<string>, off: seq<string>)
    ensures var s := Labelling(r, num, on, off);
      && (forall n, x :: Name(n, x) in s <==> n == num && x == r.name != "")
      && (forall n, f, b :: SetFlag(n, f, b) in s <==> n == num && f in if b then on else off)
      && (forall i, u :: 0 <= i < |s| && s[i] == Unit(u) <==> i == 0 && s != [] && u == r.unit != "")
      && (forall c | c in s :: c.Unit? || c.Name? || c.SetFlag?)
  {
    SwitchesHold(num, on, true);
    SwitchesHold(num, off, false);
    hide Switches;
    var naming: Script := if r.name != "" then [Name(num, r.name)] else [];
    var s := naming + Switches(num, on, true) + Switches(num, off, false);
    forall c ensures c in s <==> c in naming || c in Switches(num, on, true) || c in Switches(num, off, false) { }
    var t := WithUnit(r.unit, s);
    assert t != s ==> t == [Unit(r.unit)] + s;
    forall c ensures c in t <==> c in s || (t != s && c == Unit(r.unit)) { }
    forall i | 0 <= i < |s| ensures !s[i].Unit? { assert s[i] in s; }
  }

  lemma {:induction false} SwitchesHold(num: nat, flags: seq<string>, on: bool)
    ensures forall c :: c in Switches(num, flags, on) <==> c.SetFlag? && c.num == num && c.on == on && c.flag in flags
  {
    if flags != [] {
      var init, last := flags[..|flags| - 1], flags[|flags| - 1];
      SwitchesHold(num, init, on);
      assert forall f :: f in flags <==> f in init || f == last;
    }
  }

  /** A run ends with `ok`, or with the disk as it was when parted refused a command. */
  datatype Outcome = Outcome(disk: Disk, ok: bool, script: Script, changed: bool)

  function FlagsOf(d: Disk, num: int): set<string> { if num >= 0 && num in d.parts then d.parts[num].flags else {} }

  /** The disk the second script is computed from. */
  function Reread(pt: Parted, r: Params, d: Disk): Executed { Execute(pt, d, Creation(r, d)) }

  /** A run with state `present` outside check mode; `on` and `off` are the flag change the
      run computes after reading the disk again. */
  function PresentRun(pt: Parted, r: Params, d: Disk, on: seq<string>, off: seq<string>): Outcome {
    var first := Creation(r, d);
    var mid := Reread(pt, r, d);
    if !mid.ok then Outcome(mid.disk, false, first, first != [])
    else if !Exists(mid.disk.parts, r.number) then Outcome(mid.disk, true, first, first != [])
    else
      var second := Labelling(r, r.number.value, on, off);
      var last := Execute(pt, mid.disk, second);
      Outcome(last.disk, last.ok, first + second, first + second != [])
  }

  ghost predicate Computes(pt: Parted, r: Params, d: Disk, on: seq<string>, off: seq<string>) {
    Reread(pt, r, d).ok && Exists(Reread(pt, r, d).disk.parts, r.number) ==>
      FlagChange(r.flags, FlagsOf(Reread(pt, r, d).disk, r.number.value), on, off)
  }

  function AbsentRun(pt: Parted, r: Params, d: Disk): Outcome {
    if Exists(d.parts, r.number) then Outcome(Disk(d.table, d.parts - {r.number.value}), true, [Rm(r.number.value)], true)
    else Outcome(d, true, [], false)
  }

  // ---------- flags ----------

  /** Switching flags one by one sets or clears exactly those of the one partition. */
  lemma {:induction false} SwitchesAre(pt: Parted, d: Disk, num: nat, flags: seq<string>, on: bool)
    requires num in d.parts
    ensures var p := d.parts[num];
      Execute(pt, d, Switches(num, flags, on)) ==
        Executed(Disk(d.table, d.parts[num := p.(flags := if on then p.flags + Elems(flags) else p.flags - Elems(flags))]), true)
  {
    var p := d.parts[num];
    if flags == [] {
      assert p.flags + Elems(flags) == p.flags && p.flags - Elems(flags) == p.flags;
      assert d.parts[num := p] == d.parts;
    } else {
      var n := |flags| - 1;
      var head, f := flags[..n], flags[n];
      SwitchesAre(pt, d, num, head, on);
      ExecuteAppend(pt, d, Switches(num, head, on), [SetFlag(num, f, on)]);
      assert Elems(flags) == Elems(head) + {f} by { assert flags == head + [f]; }
      assert p.flags + Elems(flags) == p.flags + Elems(head) + {f};
      assert p.flags - Elems(flags) == p.flags - Elems(head) - {f};
      var mid := Execute(pt, d, Switches(num, head, on)).disk;
      ExecuteOne(pt, mid, SetFlag(num, f, on));
      hide Execute;
      assert mid.parts[num := p.(flags := if on then p.flags + Elems(flags) else p.flags - Elems(flags))]
        == d.parts[num := p.(flags := if on then p.flags + Elems(flags) else p.flags - Elems(flags))];
    }
  }

  lemma ExecuteOne(pt: Parted, d: Disk, c: Cmd)
    ensures Execute(pt, d, [c]) == if Step(pt, d, c).Some? then Executed(Step(pt, d, c).value, true) else Executed(d, false)
  {
    assert [c][1..] == [];
    hide Step;
  }

  lemma UnitIsNothing(pt: Parted, d: Disk, unit: string, s: Script)
    ensures Execute(pt, d, WithUnit(unit, s)) == Execute(pt, d, s)
  {
    if s != [] && unit != "" {
      assert ([Unit(unit)] + s)[1..] == s;
    }
  }

  /** The partition after the second script. */
  function Labelled(r: Params, p: Partition): Partition {
    p.(name := if r.name != "" then r.name else p.name, flags := if r.flags != {} then r.flags else p.flags)
  }

  lemma LabellingIs(pt: Parted, r: Params, d: Disk, num: nat, on: seq<string>, off: seq<string>)
    requires num in d.parts && FlagChange(r.flags, d.parts[num].flags, on, off)
    ensures Execute(pt, d, Labelling(r, num, on, off)) == Executed(Disk(d.table, d.parts[num := Labelled(r, d.parts[num])]), true)
  {
    var p := d.parts[num];
    var name := if r.name != "" then [Name(num, r.name)] else [];
    var a, b := Switches(num, on, true), Switches(num, off, false);
    UnitIsNothing(pt, d, r.unit, name + a + b);
    ExecuteAppend(pt, d, name + a, b);
    ExecuteAppend(pt, d, name, a);
    if r.name != "" { ExecuteOne(pt, d, Name(num, r.name)); }
    var named := if r.name != "" then p.(name := r.name) else p;
    var d1 := Disk(d.table, d.parts[num := named]);
    assert Execute(pt, d, name) == Executed(d1, true) by {
      if r.name == "" { assert d.parts[num := p] == d.parts; }
    }
    SwitchesAre(pt, d1, num, on, true);
    var lit := named.(flags := p.flags + Elems(on));
    var d2 := Disk(d.table, d.parts[num := lit]);
    assert d1.parts[num := lit] == d2.parts;
    SwitchesAre(pt, d2, num, off, false);
    FlagsReached(r.flags, p.flags, on, off);
    assert d2.parts[num := Labelled(r, p)] == d.parts[num := Labelled(r, p)];
    hide Execute, Switches, Step, FlagChange;
  }

  lemma FlagsReached(wanted: set<string>, have: set<string>, on: seq<string>, off: seq<string>)
    requires FlagChange(wanted, have, on, off)
    ensures have + Elems(on) - Elems(off) == if wanted != {} then wanted else have
  {
  }

  lemma {:induction false} SwitchesEmpty(num: nat, flags: seq<string>, on: bool)
    ensures Switches(num, flags, on) == [] <==> flags == []
  {
  }

  lemma NoFlagChange(wanted: set<string>, have: set<string>, on: seq<string>, off: seq<string>)
    requires FlagChange(wanted, have, on, off)
    ensures on == [] && off == [] <==> wanted == {} || wanted == have
  {
    if on != [] { assert on[0] in Elems(on); }
    if off != [] { assert off[0] in Elems(off); }
  }

  /** The second script is empty exactly if there is no name to set and the flags are right. */
  lemma LabellingEmptyIff(r: Params, num: nat, have: set<string>, on: seq<string>, off: seq<string>)
    requires FlagChange(r.flags, have, on, off)
    ensures Labelling(r, num, on, off) == [] <==> r.name == "" && (r.flags == {} || r.flags == have)
  {
    SwitchesEmpty(num, on, true);
    SwitchesEmpty(num, off, false);
    NoFlagChange(r.flags, have, on, off);
    hide Switches, FlagChange;
  }
}
