/** What runs of the partition module come to. */
module PartedRuns {
  import opened Strings
  import opened PartedDisk
  import opened PartedSize
  import opened PartedText

  /** A disk without a label has no partitions. */
  ghost predicate ValidDisk(d: Disk) { d.table in {"", "unknown"} ==> d.parts == map[] }

  predicate Makes(r: Params, d: Disk) { r.ptype != "" && !Exists(d.parts, r.number) }

  /** The disk after a label was written, if one was. */
  function Relabelled(r: Params, d: Disk): Disk {
    var t := Label(d.table, r.newTable);
    if t != "" then Disk(t, map[]) else d
  }

  function NewPart(pt: Parted, r: Params): Partition { Partition(r.ptype, r.fs, r.start, r.end, "", pt.born) }

  predicate CanMake(pt: Parted, d: Disk) { pt.room && pt.slot !in d.parts }

  lemma CreationIs(pt: Parted, r: Params, d: Disk)
    requires r.newTable != "unknown"
    ensures var base := Relabelled(r, d);
      Reread(pt, r, d) ==
        if !Makes(r, d) then Executed(base, true)
        else if CanMake(pt, base) then Executed(Disk(base.table, base.parts[pt.slot := NewPart(pt, r)]), true)
        else Executed(base, false)
    ensures Creation(r, d) == [] <==> Label(d.table, r.newTable) == "" && !Makes(r, d)
  {
    var t := Label(d.table, r.newTable);
    var base := Relabelled(r, d);
    assert base.table !in {"", "unknown"};
    var relabel := if t != "" then [MkLabel(t)] else [];
    var make := if Makes(r, d) then [MkPart(r.ptype, r.fs, r.start, r.end)] else [];
    UnitIsNothing(pt, d, r.unit, relabel + make);
    ExecuteAppend(pt, d, relabel, make);
    assert Execute(pt, d, relabel) == Executed(base, true) by {
      if t != "" { ExecuteOne(pt, d, MkLabel(t)); }
    }
    if Makes(r, d) { ExecuteOne(pt, base, MkPart(r.ptype, r.fs, r.start, r.end)); }
    hide Execute, Label, Exists;
  }

  // ---------- when a run does nothing ----------

  /** A run builds an empty script exactly if no label is to be written, no partition is to be
      made, and the partition, if it is there, needs no name and has the flags. */
  lemma SilentIff(pt: Parted, r: Params, d: Disk, on: seq<string>, off: seq<string>)
    requires r.newTable != "unknown" && Computes(pt, r, d, on, off)
    ensures PresentRun(pt, r, d, on, off).script == [] <==>
      && Label(d.table, r.newTable) == "" && !Makes(r, d)
      && (Exists(d.parts, r.number) ==> r.name == "" && (r.flags == {} || r.flags == FlagsOf(d, r.number.value)))
    ensures PresentRun(pt, r, d, on, off).script == [] ==> PresentRun(pt, r, d, on, off) == Outcome(d, true, [], false)
  {
    hide Labelling, Label, FlagChange, Execute;
    CreationIs(pt, r, d);
    var first := Creation(r, d);
    if first == [] {
      var mid := Reread(pt, r, d);
      assert mid == Executed(d, true);
      if Exists(d.parts, r.number) {
        LabellingEmptyIff(r, r.number.value, FlagsOf(d, r.number.value), on, off);
        var second := Labelling(r, r.number.value, on, off);
        assert first + second == second;
      }
    }
    hide Creation, Reread;
  }

  // ---------- present ----------

  /** The partition with the number asked for is there, or will be. */
  predicate WillExist(pt: Parted, r: Params, d: Disk) {
    && r.number.Some? && r.number.value > 0
    && (r.number.value in d.parts || (r.ptype != "" && pt.room && pt.slot == r.number.value))
  }

  function Table(d: Disk): string { if d.table in {"", "unknown"} then "msdos" else d.table }

  /** What `present` promises, when no label is given and parted gives a missing partition the
      number asked for: the partition is there with the name and the flags asked for, made
      with the bounds asked for if it was missing; all other partitions are untouched, and a
      disk without a label has become `msdos`. */
  lemma PresentConverges(pt: Parted, r: Params, d: Disk, on: seq<string>, off: seq<string>)
    requires ValidDisk(d) && r.newTable == "" && WillExist(pt, r, d) && Computes(pt, r, d, on, off)
    ensures var n: nat := r.number.value;
      var p := if n in d.parts then d.parts[n] else NewPart(pt, r);
      PresentRun(pt, r, d, on, off).ok &&
      PresentRun(pt, r, d, on, off).disk == Disk(Table(d), d.parts[n := Labelled(r, p)])
  {
    CreationIs(pt, r, d);
    var n: nat := r.number.value;
    var p := if n in d.parts then d.parts[n] else NewPart(pt, r);
    var mid := Reread(pt, r, d);
    assert mid == Executed(Disk(Table(d), d.parts[n := p]), true) by {
      if n in d.parts { assert d.parts[n := p] == d.parts; }
    }
    LabellingIs(pt, r, mid.disk, n, on, off);
    assert d.parts[n := p][n := Labelled(r, p)] == d.parts[n := Labelled(r, p)];
    hide Labelling, FlagChange, Reread, Creation;
  }

  /** ... and a second run, whatever parted has become capable of since, builds an empty
      script exactly if no name is given. */
  lemma SecondRunSilentIff(pt: Parted, later: Parted, r: Params, d: Disk, on: seq<string>, off: seq<string>,
                           on2: seq<string>, off2: seq<string>)
    requires ValidDisk(d) && r.newTable == "" && WillExist(pt, r, d) && Computes(pt, r, d, on, off)
    requires Computes(later, r, PresentRun(pt, r, d, on, off).disk, on2, off2)
    ensures var out := PresentRun(pt, r, d, on, off);
      && (PresentRun(later, r, out.disk, on2, off2).script == [] <==> r.name == "")
      && PresentRun(later, r, out.disk, on2, off2).disk == out.disk
  {
    hide PresentRun, Computes;
    PresentConverges(pt, r, d, on, off);
    var out := PresentRun(pt, r, d, on, off).disk;
    SilentIff(later, r, out, on2, off2);
    PresentConverges(later, r, out, on2, off2);
    var n: nat := r.number.value;
    assert out.parts[n := Labelled(r, out.parts[n])] == out.parts;
  }

  /** Without label and name a run reports a change exactly if it changed the disk. */
  lemma ChangedIsHonest(pt: Parted, r: Params, d: Disk, on: seq<string>, off: seq<string>)
    requires ValidDisk(d) && r.newTable == "" && r.name == "" && Computes(pt, r, d, on, off)
    requires PresentRun(pt, r, d, on, off).ok
    ensures PresentRun(pt, r, d, on, off).changed <==> PresentRun(pt, r, d, on, off).disk != d
  {
    SilentIff(pt, r, d, on, off);
    CreationIs(pt, r, d);
    var out := PresentRun(pt, r, d, on, off);
    var mid := Reread(pt, r, d);
    if Exists(mid.disk.parts, r.number) {
      LabellingIs(pt, r, mid.disk, r.number.value, on, off);
    }
    if Makes(r, d) { assert pt.slot in out.disk.parts; }
    hide Labelling, FlagChange, Reread, Creation;
  }

  // ---------- a number parted does not give ----------

  /** When parted would give another number, or none is asked for, a run makes a partition
      under that number, sets neither name nor flags, and the next run makes one more. */
  lemma OtherNumberIsNeverThere(pt: Parted, r: Params, d: Disk, on: seq<string>, off: seq<string>)
    requires ValidDisk(d) && r.newTable == "" && r.ptype != "" && !Exists(d.parts, r.number)
    requires pt.room && pt.slot !in d.parts && (pt.slot == 0 || r.number != Some(pt.slot))
    ensures var out := PresentRun(pt, r, d, on, off);
      && out.ok && out.changed && !Exists(out.disk.parts, r.number)
      && out.disk == Disk(Table(d), d.parts[pt.slot := NewPart(pt, r)])
      && |out.disk.parts| == |d.parts| + 1
  {
    CreationIs(pt, r, d);
    var parts := d.parts[pt.slot := NewPart(pt, r)];
    assert parts.Keys == d.parts.Keys + {pt.slot};
    assert |parts.Keys| == |d.parts.Keys| + 1;
    hide Reread, Creation;
  }

  // ---------- a label ----------

  /** A label given is written by every run, whatever label the disk has: all partitions are
      lost, and of the wanted one nothing is left if it was there before. The run after makes
      it anew, and so on in turns. The label is the one asked for, except that a disk for which
      parted reports no label at all becomes `msdos`. */
  lemma LabelWipes(pt: Parted, r: Params, d: Disk, on: seq<string>, off: seq<string>)
    requires r.newTable != "unknown" && r.newTable != "" && r.ptype != "" && Computes(pt, r, d, on, off)
    requires r.number.Some? && r.number.value > 0 && pt.room && pt.slot == r.number.value
    ensures var out := PresentRun(pt, r, d, on, off);
      && out.ok && out.changed
      && (out.disk.table == r.newTable <==> d.table != "" || r.newTable == "msdos")
      && out.disk.parts == if pt.slot in d.parts then map[] else map[pt.slot := Labelled(r, NewPart(pt, r))]
  {
    CreationIs(pt, r, d);
    var mid := Reread(pt, r, d).disk;
    if pt.slot !in d.parts {
      assert mid.parts == map[pt.slot := NewPart(pt, r)];
      LabellingIs(pt, r, mid, pt.slot, on, off);
      assert mid.parts[pt.slot := Labelled(r, NewPart(pt, r))] == map[pt.slot := Labelled(r, NewPart(pt, r))];
    }
    hide Labelling, FlagChange, Reread, Creation, Labelled, NewPart;
  }

  // ---------- absent ----------

  /** `absent` removes the one partition and no other; a second run does nothing. */
  lemma AbsentRemovesOne(pt: Parted, r: Params, d: Disk)
    ensures var out := AbsentRun(pt, r, d);
      && out.ok && !Exists(out.disk.parts, r.number) && out.disk.table == d.table
      && (forall k | k in d.parts && Some(k as int) != r.number :: k in out.disk.parts && out.disk.parts[k] == d.parts[k])
      && out.disk.parts.Keys <= d.parts.Keys
      && (out.changed <==> out.disk != d)
      && AbsentRun(pt, r, out.disk) == Outcome(out.disk, true, [], false)
      && (out.script != [] ==> Execute(pt, d, out.script) == Executed(out.disk, true))
  {
    if Exists(d.parts, r.number) {
      ExecuteOne(pt, d, Rm(r.number.value));
      assert r.number.value !in (d.parts - {r.number.value});
    }
    hide Execute;
  }

  /** Removing the partition a run made gives the labelled disk back as it was. */
  lemma AbsentUndoesPresent(pt: Parted, r: Params, d: Disk, on: seq<string>, off: seq<string>)
    requires ValidDisk(d) && r.newTable == "" && WillExist(pt, r, d) && Computes(pt, r, d, on, off)
    requires !Exists(d.parts, r.number)
    ensures AbsentRun(pt, r, PresentRun(pt, r, d, on, off).disk).disk == Disk(Table(d), d.parts)
  {
    PresentConverges(pt, r, d, on, off);
    var n: nat := r.number.value;
    var p := Labelled(r, NewPart(pt, r));
    assert d.parts[n := p] - {n} == d.parts;
    hide PresentRun, Computes, Labelled, NewPart;
  }

  // ---------- sizes ----------

  /** The units a size may be given in: the ones that stand for bytes, and parted's own. */
  predicate SizeUnit(unit: string) { UnitBytes(unit).Some? || unit in {"s", "%", "cyl", "chs", "compact"} }

  /** A number with such a unit, as spelled there, or three numbers; a line break may follow. */
  ghost predicate GoodSize(size: string) {
    || (exists num, unit :: Numeric(num) && SizeUnit(unit) && Just(size, num + unit))
    || (exists x, y, z :: DigitRun(x) && DigitRun(y) && DigitRun(z) && Just(size, x + "," + y + "," + z))
  }

  lemma SizeAcceptedIff(size: string)
    ensures SizeFormat(size) <==> GoodSize(size)
  {
    hide ParseUnit, PARTED_UNITS, Numeric, Just, DigitRun, UnitName, SizeUnit;
    UnitsAre();
    if SizeFormat(size) { ParseUnitIff(size, ParseUnit(size, "").value.1); }
    if num, unit :| Numeric(num) && SizeUnit(unit) && Just(size, num + unit) { ParseUnitIff(size, unit); }
    if x, y, z :| DigitRun(x) && DigitRun(y) && DigitRun(z) && Just(size, x + "," + y + "," + z) {
      ParseUnitIff(size, "chs");
    }
  }

  lemma UnitsAre()
    ensures forall u :: u in PARTED_UNITS <==> SizeUnit(u)
    ensures forall u | u in PARTED_UNITS :: UnitName(u)
    ensures SizeUnit("chs")
  {
    UnitsMean();
    hide UnitBytes;
    forall u | u in PARTED_UNITS ensures UnitName(u) {
      assert u in UNITS_SI || u in UNITS_IEC || u in ["s", "%", "cyl", "chs", "compact"];
    }
  }

  /** The defaults of `part_start` and `part_end` are sizes. */
  lemma DefaultSizes()
    ensures SizeFormat("0%") && SizeFormat("100%")
  {
    hide SizeFormat, Numeric;
    Percentage("0");
    Percentage("100");
    assert "0" + "%" == "0%" && "100" + "%" == "100%";
  }

  lemma Percentage(num: string)
    requires DigitRun(num)
    ensures SizeFormat(num + "%")
  {
    hide SizeFormat, SizeUnit, PARTED_UNITS;
    SizeAcceptedIff(num + "%");
    assert SizeUnit("%") by { PercentIsUnit(); }
    assert Numeric(num) && Just(num + "%", num + "%");
  }

  lemma PercentIsUnit()
    ensures SizeUnit("%")
  {
  }

  /** A number without a unit is refused, although `unit` is documented to interpret it. */
  lemma BareNumberRefused(size: string)
    requires Among(NumberChar, size)
    ensures !SizeFormat(size)
  {
    NumberNotChopped(size);
    PrefixOfNumber(size, "");
    assert size + "" == size && size[|size|..] == "";
    UnitsAre();
    assert !UnitName("");
    hide PARTED_UNITS, NumberPrefix, ParseFloat, Split;
    if size == [] { NothingSplit(); }
  }

  lemma NothingSplit()
    ensures |Split("", ",")| == 1
  {
  }

  // ---------- check mode ----------

  /** In check mode the flags count as not set and the partition as there: a run reports a
      change whenever there is a label, a partition, a name or a flag to think of. */
  predicate CheckChanged(r: Params, d: Disk) { Creation(r, d) != [] || r.name != "" || r.flags != {} }

  /** Check mode never reports less than a run does, and it reports a change that no run makes
      exactly where the partition will not exist or has its flags already. */
  lemma CheckModeOverstates(pt: Parted, r: Params, d: Disk, on: seq<string>, off: seq<string>)
    requires r.newTable != "unknown" && Computes(pt, r, d, on, off)
    ensures PresentRun(pt, r, d, on, off).changed ==> CheckChanged(r, d)
    ensures CheckChanged(r, d) && !PresentRun(pt, r, d, on, off).changed <==>
      && Creation(r, d) == [] && (r.name != "" || r.flags != {})
      && (Exists(d.parts, r.number) ==> r.name == "" && r.flags == FlagsOf(d, r.number.value))
  {
    SilentIff(pt, r, d, on, off);
    CreationIs(pt, r, d);
    hide Creation, Label, FlagChange, Reread, Labelling, Execute;
  }
}
