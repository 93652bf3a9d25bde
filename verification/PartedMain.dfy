/** The partition module and the disk it works on as objects. */
module PartedMain {
  import opened Strings
  import opened PartedDisk
  import opened PartedRuns

  class Device {
    const pt: Parted
    var disk: Disk

    constructor (pt: Parted, disk: Disk)
      ensures this.pt == pt && this.disk == disk
    {
      this.pt, this.disk := pt, disk;
    }

    /** Runs a script, command by command, up to the first one refused. */
    method Run(script: Script) returns (ok: bool)
      modifies this
      ensures Executed(disk, ok) == Execute(pt, old(disk), script)
    {
      var i := 0;
      while i < |script|
        invariant 0 <= i <= |script|
        invariant Execute(pt, old(disk), script) == Execute(pt, disk, script[i..])
      {
        var next := Step(pt, disk, script[i]);
        assert script[i..][1..] == script[i + 1..];
        if next.None? { return false; }
        disk := next.value;
        i := i + 1;
      }
      return true;
    }
  }

  datatype State = Present | Absent | Info

  class PartedModule {
    const device: Device
    const r: Params
    const checkMode: bool
    var changed: bool
    var outputScript: Script

    constructor (device: Device, r: Params, checkMode: bool)
      ensures this.device == device && this.r == r && this.checkMode == checkMode
      ensures !changed && outputScript == []
    {
      this.device, this.r, this.checkMode := device, r, checkMode;
      changed, outputScript := false, [];
    }

    /** `parted`: nothing is run in check mode. */
    method RunParted(script: Script) returns (ok: bool)
      modifies device
      ensures Executed(device.disk, ok) ==
        if checkMode then Executed(old(device.disk), true) else Execute(device.pt, old(device.disk), script)
    {
      ok := true;
      if script != [] && !checkMode { ok := device.Run(script); }
    }

    method PartExists() returns (b: bool)
      ensures b <==> Exists(device.disk.parts, r.number)
    {
      b := r.number.Some? && r.number.value > 0 && r.number.value in device.disk.parts;
    }

    /** The first script. */
    method BuildCreation() returns (script: Script)
      ensures script == Creation(r, device.disk)
    {
      script := [];
      var table := r.newTable;
      if device.disk.table == "" || (device.disk.table == "unknown" && table == "") { table := "msdos"; }
      if table != "" { script := script + [MkLabel(table)]; }
      var there := PartExists();
      if r.ptype != "" && !there { script := script + [MkPart(r.ptype, r.fs, r.start, r.end)]; }
      if r.unit != "" && script != [] { script := [Unit(r.unit)] + script; }
    }

    /** The flags in `these` but not in `those`, each once. */
    static method Difference(these: set<string>, those: set<string>) returns (xs: seq<string>)
      ensures Distinct(xs) && Elems(xs) == these - those
    {
      xs := [];
      var todo := these - those;
      while todo != {}
        invariant todo <= these - those && Distinct(xs) && Elems(xs) == these - those - todo
        decreases |todo|
      {
        var x :| x in todo;
        assert x !in Elems(xs);
        assert Elems(xs + [x]) == Elems(xs) + {x};
        xs := xs + [x];
        todo := todo - {x};
      }
    }

    static method AddSwitches(start: Script, num: nat, flags: seq<string>, on: bool) returns (script: Script)
      ensures script == start + Switches(num, flags, on)
    {
      script := start;
      for i := 0 to |flags|
        invariant script == start + Switches(num, flags[..i], on)
      {
        assert flags[..i + 1][..i] == flags[..i];
        script := script + [SetFlag(num, flags[i], on)];
      }
      assert flags[..|flags|] == flags;
    }

    /** The second script, from the flags the partition has; a number that is missing in check
        mode is written as 0 here. */
    method BuildLabelling(have: set<string>) returns (script: Script, on: seq<string>, off: seq<string>)
      requires r.number.Some? ==> r.number.value >= 0
      ensures FlagChange(r.flags, have, on, off)
      ensures script == Labelling(r, if r.number.Some? then r.number.value else 0, on, off)
    {
      var num := if r.number.Some? then r.number.value else 0;
      script := [];
      if r.name != "" { script := script + [Name(num, r.name)]; }
      on, off := [], [];
      if r.flags != {} {
        var flagsOff := Difference(have, r.flags);
        var flagsOn := Difference(r.flags, have);
        on, off := flagsOn, flagsOff;
        script := AddSwitches(script, num, flagsOn, true);
        script := AddSwitches(script, num, flagsOff, false);
      } else {
        assert script + Switches(num, on, true) + Switches(num, off, false) == script;
      }
      if r.unit != "" && script != [] { script := [Unit(r.unit)] + script; }
    }

    /** State `present`, in the order of the code: first script, another look, second script. */
    method EnsurePresent() returns (ok: bool, ghost on: seq<string>, ghost off: seq<string>)
      requires !changed && outputScript == [] && (r.number.Some? ==> r.number.value >= 0)
      modifies this, device
      ensures !checkMode ==>
        Computes(device.pt, r, old(device.disk), on, off)
        && Outcome(device.disk, ok, outputScript, changed) == PresentRun(device.pt, r, old(device.disk), on, off)
      ensures checkMode ==>
        ok && device.disk == old(device.disk)
        && (r.newTable != "unknown" ==> (changed <==> CheckChanged(r, device.disk)))
    {
      on, off := [], [];
      ok := true;
      var script := BuildCreation();
      hide Creation, Labelling, Execute, FlagChange;
      if script != [] {
        outputScript := script;
        ok := RunParted(script);
        changed := true;
        if !ok { return; }
      } else {
        ExecuteNothing(device.pt, device.disk);
      }
      var there := PartExists();
      if there || checkMode {
        var have := if checkMode then {} else device.disk.parts[r.number.value].flags;
        ghost var mid := device.disk;
        var num := if r.number.Some? then r.number.value else 0;
        script, on, off := BuildLabelling(have);
        LabellingEmptyIff(r, num, have, on, off);
        if script != [] {
          outputScript := outputScript + script;
          changed := true;
          ok := RunParted(script);
        } else {
          ExecuteNothing(device.pt, device.disk);
          assert outputScript + script == outputScript;
        }
      }
    }

    /** State `absent`; in check mode a removal is reported whether the partition is there or
        not. */
    method EnsureAbsent() returns (ok: bool)
      requires !changed && outputScript == []
      modifies this, device
      ensures !checkMode ==>
        Outcome(device.disk, ok, outputScript, changed) == AbsentRun(device.pt, r, old(device.disk))
      ensures checkMode ==> ok && changed && device.disk == old(device.disk)
    {
      ok := true;
      var there := PartExists();
      if there || checkMode {
        var num := if there then r.number.value else 0;
        var script := [Rm(num)];
        outputScript := script;
        changed := true;
        ExecuteOne(device.pt, device.disk, Rm(num));
        ok := RunParted(script);
      }
    }

    /** `main`: a negative number and sizes that cannot be read fail the run before the disk is
        touched; everything else goes on to the run of the state. */
    method RunModule(st: State) returns (ok: bool, ghost on: seq<string>, ghost off: seq<string>)
      requires !changed && outputScript == []
      modifies this, device
      ensures var good := !(r.number.Some? && r.number.value < 0) && GoodSize(r.start) && GoodSize(r.end);
        && (!good ==> !ok && !changed && outputScript == [] && device.disk == old(device.disk))
        && (checkMode || st == Info ==> device.disk == old(device.disk) && (ok <==> good))
        && (good && st == Info ==> !changed)
        && (good && !checkMode ==>
              match st
              case Present =>
                && Computes(device.pt, r, old(device.disk), on, off)
                && Outcome(device.disk, ok, outputScript, changed) == PresentRun(device.pt, r, old(device.disk), on, off)
              case Absent => Outcome(device.disk, ok, outputScript, changed) == AbsentRun(device.pt, r, old(device.disk))
              case Info => true)
        && (good && checkMode ==>
              match st
              case Present => r.newTable != "unknown" ==> (changed <==> CheckChanged(r, device.disk))
              case Absent => changed
              case Info => !changed)
    {
      hide PresentRun, Computes, CheckChanged, GoodSize, SizeFormat, AbsentRun;
      SizeAcceptedIff(r.start);
      SizeAcceptedIff(r.end);
      on, off := [], [];
      if r.number.Some? && r.number.value < 0 { return false, on, off; }
      if !SizeFormat(r.start) { return false, on, off; }
      if !SizeFormat(r.end) { return false, on, off; }
      match st {
        case Present => ok, on, off := EnsurePresent();
        case Absent => ok := EnsureAbsent();
        case Info => ok := true;
      }
    }
  }

  lemma ExecuteNothing(pt: Parted, d: Disk)
    ensures Execute(pt, d, []) == Executed(d, true)
  {
  }
}
