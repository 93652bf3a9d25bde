/** `parse_partition_info` (lib/modules/parted.py) and the format it reads. */
module PartedReport {
  import opened Strings
  import opened PartedText

  datatype Geometry = Geometry(cylinders: int, heads: int, sectors: int, cylSize: Size, cylUnit: string)
  datatype Generic = Generic(dev: string, size: Size, unit: string, table: string, model: string,
                             logicalBlock: int, physicalBlock: int, chs: Option<Geometry>)
  /** `size` is missing in the CHS format. */
  datatype PartInfo = PartInfo(num: int, begin: Size, end: Size, size: Option<Size>, fstype: string,
                               flags: seq<string>, unit: string)
  datatype Report = Report(generic: Generic, partitions: seq<PartInfo>)

  // ---------- reading ----------

  function NonBlank(lines: seq<string>): seq<string> {
    if lines == [] then []
    else
      NonBlank(lines[..|lines| - 1]) +
        (if Strip(lines[|lines| - 1]) != [] then [lines[|lines| - 1]] else [])
  }

  /** The `unit` that comes with the device's size is the one of the whole report. */
  function ReadGeneric(line: string, unit: string): Option<(Generic, string)> {
    var f := Fields(line);
    if |f| < 7 then None
    else
      var size, logical, physical := ParseUnit(f[1], unit), ParseInt(f[3]), ParseInt(f[4]);
      if size.None? || logical.None? || physical.None? then None
      else
        var (x, u) := size.value;
        Some((Generic(f[0], x, Lower(u), f[5], f[6], logical.value, physical.value, None), u))
  }

  function ReadGeometry(line: string): Option<Geometry> {
    var f := Fields(line);
    if |f| < 4 then None
    else
      var size, c, h, s := ParseUnit(f[3], ""), ParseInt(f[0]), ParseInt(f[1]), ParseInt(f[2]);
      if size.None? || c.None? || h.None? || s.None? then None
      else Some(Geometry(c.value, h.value, s.value, size.value.0, Lower(size.value.1)))
  }

  function ReadFlags(flags: seq<string>): seq<string> {
    if flags == [] then []
    else
      ReadFlags(flags[..|flags| - 1]) +
        (if flags[|flags| - 1] != [] then [Strip(flags[|flags| - 1])] else [])
  }

  function ReadPart(line: string, unit: string): Option<PartInfo> { ReadFields(Fields(line), unit) }

  function ReadFields(f: seq<string>, unit: string): Option<PartInfo> {
    if |f| < (if unit == "chs" then 6 else 7) then None
    else
      var num, begin, end := ParseInt(f[0]), ParseUnit(f[1], ""), ParseUnit(f[2], "");
      var size := if unit == "chs" then None else ParseUnit(f[3], "");
      var fstype := if unit == "chs" then f[3] else f[4];
      var flags := if unit == "chs" then f[5] else f[6];
      if num.None? || begin.None? || end.None? || (unit != "chs" && size.None?) then None
      else
        Some(PartInfo(num.value, begin.value.0, end.value.0,
                      if unit == "chs" then None else Some(size.value.0), fstype,
                      ReadFlags(Split(flags, ", ")), Lower(unit)))
  }

  function ReadParts(lines: seq<string>, unit: string): Option<seq<PartInfo>> {
    if lines == [] then Some([])
    else
      var init := ReadParts(lines[..|lines| - 1], unit);
      var last := ReadPart(lines[|lines| - 1], unit);
      if init.None? || last.None? then None else Some(init.value + [last.value])
  }

  predicate HasGeometry(unit: string) { unit in {"cyl", "chs"} }

  /** The whole of parted's output; `None` is any failure to read it. */
  function ReadReport(output: string, unit: string): Option<Report> {
    var lines := NonBlank(Split(output, "\n"));
    if |lines| < 2 then None
    else
      match ReadGeneric(lines[1], unit)
      case None => None
      case Some((generic, u)) =>
        if HasGeometry(u) then
          if |lines| < 3 then None
          else
            var g, parts := ReadGeometry(lines[2]), ReadParts(lines[3..], u);
            if g.None? || parts.None? then None
            else Some(Report(generic.(chs := g), parts.value))
        else
          match ReadParts(lines[2..], u)
          case None => None
          case Some(parts) => Some(Report(generic, parts))
  }

  lemma {:induction false} ReadPartsFails(lines: seq<string>, unit: string, i: nat)
    requires i < |lines| && ReadPart(lines[i], unit).None?
    ensures ReadParts(lines, unit).None?
  {
    hide ReadPart;
    var n := |lines| - 1;
    if i < n { ReadPartsFails(lines[..n], unit, i); }
  }

  /** The parser as it is written: it drops blank lines, reads the header, and appends one
      entry per line. */
  method ParsePartitionInfo(output: string, unit: string) returns (r: Option<Report>)
    ensures r == ReadReport(output, unit)
  {
    hide ReadPart, Split, Strip;
    var lines := DropBlank(Split(output, "\n"));
    if |lines| < 2 { return None; }
    var head := ReadGeneric(lines[1], unit);
    if head.None? { return None; }
    var (generic, u) := head.value;
    hide ReadGeneric, ReadGeometry, NonBlank, Fields;
    var start := 2;
    if u in {"cyl", "chs"} {
      if |lines| < 3 { return None; }
      var g := ReadGeometry(lines[2]);
      if g.None? { return None; }
      generic := generic.(chs := g);
      start := 3;
    }
    var parts := ParseParts(lines[start..], u);
    if parts.None? { return None; }
    return Some(Report(generic, parts.value));
  }

  method DropBlank(all: seq<string>) returns (lines: seq<string>)
    ensures lines == NonBlank(all)
  {
    hide Strip;
    lines := [];
    for i := 0 to |all|
      invariant lines == NonBlank(all[..i])
    {
      assert all[..i + 1][..i] == all[..i];
      if Strip(all[i]) != [] { lines := lines + [all[i]]; }
    }
    assert all[..|all|] == all;
  }

  method ParseParts(body: seq<string>, unit: string) returns (r: Option<seq<PartInfo>>)
    ensures r == ReadParts(body, unit)
  {
    hide ReadPart;
    var parts := [];
    for i := 0 to |body|
      invariant ReadParts(body[..i], unit) == Some(parts)
    {
      assert body[..i + 1][..i] == body[..i];
      var part := ParsePart(body[i], unit);
      if part.None? {
        ReadPartsFails(body, unit, i);
        return None;
      }
      parts := parts + [part.value];
    }
    assert body[..|body|] == body;
    return Some(parts);
  }

  /** One pass of the parser's loop. */
  method ParsePart(line: string, unit: string) returns (r: Option<PartInfo>)
    ensures r == ReadPart(line, unit)
  {
    hide ParseUnit, ParseInt, Fields, Split, Strip, Lower;
    var f := Fields(line);
    if |f| < (if unit == "chs" then 6 else 7) { return None; }
    var size, fstype, flags := None, f[3], f[5];
    if unit != "chs" {
      size, fstype, flags := ParseUnit(f[3], ""), f[4], f[6];
      if size.None? { return None; }
    }
    var num, begin, end := ParseInt(f[0]), ParseUnit(f[1], ""), ParseUnit(f[2], "");
    if num.None? || begin.None? || end.None? { return None; }
    var names := Split(flags, ", ");
    var kept := [];
    for i := 0 to |names|
      invariant kept == ReadFlags(names[..i])
    {
      assert names[..i + 1][..i] == names[..i];
      if names[i] != [] { kept := kept + [Strip(names[i])]; }
    }
    assert names[..|names|] == names;
    return Some(PartInfo(num.value, begin.value.0, end.value.0,
                         if unit == "chs" then None else Some(size.value.0), fstype, kept, Lower(unit)));
  }

  // ---------- printing ----------

  datatype DiskPart = DiskPart(num: nat, begin: Extent, end: Extent, size: Extent, fstype: string, name: string,
                               flags: seq<string>)
  datatype DiskGeometry = DiskGeometry(cylinders: nat, heads: nat, sectors: nat, cylSize: Number, cylUnit: string)
  datatype Disk = Disk(dev: string, size: Extent, transport: string, logicalBlock: nat, physicalBlock: nat,
                       table: string, model: string, geometry: DiskGeometry, parts: seq<DiskPart>)

  /** Flags are written with `, ` between them. */
  function PrintFlags(flags: seq<string>): string { if flags == [] then [] else Join(flags, ", ") }

  function PartFields(unit: string, p: DiskPart): (r: seq<string>)
    ensures |r| == if unit == "chs" then 6 else 7
  {
    var num, begin, end := Decimal(p.num), PrintExtent(p.begin, unit), PrintExtent(p.end, unit);
    if unit == "chs" then [num, begin, end, p.fstype, p.name, PrintFlags(p.flags)]
    else [num, begin, end, PrintExtent(p.size, unit), p.fstype, p.name, PrintFlags(p.flags)]
  }

  function DiskFields(unit: string, d: Disk): seq<string> {
    [d.dev, PrintExtent(d.size, unit), d.transport, Decimal(d.logicalBlock), Decimal(d.physicalBlock), d.table, d.model]
  }

  function GeometryFields(g: DiskGeometry): seq<string> {
    [Decimal(g.cylinders), Decimal(g.heads), Decimal(g.sectors), PrintNumber(g.cylSize) + g.cylUnit]
  }

  /** The first line names the format: cylinders, cylinder-head-sector triples, or bytes. */
  function Tag(unit: string): string { if unit == "cyl" then "CYL;" else if unit == "chs" then "CHS;" else "BYT;" }

  function PartRows(unit: string, parts: seq<DiskPart>): seq<string> {
    if parts == [] then []
    else PartRows(unit, parts[..|parts| - 1]) + [Row(PartFields(unit, parts[|parts| - 1]))]
  }

  function Rows(unit: string, d: Disk): seq<string> {
    [Tag(unit), Row(DiskFields(unit, d))]
    + (if Tag(unit) != "BYT;" then [Row(GeometryFields(d.geometry))] else [])
    + PartRows(unit, d.parts)
  }

  /** Every row ends with a line break. */
  function PrintDisk(unit: string, d: Disk): string { Join(Rows(unit, d) + [""], "\n") }

  // ---------- what a report should say ----------

  ghost function PartMeaning(unit: string, p: DiskPart): PartInfo
    requires ValidPart(unit, p)
  {
    PartInfo(p.num, SizeOf(p.begin), SizeOf(p.end), if unit == "chs" then None else Some(SizeOf(p.size)),
             p.fstype, p.flags, Lower(unit))
  }

  ghost function PartMeanings(unit: string, parts: seq<DiskPart>): seq<PartInfo>
    requires forall p | p in parts :: ValidPart(unit, p)
  {
    if parts == [] then []
    else
      assert parts[|parts| - 1] in parts;
      PartMeanings(unit, parts[..|parts| - 1]) + [PartMeaning(unit, parts[|parts| - 1])]
  }

  ghost function Meaning(unit: string, d: Disk): Report
    requires ValidDisk(unit, d)
  {
    var g := d.geometry;
    Report(Generic(d.dev, SizeOf(d.size), Lower(unit), d.table, d.model, d.logicalBlock, d.physicalBlock,
                   if Tag(unit) != "BYT;" then
                     Some(Geometry(g.cylinders, g.heads, g.sectors, Amount(ValueOf(g.cylSize)), Lower(g.cylUnit)))
                   else None),
           PartMeanings(unit, d.parts))
  }

  // ---------- what can be printed ----------

  /** No character that separates fields or lines. */
  predicate Plain(s: string) { ':' !in s && '\n' !in s }

  predicate FlagName(f: string) { f != [] && Plain(f) && ',' !in f && Strip(f) == f && !EndsWith(f, ';') }

  /** Positions are triples in the CHS format and numbers in the others. */
  predicate FitsUnit(unit: string, e: Extent) { ValidExtent(e) && (e.Triple? <==> unit == "chs") }

  ghost predicate ValidPart(unit: string, p: DiskPart) {
    && FitsUnit(unit, p.begin) && FitsUnit(unit, p.end) && FitsUnit(unit, p.size)
    && Plain(p.fstype) && Plain(p.name) && forall f | f in p.flags :: FlagName(f)
  }

  ghost predicate ValidDisk(unit: string, d: Disk) {
    && UnitName(unit) && FitsUnit(unit, d.size)
    && Plain(d.dev) && Plain(d.transport) && Plain(d.table) && Plain(d.model) && !EndsWith(d.model, ';')
    && AllDigits(d.geometry.cylSize.frac) && UnitName(d.geometry.cylUnit)
    && forall p | p in d.parts :: ValidPart(unit, p)
  }

  // ---------- reading undoes printing ----------

  lemma PlainNumber(n: nat)
    ensures Plain(Decimal(n)) && Decimal(n) != [] && ParseInt(Decimal(n)) == Some(n)
  {
    ParseDecimalInt(n);
    assert !IsDigit(':') && !IsDigit('\n');
    hide Decimal, ParseInt;
  }

  lemma PlainExtent(unit: string, e: Extent)
    requires FitsUnit(unit, e) && UnitName(unit)
    ensures Plain(PrintExtent(e, unit))
  {
    assert !IsDigit(':') && !IsDigit('\n') && !WordChar(':') && !WordChar('\n');
    match e
    case Linear(n) =>
      hide Decimal;
    case Triple(c, h, s) =>
      JoinThree(Decimal(c), Decimal(h), Decimal(s));
      hide Decimal;
  }

  lemma {:induction false} PlainJoin(parts: seq<string>, sep: string)
    requires parts != [] && Plain(sep) && forall p | p in parts :: Plain(p)
    ensures Plain(Join(parts, sep))
  {
    assert parts[0] in parts;
    if |parts| > 1 {
      forall p | p in parts[1..] ensures Plain(p) { assert p in parts; }
      PlainJoin(parts[1..], sep);
    }
  }

  lemma {:induction false} LastOfJoin(parts: seq<string>, sep: string)
    requires parts != [] && parts[|parts| - 1] != []
    ensures Join(parts, sep) != [] && Join(parts, sep)[|Join(parts, sep)| - 1] == parts[|parts| - 1][|parts[|parts| - 1]| - 1]
  {
    if |parts| > 1 {
      LastOfJoin(parts[1..], sep);
      var tail := Join(parts[1..], sep);
      assert Join(parts, sep) == (parts[0] + sep) + tail;
    }
  }

  lemma FlagsBack(flags: seq<string>)
    requires forall f | f in flags :: FlagName(f)
    ensures ReadFlags(Split(PrintFlags(flags), ", ")) == flags
    ensures Plain(PrintFlags(flags)) && !EndsWith(PrintFlags(flags), ';')
  {
    if flags == [] {
      NoFlagsBack();
    } else {
      hide Split, Join, ReadFlags, Strip;
      FlagsKept(flags);
      SplitFlags(flags);
      LastFlag(flags);
    }
  }

  lemma SplitFlags(flags: seq<string>)
    requires flags != [] && forall f | f in flags :: FlagName(f)
    ensures Split(Join(flags, ", "), ", ") == flags && Plain(Join(flags, ", "))
  {
    hide Split, Join, Strip, EndsWith;
    var sep := ", ";
    assert sep[0] == ',' && Plain(sep);
    SplitJoin(flags, sep);
    PlainJoin(flags, sep);
  }

  lemma LastFlag(flags: seq<string>)
    requires flags != [] && forall f | f in flags :: FlagName(f)
    ensures !EndsWith(Join(flags, ", "), ';')
  {
    hide Join, Strip, Plain;
    var last := flags[|flags| - 1];
    assert last in flags;
    LastOfJoin(flags, ", ");
  }

  lemma NoFlagsBack()
    ensures ReadFlags(Split("", ", ")) == []
  {
    assert Split("", ", ") == [""];
    assert [""][..0] == [];
    hide Split, Strip;
  }

  lemma {:induction false} FlagsKept(flags: seq<string>)
    requires forall f | f in flags :: FlagName(f)
    ensures ReadFlags(flags) == flags
  {
    hide Strip, FlagName;
    if flags != [] {
      var n := |flags| - 1;
      var init, last := flags[..n], flags[n];
      assert last in flags && forall f | f in init :: f in flags;
      FlagsKept(init);
      FlagStays(last);
      assert flags == init + [last];
    }
  }

  lemma FlagStays(f: string)
    requires FlagName(f)
    ensures f != [] && Strip(f) == f
  {
    hide Strip;
  }

  lemma PartBack(unit: string, p: DiskPart)
    requires UnitName(unit) && ValidPart(unit, p)
    ensures ReadPart(Row(PartFields(unit, p)), unit) == Some(PartMeaning(unit, p))
  {
    hide Row, Fields, ParseUnit, PrintExtent, Decimal, ParseInt, ReadFlags, Split, PrintFlags, Lower, SizeOf,
         Plain, FlagName, UnitName;
    PartFieldsBack(unit, p);
    PlainNumber(p.num);
    ParsePrintedUnit(p.begin, unit, "");
    ParsePrintedUnit(p.end, unit, "");
    if unit != "chs" { ParsePrintedUnit(p.size, unit, ""); }
    FlagsBack(p.flags);
  }

  lemma PartFieldsBack(unit: string, p: DiskPart)
    requires UnitName(unit) && ValidPart(unit, p)
    ensures Fields(Row(PartFields(unit, p))) == PartFields(unit, p)
    ensures forall f | f in PartFields(unit, p) :: Plain(f)
  {
    PlainNumber(p.num);
    PlainExtent(unit, p.begin);
    PlainExtent(unit, p.end);
    PlainExtent(unit, p.size);
    FlagsBack(p.flags);
    hide Decimal, PrintExtent, PrintFlags, FitsUnit, FlagName, UnitName, ReadFlags, Split, Row, Fields, ParseInt;
    var num, begin, end, size, flags :=
      Decimal(p.num), PrintExtent(p.begin, unit), PrintExtent(p.end, unit), PrintExtent(p.size, unit), PrintFlags(p.flags);
    if unit == "chs" {
      FieldsOfSix(num, begin, end, p.fstype, p.name, flags);
    } else {
      FieldsOfSeven(num, begin, end, size, p.fstype, p.name, flags);
    }
  }

  lemma FieldsOfSix(a: string, b: string, c: string, d: string, e: string, f: string)
    requires Plain(a) && Plain(b) && Plain(c) && Plain(d) && Plain(e) && Plain(f) && !EndsWith(f, ';')
    ensures Fields(Row([a, b, c, d, e, f])) == [a, b, c, d, e, f]
    ensures forall x | x in [a, b, c, d, e, f] :: Plain(x)
  {
    hide Fields, Row;
    FieldsOfRow([a, b, c, d, e, f]);
  }

  lemma FieldsOfSeven(a: string, b: string, c: string, d: string, e: string, f: string, g: string)
    requires Plain(a) && Plain(b) && Plain(c) && Plain(d) && Plain(e) && Plain(f) && Plain(g) && !EndsWith(g, ';')
    ensures Fields(Row([a, b, c, d, e, f, g])) == [a, b, c, d, e, f, g]
    ensures forall x | x in [a, b, c, d, e, f, g] :: Plain(x)
  {
    hide Fields, Row;
    FieldsOfRow([a, b, c, d, e, f, g]);
  }

  lemma DiskFieldsBack(unit: string, d: Disk)
    requires ValidDisk(unit, d)
    ensures Fields(Row(DiskFields(unit, d))) == DiskFields(unit, d)
    ensures forall f | f in DiskFields(unit, d) :: Plain(f)
  {
    PlainNumber(d.logicalBlock);
    PlainNumber(d.physicalBlock);
    PlainExtent(unit, d.size);
    hide Decimal, PrintExtent, FitsUnit, UnitName, ValidPart, Row, Fields, ParseInt;
    FieldsOfRow(DiskFields(unit, d));
  }

  lemma GenericBack(unit: string, d: Disk, any: string)
    requires ValidDisk(unit, d)
    ensures ReadGeneric(Row(DiskFields(unit, d)), any) ==
      Some((Generic(d.dev, SizeOf(d.size), Lower(unit), d.table, d.model, d.logicalBlock, d.physicalBlock, None), unit))
  {
    DiskFieldsBack(unit, d);
    PlainNumber(d.logicalBlock);
    PlainNumber(d.physicalBlock);
    ParsePrintedUnit(d.size, unit, any);
    hide Row, Fields, ParseUnit, PrintExtent, Decimal, ParseInt, Lower, SizeOf, Plain, ValidPart;
  }

  lemma GeometryFieldsBack(g: DiskGeometry)
    requires AllDigits(g.cylSize.frac) && UnitName(g.cylUnit)
    ensures Fields(Row(GeometryFields(g))) == GeometryFields(g)
    ensures forall f | f in GeometryFields(g) :: Plain(f)
  {
    PlainNumber(g.cylinders);
    PlainNumber(g.heads);
    PlainNumber(g.sectors);
    PlainLinear(g.cylSize, g.cylUnit);
    hide Decimal, PrintNumber, UnitName, Row, Fields, ParseInt;
    FieldsOfRow(GeometryFields(g));
  }

  lemma PlainLinear(n: Number, unit: string)
    requires AllDigits(n.frac) && UnitName(unit)
    ensures Plain(PrintNumber(n) + unit) && !EndsWith(PrintNumber(n) + unit, ';')
  {
    assert !IsDigit(':') && !IsDigit('\n') && !WordChar(':') && !WordChar('\n') && !WordChar(';');
    var s := PrintNumber(n) + unit;
    assert s[|s| - 1] == unit[|unit| - 1];
    hide Decimal;
  }

  lemma GeometryBack(g: DiskGeometry)
    requires AllDigits(g.cylSize.frac) && UnitName(g.cylUnit)
    ensures ReadGeometry(Row(GeometryFields(g))) ==
      Some(Geometry(g.cylinders, g.heads, g.sectors, Amount(ValueOf(g.cylSize)), Lower(g.cylUnit)))
  {
    GeometryFieldsBack(g);
    PlainNumber(g.cylinders);
    PlainNumber(g.heads);
    PlainNumber(g.sectors);
    ParsePrintedUnit(Linear(g.cylSize), g.cylUnit, "");
    hide Row, Fields, ParseUnit, Decimal, ParseInt, Lower, PrintNumber, Plain, ValueOf;
  }

  lemma {:induction false} PartsBack(unit: string, parts: seq<DiskPart>)
    requires UnitName(unit) && forall p | p in parts :: ValidPart(unit, p)
    ensures ReadParts(PartRows(unit, parts), unit) == Some(PartMeanings(unit, parts))
    ensures |PartRows(unit, parts)| == |parts|
  {
    hide ReadPart, ValidPart, PartMeaning, Row, UnitName;
    if parts != [] {
      var n := |parts| - 1;
      assert parts[n] in parts;
      PartsBack(unit, parts[..n]);
      PartBack(unit, parts[n]);
      var rows := PartRows(unit, parts[..n]);
      assert PartRows(unit, parts) == rows + [Row(PartFields(unit, parts[n]))];
      assert (rows + [Row(PartFields(unit, parts[n]))])[..|rows|] == rows;
    }
  }

  // ---------- lines ----------

  /** A row is one line, and not a blank one. */
  predicate Line(s: string) { '\n' !in s && Strip(s) != [] }

  lemma {:induction false} StripKeeps(s: string, i: nat)
    requires i < |s| && !IsSpace(s[i])
    ensures Strip(s) != []
  {
    if IsSpace(s[0]) {
      StripKeeps(s[1..], i - 1);
    } else if IsSpace(s[|s| - 1]) {
      StripKeeps(s[..|s| - 1], i);
    }
  }

  lemma RowIsLine(fields: seq<string>)
    requires fields != [] && forall f | f in fields :: Plain(f)
    ensures Line(Row(fields))
  {
    var s := Row(fields);
    NoBreak(fields);
    StripKeeps(s, |s| - 1);
    hide Strip, Join;
  }

  lemma {:induction false} NoBreak(fields: seq<string>)
    requires fields != [] && forall f | f in fields :: Plain(f)
    ensures '\n' !in Join(fields, ":")
  {
    assert fields[0] in fields;
    if |fields| > 1 {
      forall f | f in fields[1..] ensures Plain(f) { assert f in fields; }
      NoBreak(fields[1..]);
    }
  }

  lemma {:induction false} PartRowsAreLines(unit: string, parts: seq<DiskPart>)
    requires UnitName(unit) && forall p | p in parts :: ValidPart(unit, p)
    ensures forall s | s in PartRows(unit, parts) :: Line(s)
  {
    hide ValidPart, Row, UnitName, Line, Plain;
    if parts != [] {
      var n := |parts| - 1;
      assert parts[n] in parts;
      PartRowsAreLines(unit, parts[..n]);
      PartFieldsBack(unit, parts[n]);
      RowIsLine(PartFields(unit, parts[n]));
    }
  }

  lemma RowsAreLines(unit: string, d: Disk)
    requires ValidDisk(unit, d)
    ensures forall s | s in Rows(unit, d) :: Line(s)
  {
    DiskFieldsBack(unit, d);
    RowIsLine(DiskFields(unit, d));
    GeometryFieldsBack(d.geometry);
    RowIsLine(GeometryFields(d.geometry));
    PartRowsAreLines(unit, d.parts);
    TagIsLine(unit);
    hide Line, Row, DiskFields, GeometryFields, Tag, PartRows, ValidPart;
  }

  lemma TagIsLine(unit: string)
    ensures Line(Tag(unit))
  {
    StripKeeps(Tag(unit), 3);
    hide Strip;
  }

  lemma {:induction false} LinesKept(lines: seq<string>)
    requires forall s | s in lines :: Line(s)
    ensures NonBlank(lines) == lines
  {
    hide Strip;
    if lines != [] {
      var n := |lines| - 1;
      assert lines[n] in lines;
      LinesKept(lines[..n]);
    }
  }

  lemma LinesBack(lines: seq<string>)
    requires forall s | s in lines :: Line(s)
    ensures NonBlank(Split(Join(lines + [""], "\n"), "\n")) == lines
  {
    var all := lines + [""];
    forall s | s in all ensures "\n"[0] !in s { }
    SplitJoin(all, "\n");
    LinesKept(lines);
    assert all[..|all| - 1] == lines;
    assert Strip("") == "";
    hide Split, Join, Strip, Line;
  }

  /** The formats with a geometry are the ones read with one. */
  lemma TagsGeometry(unit: string)
    ensures HasGeometry(unit) <==> Tag(unit) != "BYT;"
  {
  }

  /** Blanks around a flag do not count, and an empty entry is none. */
  lemma PaddedFlag(flags: seq<string>, a: string, flag: string, b: string)
    requires Blank(a) && Blank(b) && Unspaced(flag)
    ensures ReadFlags(flags + [a + flag + b]) == ReadFlags(flags) + (if a + flag + b == [] then [] else [flag])
  {
    var all := flags + [a + flag + b];
    assert all[..|all| - 1] == flags;
    StripOnly(a, flag, b);
  }

  /** A line of nothing but blanks does not count. */
  lemma BlankLine(lines: seq<string>, line: string)
    ensures NonBlank(lines + [line]) == NonBlank(lines) + (if Blank(line) then [] else [line])
  {
    var all := lines + [line];
    assert all[..|all| - 1] == lines;
    StripsToNothing(line);
  }

  /** Reading what parted prints, in bytes, cylinders or triples, gives the disk and its
      partitions back, in order and with their flags, and the geometry where it is due,
      whatever unit was asked for. */
  lemma ReadUndoesPrint(unit: string, d: Disk, any: string)
    requires ValidDisk(unit, d)
    ensures ReadReport(PrintDisk(unit, d), any) == Some(Meaning(unit, d))
  {
    hide ReadGeneric, ReadGeometry, ReadParts, NonBlank, Split, Join, Line, Row, DiskFields, GeometryFields, Tag, HasGeometry,
         PartRows, ValidPart, UnitName, FitsUnit, Plain, SizeOf, ValueOf, Lower, Among, AllDigits, EndsWith;
    TagsGeometry(unit);
    RowsAreLines(unit, d);
    LinesBack(Rows(unit, d));
    GenericBack(unit, d, any);
    GeometryBack(d.geometry);
    PartsBack(unit, d.parts);
    var lines := Rows(unit, d);
    var rows := PartRows(unit, d.parts);
    if HasGeometry(unit) {
      assert lines[3..] == rows;
    } else {
      assert lines[2..] == rows;
    }
  }
}
