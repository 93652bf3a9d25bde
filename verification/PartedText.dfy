/** Text and sizes in parted's machine-readable output: `str.split`, `rstrip` and `parse_unit`
    (lib/modules/parted.py). */
module PartedText {
  import opened Strings

  // ---------- split and join ----------

  /** The position of the first `sep` in `s`, or `|s|`. */
  function First(s: string, sep: string): (i: nat)
    requires sep != []
    ensures i <= |s|
    ensures i < |s| ==> sep <= s[i..]
  {
    if s == [] || sep <= s then 0 else 1 + First(s[1..], sep)
  }

  function Split(s: string, sep: string): (r: seq<string>)
    requires sep != []
    ensures |r| > 0
    decreases |s|
  {
    var i := First(s, sep);
    if i == |s| then [s] else [s[..i]] + Split(s[i + |sep|..], sep)
  }

  function Join(parts: seq<string>, sep: string): string
    requires parts != []
  {
    if |parts| == 1 then parts[0] else parts[0] + sep + Join(parts[1..], sep)
  }

  lemma {:induction false} FirstAfter(a: string, sep: string, b: string)
    requires sep != [] && sep[0] !in a
    ensures First(a + sep + b, sep) == |a|
  {
    var s := a + sep + b;
    if a == [] {
      assert s == sep + b;
    } else {
      assert s[1..] == a[1..] + sep + b;
      assert s[0] == a[0] != sep[0];
      FirstAfter(a[1..], sep, b);
    }
  }

  lemma {:induction false} FirstNone(a: string, sep: string)
    requires sep != [] && sep[0] !in a
    ensures First(a, sep) == |a|
  {
    if a != [] {
      assert a[0] != sep[0];
      FirstNone(a[1..], sep);
    }
  }

  /** Splitting undoes joining, for parts without the separator's first character. */
  lemma {:induction false} SplitJoin(parts: seq<string>, sep: string)
    requires parts != [] && sep != [] && forall p | p in parts :: sep[0] !in p
    ensures Split(Join(parts, sep), sep) == parts
  {
    assert parts[0] in parts;
    if |parts| == 1 {
      FirstNone(parts[0], sep);
      assert parts == [parts[0]];
    } else {
      var rest := parts[1..];
      FirstAfter(parts[0], sep, Join(rest, sep));
      var s := Join(parts, sep);
      assert s == parts[0] + sep + Join(rest, sep);
      assert s[|parts[0]| + |sep|..] == Join(rest, sep);
      assert s[..|parts[0]|] == parts[0];
      forall p | p in rest ensures sep[0] !in p { assert p in parts; }
      SplitJoin(rest, sep);
      assert parts == [parts[0]] + rest;
    }
  }

  /** `s.rstrip(';')` */
  function StripEnd(s: string): string {
    if s != [] && s[|s| - 1] == ';' then StripEnd(s[..|s| - 1]) else s
  }

  /** All semicolons at the end go, and nothing else. */
  lemma {:induction false} StripEndIs(s: string)
    ensures var t := StripEnd(s);
      t <= s && !EndsWith(t, ';') && forall i | |t| <= i < |s| :: s[i] == ';'
  {
    if EndsWith(s, ';') { StripEndIs(s[..|s| - 1]); }
  }

  predicate EndsWith(s: string, ch: char) { s != [] && s[|s| - 1] == ch }

  lemma {:induction false} JoinEnd(parts: seq<string>)
    requires parts != [] && !EndsWith(parts[|parts| - 1], ';')
    ensures !EndsWith(Join(parts, ":"), ';')
  {
    if |parts| > 1 {
      JoinEnd(parts[1..]);
      var tail := Join(parts[1..], ":");
      assert Join(parts, ":") == (parts[0] + ":") + tail;
    }
  }

  /** A line's fields: `line.rstrip(';').split(':')`. */
  function Fields(line: string): seq<string> { Split(StripEnd(line), ":") }

  function Row(fields: seq<string>): string
    requires fields != []
  {
    Join(fields, ":") + ";"
  }

  predicate NoColon(fields: seq<string>) { forall f | f in fields :: ':' !in f }

  lemma FieldsOfRow(fields: seq<string>)
    requires fields != [] && NoColon(fields) && !EndsWith(fields[|fields| - 1], ';')
    ensures Fields(Row(fields)) == fields
  {
    JoinEnd(fields);
    var s := Join(fields, ":");
    assert (s + ";")[..|s|] == s;
    assert StripEnd(s) == s && StripEnd(s + ";") == s;
    SplitJoin(fields, ":");
    hide Split, Join;
  }

  // ---------- numbers ----------

  /** A number as parted writes it, with digits after the point or none. */
  datatype Number = Number(whole: nat, frac: string)

  function PrintNumber(n: Number): string {
    Decimal(n.whole) + (if n.frac == [] then [] else "." + n.frac)
  }

  ghost function ValueOf(n: Number): real
    requires AllDigits(n.frac)
  {
    n.whole as real + Numeral(n.frac) as real / Pow(10, |n.frac|) as real
  }

  predicate NumberChar(ch: char) { IsDigit(ch) || ch == '.' }

  predicate WordChar(ch: char) { IsDigit(ch) || 'a' <= ch <= 'z' || 'A' <= ch <= 'Z' || ch == '_' || ch == '%' }

  predicate Among(p: char -> bool, s: string) { forall i | 0 <= i < |s| :: p(s[i]) }

  /** `float(s)` for digits and points; `None` stands for ValueError. */
  function ParseFloat(s: string): Option<real>
    requires Among(NumberChar, s)
  {
    var i := IndexOf(s, '.');
    var frac := if i < |s| then s[i + 1..] else [];
    if '.' in frac || s[..i] + frac == [] then None
    else
      assert AllDigits(s[..i] + frac);
      Some(Numeral(s[..i] + frac) as real / Pow(10, |frac|) as real)
  }

  lemma {:induction false} NumeralAppend(a: string, b: string)
    requires AllDigits(a) && AllDigits(b)
    ensures AllDigits(a + b) && Numeral(a + b) == Numeral(a) * Pow(10, |b|) + Numeral(b)
  {
    var s := a + b;
    if b == [] {
      assert s == a;
    } else {
      var n := |s| - 1;
      assert s[..n] == a + b[..|b| - 1] && s[n] == b[|b| - 1];
      NumeralAppend(a, b[..|b| - 1]);
      Regroup(Numeral(a), Pow(10, |b| - 1));
    }
  }

  lemma Regroup(x: nat, p: nat)
    ensures 10 * (x * p) == x * (10 * p)
  {
  }

  lemma NumberChars(n: Number)
    requires AllDigits(n.frac)
    ensures Among(NumberChar, PrintNumber(n))
  {
  }

  /** Reading a printed number gives its value. */
  lemma ParsePrintedNumber(n: Number)
    requires AllDigits(n.frac)
    ensures Among(NumberChar, PrintNumber(n)) && ParseFloat(PrintNumber(n)) == Some(ValueOf(n))
  {
    var d := Decimal(n.whole);
    NumberChars(n);
    NumeralDecimal(n.whole);
    hide Decimal, Numeral, ParseFloat, Among, ValueOf, NumberChar;
    if n.frac == [] {
      assert PrintNumber(n) == d;
      ParseWhole(d);
      WholeValue(n);
    } else {
      assert PrintNumber(n) == d + "." + n.frac;
      ParseBroken(d, n.frac);
      BrokenValue(n, d);
    }
  }

  lemma WholeValue(n: Number)
    requires n.frac == []
    ensures ValueOf(n) == n.whole as real
  {
    NumeralEmpty();
    assert Pow(10, 0) == 1;
  }

  lemma BrokenValue(n: Number, d: string)
    requires AllDigits(n.frac) && AllDigits(d) && Numeral(d) == n.whole
    ensures AllDigits(d + n.frac) && Numeral(d + n.frac) as real / Pow(10, |n.frac|) as real == ValueOf(n)
  {
    NumeralAppend(d, n.frac);
    hide Numeral, Pow, AllDigits;
    Quotient(n.whole, Pow(10, |n.frac|), Numeral(n.frac));
  }

  lemma ParseWhole(d: string)
    requires AllDigits(d) && d != []
    ensures Among(NumberChar, d) && ParseFloat(d) == Some(Numeral(d) as real)
  {
    assert !IsDigit('.');
    assert IndexOf(d, '.') == |d| && d[..|d|] + [] == d;
    assert Pow(10, 0) == 1;
    hide Numeral;
  }

  lemma ParseBroken(d: string, f: string)
    requires AllDigits(d) && AllDigits(f) && d != []
    ensures Among(NumberChar, d + "." + f) && AllDigits(d + f)
    ensures ParseFloat(d + "." + f) == Some(Numeral(d + f) as real / Pow(10, |f|) as real)
  {
    var s := d + "." + f;
    assert !IsDigit('.');
    IndexOfAfter(d, '.', f);
    assert s == d + ['.'] + f;
    assert s[|d| + 1..] == f && s[..|d|] == d;
    hide Numeral, Pow;
  }

  lemma NumeralEmpty()
    ensures Numeral("") == 0
  {
  }

  lemma Quotient(w: nat, p: nat, f: nat)
    requires p > 0
    ensures (w * p + f) as real / p as real == w as real + f as real / p as real
  {
    var x, y := w as real, p as real;
    assert (w * p + f) as real == x * y + f as real;
    assert (x * y) / y == x;
  }

  // ---------- parse_unit ----------

  datatype Size = Amount(x: real) | Chs(cylinder: nat, head: nat, sector: nat)

  /** The length of the longest run of digits and points that `s` begins with. */
  function NumberPrefix(s: string): (i: nat)
    ensures i <= |s| && Among(NumberChar, s[..i])
    ensures i < |s| ==> !NumberChar(s[i])
  {
    if s == [] || !NumberChar(s[0]) then 0
    else
      var i := 1 + NumberPrefix(s[1..]);
      assert s[..i] == [s[0]] + s[1..][..i - 1];
      i
  }

  /** `$` also matches before a final line break. */
  function Chop(s: string): string { if EndsWith(s, '\n') then s[..|s| - 1] else s }

  /** `parse_unit`; `None` is its failure. */
  function ParseUnit(s: string, unit: string): Option<(Size, string)> {
    var t := Chop(s);
    var i := NumberPrefix(t);
    if i > 0 && Among(WordChar, t[i..]) then
      match ParseFloat(t[..i])
      case None => None
      case Some(x) => Some((Amount(x), if i < |t| then t[i..] else unit))
    else
      var f := Split(t, ",");
      if |f| == 3 && f[0] != [] && f[1] != [] && f[2] != [] && AllDigits(f[0]) && AllDigits(f[1]) && AllDigits(f[2]) then
        Some((Chs(Numeral(f[0]), Numeral(f[1]), Numeral(f[2])), "chs"))
      else None
  }

  /** What parted prints for a position or a length. */
  datatype Extent = Linear(n: Number) | Triple(c: nat, h: nat, s: nat)

  function PrintExtent(e: Extent, unit: string): string {
    match e
    case Linear(n) => PrintNumber(n) + unit
    case Triple(c, h, s) => Join([Decimal(c), Decimal(h), Decimal(s)], ",")
  }

  ghost function SizeOf(e: Extent): Size
    requires e.Linear? ==> AllDigits(e.n.frac)
  {
    match e
    case Linear(n) => Amount(ValueOf(n))
    case Triple(c, h, s) => Chs(c, h, s)
  }

  /** A unit that is told apart from the number it follows. */
  predicate UnitName(unit: string) {
    unit != [] && Among(WordChar, unit) && !IsDigit(unit[0])
  }

  predicate ValidExtent(e: Extent) { e.Linear? ==> AllDigits(e.n.frac) }

  lemma {:induction false} PrefixOfNumber(a: string, b: string)
    requires Among(NumberChar, a) && (b == [] || !NumberChar(b[0]))
    ensures NumberPrefix(a + b) == |a|
  {
    var s := a + b;
    if a == [] {
      assert s == b;
    } else {
      assert s[1..] == a[1..] + b;
      PrefixOfNumber(a[1..], b);
    }
  }

  /** Reading what parted prints gives the size and the unit back. */
  lemma ParsePrintedUnit(e: Extent, unit: string, any: string)
    requires ValidExtent(e) && UnitName(unit)
    ensures ParseUnit(PrintExtent(e, unit), any) == Some((SizeOf(e), if e.Linear? then unit else "chs"))
  {
    match e
    case Linear(n) =>
      var d := PrintNumber(n);
      var t := d + unit;
      ParsePrintedNumber(n);
      PrintedNotEmpty(n);
      assert t[|t| - 1] == unit[|unit| - 1];
      assert Chop(t) == t;
      PrefixOfNumber(d, unit);
      assert t[..|d|] == d && t[|d|..] == unit;
      hide NumberPrefix, ParseFloat, PrintNumber, Split;
    case Triple(c, h, s) =>
      ParsePrintedTriple(c, h, s, any);
  }

  /** A number alone takes the unit that was passed in. */
  lemma ParseBareNumber(n: Number, unit: string)
    requires AllDigits(n.frac)
    ensures ParseUnit(PrintNumber(n), unit) == Some((Amount(ValueOf(n)), unit))
  {
    var d := PrintNumber(n);
    ParsePrintedNumber(n);
    PrintedNotEmpty(n);
    NumberNotChopped(d);
    PrefixOfNumber(d, "");
    assert d + "" == d && d[..|d|] == d && d[|d|..] == "";
    hide NumberPrefix, ParseFloat, PrintNumber, Split, Chop, NumberChar;
  }

  lemma NumberNotChopped(d: string)
    requires Among(NumberChar, d)
    ensures Chop(d) == d
  {
    if d != [] { assert NumberChar(d[|d| - 1]); }
  }

  lemma PrintedNotEmpty(n: Number)
    ensures PrintNumber(n) != []
  {
  }

  lemma ParsePrintedTriple(c: nat, h: nat, s: nat, any: string)
    ensures ParseUnit(Join([Decimal(c), Decimal(h), Decimal(s)], ","), any) == Some((Chs(c, h, s), "chs"))
  {
    var x, y, z := Decimal(c), Decimal(h), Decimal(s);
    NumeralDecimal(c);
    NumeralDecimal(h);
    NumeralDecimal(s);
    hide Decimal, Numeral;
    var parts := [x, y, z];
    var t := Join(parts, ",");
    JoinThree(x, y, z);
    NotANumber(x, y, z);
    SplitDigits(x, y, z);
    hide NumberPrefix, Split, Join, Chop, Among, ParseFloat, NumberChar, WordChar;
  }

  lemma SplitDigits(x: string, y: string, z: string)
    requires AllDigits(x) && AllDigits(y) && AllDigits(z)
    ensures Split(Join([x, y, z], ","), ",") == [x, y, z]
  {
    assert !IsDigit(',');
    assert forall p | p in [x, y, z] :: ',' !in p;
    SplitJoin([x, y, z], ",");
  }

  lemma NotANumber(x: string, y: string, z: string)
    requires AllDigits(x) && AllDigits(z) && x != [] && z != []
    ensures var t := x + "," + y + "," + z;
      Chop(t) == t && !Among(WordChar, t[NumberPrefix(t)..])
  {
    var t := x + "," + y + "," + z;
    assert t == x + ("," + y + "," + z);
    assert t[|t| - 1] == z[|z| - 1];
    PrefixOfNumber(x, "," + y + "," + z);
    assert t[|x|..][0] == ',';
    assert !WordChar(',');
    hide NumberPrefix;
  }

  lemma JoinThree(x: string, y: string, z: string)
    ensures Join([x, y, z], ",") == x + "," + y + "," + z
  {
    assert [x, y, z][1..] == [y, z];
    assert [y, z][1..] == [z];
    assert Join([y, z], ",") == y + "," + Join([z], ",");
  }

  /** Letters, digits, underscores and per cent signs make words; digits and points numbers. */
  lemma CharsAre(ch: char)
    ensures WordChar(ch) <==> ch in LOWER_CASE + UPPER_CASE + DIGITS + "_%"
    ensures NumberChar(ch) <==> ch in DIGITS + "."
  {
    LowerCase(ch);
    UpperCase(ch);
    Digit(ch);
    hide LOWER_CASE, UPPER_CASE, DIGITS;
  }

  // ---------- what can be read at all ----------

  /** One digit or more, and at most one point, anywhere. */
  ghost predicate Numeric(s: string) {
    (s != [] && AllDigits(s)) || exists a, b :: AllDigits(a) && AllDigits(b) && a + b != [] && s == a + "." + b
  }

  lemma NumericReads(s: string)
    ensures Numeric(s) <==> Among(NumberChar, s) && ParseFloat(s).Some?
  {
    if a, b :| AllDigits(a) && AllDigits(b) && a + b != [] && s == a + "." + b { BrokenReads(a, b); }
    if s != [] && AllDigits(s) { ParseWhole(s); }
    if Among(NumberChar, s) && ParseFloat(s).Some? { ReadIsNumeric(s); }
  }

  lemma BrokenReads(a: string, b: string)
    requires AllDigits(a) && AllDigits(b) && a + b != []
    ensures Among(NumberChar, a + "." + b) && ParseFloat(a + "." + b).Some?
  {
    var s := a + "." + b;
    assert !IsDigit('.');
    assert s == a + ['.'] + b;
    IndexOfAfter(a, '.', b);
    assert s[..|a|] == a && s[|a| + 1..] == b;
  }

  lemma ReadIsNumeric(s: string)
    requires Among(NumberChar, s) && ParseFloat(s).Some?
    ensures Numeric(s)
  {
    var i := IndexOf(s, '.');
    var a := s[..i];
    assert AllDigits(a);
    if i == |s| {
      assert a == s && a + [] == a;
    } else {
      var b := s[i + 1..];
      assert AllDigits(b) && s == a + "." + b;
    }
  }

  /** Joining undoes splitting. */
  lemma {:induction false} JoinSplit(s: string, sep: string)
    requires sep != []
    ensures Join(Split(s, sep), sep) == s
    decreases |s|
  {
    var i := First(s, sep);
    hide First;
    if i < |s| {
      var rest := s[i + |sep|..];
      JoinSplit(rest, sep);
      assert Split(s, sep) == [s[..i]] + Split(rest, sep);
      hide Split;
      JoinFirst(s[..i], Split(rest, sep), sep);
      CutAt(s, i, sep);
    }
  }

  lemma JoinFirst(part: string, rest: seq<string>, sep: string)
    requires rest != []
    ensures Join([part] + rest, sep) == part + sep + Join(rest, sep)
  {
    assert ([part] + rest)[1..] == rest;
  }

  lemma CutAt(s: string, i: nat, sep: string)
    requires i <= |s| && sep <= s[i..]
    ensures s == s[..i] + sep + s[i + |sep|..]
  {
    assert s == s[..i] + s[i..] && s[i..] == sep + s[i..][|sep|..];
    assert s[i..][|sep|..] == s[i + |sep|..];
  }

  predicate DigitRun(s: string) { s != [] && AllDigits(s) }

  /** The text and nothing else, a line break at the end aside. */
  predicate Just(s: string, text: string) { s == text || s == text + "\n" }

  lemma ChopIs(s: string, text: string)
    requires !EndsWith(text, '\n')
    ensures Chop(s) == text <==> Just(s, text)
  {
    if EndsWith(s, '\n') {
      assert s == s[..|s| - 1] + "\n";
    }
    assert (text + "\n")[..|text|] == text;
  }

  /** Every size that `parse_unit` reads, and the unit it finds: a number and a word, or three
      runs of digits; `$` allows for a line break at the end. */
  lemma ParseUnitIff(s: string, unit: string)
    requires UnitName(unit)
    ensures ParseUnit(s, "").Some? && ParseUnit(s, "").value.1 == unit <==>
      || (exists num :: Numeric(num) && Just(s, num + unit))
      || (unit == "chs" && exists x, y, z :: DigitRun(x) && DigitRun(y) && DigitRun(z) && Just(s, x + "," + y + "," + z))
  {
    hide ParseFloat, Numeric, Split, First, NumberPrefix, Numeral, Chop, NumberChar, Just, DigitRun, ParseUnit, WordChar;
    if ParseUnit(s, "").Some? && ParseUnit(s, "").value.1 == unit { ReadsAs(s, unit); }
    if num :| Numeric(num) && Just(s, num + unit) {
      UnitEnds(num, unit);
      ChopIs(s, num + unit);
      NumberReads(s, num, unit);
    }
    if x, y, z :| DigitRun(x) && DigitRun(y) && DigitRun(z) && Just(s, x + "," + y + "," + z) && unit == "chs" {
      TripleEnds(x, y, z);
      ChopIs(s, x + "," + y + "," + z);
      TripleReads(s, x, y, z);
    }
    forall num | Numeric(num) && Chop(s) == num + unit ensures Just(s, num + unit) {
      UnitEnds(num, unit);
      ChopIs(s, num + unit);
    }
    forall x, y, z | DigitRun(x) && DigitRun(y) && DigitRun(z) && Chop(s) == x + "," + y + "," + z
      ensures Just(s, x + "," + y + "," + z)
    {
      TripleEnds(x, y, z);
      ChopIs(s, x + "," + y + "," + z);
    }
  }

  lemma UnitEnds(num: string, unit: string)
    requires UnitName(unit)
    ensures !EndsWith(num + unit, '\n')
  {
    assert WordChar(unit[|unit| - 1]);
    assert (num + unit)[|num + unit| - 1] == unit[|unit| - 1];
  }

  lemma TripleEnds(x: string, y: string, z: string)
    requires DigitRun(z)
    ensures !EndsWith(x + "," + y + "," + z, '\n')
  {
    var t := x + "," + y + "," + z;
    assert t[|t| - 1] == z[|z| - 1] && IsDigit(z[|z| - 1]);
  }

  lemma NumberReads(s: string, num: string, unit: string)
    requires Numeric(num) && Chop(s) == num + unit && (unit == "" || UnitName(unit))
    ensures ParseUnit(s, "").Some? && ParseUnit(s, "").value.1 == unit
  {
    NumericReads(num);
    NumericSome(num);
    var t := num + unit;
    assert unit != "" ==> !NumberChar(unit[0]) by { if unit != "" { assert WordChar(unit[0]); } }
    hide Numeric, ParseFloat, Split, Chop, NumberPrefix, NumberChar, WordChar;
    PrefixOfNumber(num, unit);
    assert t[..|num|] == num && t[|num|..] == unit;
  }

  lemma NumericSome(num: string)
    requires Numeric(num)
    ensures num != []
  {
  }

  lemma TripleReads(s: string, x: string, y: string, z: string)
    requires DigitRun(x) && DigitRun(y) && DigitRun(z) && Chop(s) == x + "," + y + "," + z
    ensures ParseUnit(s, "").Some? && ParseUnit(s, "").value.1 == "chs"
  {
    hide ParseFloat, Split, Chop, NumberPrefix, NumberChar, WordChar, Numeral, Join, Among;
    NotANumber(x, y, z);
    SplitDigits(x, y, z);
    JoinThree(x, y, z);
  }

  lemma ReadsAs(s: string, unit: string)
    requires ParseUnit(s, "").Some? && ParseUnit(s, "").value.1 == unit
    ensures
      || (exists num :: Numeric(num) && Chop(s) == num + unit)
      || (unit == "chs" && exists x, y, z :: DigitRun(x) && DigitRun(y) && DigitRun(z) && Chop(s) == x + "," + y + "," + z)
  {
    var t := Chop(s);
    var i := NumberPrefix(t);
    hide ParseFloat, Numeric, Split, First, NumberPrefix, Numeral, Chop, NumberChar, WordChar, Join;
    if i > 0 && Among(WordChar, t[i..]) {
      NumericReads(t[..i]);
      assert t == t[..i] + t[i..];
      assert i == |t| ==> t[i..] == "";
    } else {
      var f := Split(t, ",");
      JoinSplit(t, ",");
      assert f == [f[0], f[1], f[2]];
      JoinThree(f[0], f[1], f[2]);
      assert DigitRun(f[0]) && DigitRun(f[1]) && DigitRun(f[2]) && t == f[0] + "," + f[1] + "," + f[2];
    }
  }
}
