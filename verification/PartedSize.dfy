/** `format_disk_size` (lib/modules/parted.py), over exact numbers. */
module PartedSize {
  import opened Strings

  const UNITS_SI: seq<string> := ["B", "KB", "MB", "GB", "TB"]
  const UNITS_IEC: seq<string> := ["B", "KiB", "MiB", "GiB", "TiB"]

  /** A size of 0 comes back as a bare number, without a unit. */
  datatype Formatted = Bare(size: real) | Pair(size: real, unit: string)

  /** `max(0, int((log10(size) - 1) / 3))`. */
  function Index(size: nat): nat { if size < 10000 then 0 else 1 + Index(size / 1000) }

  /** It is the only `i` with `10^(3i+1) <= size < 10^(3i+4)`, whose logarithms say the same. */
  lemma {:induction false} IndexIs(size: nat, i: nat)
    requires size >= 10
    ensures Index(size) == i <==> Pow(10, 3 * i + 1) <= size < Pow(10, 3 * i + 4)
  {
    PowStep(0);
    if size < 10000 {
      if i > 0 { PowAtLeast(3 * i + 1, 4); }
    } else if i == 0 {
      assert Pow(10, 4) == 10000;
    } else {
      IndexIs(size / 1000, i - 1);
      PowStep(3 * i - 2);
      PowStep(3 * i + 1);
      var low, high := Pow(10, 3 * i - 2), Pow(10, 3 * i + 1);
      assert 3 * (i - 1) + 1 == 3 * i - 2 && 3 * (i - 1) + 4 == 3 * i + 1;
      DivBounds(size, low, high);
    }
  }

  lemma DivBounds(size: nat, low: nat, high: nat)
    ensures low <= size / 1000 < high <==> 1000 * low <= size < 1000 * high
  {
  }

  lemma PowStep(e: nat)
    ensures Pow(10, e + 3) == 1000 * Pow(10, e)
    ensures Pow(10, 1) == 10 && Pow(10, 4) == 10000
  {
    assert Pow(10, e + 3) == 10 * Pow(10, e + 2);
    assert Pow(10, e + 2) == 10 * Pow(10, e + 1);
    assert Pow(10, 1) == 10 * Pow(10, 0);
    assert Pow(10, 2) == 10 * Pow(10, 1);
    assert Pow(10, 3) == 10 * Pow(10, 2);
  }

  lemma PowAtLeast(e: nat, f: nat)
    requires e >= f
    ensures Pow(10, e) >= Pow(10, f)
  {
    if e > f { PowAtLeast(e - 1, f); }
  }

  /** What the names of units mean, in bytes. */
  function UnitBytes(unit: string): Option<nat> {
    match unit
    case "B" => Some(1)
    case "KB" => Some(1_000)
    case "MB" => Some(1_000_000)
    case "GB" => Some(1_000_000_000)
    case "TB" => Some(1_000_000_000_000)
    case "KiB" => Some(1_024)
    case "MiB" => Some(1_048_576)
    case "GiB" => Some(1_073_741_824)
    case "TiB" => Some(1_099_511_627_776)
    case _ => None
  }

  /** The tables name these units, each at the position its size is the power of. */
  lemma UnitsMean()
    ensures |UNITS_SI| == |UNITS_IEC| == 5
    ensures forall i | 0 <= i < 5 :: UnitBytes(UNITS_SI[i]) == Some(Pow(1000, i)) && UnitBytes(UNITS_IEC[i]) == Some(Pow(1024, i))
    ensures forall u :: UnitBytes(u).Some? <==> u in UNITS_SI || u in UNITS_IEC
  {
    Powers(1000);
    Powers(1024);
    hide Pow;
  }

  lemma Powers(b: nat)
    requires b > 0
    ensures Pow(b, 0) == 1 && Pow(b, 1) == b && Pow(b, 2) == b * b && Pow(b, 3) == b * b * b && Pow(b, 4) == b * b * b * b
  {
  }

  predicate Compact(unit: string) { unit in {"", "compact", "cyl", "chs"} }

  /** The unit after the compact cases have picked one. */
  function ChosenUnit(size: nat, unit: string): string {
    if Compact(unit) then (if Index(size) < |UNITS_SI| then UNITS_SI[Index(size)] else "b") else unit
  }

  function PositionOf(xs: seq<string>, x: string): (i: nat)
    requires x in xs
    ensures i < |xs| && xs[i] == x
  {
    if xs[0] == x then 0 else 1 + PositionOf(xs[1..], x)
  }

  function Multiplier(unit: string): (m: nat)
    ensures m > 0
  {
    if unit in UNITS_SI then Pow(1000, PositionOf(UNITS_SI, unit))
    else if unit in UNITS_IEC then Pow(1024, PositionOf(UNITS_IEC, unit))
    else 1
  }

  function Precision(output: real): (p: nat)
    ensures p <= 2
  {
    var w := if output < 10.0 then output + 0.005 else if output < 100.0 then output + 0.05 else output + 0.5;
    if w < 10.0 then 2 else if w < 100.0 then 1 else 0
  }

  /** `round(x, p)`: half away from zero, for numbers that are not negative. */
  function Round(x: real, p: nat): real
    requires p <= 2
  {
    if p == 0 then (x + 0.5).Floor as real
    else if p == 1 then (x * 10.0 + 0.5).Floor as real / 10.0
    else (x * 100.0 + 0.5).Floor as real / 100.0
  }

  function Scaled(size: nat, unit: string): real { size as real / Multiplier(unit) as real }

  function Format(size: nat, unit: string): Formatted {
    if size == 0 then Bare(0.0)
    else
      var chosen := ChosenUnit(size, Lower(unit));
      var output := Scaled(size, chosen);
      Pair(Round(output, Precision(output)), chosen)
  }

  method FormatDiskSize(sizeBytes: nat, unit: string) returns (r: Formatted)
    ensures r == Format(sizeBytes, unit)
    ensures sizeBytes == 0 ==> r == Bare(0.0)
  {
    var u := Lower(unit);
    if sizeBytes == 0 { return Bare(0.0); }
    if u in {"", "compact", "cyl", "chs"} {
      var index := Index(sizeBytes);
      u := "b";
      if index < |UNITS_SI| { u := UNITS_SI[index]; }
    }
    var multiplier := 1;
    if u in UNITS_SI {
      multiplier := Pow(1000, PositionOf(UNITS_SI, u));
    } else if u in UNITS_IEC {
      multiplier := Pow(1024, PositionOf(UNITS_IEC, u));
    }
    var output := sizeBytes as real / multiplier as real;
    var w;
    if output < 10.0 { w := output + 0.005; }
    else if output < 100.0 { w := output + 0.05; }
    else { w := output + 0.5; }
    var precision;
    if w < 10.0 { precision := 2; }
    else if w < 100.0 { precision := 1; }
    else { precision := 0; }
    return Pair(Round(output, precision), u);
  }

  // ---------- the rounding error ----------

  ghost predicate Near(x: real, y: real) { -0.00501 * y <= x - y <= 0.00501 * y }

  lemma RoundNear(x: real)
    requires x >= 10.0
    ensures Near(Round(x, Precision(x)), x)
  {
  }

  lemma WholeRoundsToItself(n: nat)
    ensures Round(n as real, Precision(n as real)) == n as real
  {
    WholeFloor(n);
    WholeFloor(10 * n);
    WholeFloor(100 * n);
    assert n as real * 10.0 == (10 * n) as real;
    assert n as real * 100.0 == (100 * n) as real;
  }

  lemma WholeFloor(n: nat)
    ensures (n as real + 0.5).Floor == n
  {
  }

  lemma WholeFloorIs(n: int)
    ensures (n as real).Floor == n
  {
  }

  // ---------- compact units ----------

  lemma SiMultiplier(i: nat)
    requires i < 5
    ensures UNITS_SI[i] in UNITS_SI && Multiplier(UNITS_SI[i]) == Pow(1000, i)
  {
    var j := PositionOf(UNITS_SI, UNITS_SI[i]);
    assert i == 0 ==> UNITS_SI[i] == "B";
    assert |UNITS_SI[j]| == |UNITS_SI[i]|;
    assert UNITS_SI[j][0] == UNITS_SI[i][0];
  }

  /** Every unit of the tables would be scaled to by what it stands for, if it were asked for in
      capitals; as it is, only those of the first table come up. */
  lemma MultiplierIs(unit: string)
    ensures Multiplier(unit) == if UnitBytes(unit).Some? then UnitBytes(unit).value else 1
  {
    UnitsMean();
    hide UnitBytes, Pow;
    if unit in UNITS_SI {
      assert UNITS_SI[PositionOf(UNITS_SI, unit)] == unit;
    } else if unit in UNITS_IEC {
      assert UNITS_IEC[PositionOf(UNITS_IEC, unit)] == unit;
    }
  }

  lemma {:induction false} PowThousand(i: nat)
    ensures Pow(10, 3 * i) == Pow(1000, i)
  {
    if i > 0 {
      PowThousand(i - 1);
      PowStep(3 * (i - 1));
      assert 3 * (i - 1) + 3 == 3 * i;
    }
  }

  /** Compact formatting picks, for every size it has a unit for, the one that leaves two to
      four digits before the point, and rounds to within 0.501 per cent. */
  lemma CompactBound(size: nat, unit: string)
    requires Lower(unit) in {"", "compact", "cyl", "chs"} && 10 <= size < Pow(10, 16)
    ensures var i := Index(size);
      i < 5 && Format(size, unit).Pair? && Format(size, unit).unit == UNITS_SI[i]
      && var output := size as real / Pow(1000, i) as real;
         10.0 <= output < 10000.0 && Near(Format(size, unit).size, output)
  {
    hide Near, Pow, Multiplier, Precision, Round, Index;
    var i := Index(size);
    IndexRange(size);
    SiMultiplier(i);
    ScaledBounds(size, Pow(1000, i));
    RoundNear(size as real / Pow(1000, i) as real);
  }

  /** The number comes with one digit after the point below 100 and with none from there on,
      and a half is rounded up. */
  predicate Rounded(size: real, exact: real) {
    var scale := if size < 100.0 then 10.0 else 1.0;
    var digits := size * scale;
    digits == digits.Floor as real && digits - 0.5 <= exact * scale < digits + 0.5
  }

  /** What a size formatted with a compact unit says: so many of a unit that stands for a power
      of a thousand, two to four digits before the point, correctly rounded. */
  lemma CompactMeans(size: nat, unit: string)
    requires Lower(unit) in {"", "compact", "cyl", "chs"} && 10 <= size < Pow(10, 16)
    ensures var r := Format(size, unit);
      && r.Pair? && r.unit in {"B", "KB", "MB", "GB", "TB"} && UnitBytes(r.unit).Some?
      && var m := UnitBytes(r.unit).value;
      && 10 * m <= size < 10000 * m
      && Rounded(r.size, size as real / m as real)
      && Near(r.size * m as real, size as real)
  {
    hide Rounded, Pow, Multiplier, Precision, Round, Index, UnitBytes, Format, Scaled;
    UnitChosen(size, unit);
    var m := Pow(1000, Index(size));
    ScaledBounds(size, m);
    Quotient(size as real, m as real);
    NumberKept(size as real, m as real, size as real / m as real);
  }

  lemma UnitChosen(size: nat, unit: string)
    requires Lower(unit) in {"", "compact", "cyl", "chs"} && 10 <= size < Pow(10, 16)
    ensures var i, m := Index(size), Pow(1000, Index(size));
      && i < 5 && UNITS_SI[i] in {"B", "KB", "MB", "GB", "TB"} && UnitBytes(UNITS_SI[i]) == Some(m)
      && 10 * m <= size < 10000 * m
      && var x := size as real / m as real;
      Format(size, unit) == Pair(Round(x, Precision(x)), UNITS_SI[i])
  {
    hide Pow, Multiplier, Precision, Round, Index, UnitBytes;
    var i := Index(size);
    UnitsMean();
    IndexRange(size);
    SiMultiplier(i);
  }

  lemma NumberKept(size: real, m: real, x: real)
    requires m > 0.0 && x * m == size && 10.0 <= x < 10000.0
    ensures Rounded(Round(x, Precision(x)), x) && Near(Round(x, Precision(x)) * m, size)
  {
    hide Rounded, Precision, Round;
    RoundNear(x);
    RoundedIs(x);
    NearTimes(Round(x, Precision(x)), x, m, size);
  }

  lemma NearTimes(r: real, x: real, m: real, size: real)
    requires Near(r, x) && m > 0.0 && x * m == size
    ensures Near(r * m, size)
  {
    Cancel(-0.00501 * x, r - x, m);
    Cancel(r - x, 0.00501 * x, m);
    Distribute(r, x, m);
  }

  lemma RoundedIs(x: real)
    requires 10.0 <= x < 10000.0
    ensures Rounded(Round(x, Precision(x)), x)
  {
    var r := Round(x, Precision(x));
    var n := if r < 100.0 then (x * 10.0 + 0.5).Floor else (x + 0.5).Floor;
    assert r * (if r < 100.0 then 10.0 else 1.0) == n as real;
    WholeFloorIs(n);
  }

  lemma IndexRange(size: nat)
    requires 10 <= size < Pow(10, 16)
    ensures var i := Index(size);
      i < 5 && 10 * Pow(1000, i) <= size < 10000 * Pow(1000, i)
  {
    hide Index;
    var i := Index(size);
    IndexIs(size, i);
    if i >= 5 { PowAtLeast(3 * i + 1, 16); }
    PowThousand(i);
    assert Pow(10, 3 * i + 1) == 10 * Pow(1000, i);
    PowStep(3 * i + 1);
  }

  lemma ScaledBounds(size: nat, m: nat)
    requires 10 * m <= size < 10000 * m && m > 0
    ensures 10.0 <= size as real / m as real < 10000.0
  {
    var a, b := size as real, m as real;
    Times(10, m);
    Times(10000, m);
    Quotient(a, b);
    Sandwich(a / b, a, b);
  }

  lemma Times(x: nat, m: nat)
    ensures x as real * m as real == (x * m) as real
  {
  }

  lemma Sandwich(q: real, a: real, b: real)
    requires b > 0.0 && q * b == a && 10.0 * b <= a < 10000.0 * b
    ensures 10.0 <= q < 10000.0
  {
    Cancel(10.0, q, b);
    Cancel(10000.0, q, b);
  }

  lemma Quotient(a: real, b: real)
    requires b > 0.0
    ensures (a / b) * b == a
  {
  }

  lemma Cancel(x: real, y: real, m: real)
    requires m > 0.0
    ensures x <= y <==> x * m <= y * m
  {
    SignOfProduct(y - x, m);
    Distribute(y, x, m);
  }

  lemma Distribute(y: real, x: real, m: real)
    ensures (y - x) * m == y * m - x * m
  {
  }

  lemma SignOfProduct(a: real, m: real)
    requires m > 0.0
    ensures a >= 0.0 <==> a * m >= 0.0
  {
  }

  /** Outside that range nothing is rounded: below 10 bytes it gives bytes, and from 10^16 on
      it has no unit and gives bytes as well, under the name `b`. */
  lemma CompactExact(size: nat, unit: string)
    requires Lower(unit) in {"", "compact", "cyl", "chs"} && size > 0 && (size < 10 || size >= Pow(10, 16))
    ensures Format(size, unit) == Pair(size as real, if size < 10 then "B" else "b")
  {
    hide Multiplier, Pow, Precision, Round, Index, UNITS_SI;
    WholeRoundsToItself(size);
    UnitIsOne();
    IndexOutside(size);
  }

  lemma IndexOutside(size: nat)
    ensures |UNITS_SI| == 5 && (size < 10 ==> Index(size) == 0 && UNITS_SI[0] == "B")
    ensures size >= Pow(10, 16) ==> Index(size) >= |UNITS_SI|
  {
    if size >= 10 {
      hide Index;
      var i := Index(size);
      IndexIs(size, i);
      PowAtLeast(16, if i < 5 then 3 * i + 4 else 0);
    }
  }

  lemma UnitIsOne()
    ensures Multiplier("B") == 1 && Multiplier("b") == 1
  {
    SiMultiplier(0);
    LowerUnit("b");
  }

  lemma LowerUnit(u: string)
    requires !HasUpper(u)
    ensures u !in UNITS_SI && u !in UNITS_IEC
  {
    if u in UNITS_SI || u in UNITS_IEC { UnitsHaveUpper(u); }
  }

  // ---------- explicit units ----------

  predicate HasUpper(s: string) { exists i | 0 <= i < |s| :: 'A' <= s[i] <= 'Z' }

  lemma LowerHasNoUpper(s: string)
    ensures !HasUpper(Lower(s))
  {
  }

  lemma UnitsHaveUpper(u: string)
    requires u in UNITS_SI || u in UNITS_IEC
    ensures HasUpper(u)
  {
    assert 'A' <= u[0] <= 'Z';
  }

  /** The unit is lower-cased before it is looked up among names written with capitals, so an
      explicit unit is never scaled to: the number is the size in bytes, whatever the unit. */
  lemma ExplicitUnitIsBytes(size: nat, unit: string)
    requires size > 0 && Lower(unit) !in {"", "compact", "cyl", "chs"}
    ensures Format(size, unit) == Pair(size as real, Lower(unit))
  {
    var u := Lower(unit);
    LowerHasNoUpper(unit);
    LowerUnit(u);
    WholeRoundsToItself(size);
    assert Multiplier(u) == 1 && ChosenUnit(size, u) == u;
    assert Scaled(size, u) == size as real;
    hide Precision, Round, ChosenUnit, Multiplier, Scaled, Compact;
  }
}
