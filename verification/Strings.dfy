/** Python string and list operations the modelled code relies on. */
module Strings {

  /** The position of the first `ch` in `s`, or `|s|` when there is none. */
  function IndexOf(s: string, ch: char): (i: nat)
    ensures i <= |s|
    ensures i < |s| <==> ch in s
    ensures i < |s| ==> s[i] == ch
    ensures ch !in s[..i]
  {
    if s == [] then 0 else if s[0] == ch then 0 else 1 + IndexOf(s[1..], ch)
  }

  lemma {:induction false} IndexOfAfter(a: string, ch: char, b: string)
    requires ch !in a
    ensures IndexOf(a + [ch] + b, ch) == |a|
  {
    var s := a + [ch] + b;
    if a != [] {
      assert s[1..] == a[1..] + [ch] + b;
      IndexOfAfter(a[1..], ch, b);
    }
  }

  // ---------- lexicographic order, and list.sort() ----------

  predicate LexLe(a: string, b: string) {
    a == [] || (b != [] && (a[0] < b[0] || (a[0] == b[0] && LexLe(a[1..], b[1..]))))
  }

  lemma {:induction false} LexTotal(a: string, b: string)
    ensures LexLe(a, b) || LexLe(b, a)
  {
    if a != [] && b != [] {
      LexTotal(a[1..], b[1..]);
    }
  }

  lemma {:induction false} LexAntisymmetric(a: string, b: string)
    requires LexLe(a, b) && LexLe(b, a)
    ensures a == b
  {
    if a != [] {
      LexAntisymmetric(a[1..], b[1..]);
      assert a == [a[0]] + a[1..] && b == [b[0]] + b[1..];
    }
  }

  lemma {:induction false} LexTransitive(a: string, b: string, c: string)
    requires LexLe(a, b) && LexLe(b, c)
    ensures LexLe(a, c)
  {
    if a != [] && a[0] == b[0] && b[0] == c[0] {
      LexTransitive(a[1..], b[1..], c[1..]);
    }
  }

  ghost predicate Sorted(xs: seq<string>) {
    forall i, j | 0 <= i < j < |xs| :: LexLe(xs[i], xs[j])
  }

  ghost predicate Distinct<T>(xs: seq<T>) {
    forall i, j | 0 <= i < j < |xs| :: xs[i] != xs[j]
  }

  function Elems<T>(xs: seq<T>): set<T> {
    set x | x in xs
  }

  function Insert(x: string, ys: seq<string>): (r: seq<string>)
    ensures multiset(r) == multiset{x} + multiset(ys)
  {
    if ys == [] || LexLe(x, ys[0]) then [x] + ys
    else
      assert ys == [ys[0]] + ys[1..];
      [ys[0]] + Insert(x, ys[1..])
  }

  /** `list.sort()`: a stable ascending sort. */
  function Sort(xs: seq<string>): (r: seq<string>)
    ensures multiset(r) == multiset(xs)
  {
    if xs == [] then [] else
      assert xs == [xs[0]] + xs[1..];
      Insert(xs[0], Sort(xs[1..]))
  }

  lemma {:induction false} InsertSorted(x: string, ys: seq<string>)
    requires Sorted(ys)
    ensures Sorted(Insert(x, ys))
  {
    var r := Insert(x, ys);
    if ys == [] {
    } else if LexLe(x, ys[0]) {
      forall j | 0 <= j < |ys| ensures LexLe(x, ys[j]) {
        if j > 0 { LexTransitive(x, ys[0], ys[j]); }
      }
    } else {
      LexTotal(x, ys[0]);
      var t := Insert(x, ys[1..]);
      InsertSorted(x, ys[1..]);
      forall j | 0 <= j < |t| ensures LexLe(ys[0], t[j]) {
        assert t[j] in multiset(t);
        assert t[j] == x || t[j] in ys[1..];
      }
    }
  }

  lemma {:induction false} SortSorted(xs: seq<string>)
    ensures Sorted(Sort(xs))
  {
    if xs != [] {
      SortSorted(xs[1..]);
      InsertSorted(xs[0], Sort(xs[1..]));
    }
  }

  lemma MultisetFacts<T>(xs: seq<T>, ys: seq<T>)
    requires multiset(xs) == multiset(ys)
    ensures Elems(xs) == Elems(ys) && |xs| == |ys|
    ensures Distinct(xs) ==> Distinct(ys)
  {
    assert |multiset(xs)| == |multiset(ys)|;
    forall x ensures x in xs <==> x in ys {
      assert x in multiset(xs) <==> x in multiset(ys);
    }
    if Distinct(xs) {
      forall i, j | 0 <= i < j < |ys| ensures ys[i] != ys[j] {
        DistinctCount(xs, ys[i]);
        assert ys == ys[..j] + ys[j..];
        assert ys[..j][i] == ys[i] && ys[j..][0] == ys[j];
        assert multiset(ys)[ys[i]] == multiset(ys[..j])[ys[i]] + multiset(ys[j..])[ys[i]];
      }
    }
  }

  lemma {:induction false} DistinctCount<T>(xs: seq<T>, x: T)
    requires Distinct(xs)
    ensures multiset(xs)[x] <= 1
  {
    if xs != [] {
      var first, rest := xs[0], xs[1..];
      assert forall i | 0 <= i < |rest| :: rest[i] == xs[i + 1];
      DistinctCount(rest, x);
      assert first !in rest;
      assert xs == [first] + rest;
      hide Distinct;
      assert multiset(xs)[x] == (if x == first then 1 else 0) + multiset(rest)[x];
    }
  }

  /** The one ascending listing of a set. */
  ghost predicate Lists(xs: seq<string>, s: set<string>) {
    Sorted(xs) && Distinct(xs) && Elems(xs) == s
  }

  lemma {:induction false} ListingUnique(xs: seq<string>, ys: seq<string>, s: set<string>)
    requires Lists(xs, s) && Lists(ys, s)
    ensures xs == ys
    decreases |xs|
  {
    assert xs != [] ==> xs[0] in Elems(xs);
    assert ys != [] ==> ys[0] in Elems(ys);
    if xs != [] {
      assert xs[0] in Elems(xs) && xs[0] in ys;
      assert ys[0] in Elems(ys) && ys[0] in xs;
      assert LexLe(xs[0], ys[0]) by {
        var i :| 0 <= i < |xs| && xs[i] == ys[0];
        if i == 0 { LexTotal(xs[0], ys[0]); }
      }
      assert LexLe(ys[0], xs[0]) by {
        var i :| 0 <= i < |ys| && ys[i] == xs[0];
        if i == 0 { LexTotal(xs[0], ys[0]); }
      }
      LexAntisymmetric(xs[0], ys[0]);
      ListingTail(xs, s);
      ListingTail(ys, s);
      ListingUnique(xs[1..], ys[1..], s - {xs[0]});
      assert xs == [xs[0]] + xs[1..] && ys == [ys[0]] + ys[1..];
    }
  }

  lemma ListingTail(xs: seq<string>, s: set<string>)
    requires Lists(xs, s) && xs != []
    ensures Lists(xs[1..], s - {xs[0]})
  {
    var t := xs[1..];
    assert forall i | 0 <= i < |t| :: t[i] == xs[i + 1];
    assert forall x | x in xs && x != xs[0] :: x in t by {
      forall x | x in xs && x != xs[0] ensures x in t {
        var i :| 0 <= i < |xs| && xs[i] == x;
        assert t[i - 1] == x;
      }
    }
    assert Elems(t) == s - {xs[0]};
  }

  /** Sorting an enumeration of `s`, whatever its order, gives the listing of `s`. */
  lemma SortLists(xs: seq<string>, s: set<string>)
    requires Distinct(xs) && Elems(xs) == s
    ensures Lists(Sort(xs), s)
  {
    SortSorted(xs);
    MultisetFacts(xs, Sort(xs));
  }

  /** The ascending listing of a set, built by sorting an enumeration of it. */
  ghost function Listing(s: set<string>): (r: seq<string>)
    ensures Lists(r, s)
  {
    var xs := Enumeration(s);
    SortLists(xs, s);
    Sort(xs)
  }

  ghost function Enumeration<T>(s: set<T>): (r: seq<T>)
    ensures Distinct(r) && Elems(r) == s
  {
    if s == {} then [] else
      var x :| x in s;
      var t := Enumeration(s - {x});
      assert x !in Elems(t);
      assert Elems([x] + t) == {x} + Elems(t);
      [x] + t
  }

  // ---------- characters and numerals ----------

  const LOWER_CASE: string := "abcdefghijklmnopqrstuvwxyz"
  const UPPER_CASE: string := "ABCDEFGHIJKLMNOPQRSTUVWXYZ"
  const DIGITS: string := "0123456789"

  predicate IsDigit(ch: char) { '0' <= ch <= '9' }

  predicate IsSpace(ch: char) { ch == ' ' || '\t' <= ch <= '\r' }

  function LowerChar(ch: char): char {
    if 'A' <= ch <= 'Z' then ((ch as int) + 32) as char else ch
  }

  /** `str.lower()` on ASCII text. */
  function Lower(s: string): (r: string)
    ensures |r| == |s|
  {
    seq(|s|, i requires 0 <= i < |s| => LowerChar(s[i]))
  }

  /** `str.strip()` */
  function Strip(s: string): string {
    if s == [] then []
    else if IsSpace(s[0]) then Strip(s[1..])
    else if IsSpace(s[|s| - 1]) then Strip(s[..|s| - 1])
    else s
  }

  predicate AllDigits(s: string) {
    forall i | 0 <= i < |s| :: IsDigit(s[i])
  }

  function DigitChar(d: nat): (ch: char)
    requires d < 10
    ensures IsDigit(ch)
  {
    ('0' as int + d) as char
  }

  function DigitValue(ch: char): nat
    requires IsDigit(ch)
  {
    ch as int - '0' as int
  }

  /** The number a string of decimal digits denotes. */
  function Numeral(s: string): nat
    requires AllDigits(s)
  {
    if s == [] then 0 else 10 * Numeral(s[..|s| - 1]) + DigitValue(s[|s| - 1])
  }

  function Pow(b: nat, e: nat): (r: nat)
    requires b > 0
    ensures r > 0
  {
    if e == 0 then 1 else b * Pow(b, e - 1)
  }

  /** `str(n)` for a natural number. */
  function Decimal(n: nat): (s: string)
    ensures s != [] && AllDigits(s)
  {
    if n < 10 then [DigitChar(n)] else Decimal(n / 10) + [DigitChar(n % 10)]
  }

  lemma {:induction false} NumeralDecimal(n: nat)
    ensures Numeral(Decimal(n)) == n
  {
    var s := Decimal(n);
    if n >= 10 {
      NumeralDecimal(n / 10);
      assert s[..|s| - 1] == Decimal(n / 10);
    } else {
      assert s[..0] == [];
    }
  }

  /** `str(n)` */
  function DecimalInt(n: int): string {
    if n < 0 then "-" + Decimal(-n) else Decimal(n)
  }

  datatype Option<+T> = None | Some(value: T)

  /** `int(s)`: surrounding blanks, one sign, digits; `None` stands for ValueError. */
  function ParseInt(s: string): Option<int> {
    var t := Strip(s);
    if t == [] then None
    else
      var u := if t[0] == '-' || t[0] == '+' then t[1..] else t;
      if u == [] || !AllDigits(u) then None
      else Some(if t[0] == '-' then 0 - Numeral(u) else Numeral(u))
  }

  lemma ParseDecimalInt(n: int)
    ensures ParseInt(DecimalInt(n)) == Some(n)
  {
    var m: nat := if n < 0 then -n else n;
    var d := Decimal(m);
    hide Decimal, Numeral;
    NumeralDecimal(m);
    StripUnspaced(DecimalInt(n), d);
    assert IsDigit(d[0]);
    if n < 0 { assert ("-" + d)[1..] == d; }
  }

  lemma StripUnspaced(s: string, d: string)
    requires d != [] && AllDigits(d) && (s == d || s == "-" + d)
    ensures Strip(s) == s
  {
    var last := s[|s| - 1];
    assert last == d[|d| - 1] && IsDigit(last);
    assert s[0] == '-' || IsDigit(s[0]);
  }

  // ---------- what these come to ----------

  lemma LowerCase(c: char) ensures c in LOWER_CASE <==> 'a' <= c <= 'z' {
    if 'a' <= c <= 'z' { assert LOWER_CASE[c as int - 'a' as int] == c; }
  }

  lemma UpperCase(c: char) ensures c in UPPER_CASE <==> 'A' <= c <= 'Z' {
    if 'A' <= c <= 'Z' { assert UPPER_CASE[c as int - 'A' as int] == c; }
  }

  lemma Digit(c: char) ensures c in DIGITS <==> '0' <= c <= '9' {
    if '0' <= c <= '9' { assert DIGITS[c as int - '0' as int] == c; }
  }

  /** Capital letters become small ones, the others stay. */
  lemma LowerCharIs(c: char)
    ensures forall i | 0 <= i < 26 :: LowerChar(UPPER_CASE[i]) == LOWER_CASE[i]
    ensures c !in UPPER_CASE ==> LowerChar(c) == c
  {
    UpperCase(c);
  }

  lemma DigitMeans(d: nat)
    requires d < 10
    ensures DigitChar(d) == DIGITS[d] && DigitValue(DIGITS[d]) == d
  {
  }

  /** Tabulators, line breaks, page breaks and blanks. */
  predicate Blank(s: string) { forall c | c in s :: c as int in {9, 10, 11, 12, 13, 32} }

  predicate Unspaced(s: string) { s == [] || (!IsSpace(s[0]) && !IsSpace(s[|s| - 1])) }

  ghost predicate Around(s: string, t: string) { exists a, b :: Blank(a) && Blank(b) && s == a + t + b }

  lemma {:induction false} StripIs(s: string)
    ensures Unspaced(Strip(s)) && Around(s, Strip(s))
  {
    hide Around;
    if s == [] || Unspaced(s) {
      NothingAround(s);
    } else if IsSpace(s[0]) {
      StripIs(s[1..]);
      BlankInFront(s, Strip(s));
    } else {
      StripIs(s[..|s| - 1]);
      BlankBehind(s, Strip(s));
    }
  }

  lemma NothingAround(s: string)
    ensures Around(s, s)
  {
    assert Blank([]) && s == [] + s + [];
  }

  lemma BlankInFront(s: string, t: string)
    requires s != [] && IsSpace(s[0]) && Around(s[1..], t)
    ensures Around(s, t)
  {
    var a, b :| Blank(a) && Blank(b) && s[1..] == a + t + b;
    var a' := [s[0]] + a;
    assert Blank(a');
    assert s == [s[0]] + s[1..] && s == a' + t + b;
  }

  lemma BlankBehind(s: string, t: string)
    requires s != [] && IsSpace(s[|s| - 1]) && Around(s[..|s| - 1], t)
    ensures Around(s, t)
  {
    var n := |s| - 1;
    var a, b :| Blank(a) && Blank(b) && s[..n] == a + t + b;
    var b' := b + [s[n]];
    assert Blank(b');
    assert s == s[..n] + [s[n]] && s == a + t + b';
  }

  lemma {:induction false} StripOnly(a: string, t: string, b: string)
    requires Blank(a) && Blank(b) && Unspaced(t)
    ensures Strip(a + t + b) == t
    decreases |a| + |b|
  {
    var s := a + t + b;
    if a != [] {
      assert s[0] == a[0] && a[0] in a && s[1..] == a[1..] + t + b;
      assert forall c | c in a[1..] :: c in a;
      StripOnly(a[1..], t, b);
    } else if b != [] {
      var n := |b| - 1;
      assert s[|s| - 1] == b[n] && b[n] in b && s[..|s| - 1] == t + b[..n];
      if t == [] {
        assert s[0] == b[0] && b[0] in b && s[1..] == b[1..];
        assert forall c | c in b[1..] :: c in b;
        StripOnly([], [], b[1..]);
        assert [] + [] + b[1..] == b[1..];
      } else {
        assert s[0] == t[0];
        assert forall c | c in b[..n] :: c in b;
        StripOnly([], t, b[..n]);
        assert [] + t + b[..n] == t + b[..n];
      }
    } else {
      assert s == t;
    }
  }

  lemma StripsToNothing(s: string)
    ensures Strip(s) == [] <==> Blank(s)
  {
    StripIs(s);
    if Blank(s) {
      StripOnly(s, [], []);
      assert s + [] + [] == s;
    }
  }

  /** A numeral with or without a sign. */
  predicate Signed(t: string, n: int) {
    || (t != [] && AllDigits(t) && n == Numeral(t))
    || (|t| > 1 && t[0] in "+-" && AllDigits(t[1..]) && n == if t[0] == '-' then 0 - Numeral(t[1..]) else Numeral(t[1..]))
  }

  /** The texts that read as an integer: a numeral with at most one sign, and blanks around it. */
  lemma ParseIntIff(s: string, n: int)
    ensures ParseInt(s) == Some(n) <==> exists a, t, b :: Blank(a) && Blank(b) && Signed(t, n) && s == a + t + b
  {
    hide Strip, Numeral;
    StripIs(s);
    if ParseInt(s) == Some(n) {
      var a, b :| Blank(a) && Blank(b) && s == a + Strip(s) + b;
      assert Signed(Strip(s), n);
    }
    if a, t, b :| Blank(a) && Blank(b) && Signed(t, n) && s == a + t + b {
      SignedUnspaced(t, n);
      StripOnly(a, t, b);
    }
  }

  lemma SignedUnspaced(t: string, n: int)
    requires Signed(t, n)
    ensures Unspaced(t) && t != [] && (AllDigits(t) ==> t[0] !in "+-")
  {
    assert IsDigit(t[|t| - 1]);
  }
}
