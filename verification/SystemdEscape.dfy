/** `systemd_escape` (lib/filter_plugins/DO_filters.py): paths as unit names. */
module SystemdEscape {
  import opened Strings

  predicate Passes(c: char) { 'a' <= c <= 'z' || 'A' <= c <= 'Z' || '0' <= c <= '9' || c == '_' }

  function HexDigit(d: nat): (c: char)
    requires d < 16
    ensures IsHex(c) && HexValue(c) == d
  {
    if d < 10 then ('0' as int + d) as char else ('a' as int + d - 10) as char
  }

  predicate IsHex(c: char) { '0' <= c <= '9' || 'a' <= c <= 'f' }

  function HexValue(c: char): (d: nat)
    requires IsHex(c)
    ensures d < 16
  {
    if c <= '9' then c as int - '0' as int else c as int - 'a' as int + 10
  }

  /** `hex(n)` without its `0x`. */
  function Hex(n: nat): string {
    if n < 16 then [HexDigit(n)] else Hex(n / 16) + [HexDigit(n % 16)]
  }

  function EscapeChar(c: char): string {
    if Passes(c) then [c] else if c == '/' then "-" else "\\x" + Hex(c as int)
  }

  /** The path without one slash at its beginning. */
  function Body(path: string): string { if path != [] && path[0] == '/' then path[1..] else path }

  function EscapeAll(s: string): string {
    if s == [] then [] else EscapeAll(s[..|s| - 1]) + EscapeChar(s[|s| - 1])
  }

  function Escape(path: string): string { EscapeAll(Body(path)) }

  /** The loop of the filter. */
  method SystemdEscape(data: string) returns (res: string)
    ensures res == Escape(data)
  {
    res := "";
    DotIsEscaped();
    hide Escape, Hex;
    for i := 0 to |data|
      invariant res == Escape(data[..i])
    {
      var c := data[i];
      EscapeSnoc(data[..i], c);
      assert data[..i + 1] == data[..i] + [c];
      if i == 0 && c == '/' {
      } else if c == '.' && res == "" {
        res := res + "\\x2e";
      } else if ('a' <= c <= 'z') || ('A' <= c <= 'Z') || ('0' <= c <= '9') || c == '_' {
        res := res + [c];
      } else if c == '/' {
        res := res + "-";
      } else {
        res := res + "\\x" + Hex(c as int);
      }
    }
    assert data[..|data|] == data;
  }

  lemma DotIsEscaped()
    ensures Hex('.' as int) == "2e" && Escape("") == ""
  {
    assert Hex('.' as int) == Hex(2) + [HexDigit(14)];
  }

  lemma EscapeSnoc(s: string, c: char)
    ensures Escape(s + [c]) == if s == [] && c == '/' then [] else Escape(s) + EscapeChar(c)
  {
    var t := s + [c];
    if s != [] {
      assert Body(t) == Body(s) + [c];
      assert Body(t)[..|Body(t)| - 1] == Body(s);
    }
  }

  // ---------- single characters ----------

  const SAFE: string := LOWER_CASE + UPPER_CASE + DIGITS + "_"

  function HexNumber(h: string): nat
    requires forall c | c in h :: IsHex(c)
  {
    if h == [] then 0 else 16 * HexNumber(h[..|h| - 1]) + HexValue(h[|h| - 1])
  }

  /** The number in lower-case hexadecimal, without leading zeros. */
  ghost predicate HexOf(h: string, n: nat) {
    && (forall x | x in h :: x in "0123456789abcdef" && IsHex(x))
    && h != [] && (|h| > 1 ==> h[0] != '0') && HexNumber(h) == n
  }

  /** Letters, digits and the underscore stay, a slash becomes a dash, and of anything else the
      code is written in hexadecimal. */
  lemma EscapesAre(c: char)
    ensures c in SAFE ==> EscapeChar(c) == [c]
    ensures c == '/' ==> EscapeChar(c) == "-"
    ensures c !in SAFE && c != '/' ==> exists h :: HexOf(h, c as int) && EscapeChar(c) == "\\x" + h
  {
    SafePasses(c);
    hide Passes, SAFE, HexOf, Hex;
    HexRead(c as int);
    SlashIsNotSafe();
    var h := Hex(c as int);
    assert !Passes(c) && c != '/' ==> EscapeChar(c) == "\\x" + h && HexOf(h, c as int);
  }

  lemma SafePasses(c: char)
    ensures Passes(c) <==> c in SAFE
  {
    LowerCase(c);
    UpperCase(c);
    Digit(c);
    hide LOWER_CASE, UPPER_CASE, DIGITS;
  }

  lemma SlashIsNotSafe()
    ensures !Passes('/')
  {
  }

  lemma DigitsAre(d: nat)
    requires d < 16
    ensures HexDigit(d) == "0123456789abcdef"[d] && (d > 0 ==> HexDigit(d) != '0')
  {
  }

  lemma {:induction false} HexRead(n: nat)
    ensures HexOf(Hex(n), n) && (n > 0 ==> Hex(n)[0] != '0')
  {
    hide IsHex, HexValue, HexDigit;
    if n < 16 {
      OneDigit(n);
    } else {
      HexRead(n / 16);
      HexGrows(Hex(n / 16), n / 16, n % 16);
    }
  }

  lemma OneDigit(d: nat)
    requires d < 16
    ensures HexOf([HexDigit(d)], d) && (d > 0 ==> HexDigit(d) != '0')
  {
    var h := [HexDigit(d)];
    DigitsAre(d);
    assert h[..|h| - 1] == [] && h[|h| - 1] == HexDigit(d);
    assert HexNumber([]) == 0;
  }

  lemma HexGrows(h: string, n: nat, d: nat)
    requires HexOf(h, n) && h[0] != '0' && d < 16
    ensures HexOf(h + [HexDigit(d)], 16 * n + d)
  {
    var g := h + [HexDigit(d)];
    DigitsAre(d);
    assert g[..|g| - 1] == h && g[|g| - 1] == HexDigit(d) && g[0] == h[0];
    forall x | x in g ensures x in "0123456789abcdef" && IsHex(x) { assert x in h || x == HexDigit(d); }
  }

  // ---------- the output ----------

  lemma {:induction false} HexIsHex(n: nat)
    ensures Hex(n) != [] && forall c | c in Hex(n) :: IsHex(c)
  {
    if n >= 16 { HexIsHex(n / 16); }
  }

  predicate UnitChar(c: char) { Passes(c) || c == '-' || c == '\\' }

  /** The output holds no slash and no dot, nor anything else a unit name may not hold. */
  lemma {:induction false} OutputIsUnitName(s: string)
    ensures forall c | c in EscapeAll(s) :: UnitChar(c) && c != '/' && c != '.'
  {
    if s != [] {
      OutputIsUnitName(s[..|s| - 1]);
      HexIsHex(s[|s| - 1] as int);
    }
  }

  // ---------- the inverse ----------

  /** Reads `\xhh` and `-` back; `None` for a backslash that is not followed by `xhh`. */
  function Unescape(s: string): Option<string> {
    if s == [] then Some([])
    else if s[0] == '\\' then
      if |s| >= 4 && s[1] == 'x' && IsHex(s[2]) && IsHex(s[3]) then
        Prepend((16 * HexValue(s[2]) + HexValue(s[3])) as char, Unescape(s[4..]))
      else None
    else Prepend(if s[0] == '-' then '/' else s[0], Unescape(s[1..]))
  }

  function Prepend(c: char, t: Option<string>): Option<string> { if t.None? then None else Some([c] + t.value) }

  /** Characters that an escaped path keeps: those written as they are, and those with two
      hexadecimal digits. */
  predicate Recoverable(c: char) { Passes(c) || c == '/' || 0x10 <= c as int <= 0xFF }

  lemma {:induction false} EscapeFront(s: string)
    requires s != []
    ensures EscapeAll(s) == EscapeChar(s[0]) + EscapeAll(s[1..])
  {
    hide EscapeChar;
    if |s| == 1 {
      assert s[..0] == [] && s[1..] == [];
    } else {
      var n := |s| - 1;
      var a, m, z := EscapeChar(s[0]), EscapeAll(s[1..n]), EscapeChar(s[n]);
      EscapeFront(s[..n]);
      assert s[..n][1..] == s[1..n] && s[1..][..n - 1] == s[1..n];
      assert EscapeAll(s) == (a + m) + z;
      assert EscapeAll(s[1..]) == m + z;
      assert (a + m) + z == a + (m + z);
    }
  }

  lemma TwoDigits(n: nat)
    requires 0x10 <= n <= 0xFF
    ensures Hex(n) == [HexDigit(n / 16), HexDigit(n % 16)]
  {
    assert Hex(n / 16) == [HexDigit(n / 16)];
  }

  lemma ReadsOne(c: char, t: string)
    requires Recoverable(c)
    ensures Unescape(EscapeChar(c) + t) == Prepend(c, Unescape(t))
  {
    var s := EscapeChar(c) + t;
    if Passes(c) || c == '/' {
      assert s[1..] == t;
    } else {
      var n := c as int;
      TwoDigits(n);
      assert s[0] == '\\' && s[1] == 'x' && s[2] == HexDigit(n / 16) && s[3] == HexDigit(n % 16);
      assert s[4..] == t;
    }
  }

  lemma {:induction false} ReadsAll(s: string)
    requires forall c | c in s :: Recoverable(c)
    ensures Unescape(EscapeAll(s)) == Some(s)
  {
    if s != [] {
      EscapeFront(s);
      assert s[0] in s;
      forall c | c in s[1..] ensures Recoverable(c) { assert c in s; }
      ReadsAll(s[1..]);
      ReadsOne(s[0], EscapeAll(s[1..]));
      assert s == [s[0]] + s[1..];
    }
  }

  /** Reading back never yields a character beyond 0xFF. */
  lemma {:induction false} ReadsOnlyBytes(t: string)
    requires forall c | c in t :: UnitChar(c)
    ensures Unescape(t).Some? ==> forall c | c in Unescape(t).value :: c as int <= 0xFF
  {
    if t != [] {
      assert t[0] in t;
      if t[0] == '\\' {
        if |t| >= 4 {
          forall c | c in t[4..] ensures UnitChar(c) { assert c in t; }
          ReadsOnlyBytes(t[4..]);
        }
      } else {
        forall c | c in t[1..] ensures UnitChar(c) { assert c in t; }
        ReadsOnlyBytes(t[1..]);
      }
    }
  }

  predicate Bytes(s: string) { forall c | c in s :: c as int <= 0xFF }

  /** A character below 0x10 swallows the one that follows it, if the text can be read at all. */
  lemma {:induction false} ReadsFewer(s: string)
    requires Bytes(s)
    ensures var r := Unescape(EscapeAll(s));
      r.Some? ==> |r.value| <= |s| && ((exists c | c in s :: !Recoverable(c)) ==> |r.value| < |s|)
    decreases |s|
  {
    if s != [] {
      var c, rest := s[0], s[1..];
      EscapeFront(s);
      assert c in s;
      forall x | x in rest ensures x as int <= 0xFF { assert x in s; }
      if Recoverable(c) {
        ReadsFewer(rest);
        ReadsOne(c, EscapeAll(rest));
        if exists x | x in s :: !Recoverable(x) {
          var x :| x in s && !Recoverable(x);
          assert x in rest;
        }
      } else {
        Swallows(c, rest);
        if rest != [] {
          forall x | x in rest[1..] ensures x as int <= 0xFF { assert x in rest; }
          ReadsFewer(rest[1..]);
        }
      }
    }
  }

  lemma ReadsTwoDigits(h: char, e: string)
    requires IsHex(h)
    ensures var r := Unescape(['\\', 'x', h] + e);
      r.Some? ==> e != [] && IsHex(e[0]) && exists d :: r == Prepend(d, Unescape(e[1..]))
  {
    var t := ['\\', 'x', h] + e;
    if e != [] {
      assert t[3] == e[0] && t[4..] == e[1..];
    }
  }

  lemma FirstOfEscaped(c: char)
    ensures EscapeChar(c) != [] && (IsHex(EscapeChar(c)[0]) ==> EscapeChar(c) == [c])
  {
  }

  lemma Swallows(c: char, rest: string)
    requires !Recoverable(c) && c as int <= 0xFF
    ensures var r := Unescape(EscapeChar(c) + EscapeAll(rest));
      r.Some? ==> rest != [] && exists d :: r == Prepend(d, Unescape(EscapeAll(rest[1..])))
  {
    var t := EscapeChar(c) + EscapeAll(rest);
    assert c as int < 0x10;
    assert Hex(c as int) == [HexDigit(c as int)];
    var e := EscapeAll(rest);
    assert t == ['\\', 'x', HexDigit(c as int)] + e;
    hide EscapeAll, Hex;
    ReadsTwoDigits(HexDigit(c as int), e);
    if rest != [] {
      EscapeFront(rest);
      FirstOfEscaped(rest[0]);
      hide Unescape, EscapeChar, Recoverable;
      var next := EscapeChar(rest[0]);
      assert e[0] == next[0];
      if IsHex(e[0]) {
        assert e[1..] == EscapeAll(rest[1..]);
      }
    }
  }

  /** What was escaped can be read back, minus one leading slash, exactly if every character
      is written as it is or has two hexadecimal digits. */
  lemma RoundTripIff(path: string)
    ensures Unescape(Escape(path)) == Some(Body(path)) <==> forall c | c in Body(path) :: Recoverable(c)
  {
    var s := Body(path);
    if forall c | c in s :: Recoverable(c) {
      ReadsAll(s);
    } else if Bytes(s) {
      ReadsFewer(s);
    } else {
      OutputIsUnitName(s);
      ReadsOnlyBytes(EscapeAll(s));
      var c :| c in s && c as int > 0xFF;
    }
  }

  /** Different paths of such characters get different names, slash in front or not. */
  lemma EscapeInjective(a: string, b: string)
    requires forall c | c in Body(a) :: Recoverable(c)
    requires forall c | c in Body(b) :: Recoverable(c)
    ensures Escape(a) == Escape(b) <==> Body(a) == Body(b)
  {
    RoundTripIff(a);
    RoundTripIff(b);
  }

  lemma {:induction false} HexLead(n: nat)
    requires n > 0
    ensures Hex(n) != [] && IsHex(Hex(n)[0]) && HexValue(Hex(n)[0]) > 0
    ensures n >= 16 ==> |Hex(n)| > 1
  {
    if n >= 16 { HexLead(n / 16); }
  }

  lemma {:induction false} HexPasses(s: string)
    requires forall c | c in s :: IsHex(c)
    ensures EscapeAll(s) == s
  {
    if s != [] {
      var n := |s| - 1;
      assert s[n] in s;
      HexPasses(s[..n]);
    }
  }

  /** The path that an escaped character is taken for: its first hexadecimal digit as a
      character, the others as they are. */
  function Lookalike(c: char): string
    requires c as int > 0
  {
    HexLead(c as int);
    [HexValue(Hex(c as int)[0]) as char] + Hex(c as int)[1..]
  }

  /** Names collide for every character from 0x10 on that is escaped, those above 0xFF
      included: the first digit counts as a character below 0x10, which is written with one
      digit only. */
  lemma HexCollision(c: char)
    requires c as int >= 0x10 && !Passes(c) && c != '/'
    ensures Escape(Lookalike(c)) == Escape([c]) && Body(Lookalike(c)) != Body([c])
  {
    hide Hex, EscapeAll, EscapeChar, HexValue;
    LookalikeParts(c);
    var h := Hex(c as int);
    var s := Lookalike(c);
    HexIsHex(c as int);
    HexPasses(h[1..]);
    EscapeFront(s);
    EscapeFront([c]);
    NothingEscaped();
    assert [c][1..] == [];
    assert s[1..] == h[1..];
    assert "\\x" + [h[0]] + h[1..] == "\\x" + h;
  }

  lemma LookalikeParts(c: char)
    requires c as int >= 0x10 && !Passes(c) && c != '/'
    ensures var h, s := Hex(c as int), Lookalike(c);
      && |h| > 1 && |s| == |h| && s[1..] == h[1..] && s[0] != '/'
      && EscapeChar(s[0]) == "\\x" + [h[0]] && EscapeChar(c) == "\\x" + h
  {
    HexLead(c as int);
    var v := HexValue(Hex(c as int)[0]);
    assert Hex(v) == [HexDigit(v)];
    DigitOfValue(Hex(c as int)[0]);
  }

  lemma DigitOfValue(h: char)
    requires IsHex(h)
    ensures HexDigit(HexValue(h)) == h
  {
  }

  lemma NothingEscaped()
    ensures EscapeAll("") == ""
  {
  }

  /** So below 0x10 a character with one digit, followed by a hexadecimal digit, looks like one
      character with two. */
  lemma LowCollision(c: char, d: nat)
    requires 0 < c as int < 0x10 && d < 16
    requires !Passes((16 * c as int + d) as char) && 16 * c as int + d != '/' as int
    ensures Escape([c, HexDigit(d)]) == Escape([(16 * c as int + d) as char])
  {
    var n := 16 * c as int + d;
    TwoDigits(n);
    HexCollision(n as char);
    assert Lookalike(n as char) == [c, HexDigit(d)];
  }
}
