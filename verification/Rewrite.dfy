/** `mod_rewrite_list_changes`: dicts of lists become sorted lists of `key=value` lines. */
module Rewrite {
  import opened Strings
  import opened IpaModel

  /** `"%s" % v` */
  function Text(a: Atom): string {
    match a
    case Str(s) => s
    case Int(n) => DecimalInt(n)
    case Bool(b) => if b then "True" else "False"
    case Null => "None"
    case B64(t) => "{'__base64__': '" + t + "'}"
  }

  /** Strings stay as they are, numbers can be read again, and the constants have Python's
      names. */
  lemma TextIs(s: string, n: int)
    ensures Text(Str(s)) == s && ParseInt(Text(Int(n))) == Some(n)
    ensures Text(Bool(true)) == "True" && Text(Bool(false)) == "False" && Text(Null) == "None"
    ensures Text(B64(s)) == "{'__base64__': '" + s + "'}"
  {
    ParseDecimalInt(n);
  }

  function Line(k: string, v: Atom): string { k + "=" + Text(v) }

  function LinesOf(m: Lists): set<string> {
    set k, v | k in m && v in m[k] :: Line(k, v)
  }

  const ADDATTR := "addattr"
  const DELATTR := "delattr"
  const ALL := "all"

  predicate AttrKey(k: string) { k == ADDATTR || k == DELATTR }

  ghost function RewrittenVal(k: string, v: ItemVal): ItemVal {
    if AttrKey(k) && v.Grouped? then Lines(Listing(LinesOf(v.m))) else v
  }

  ghost function Rewritten(item: Item): Item {
    (map k | k in item :: RewrittenVal(k, item[k]))[ALL := Val(Bool(true))]
  }

  // ---------- the server's reading of the lines ----------

  /** A line splits at its first `=`. */
  function Parsed(line: string): Pair
    requires '=' in line
  {
    var i := IndexOf(line, '=');
    (line[..i], Str(line[i + 1..]))
  }

  function ParsedLines(ls: seq<string>): set<Pair> {
    set l | l in ls && '=' in l :: Parsed(l)
  }

  /** Attribute names without `=`, values that are strings. */
  ghost predicate Writable(m: Lists) {
    forall k | k in m :: '=' !in k && forall v | v in m[k] :: v.Str?
  }

  lemma ParsedLine(k: string, v: Atom)
    requires '=' !in k && v.Str?
    ensures '=' in Line(k, v) && Parsed(Line(k, v)) == (k, v)
  {
    var l := Line(k, v);
    assert l == k + ['='] + v.s;
    IndexOfAfter(k, '=', v.s);
    assert l[|k|] == '=';
    assert l[..|k|] == k && l[|k| + 1..] == v.s;
  }

  lemma LineInjective(k: string, v: Atom, k': string, v': Atom)
    requires '=' !in k && v.Str? && '=' !in k' && v'.Str? && Line(k, v) == Line(k', v')
    ensures k == k' && v == v'
  {
    ParsedLine(k, v);
    ParsedLine(k', v');
  }

  /** Reading the lines back at the first `=` recovers the dict: no value is lost, none
      moves to another attribute. */
  lemma RewriteLossless(m: Lists)
    requires Writable(m)
    ensures ParsedLines(Listing(LinesOf(m))) == Pairs(m)
  {
    var ls := Listing(LinesOf(m));
    forall p ensures p in ParsedLines(ls) <==> p in Pairs(m) {
      if p in ParsedLines(ls) {
        var l :| l in ls && '=' in l && Parsed(l) == p;
        assert l in Elems(ls);
        var k, v :| k in m && v in m[k] && l == Line(k, v);
        ParsedLine(k, v);
      }
      if p in Pairs(m) {
        ParsedLine(p.0, p.1);
        assert Line(p.0, p.1) in LinesOf(m);
        assert Line(p.0, p.1) in Elems(ls);
      }
    }
  }

  /** One line per value: the rewriting conserves the count. */
  lemma RewriteConservesCount(m: Lists)
    requires Writable(m)
    ensures |Listing(LinesOf(m))| == |Pairs(m)|
  {
    var ls := Listing(LinesOf(m));
    ParsedCount(ls, m);
    RewriteLossless(m);
  }

  lemma {:induction false} ParsedCount(ls: seq<string>, m: Lists)
    requires Writable(m) && Distinct(ls) && forall l | l in ls :: l in LinesOf(m)
    ensures |ParsedLines(ls)| == |ls|
  {
    if ls != [] {
      hide LinesOf, ParsedLines, Writable, Distinct;
      var n := |ls| - 1;
      DistinctInit(ls);
      ParsedCount(ls[..n], m);
      OneMoreLine(ls[..n], ls[n], m);
    }
  }

  lemma DistinctInit(ls: seq<string>)
    requires Distinct(ls) && ls != []
    ensures var init, last := ls[..|ls| - 1], ls[|ls| - 1];
      && Distinct(init) && last !in init && last in ls && ls == init + [last]
      && forall l | l in init :: l in ls
  {
  }

  lemma OneMoreLine(init: seq<string>, last: string, m: Lists)
    requires Writable(m) && last in LinesOf(m) && last !in init && forall l | l in init :: l in LinesOf(m)
    ensures |ParsedLines(init + [last])| == |ParsedLines(init)| + 1
  {
    hide Line, Parsed;
    LineParts(last, m);
    forall l | l in init ensures '=' in l && Parsed(l) != Parsed(last) {
      LineParts(l, m);
    }
    assert ParsedLines(init + [last]) == ParsedLines(init) + {Parsed(last)} by {
      assert forall l | l in init + [last] :: l in init || l == last;
      assert last in init + [last] && forall l | l in init :: l in init + [last];
    }
    assert Parsed(last) !in ParsedLines(init);
  }

  /** A line of the dict is the line of the pair it reads as. */
  lemma LineParts(l: string, m: Lists)
    requires Writable(m) && l in LinesOf(m)
    ensures '=' in l && Line(Parsed(l).0, Parsed(l).1) == l
  {
    var k, v :| k in m && v in m[k] && l == Line(k, v);
    ParsedLine(k, v);
  }
}
