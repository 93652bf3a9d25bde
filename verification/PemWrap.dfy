/** `ipa_cert_to_pem` (lib/filter_plugins/ipa_cert_to_pem.py): certificates in textual form
    (section 2 of RFC 7468). */
module PemWrap {
  import opened PartedText

  const BEGIN := "-----BEGIN CERTIFICATE-----"
  const END := "-----END CERTIFICATE-----"

  /** The lines of 64 characters that the text is cut into, and what is left of it. */
  function Chunks(data: string): (r: seq<string>) {
    if |data| < 64 then (if data == [] then [] else [data])
    else [data[..64]] + Chunks(data[64..])
  }

  /** The lines, each with a line break. */
  function Lines(lines: seq<string>): string {
    if lines == [] then [] else lines[0] + "\n" + Lines(lines[1..])
  }

  function Pem(data: string): string { BEGIN + "\n" + Lines(Chunks(data)) + END + "\n" }

  /** The loop of the filter. */
  method IpaCertToPem(data: string) returns (cert: string)
    ensures cert == Pem(data)
  {
    cert := BEGIN + "\n";
    var rest := data;
    while |rest| >= 64
      invariant cert + Lines(Chunks(rest)) == BEGIN + "\n" + Lines(Chunks(data))
      decreases |rest|
    {
      LinesFront(rest[..64], Chunks(rest[64..]));
      cert := cert + rest[..64] + "\n";
      rest := rest[64..];
    }
    if rest != [] { LinesFront(rest, []); }
    cert := cert + (if rest != [] then rest + "\n" else "") + END + "\n";
  }

  lemma LinesFront(line: string, lines: seq<string>)
    ensures Lines([line] + lines) == line + "\n" + Lines(lines)
  {
    assert ([line] + lines)[1..] == lines;
  }

  // ---------- the form ----------

  function Concat(lines: seq<string>): string {
    if lines == [] then [] else lines[0] + Concat(lines[1..])
  }

  /** The lines put together are the data; all are 64 characters long but the last, which is
      neither longer nor empty. */
  lemma {:induction false} ChunksAre(data: string)
    ensures var lines := Chunks(data);
      && Concat(lines) == data
      && (forall i | 0 <= i < |lines| - 1 :: |lines[i]| == 64)
      && (lines != [] ==> 0 < |lines[|lines| - 1]| <= 64)
  {
    if |data| >= 64 {
      ChunksAre(data[64..]);
      var lines := Chunks(data);
      assert lines[1..] == Chunks(data[64..]);
      assert data == data[..64] + data[64..];
    } else if data != [] {
      assert [data][1..] == [];
    }
  }

  /** No other way of cutting the data into lines has that form. */
  lemma {:induction false} ChunksUnique(data: string, lines: seq<string>)
    requires Concat(lines) == data
    requires forall i | 0 <= i < |lines| - 1 :: |lines[i]| == 64
    requires lines != [] ==> 0 < |lines[|lines| - 1]| <= 64
    ensures lines == Chunks(data)
  {
    if lines != [] {
      var rest := lines[1..];
      assert data == lines[0] + Concat(rest);
      if rest != [] { assert |lines[0]| == 64; }
      assert data[|lines[0]|..] == Concat(rest);
      forall i | 0 <= i < |rest| - 1 ensures |rest[i]| == 64 { assert rest[i] == lines[i + 1]; }
      if rest != [] { assert rest[|rest| - 1] == lines[|lines| - 1]; }
      ChunksUnique(Concat(rest), rest);
      assert lines == [lines[0]] + rest;
      if |lines[0]| == 64 {
        assert data[..64] == lines[0];
      } else {
        assert rest == [] && data == lines[0];
        assert lines == [data] && data != [];
      }
    }
  }

  // ---------- lines and their ends ----------

  lemma {:induction false} LinesJoin(lines: seq<string>, tail: string)
    ensures Lines(lines) + tail == Join(lines + [tail], "\n")
  {
    var all := lines + [tail];
    if lines == [] {
      assert all == [tail];
    } else {
      assert all[1..] == lines[1..] + [tail];
      LinesJoin(lines[1..], tail);
    }
  }

  lemma {:induction false} ConcatWithout(lines: seq<string>, c: char)
    requires c !in Concat(lines)
    ensures forall l | l in lines :: c !in l
  {
    if lines != [] { ConcatWithout(lines[1..], c); }
  }

  /** Split into lines, the result is the two armour lines around the body. */
  lemma PemLines(data: string)
    requires '\n' !in data
    ensures Split(Pem(data), "\n") ==
      ["-----BEGIN CERTIFICATE-----"] + Chunks(data) + ["-----END CERTIFICATE-----", ""]
  {
    ArmourLines(data);
  }

  lemma ArmourLines(data: string)
    requires '\n' !in data
    ensures Split(Pem(data), "\n") == [BEGIN] + Chunks(data) + [END, ""]
  {
    var body := Chunks(data);
    ChunksAre(data);
    ConcatWithout(body, '\n');
    PemIsLines(data);
    NoBreaks();
    SplitWrapped(BEGIN, body, END);
    hide Chunks, Lines, Split, Join, Pem, Concat, BEGIN, END;
  }

  lemma SplitWrapped(first: string, body: seq<string>, last: string)
    requires '\n' !in first && '\n' !in last && forall l | l in body :: '\n' !in l
    ensures Split(Lines([first] + body + [last]), "\n") == [first] + body + [last, ""]
  {
    hide Lines, Split;
    SplitLines([first] + body + [last]);
    assert [first] + body + [last] + [""] == [first] + body + [last, ""];
  }

  lemma SplitLines(lines: seq<string>)
    requires forall l | l in lines :: '\n' !in l
    ensures Split(Lines(lines), "\n") == lines + [""]
  {
    hide Lines, Split, Join;
    LinesJoin(lines, "");
    assert Lines(lines) + "" == Lines(lines);
    var sep := "\n";
    assert sep[0] == '\n';
    SplitJoin(lines + [""], sep);
  }

  lemma NoBreaks()
    ensures '\n' !in BEGIN && '\n' !in END
  {
  }

  lemma PemIsLines(data: string)
    ensures Pem(data) == Lines([BEGIN] + Chunks(data) + [END])
  {
    var body := Chunks(data);
    LinesAppend([BEGIN] + body, [END]);
    LinesFront(BEGIN, body);
    LinesFront(END, []);
    assert [END] + [] == [END];
    hide Chunks, BEGIN, END;
  }

  lemma {:induction false} LinesAppend(a: seq<string>, b: seq<string>)
    ensures Lines(a + b) == Lines(a) + Lines(b)
  {
    if a == [] {
      assert a + b == b;
    } else {
      assert (a + b)[1..] == a[1..] + b;
      LinesAppend(a[1..], b);
    }
  }

  // ---------- the inverse ----------

  /** Takes the first line and the last two pieces off and puts the rest together. */
  function Unarmour(pem: string): string {
    var lines := Split(pem, "\n");
    if |lines| < 3 then [] else Concat(lines[1..|lines| - 2])
  }

  lemma {:induction false} SplitWithout(s: string)
    ensures forall l | l in Split(s, "\n") :: '\n' !in l
    decreases |s|
  {
    var i := First(s, "\n");
    FirstLine(s);
    if i < |s| { SplitWithout(s[i + 1..]); }
  }

  lemma {:induction false} FirstLine(s: string)
    ensures '\n' !in s[..First(s, "\n")]
  {
    if s != [] && !("\n" <= s) {
      FirstLine(s[1..]);
      var i := First(s[1..], "\n");
      assert s[..i + 1] == [s[0]] + s[1..][..i];
    }
  }

  lemma {:induction false} ConcatOfWithout(lines: seq<string>)
    requires forall l | l in lines :: '\n' !in l
    ensures '\n' !in Concat(lines)
  {
    if lines != [] {
      assert lines[0] in lines;
      forall l | l in lines[1..] ensures '\n' !in l { assert l in lines; }
      ConcatOfWithout(lines[1..]);
    }
  }

  /** Without armour and line breaks the data is back, exactly if it held no line break. */
  lemma UnarmourIff(data: string)
    ensures Unarmour(Pem(data)) == data <==> '\n' !in data
  {
    if '\n' !in data {
      ArmourLines(data);
      ChunksAre(data);
      var lines := Split(Pem(data), "\n");
      assert lines[1..|lines| - 2] == Chunks(data);
    } else {
      var lines := Split(Pem(data), "\n");
      SplitWithout(Pem(data));
      if |lines| >= 3 {
        var body := lines[1..|lines| - 2];
        forall l | l in body ensures '\n' !in l { assert l in lines; }
        ConcatOfWithout(body);
      }
    }
  }
}
