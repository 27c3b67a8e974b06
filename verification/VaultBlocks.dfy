/** What the vault scanner drops: where a system block begins, where it ends, and what a dropped
    line takes with it, said of whole texts by their lines. */
module VaultBlocks {
  import opened Basics
  import opened VaultText

  // ---------------------------------------------------------------- the tests on a line

  /** The whitespace of JavaScript's trim, by code point. */
  lemma SpaceCodes(c: char)
    ensures IsSpace(c) <==>
            c as int in {9, 10, 11, 12, 13, 32, 160, 5760, 8232, 8233, 8239, 8287, 12288, 65279}
            || 8192 <= c as int <= 8202
  {}

  /** `/[}\]]\s*,?$/`: a bracket, then spaces, then at most one comma, up to the end. */
  ghost predicate EndsClosed(t: string) {
    exists i :: 0 <= i < |t| && (t[i] == '}' || t[i] == ']')
      && (forall j :: i < j < |t| - 1 ==> IsSpace(t[j]))
      && (i < |t| - 1 ==> IsSpace(t[|t| - 1]) || t[|t| - 1] == ',')
  }

  lemma {:induction false} TrimRightCuts(s: string)
    ensures |TrimRight(s)| <= |s| && TrimRight(s) == s[..|TrimRight(s)|]
    ensures forall j :: |TrimRight(s)| <= j < |s| ==> IsSpace(s[j])
    ensures TrimRight(s) != "" ==> !IsSpace(s[|TrimRight(s)| - 1])
  {
    if s != "" && IsSpace(s[|s| - 1]) {
      TrimRightCuts(s[..|s| - 1]);
      forall j | |TrimRight(s)| <= j < |s| ensures IsSpace(s[j]) {
        if j < |s| - 1 { assert s[..|s| - 1][j] == s[j]; }
      }
    }
  }

  function WithoutComma(t: string): string {
    if t != "" && t[|t| - 1] == ',' then t[..|t| - 1] else t
  }

  lemma ClosedEnds(t: string)
    requires ClosesBlock(t)
    ensures EndsClosed(t)
  {
    var body := WithoutComma(t);
    var n := |TrimRight(body)|;
    TrimRightCuts(body);
    assert t[n - 1] == body[n - 1] == TrimRight(body)[n - 1];
    forall j | n - 1 < j < |t| - 1 ensures IsSpace(t[j]) { assert body[j] == t[j]; }
    if n - 1 < |t| - 1 && t[|t| - 1] != ',' { assert body[|t| - 1] == t[|t| - 1]; }
  }

  lemma EndsClose(t: string, i: nat)
    requires i < |t| && (t[i] == '}' || t[i] == ']')
    requires forall j :: i < j < |t| - 1 ==> IsSpace(t[j])
    requires i < |t| - 1 ==> IsSpace(t[|t| - 1]) || t[|t| - 1] == ','
    ensures ClosesBlock(t)
  {
    var body := WithoutComma(t);
    var n := |TrimRight(body)|;
    TrimRightCuts(body);
    assert i < |body| && body[i] == t[i] && n > i;
    assert body[n - 1] == t[n - 1];
  }

  lemma ClosesIff(t: string)
    ensures ClosesBlock(t) <==> EndsClosed(t)
  {
    if ClosesBlock(t) { ClosedEnds(t); }
    if i :| 0 <= i < |t| && (t[i] == '}' || t[i] == ']')
            && (forall j :: i < j < |t| - 1 ==> IsSpace(t[j]))
            && (i < |t| - 1 ==> IsSpace(t[|t| - 1]) || t[|t| - 1] == ',')
    {
      EndsClose(t, i);
    }
  }

  /** A heading is recognised under two to six marks with space after them, or bare. */
  lemma HeadingUnderMarks(r: Rules, n: nat, sp: string, heading: string)
    requires 2 <= n <= 6 && sp != "" && (forall i :: 0 <= i < |sp| ==> IsSpace(sp[i]))
    requires Tight(heading) && heading != ""
    ensures StripMarks(seq(n, _ => '#') + sp + heading) == heading
    ensures HeadingText(r, seq(n, _ => '#') + sp + heading) <==> r.lower(heading) in r.headings
  {
    var s := seq(n, _ => '#') + sp + heading;
    MarksOf(n, sp + heading);
    assert s == seq(n, _ => '#') + (sp + heading);
    assert s[n..] == sp + heading;
    TrimLeftSpaces(sp, heading);
    TightIsTrimmed(heading);
  }

  lemma HeadingBare(r: Rules, heading: string)
    requires Tight(heading) && (heading == "" || heading[0] != '#')
    ensures StripMarks(heading) == heading
    ensures HeadingText(r, heading) <==> r.lower(heading) in r.headings
  {
    TightIsTrimmed(heading);
  }

  /** One mark, or more than six, are part of the text. */
  lemma OtherMarksStay(n: nat, rest: string)
    requires (n < 2 || n > 6) && (rest == "" || rest[0] != '#')
    ensures StripMarks(seq(n, _ => '#') + rest) == seq(n, _ => '#') + rest
  {
    MarksOf(n, rest);
  }

  lemma {:induction false} MarksOf(n: nat, rest: string)
    requires rest == "" || rest[0] != '#'
    ensures Marks(seq(n, _ => '#') + rest) == n
  {
    if n == 0 {
      assert seq(0, _ => '#') + rest == rest;
    } else {
      assert (seq(n, _ => '#') + rest)[1..] == seq(n - 1, _ => '#') + rest;
      MarksOf(n - 1, rest);
    }
  }

  lemma {:induction false} TrimLeftSpaces(sp: string, rest: string)
    requires forall i :: 0 <= i < |sp| ==> IsSpace(sp[i])
    requires rest == "" || !IsSpace(rest[0])
    ensures TrimLeft(sp + rest) == rest
  {
    if sp == "" {
      assert sp + rest == rest;
    } else {
      assert (sp + rest)[1..] == sp[1..] + rest;
      TrimLeftSpaces(sp[1..], rest);
    }
  }

  /** A line is system data if it is a listed heading or one of the three tests says so. */
  lemma SystemIff(r: Rules, t: string)
    ensures SystemText(r, t) <==>
            r.lower(Trim(StripMarks(t))) in r.headings || r.field(t) || r.vector(t) || r.payload(t)
  {}

  /** A line is kept as it is if it is empty, or has something besides whitespace and is not system
      data. */
  lemma CleanIff(r: Rules, l: string)
    ensures Clean(r, l) <==>
            l == ""
            || ((exists i :: 0 <= i < |l| && !IsSpace(l[i]))
                && !(r.lower(Trim(StripMarks(Trim(l)))) in r.headings || r.field(Trim(l))
                     || r.vector(Trim(l)) || r.payload(Trim(l))))
  {
    TrimBlankIff(l);
  }

  lemma {:induction false} TrimBlankIff(s: string)
    ensures Trim(s) == "" <==> forall i :: 0 <= i < |s| ==> IsSpace(s[i])
  {
    if s != "" && IsSpace(s[0]) {
      TrimBlankIff(s[1..]);
      assert forall i :: 0 < i < |s| ==> s[i] == s[1..][i - 1];
    } else if s != "" {
      TrimRightCuts(s);
    }
  }

  /** Of a run of newlines at most two stay, and what is not a newline stays. */
  lemma {:induction false} CollapseRun(k: nat, rest: string, n: nat)
    requires n <= 2 && (rest == "" || rest[0] != '\n')
    ensures Collapse(seq(k, _ => '\n') + rest, n) ==
            seq(Min(k, 2 - n), _ => '\n') + Collapse(rest, 0)
  {
    var run := seq(k, _ => '\n');
    if k == 0 {
      assert run + rest == rest && seq(0, _ => '\n') + Collapse(rest, 0) == Collapse(rest, 0);
    } else {
      assert (run + rest)[1..] == seq(k - 1, _ => '\n') + rest;
      if n < 2 {
        CollapseRun(k - 1, rest, n + 1);
        assert "\n" + (seq(Min(k - 1, 1 - n), _ => '\n') + Collapse(rest, 0))
            == seq(Min(k, 2 - n), _ => '\n') + Collapse(rest, 0);
      } else {
        CollapseRun(k - 1, rest, n);
      }
    }
  }

  lemma {:induction false} CollapseText(text: string, rest: string, n: nat)
    requires text != "" && '\n' !in text
    ensures Collapse(text + rest, n) == text + Collapse(rest, 0)
  {
    assert (text + rest)[1..] == text[1..] + rest;
    if |text| == 1 {
      assert text[1..] + rest == rest;
    } else {
      CollapseText(text[1..], rest, 0);
      assert [text[0]] + (text[1..] + Collapse(rest, 0)) == text + Collapse(rest, 0);
    }
  }

  // ---------------------------------------------------------------- scanning

  predicate Fences(t: string) {
    |t| >= 3 && t[0] == '`' && t[1] == '`' && t[2] == '`'
  }

  /** Ends in or starts with a bracket that opens. */
  predicate Brackets(t: string) {
    t != "" && (t[|t| - 1] == '{' || t[|t| - 1] == '[' || t[0] == '{' || t[0] == '[')
  }

  lemma ScanFirst(r: Rules, line: string, rest: seq<string>, mode: Mode)
    ensures Scan(r, [line] + rest, mode) == Kept(r, mode, line) + Scan(r, rest, NextMode(r, mode, line))
  {
    assert ([line] + rest)[1..] == rest;
  }

  lemma CleanStays(r: Rules, l: string)
    requires Clean(r, l)
    ensures Kept(r, Reading, l) == [l] && NextMode(r, Reading, l) == Reading
  {}

  lemma {:induction false} ScanConcat(r: Rules, a: seq<string>, b: seq<string>)
    requires AllClean(r, a)
    ensures Scan(r, a + b, Reading) == a + Scan(r, b, Reading)
  {
    if a == [] {
      assert a + b == b;
    } else {
      var first, rest := a[0], a[1..];
      CleanStays(r, first);
      ScanConcat(r, rest, b);
      ScanFirst(r, first, rest + b, Reading);
      HeadAndRest(a, b);
      HeadAndRest(a, Scan(r, b, Reading));
    }
  }

  lemma HeadAndRest(a: seq<string>, b: seq<string>)
    requires a != []
    ensures a + b == [a[0]] + (a[1..] + b)
  {}

  lemma {:induction false} ScanSkips(r: Rules, block: seq<string>, rest: seq<string>, mode: Mode)
    requires mode == InJson ==> forall l :: l in block ==> !EndsClosed(Trim(l))
    requires mode == InFence ==> forall l :: l in block ==> !Fences(Trim(l))
    requires mode != Reading
    ensures Scan(r, block + rest, mode) == Scan(r, rest, mode)
  {
    if block == [] {
      assert block + rest == rest;
    } else {
      assert (block + rest)[1..] == block[1..] + rest;
      ClosesIff(Trim(block[0]));
      ScanSkips(r, block[1..], rest, mode);
    }
  }

  /** The lines a system line takes with it: none, or a block in brackets or fences, which may be cut
      off by the end of the text. */
  datatype Dropped = Alone | Block(inside: seq<string>, close: string) | Open(inside: seq<string>)

  function LinesOf(line: string, d: Dropped): seq<string> {
    match d
    case Alone => [line]
    case Block(inside, close) => [line] + inside + [close]
    case Open(inside) => [line] + inside
  }

  /** The system line begins, and the other lines do not end, what is dropped with it. */
  ghost predicate IsDropped(r: Rules, line: string, d: Dropped) {
    var t := Trim(line);
    t != "" && SystemText(r, t) &&
    match d
    case Alone => !Fences(t) && !Brackets(t)
    case Block(inside, close) =>
      if Fences(t)
      then (forall l :: l in inside ==> !Fences(Trim(l))) && Fences(Trim(close))
      else Brackets(t) && (forall l :: l in inside ==> !EndsClosed(Trim(l))) && EndsClosed(Trim(close))
    case Open(inside) =>
      if Fences(t) then forall l :: l in inside ==> !Fences(Trim(l))
      else Brackets(t) && forall l :: l in inside ==> !EndsClosed(Trim(l))
  }

  function ModeAfter(line: string): Mode {
    if Fences(Trim(line)) then InFence else if Brackets(Trim(line)) then InJson else Reading
  }

  lemma SystemLineOpens(r: Rules, line: string)
    requires Trim(line) != "" && SystemText(r, Trim(line))
    ensures Kept(r, Reading, line) == [] && NextMode(r, Reading, line) == ModeAfter(line)
  {}

  lemma CloseEnds(r: Rules, close: string, mode: Mode)
    requires mode == InFence ==> Fences(Trim(close))
    requires mode == InJson ==> EndsClosed(Trim(close))
    requires mode != Reading
    ensures Kept(r, mode, close) == [] && NextMode(r, mode, close) == Reading
  {
    ClosesIff(Trim(close));
  }

  /** The first line, skipped, leaves the scan of the rest. */
  lemma ScanPast(r: Rules, line: string, rest: seq<string>, mode: Mode, next: Mode)
    requires Kept(r, mode, line) == [] && NextMode(r, mode, line) == next
    ensures Scan(r, [line] + rest, mode) == Scan(r, rest, next)
  {
    ScanFirst(r, line, rest, mode);
    assert [] + Scan(r, rest, next) == Scan(r, rest, next);
  }

  lemma BlockDrops(r: Rules, line: string, inside: seq<string>, close: string, rest: seq<string>)
    requires IsDropped(r, line, Block(inside, close))
    ensures Scan(r, [line] + (inside + ([close] + rest)), Reading) == Scan(r, rest, Reading)
  {
    var mode := ModeAfter(line);
    SystemLineOpens(r, line);
    ScanPast(r, line, inside + ([close] + rest), Reading, mode);
    ScanSkips(r, inside, [close] + rest, mode);
    CloseEnds(r, close, mode);
    ScanPast(r, close, rest, mode, Reading);
  }

  lemma OpenDrops(r: Rules, line: string, inside: seq<string>)
    requires IsDropped(r, line, Open(inside))
    ensures Scan(r, [line] + (inside + []), Reading) == []
  {
    var mode := ModeAfter(line);
    SystemLineOpens(r, line);
    ScanPast(r, line, inside + [], Reading, mode);
    ScanSkips(r, inside, [], mode);
  }

  lemma Associates(a: seq<string>, b: seq<string>, c: seq<string>)
    ensures a + b + c == a + (b + c)
  {}

  lemma ScanDrops(r: Rules, line: string, d: Dropped, rest: seq<string>)
    requires IsDropped(r, line, d) && (d.Open? ==> rest == [])
    ensures Scan(r, LinesOf(line, d) + rest, Reading) == Scan(r, rest, Reading)
  {
    match d
    case Alone =>
      SystemLineOpens(r, line);
      ScanPast(r, line, rest, Reading, Reading);
    case Block(inside, close) =>
      Associates([line] + inside, [close], rest);
      Associates([line], inside, [close] + rest);
      BlockDrops(r, line, inside, close, rest);
    case Open(inside) =>
      Associates([line], inside, []);
      OpenDrops(r, line, inside);
  }

  lemma ScanWithout(r: Rules, a: seq<string>, line: string, d: Dropped, b: seq<string>)
    requires AllClean(r, a) && IsDropped(r, line, d) && (d.Open? ==> b == [])
    ensures Scan(r, a + LinesOf(line, d) + b, Reading) == a + Scan(r, b, Reading)
  {
    Associates(a, LinesOf(line, d), b);
    ScanDrops(r, line, d, b);
    ScanConcat(r, a, LinesOf(line, d) + b);
  }

  /** Between lines that are kept, a system line is dropped with its block and with nothing else: a
      bracketed block up to its closing line, a fence up to the next one, either to the end of the
      text if it is not closed, and a line that opens nothing alone. What is left is joined, runs
      of newlines are cut to two and the ends are trimmed. */
  lemma SystemBlockIsDropped(r: Rules, value: string, a: seq<string>, line: string, d: Dropped,
                             b: seq<string>)
    requires Lines(value) == a + LinesOf(line, d) + b
    requires AllClean(r, a) && AllClean(r, b) && IsDropped(r, line, d) && (d.Open? ==> b == [])
    ensures Sanitize(r, value) == Trim(Collapse(Join(a + b), 0))
  {
    ScanWithout(r, a, line, d, b);
    ScanKeepsClean(r, b);
  }

  /** The same before any lines whatever: the text sanitizes like the one without the block. */
  lemma DroppingIsInvisible(r: Rules, value: string, other: string, a: seq<string>, line: string,
                            d: Dropped, b: seq<string>)
    requires Lines(value) == a + LinesOf(line, d) + b && Lines(other) == a + b
    requires AllClean(r, a) && IsDropped(r, line, d) && (d.Open? ==> b == [])
    ensures Sanitize(r, value) == Sanitize(r, other)
  {
    ScanWithout(r, a, line, d, b);
    ScanConcat(r, a, b);
  }

  /** A line of whitespace is kept as an empty one. */
  lemma BlankLineIsEmptied(r: Rules, value: string, a: seq<string>, blank: string, b: seq<string>)
    requires Lines(value) == a + [blank] + b && AllClean(r, a) && AllClean(r, b)
    requires forall i :: 0 <= i < |blank| ==> IsSpace(blank[i])
    ensures Sanitize(r, value) == Trim(Collapse(Join(a + [""] + b), 0))
  {
    TrimLeftSpaces(blank, "");
    assert blank + "" == blank;
    assert a + [blank] + b == a + ([blank] + b) && a + [""] + b == a + ([""] + b);
    ScanConcat(r, a, [blank] + b);
    ScanFirst(r, blank, b, Reading);
    ScanKeepsClean(r, b);
  }

  function JoinWith(lines: seq<string>, separator: string): string {
    if lines == [] then ""
    else if |lines| == 1 then lines[0]
    else lines[0] + separator + JoinWith(lines[1..], separator)
  }

  lemma {:induction false} PlainLineThen(l: string, rest: string)
    requires '\n' !in l && '\r' !in l
    ensures Lines(l + rest) == [l + Lines(rest)[0]] + Lines(rest)[1..]
  {
    if l == "" {
      assert l + rest == rest && "" + Lines(rest)[0] == Lines(rest)[0];
    } else {
      assert (l + rest)[1..] == l[1..] + rest;
      PlainLineThen(l[1..], rest);
      assert [l[0]] + (l[1..] + Lines(rest)[0]) == l + Lines(rest)[0];
    }
  }

  lemma PlainLineBreaks(l: string, rest: string)
    requires '\n' !in l && '\r' !in l
    ensures Lines(l + ("\n" + rest)) == [l] + Lines(rest)
    ensures Lines(l + ("\r\n" + rest)) == [l] + Lines(rest)
  {
    PlainLineThen(l, "\n" + rest);
    PlainLineThen(l, "\r\n" + rest);
    assert ("\n" + rest)[1..] == rest && ("\r\n" + rest)[2..] == rest && l + "" == l;
  }

  lemma JoinFirst(lines: seq<string>, separator: string)
    requires |lines| > 1
    ensures JoinWith(lines, separator) == lines[0] + (separator + JoinWith(lines[1..], separator))
  {}

  /** A text is split at LF and at CRLF. */
  lemma {:induction false} LinesOfBreaks(lines: seq<string>, separator: string)
    requires lines != [] && forall l :: l in lines ==> '\n' !in l && '\r' !in l
    requires separator == "\n" || separator == "\r\n"
    ensures Lines(JoinWith(lines, separator)) == lines
  {
    if |lines| == 1 {
      PlainLineThen(lines[0], "");
      assert lines[0] + "" == lines[0];
    } else {
      LinesOfBreaks(lines[1..], separator);
      PlainLineBreaks(lines[0], JoinWith(lines[1..], separator));
      JoinFirst(lines, separator);
    }
  }

  /** Joining puts one LF between lines. */
  lemma {:induction false} JoinIsLf(lines: seq<string>)
    ensures Join(lines) == JoinWith(lines, "\n")
  {
    if |lines| > 1 { JoinIsLf(lines[1..]); }
  }
}
