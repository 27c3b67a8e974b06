/** The vault editor's line scanner, which drops system data from a note body. */
module VaultText {
  import opened Basics

  /** Whitespace of JavaScript's trim and \s. */
  predicate IsSpace(c: char) {
    c == '\t' || c == '\n' || c == '\U{B}' || c == '\U{C}' || c == '\r' || c == ' '
    || c == '\U{A0}' || c == '\U{1680}' || ('\U{2000}' <= c <= '\U{200A}') || c == '\U{2028}'
    || c == '\U{2029}' || c == '\U{202F}' || c == '\U{205F}' || c == '\U{3000}' || c == '\U{FEFF}'
  }

  function TrimLeft(s: string): string {
    if s != "" && IsSpace(s[0]) then TrimLeft(s[1..]) else s
  }

  function TrimRight(s: string): string {
    if s != "" && IsSpace(s[|s| - 1]) then TrimRight(s[..|s| - 1]) else s
  }

  function Trim(s: string): string {
    TrimRight(TrimLeft(s))
  }

  /** `split(/\r?\n/)`. */
  function Lines(s: string): (lines: seq<string>)
    ensures lines != []
  {
    if s == "" then [""]
    else if s[0] == '\n' then [""] + Lines(s[1..])
    else if s[0] == '\r' && |s| > 1 && s[1] == '\n' then [""] + Lines(s[2..])
    else Grow(s[0], Lines(s[1..]))
  }

  /** One more character in front of the first line. */
  function Grow(c: char, lines: seq<string>): (r: seq<string>)
    requires lines != []
    ensures r != []
  {
    [[c] + lines[0]] + lines[1..]
  }

  function Join(lines: seq<string>): string {
    if lines == [] then ""
    else if |lines| == 1 then lines[0]
    else lines[0] + "\n" + Join(lines[1..])
  }

  /** `replace(/\n{3,}/g, "\n\n")`: of each run of newlines at most two stay; n of the current run
      have been kept already. */
  function Collapse(s: string, n: nat): string {
    if s == "" then ""
    else if s[0] != '\n' then [s[0]] + Collapse(s[1..], 0)
    else if n < 2 then "\n" + Collapse(s[1..], n + 1)
    else Collapse(s[1..], n)
  }

  // ---------------------------------------------------------------- system lines

  /** The heading list, the case folding, and the three regular-expression tests on a trimmed
      line, which stay abstract. */
  datatype Rules = Rules(headings: set<string>, lower: string -> string, field: string -> bool,
                         vector: string -> bool, payload: string -> bool)

  const VAULT_HEADINGS: set<string> := {
    "provenance", "quote", "links", "evidence", "embedding", "embeddings", "vector", "vectors",
    "vector data", "metadata", "frontmatter", "revision", "revisions", "technical", "system",
    "service data", "service", "debug", "diagnostics", "checksums", "checksums and signatures",
    "служебное", "служебные данные", "вектор", "векторы", "векторные данные", "embedding данные",
    "эмбеддинг", "эмбеддинги", "технические данные", "метаданные", "ревизии", "диагностика"}

  ghost predicate Sensible(r: Rules) {
    r.lower("") == "" && "" !in r.headings
  }

  lemma VaultHeadingsNonEmpty()
    ensures "" !in VAULT_HEADINGS
  {}

  /** The application's own rules: its heading list, with any tests on the other lines. */
  function VaultRules(lower: string -> string, field: string -> bool, vector: string -> bool,
                      payload: string -> bool): Rules {
    Rules(VAULT_HEADINGS, lower, field, vector, payload)
  }

  lemma VaultRulesSensible(lower: string -> string, field: string -> bool, vector: string -> bool,
                           payload: string -> bool)
    ensures Sensible(VaultRules(lower, field, vector, payload)) <==> lower("") == ""
  {
    VaultHeadingsNonEmpty();
  }

  function Marks(s: string): nat {
    if s != "" && s[0] == '#' then 1 + Marks(s[1..]) else 0
  }

  lemma {:induction false} MarksBound(s: string)
    ensures Marks(s) <= |s|
  {
    if s != "" { MarksBound(s[1..]); }
  }

  /** `replace(/^#{2,6}\s+/, "")`. */
  function StripMarks(s: string): string {
    MarksBound(s);
    var n := Marks(s);
    if 2 <= n <= 6 && n < |s| && IsSpace(s[n]) then TrimLeft(s[n..]) else s
  }

  /** `isVaultSystemHeading`, on the trimmed line. */
  predicate HeadingText(r: Rules, trimmed: string) {
    r.lower(Trim(StripMarks(trimmed))) in r.headings
  }

  predicate IsHeading(r: Rules, line: string) {
    HeadingText(r, Trim(line))
  }

  predicate SystemText(r: Rules, trimmed: string) {
    HeadingText(r, trimmed) || r.field(trimmed) || r.vector(trimmed) || r.payload(trimmed)
  }

  /** `/[}\]]\s*,?$/` on a trimmed line. */
  predicate ClosesBlock(t: string) {
    var core := TrimRight(if t != "" && t[|t| - 1] == ',' then t[..|t| - 1] else t);
    core != "" && (core[|core| - 1] == '}' || core[|core| - 1] == ']')
  }

  predicate OpensBlock(t: string) {
    t != "" && (t[|t| - 1] == '{' || t[|t| - 1] == '[' || t[0] == '{' || t[0] == '[')
  }

  datatype Mode = Reading | InJson | InFence

  function NextMode(r: Rules, mode: Mode, line: string): Mode {
    var t := Trim(line);
    match mode
    case InFence => if StartsWith(t, "```") then Reading else InFence
    case InJson => if ClosesBlock(t) then Reading else InJson
    case Reading =>
      if t == "" || !SystemText(r, t) then Reading
      else if StartsWith(t, "```") then InFence
      else if OpensBlock(t) then InJson
      else Reading
  }

  function Kept(r: Rules, mode: Mode, line: string): seq<string> {
    if mode != Reading then []
    else if Trim(line) == "" then [""]
    else if SystemText(r, Trim(line)) then []
    else [line]
  }

  /** The scanner. */
  function Scan(r: Rules, lines: seq<string>, mode: Mode): seq<string> {
    if lines == [] then []
    else Kept(r, mode, lines[0]) + Scan(r, lines[1..], NextMode(r, mode, lines[0]))
  }

  /** `sanitizeVaultEditableBody`. */
  function Sanitize(r: Rules, value: string): string {
    Trim(Collapse(Join(Scan(r, Lines(value), Reading)), 0))
  }

  /** The two flags of the source as one mode. */
  function ModeOf(droppingJsonBlock: bool, droppingFence: bool): Mode {
    if droppingFence then InFence else if droppingJsonBlock then InJson else Reading
  }

  lemma ScanFrom(r: Rules, lines: seq<string>, i: nat, mode: Mode, kept: seq<string>)
    requires i < |lines|
    ensures kept + Scan(r, lines[i..], mode) ==
            (kept + Kept(r, mode, lines[i])) + Scan(r, lines[i + 1..], NextMode(r, mode, lines[i]))
  {
    assert lines[i..][1..] == lines[i + 1..];
  }

  /** The scanner's turn on one line. */
  method ScanLine(r: Rules, line: string, kept: seq<string>, droppingJsonBlock: bool,
                  droppingFence: bool)
    returns (kept': seq<string>, droppingJsonBlock': bool, droppingFence': bool)
    ensures var mode := ModeOf(droppingJsonBlock, droppingFence);
            kept' == kept + Kept(r, mode, line)
            && ModeOf(droppingJsonBlock', droppingFence') == NextMode(r, mode, line)
  {
    kept', droppingJsonBlock', droppingFence' := kept, droppingJsonBlock, droppingFence;
    var trimmed := Trim(line);
    if droppingFence {
      if StartsWith(trimmed, "```") { droppingJsonBlock', droppingFence' := false, false; }
      return;
    }
    if droppingJsonBlock {
      if ClosesBlock(trimmed) { droppingJsonBlock' := false; }
      return;
    }
    if trimmed == "" {
      kept' := kept + [""];
      return;
    }
    if SystemText(r, trimmed) {
      if StartsWith(trimmed, "```") {
        droppingFence' := true;
        return;
      }
      if OpensBlock(trimmed) { droppingJsonBlock' := true; }
      return;
    }
    kept' := kept + [line];
  }

  /** The loop of the source. */
  method SanitizeBody(r: Rules, value: string) returns (body: string)
    ensures body == Sanitize(r, value)
  {
    var lines := Lines(value);
    var kept: seq<string> := [];
    var droppingJsonBlock, droppingFence := false, false;
    for i := 0 to |lines|
      invariant kept + Scan(r, lines[i..], ModeOf(droppingJsonBlock, droppingFence))
                == Scan(r, lines, Reading)
    {
      ScanFrom(r, lines, i, ModeOf(droppingJsonBlock, droppingFence), kept);
      kept, droppingJsonBlock, droppingFence :=
        ScanLine(r, lines[i], kept, droppingJsonBlock, droppingFence);
    }
    assert kept + Scan(r, lines[|lines|..], Reading) == kept;
    body := Trim(Collapse(Join(kept), 0));
  }

  // ---------------------------------------------------------------- trimming

  lemma {:induction false} TrimLeftFacts(s: string)
    ensures TrimLeft(s) == "" || !IsSpace(TrimLeft(s)[0])
    ensures |TrimLeft(s)| <= |s| && TrimLeft(s) == s[|s| - |TrimLeft(s)|..]
  {
    if s != "" && IsSpace(s[0]) { TrimLeftFacts(s[1..]); }
  }

  lemma {:induction false} TrimRightFacts(s: string)
    ensures TrimRight(s) == "" || !IsSpace(TrimRight(s)[|TrimRight(s)| - 1])
    ensures |TrimRight(s)| <= |s| && TrimRight(s) == s[..|TrimRight(s)|]
  {
    if s != "" && IsSpace(s[|s| - 1]) { TrimRightFacts(s[..|s| - 1]); }
  }

  predicate Tight(s: string) {
    s == "" || (!IsSpace(s[0]) && !IsSpace(s[|s| - 1]))
  }

  lemma TrimIsTight(s: string)
    ensures Tight(Trim(s))
  {
    TrimLeftFacts(s);
    TrimRightFacts(TrimLeft(s));
  }

  lemma TightIsTrimmed(s: string)
    requires Tight(s)
    ensures Trim(s) == s
  {}

  lemma TrimSpaceLeft(c: char, s: string)
    requires IsSpace(c)
    ensures Trim([c] + s) == Trim(s)
  {
    assert ([c] + s)[1..] == s;
  }

  lemma {:induction false} TrimSpaceRight(s: string, c: char)
    requires IsSpace(c)
    ensures Trim(s + [c]) == Trim(s)
  {
    if s == "" {
      assert s + [c] == [c];
      assert TrimLeft([c]) == TrimLeft("");
    } else if IsSpace(s[0]) {
      assert (s + [c])[1..] == s[1..] + [c];
      TrimSpaceRight(s[1..], c);
    } else {
      assert (s + [c])[..|s|] == s;
    }
  }

  /** Trimming strips one space at a time off either end. */
  lemma TrimStep(s: string)
    requires s != "" && (IsSpace(s[0]) || IsSpace(s[|s| - 1]))
    ensures IsSpace(s[0]) ==> Trim(s[1..]) == Trim(s)
    ensures !IsSpace(s[0]) ==> Trim(s[..|s| - 1]) == Trim(s)
  {
    if !IsSpace(s[0]) {
      assert s == s[..|s| - 1] + [s[|s| - 1]];
      TrimSpaceRight(s[..|s| - 1], s[|s| - 1]);
    }
  }

  // ---------------------------------------------------------------- lines

  /** `split("\n")`: what `Join` put between lines, and nothing else. */
  function LfLines(s: string): (lines: seq<string>)
    ensures lines != []
  {
    if s == "" then [""]
    else if s[0] == '\n' then [""] + LfLines(s[1..])
    else Grow(s[0], LfLines(s[1..]))
  }

  /** No newline has a carriage return before it. */
  predicate NoCrLf(s: string) {
    forall i :: 0 < i < |s| && s[i] == '\n' ==> s[i - 1] != '\r'
  }

  predicate OneLine(l: string) {
    '\n' !in l
  }

  predicate AllOneLine(lines: seq<string>) {
    forall l :: l in lines ==> OneLine(l)
  }

  predicate EndsInCr(l: string) {
    l != "" && l[|l| - 1] == '\r'
  }

  /** No line but the last ends in a carriage return, so that joining makes no CRLF. */
  predicate Apart(lines: seq<string>) {
    |lines| > 1 ==> !EndsInCr(lines[0]) && Apart(lines[1..])
  }

  function NonBlank(lines: seq<string>): seq<string> {
    if lines == [] then []
    else (if lines[0] == "" then [] else [lines[0]]) + NonBlank(lines[1..])
  }

  lemma {:induction false} LinesOneLine(s: string)
    ensures AllOneLine(Lines(s))
    decreases |s|
  {
    if s == "" {
    } else if s[0] == '\n' {
      LinesOneLine(s[1..]);
    } else if s[0] == '\r' && |s| > 1 && s[1] == '\n' {
      LinesOneLine(s[2..]);
    } else {
      LinesOneLine(s[1..]);
      var rest := Lines(s[1..]);
      assert rest[0] in rest && forall l :: l in rest[1..] ==> l in rest;
    }
  }

  lemma {:induction false} SameLines(s: string)
    requires NoCrLf(s)
    ensures Lines(s) == LfLines(s)
  {
    if s != "" {
      assert NoCrLf(s[1..]) by {
        forall i | 0 < i < |s[1..]| && s[1..][i] == '\n' ensures s[1..][i - 1] != '\r' {
          assert s[i + 1] == '\n' && s[1..][i - 1] == s[i];
        }
      }
      SameLines(s[1..]);
    }
  }

  lemma JoinNewline(lines: seq<string>)
    requires lines != []
    ensures Join([""] + lines) == "\n" + Join(lines)
  {
    assert ([""] + lines)[1..] == lines;
  }

  lemma JoinGrow(c: char, lines: seq<string>)
    requires lines != []
    ensures Join(Grow(c, lines)) == [c] + Join(lines)
  {
    assert Grow(c, lines)[1..] == lines[1..];
    if |lines| > 1 {
      assert [c] + (lines[0] + "\n" + Join(lines[1..])) == ([c] + lines[0]) + "\n" + Join(lines[1..]);
    }
  }

  lemma {:induction false} JoinLfLines(s: string)
    ensures Join(LfLines(s)) == s
  {
    if s != "" {
      JoinLfLines(s[1..]);
      if s[0] == '\n' { JoinNewline(LfLines(s[1..])); } else { JoinGrow(s[0], LfLines(s[1..])); }
    }
  }

  lemma GrowConcat(c: char, a: seq<string>, b: seq<string>)
    requires a != []
    ensures Grow(c, a + b) == Grow(c, a) + b
  {}

  lemma {:induction false} LfLinesConcat(a: string, b: string)
    ensures LfLines(a + "\n" + b) == LfLines(a) + LfLines(b)
  {
    if a == "" {
      assert a + "\n" + b == "\n" + b;
      assert ("\n" + b)[1..] == b;
    } else {
      assert (a + "\n" + b)[1..] == a[1..] + "\n" + b;
      LfLinesConcat(a[1..], b);
      if a[0] == '\n' {
        assert [""] + (LfLines(a[1..]) + LfLines(b)) == ([""] + LfLines(a[1..])) + LfLines(b);
      } else {
        GrowConcat(a[0], LfLines(a[1..]), LfLines(b));
      }
    }
  }

  lemma {:induction false} LfLinesOfOne(s: string)
    requires OneLine(s)
    ensures LfLines(s) == [s]
  {
    if s != "" {
      LfLinesOfOne(s[1..]);
      assert [s[0]] + s[1..] == s;
    }
  }

  lemma {:induction false} LfLinesJoin(lines: seq<string>)
    requires lines != [] && AllOneLine(lines)
    ensures LfLines(Join(lines)) == lines
  {
    LfLinesOfOne(lines[0]);
    if |lines| > 1 {
      LfLinesJoin(lines[1..]);
      LfLinesConcat(lines[0], Join(lines[1..]));
      assert lines == [lines[0]] + lines[1..];
    }
  }

  function Appended(l: seq<string>, c: char): seq<string>
    requires l != []
  {
    if c == '\n' then l + [""] else l[..|l| - 1] + [l[|l| - 1] + [c]]
  }

  lemma GrowSnoc(d: char, rest: seq<string>, more: seq<string>, c: char)
    requires rest != [] && more == Appended(rest, c)
    ensures Grow(d, more) == Appended(Grow(d, rest), c)
  {
    if c != '\n' && |rest| == 1 {
      assert [d] + (rest[0] + [c]) == ([d] + rest[0]) + [c];
    }
  }

  /** One more character at the end goes to the last line, or opens a new one. */
  lemma {:induction false} LfLinesSnoc(s: string, c: char)
    ensures LfLines(s + [c]) == Appended(LfLines(s), c)
  {
    if s == "" {
      assert s + [c] == [c] && [c][1..] == "" && [c] + "" == [c] && "" + [c] == [c];
    } else {
      assert (s + [c])[1..] == s[1..] + [c];
      LfLinesSnoc(s[1..], c);
      if s[0] != '\n' {
        GrowSnoc(s[0], LfLines(s[1..]), LfLines(s[1..] + [c]), c);
      }
    }
  }

  // ---------------------------------------------------------------- carriage returns

  lemma NoCrLfStep(s: string)
    requires s != ""
    ensures NoCrLf(s) <==> NoCrLf(s[1..]) && !(s[0] == '\r' && |s| > 1 && s[1] == '\n')
  {
    var t := s[1..];
    forall i | 0 < i < |t| && t[i] == '\n' && NoCrLf(s) ensures t[i - 1] != '\r' {
      assert s[i + 1] == '\n';
    }
    forall i | 0 < i < |s| && s[i] == '\n' && NoCrLf(t) && i != 1 ensures s[i - 1] != '\r' {
      assert t[i - 1] == '\n';
    }
  }

  lemma ApartCons(first: string, rest: seq<string>)
    ensures Apart([first] + rest) <==> (rest == [] || (!EndsInCr(first) && Apart(rest)))
  {
    assert ([first] + rest)[1..] == rest;
  }

  lemma EndsInCrCons(c: char, l: string)
    ensures EndsInCr([c] + l) <==> if l == "" then c == '\r' else EndsInCr(l)
  {
    if l != "" { assert ([c] + l)[|l|] == l[|l| - 1]; }
  }

  lemma GrowApart(c: char, lines: seq<string>)
    requires lines != []
    ensures Apart(Grow(c, lines)) <==>
            Apart(lines) && !(c == '\r' && |lines| > 1 && lines[0] == "")
  {
    ApartCons([c] + lines[0], lines[1..]);
    EndsInCrCons(c, lines[0]);
  }

  lemma FirstLfLineEmpty(s: string)
    ensures |LfLines(s)| > 1 && LfLines(s)[0] == "" <==> s != "" && s[0] == '\n'
  {}

  lemma {:induction false} ApartIffNoCrLf(s: string)
    ensures Apart(LfLines(s)) <==> NoCrLf(s)
  {
    if s != "" {
      ApartIffNoCrLf(s[1..]);
      NoCrLfStep(s);
      if s[0] == '\n' {
        ApartCons("", LfLines(s[1..]));
      } else {
        GrowApart(s[0], LfLines(s[1..]));
        FirstLfLineEmpty(s[1..]);
      }
    }
  }

  /** How many carriage returns a text has. */
  function Crs(s: string): nat {
    multiset(s)['\r']
  }

  lemma CrsSplit(s: string, k: nat)
    requires k <= |s|
    ensures Crs(s) == Crs(s[..k]) + Crs(s[k..])
  {
    assert s == s[..k] + s[k..];
  }

  lemma CrsJoin(lines: seq<string>)
    requires lines != []
    ensures Crs(Join(lines)) == Crs(lines[0]) + Crs(Join(lines[1..]))
  {}

  lemma CrsFirst(s: string)
    requires s != ""
    ensures Crs(s) == (if s[0] == '\r' then 1 else 0) + Crs(s[1..])
  {
    assert s == [s[0]] + s[1..];
  }

  lemma CrsOfBreak(s: string)
    requires |s| > 1 && s[0] == '\r' && s[1] == '\n'
    ensures Crs(s) == 1 + Crs(s[2..])
  {
    CrsFirst(s);
    CrsFirst(s[1..]);
    assert s[1..][1..] == s[2..];
  }

  lemma GrowCrs(c: char, lines: seq<string>)
    requires lines != []
    ensures Crs(Join(Grow(c, lines))) == (if c == '\r' then 1 else 0) + Crs(Join(lines))
  {
    JoinGrow(c, lines);
    CrsFirst([c] + Join(lines));
  }

  lemma NewlineCrs(lines: seq<string>)
    requires lines != []
    ensures Crs(Join([""] + lines)) == Crs(Join(lines))
  {
    JoinNewline(lines);
  }

  /** Splitting drops the carriage return of each CRLF, and no other. */
  lemma {:induction false} LinesCrs(s: string)
    ensures Crs(Join(Lines(s))) <= Crs(s)
    ensures !NoCrLf(s) ==> Crs(Join(Lines(s))) < Crs(s)
    decreases |s|
  {
    if s == "" {
    } else if s[0] == '\r' && |s| > 1 && s[1] == '\n' {
      LinesCrs(s[2..]);
      NewlineCrs(Lines(s[2..]));
      CrsOfBreak(s);
    } else {
      LinesCrs(s[1..]);
      NoCrLfStep(s);
      CrsFirst(s);
      if s[0] == '\n' { NewlineCrs(Lines(s[1..])); } else { GrowCrs(s[0], Lines(s[1..])); }
    }
  }

  lemma {:induction false} ScanCrs(r: Rules, lines: seq<string>, mode: Mode)
    ensures Crs(Join(Scan(r, lines, mode))) <= Crs(Join(lines))
  {
    if lines != [] {
      var kept := Kept(r, mode, lines[0]);
      var rest := Scan(r, lines[1..], NextMode(r, mode, lines[0]));
      ScanCrs(r, lines[1..], NextMode(r, mode, lines[0]));
      CrsJoin(lines);
      if kept == [] {
        assert kept + rest == rest;
      } else {
        CrsJoinCons(kept[0], rest);
      }
    }
  }

  lemma CrsJoinCons(first: string, rest: seq<string>)
    ensures Crs(Join([first] + rest)) == Crs(first) + Crs(Join(rest))
  {
    CrsJoin([first] + rest);
    assert ([first] + rest)[1..] == rest;
  }

  lemma {:induction false} CollapseCrs(s: string, n: nat)
    ensures Crs(Collapse(s, n)) == Crs(s)
  {
    if s != "" {
      CrsSplit(s, 1);
      assert s[..1] == [s[0]];
      CollapseCrs(s[1..], if s[0] != '\n' then 0 else if n < 2 then n + 1 else n);
    }
  }

  lemma TrimCrs(s: string)
    ensures Crs(Trim(s)) <= Crs(s)
  {
    var t := TrimLeft(s);
    TrimLeftFacts(s);
    TrimRightFacts(t);
    CrsSplit(s, |s| - |t|);
    CrsSplit(t, |TrimRight(t)|);
  }

  /** Sanitizing adds no carriage return, and takes one away when the text has a CRLF. */
  lemma SanitizeCrs(r: Rules, value: string)
    ensures Crs(Sanitize(r, value)) <= Crs(value)
    ensures !NoCrLf(value) ==> Crs(Sanitize(r, value)) < Crs(value)
  {
    var text := Join(Scan(r, Lines(value), Reading));
    LinesCrs(value);
    ScanCrs(r, Lines(value), Reading);
    CollapseCrs(text, 0);
    TrimCrs(Collapse(text, 0));
  }

  // ---------------------------------------------------------------- clean lines

  /** A line the scanner keeps as it is. */
  predicate Clean(r: Rules, l: string) {
    l == "" || (Trim(l) != "" && !SystemText(r, Trim(l)))
  }

  predicate AllClean(r: Rules, lines: seq<string>) {
    forall l :: l in lines ==> Clean(r, l)
  }

  lemma {:induction false} ScanCleans(r: Rules, lines: seq<string>, mode: Mode)
    ensures AllClean(r, Scan(r, lines, mode))
    ensures AllOneLine(lines) ==> AllOneLine(Scan(r, lines, mode))
  {
    if lines != [] { ScanCleans(r, lines[1..], NextMode(r, mode, lines[0])); }
  }

  lemma {:induction false} ScanKeepsClean(r: Rules, lines: seq<string>)
    requires AllClean(r, lines)
    ensures Scan(r, lines, Reading) == lines
  {
    if lines != [] {
      assert Clean(r, lines[0]);
      ScanKeepsClean(r, lines[1..]);
    }
  }

  lemma CleanWithoutLeft(r: Rules, s: string)
    requires s != "" && IsSpace(s[0]) && AllClean(r, LfLines(s))
    ensures AllClean(r, LfLines(s[1..]))
    ensures Apart(NonBlank(LfLines(s[1..]))) <==> Apart(NonBlank(LfLines(s)))
  {
    var rest := LfLines(s[1..]);
    if s[0] == '\n' {
      CleanRest(r, rest);
      NonBlankCons("", rest);
    } else {
      CleanTail(r, s[0], rest);
      ApartTail(s[0], rest);
    }
  }

  lemma CleanRest(r: Rules, rest: seq<string>)
    requires AllClean(r, [""] + rest)
    ensures AllClean(r, rest)
  {
    assert forall l :: l in rest ==> l in [""] + rest;
  }

  lemma CleanTail(r: Rules, c: char, rest: seq<string>)
    requires rest != [] && IsSpace(c) && AllClean(r, Grow(c, rest))
    ensures rest[0] != "" && AllClean(r, rest)
  {
    var grown := Grow(c, rest);
    assert grown[0] in grown;
    TrimSpaceLeft(c, rest[0]);
    forall i | 0 <= i < |rest| ensures Clean(r, rest[i]) {
      if i > 0 { assert grown[i] in grown; }
    }
  }

  lemma NonBlankCons(first: string, rest: seq<string>)
    ensures NonBlank([first] + rest) == (if first == "" then [] else [first]) + NonBlank(rest)
    ensures first == "" ==> NonBlank([first] + rest) == NonBlank(rest)
  {
    assert ([first] + rest)[1..] == rest;
  }

  lemma ApartTail(c: char, rest: seq<string>)
    requires rest != [] && rest[0] != ""
    ensures Apart(NonBlank(rest)) <==> Apart(NonBlank(Grow(c, rest)))
  {
    var more := NonBlank(rest[1..]);
    NonBlankCons([c] + rest[0], rest[1..]);
    assert Grow(c, [rest[0]] + more) == [[c] + rest[0]] + more;
    GrowApart(c, [rest[0]] + more);
  }

  lemma {:induction false} NonBlankConcat(a: seq<string>, b: seq<string>)
    ensures NonBlank(a + b) == NonBlank(a) + NonBlank(b)
  {
    if a == [] {
      assert a + b == b;
    } else {
      assert (a + b)[1..] == a[1..] + b;
      NonBlankConcat(a[1..], b);
    }
  }

  /** The last line decides nothing. */
  lemma {:induction false} ApartLast(lines: seq<string>, last: string, other: string)
    ensures Apart(lines + [last]) <==> Apart(lines + [other])
  {
    if lines != [] {
      ApartLast(lines[1..], last, other);
      assert lines + [last] == [lines[0]] + (lines[1..] + [last]);
      assert lines + [other] == [lines[0]] + (lines[1..] + [other]);
      ApartCons(lines[0], lines[1..] + [last]);
      ApartCons(lines[0], lines[1..] + [other]);
    }
  }

  lemma CleanShorter(r: Rules, l: seq<string>, c: char)
    requires l != [] && IsSpace(c) && AllClean(r, Appended(l, c))
    ensures AllClean(r, l)
    ensures c != '\n' ==> l[|l| - 1] != ""
  {
    var n := |l| - 1;
    var more := Appended(l, c);
    forall i | 0 <= i < |l| ensures Clean(r, l[i]) {
      assert more[i] in more;
      if i == n && c != '\n' { TrimSpaceRight(l[n], c); }
    }
    if c != '\n' {
      assert more[n] in more;
      TrimSpaceRight(l[n], c);
    }
  }

  lemma ApartShorter(l: seq<string>, c: char)
    requires l != [] && (c != '\n' ==> l[|l| - 1] != "")
    ensures Apart(NonBlank(l)) <==> Apart(NonBlank(Appended(l, c)))
  {
    if c == '\n' {
      NonBlankConcat(l, [""]);
      assert NonBlank(l) + NonBlank([""]) == NonBlank(l);
    } else {
      var front, last := l[..|l| - 1], l[|l| - 1];
      assert l == front + [last];
      LastNonBlank(front, last);
      LastNonBlank(front, last + [c]);
      ApartLast(NonBlank(front), last, last + [c]);
    }
  }

  lemma LastNonBlank(front: seq<string>, last: string)
    requires last != ""
    ensures NonBlank(front + [last]) == NonBlank(front) + [last]
  {
    NonBlankConcat(front, [last]);
    NonBlankCons(last, []);
    assert [last] + [] == [last];
  }

  lemma CleanWithoutRight(r: Rules, front: string, c: char)
    requires IsSpace(c) && AllClean(r, LfLines(front + [c]))
    ensures AllClean(r, LfLines(front))
    ensures Apart(NonBlank(LfLines(front))) <==> Apart(NonBlank(LfLines(front + [c])))
  {
    LfLinesSnoc(front, c);
    CleanShorter(r, LfLines(front), c);
    ApartShorter(LfLines(front), c);
  }

  // ---------------------------------------------------------------- newline runs

  /** No run of newlines, counting n before s, is longer than two. */
  predicate Calm(s: string, n: nat) {
    s == "" || (if s[0] == '\n' then n < 2 && Calm(s[1..], n + 1) else Calm(s[1..], 0))
  }

  lemma {:induction false} CollapseCalms(s: string, n: nat)
    requires n <= 2
    ensures Calm(Collapse(s, n), n)
  {
    if s != "" {
      if s[0] != '\n' {
        CollapseCalms(s[1..], 0);
        assert ([s[0]] + Collapse(s[1..], 0))[1..] == Collapse(s[1..], 0);
      } else if n < 2 {
        CollapseCalms(s[1..], n + 1);
        assert ("\n" + Collapse(s[1..], n + 1))[1..] == Collapse(s[1..], n + 1);
      } else {
        CollapseCalms(s[1..], n);
      }
    }
  }

  lemma {:induction false} CalmUnchanged(s: string, n: nat)
    requires Calm(s, n)
    ensures Collapse(s, n) == s
  {
    if s != "" { CalmUnchanged(s[1..], if s[0] == '\n' then n + 1 else 0); }
  }

  lemma {:induction false} CalmFewer(s: string, n: nat, m: nat)
    requires Calm(s, n) && m <= n
    ensures Calm(s, m)
  {
    if s != "" && s[0] == '\n' { CalmFewer(s[1..], n + 1, m + 1); }
  }

  lemma {:induction false} CalmPrefix(s: string, c: char, n: nat)
    requires Calm(s + [c], n)
    ensures Calm(s, n)
  {
    if s != "" {
      assert (s + [c])[1..] == s[1..] + [c];
      CalmPrefix(s[1..], c, if s[0] == '\n' then n + 1 else 0);
    }
  }

  /** A newline after a text that does not end in one starts a run. */
  lemma {:induction false} CalmNewline(s: string, n: nat)
    requires Calm(s, n) && s != "" && s[|s| - 1] != '\n'
    ensures Calm(s + "\n", n)
  {
    assert (s + "\n")[1..] == s[1..] + "\n";
    if |s| > 1 {
      CalmNewline(s[1..], if s[0] == '\n' then n + 1 else 0);
    } else {
      assert s[1..] + "\n" == "\n";
    }
  }

  /** Collapsing only removes empty lines. */
  lemma {:induction false} CollapseLines(s: string, n: nat)
    ensures var a, b := LfLines(s), LfLines(Collapse(s, n));
            NonBlank(a) == NonBlank(b)
            && (n < 2 ==> a[0] == b[0] && NonBlank(a[1..]) == NonBlank(b[1..]))
  {
    if s != "" {
      var rest, a := s[1..], LfLines(s[1..]);
      if s[0] != '\n' {
        CollapseLines(rest, 0);
        var b := LfLines(Collapse(rest, 0));
        assert ([s[0]] + Collapse(rest, 0))[1..] == Collapse(rest, 0);
        assert Grow(s[0], a)[1..] == a[1..] && Grow(s[0], b)[1..] == b[1..];
      } else {
        assert ([""] + a)[1..] == a;
        if n < 2 {
          CollapseLines(rest, n + 1);
          var b := LfLines(Collapse(rest, n + 1));
          assert ("\n" + Collapse(rest, n + 1))[1..] == Collapse(rest, n + 1);
          assert ([""] + b)[1..] == b;
        } else {
          CollapseLines(rest, n);
        }
      }
    }
  }

  lemma {:induction false} NonBlankOf(lines: seq<string>)
    ensures forall l :: l in NonBlank(lines) ==> l in lines
    ensures forall l :: l in lines && l != "" ==> l in NonBlank(lines)
  {
    if lines != [] {
      NonBlankOf(lines[1..]);
      assert lines == [lines[0]] + lines[1..];
    }
  }

  lemma CleanByNonBlank(r: Rules, a: seq<string>, b: seq<string>)
    requires AllClean(r, a) && NonBlank(a) == NonBlank(b)
    ensures AllClean(r, b)
  {
    NonBlankOf(a);
    NonBlankOf(b);
  }

  // ---------------------------------------------------------------- sanitizing twice

  /** What sanitizing leaves: clean lines, no long runs, no outer whitespace. */
  ghost predicate Settled(r: Rules, s: string) {
    Tight(s) && Calm(s, 0) && AllClean(r, LfLines(s))
  }

  lemma {:induction false} TrimSettles(r: Rules, s: string)
    requires Calm(s, 0) && AllClean(r, LfLines(s))
    ensures Settled(r, Trim(s))
    ensures Apart(NonBlank(LfLines(Trim(s)))) <==> Apart(NonBlank(LfLines(s)))
    decreases |s|
  {
    if Tight(s) {
      TightIsTrimmed(s);
    } else {
      TrimStep(s);
      if IsSpace(s[0]) {
        CleanWithoutLeft(r, s);
        if s[0] == '\n' { CalmFewer(s[1..], 1, 0); }
        TrimSettles(r, s[1..]);
      } else {
        var front, c := s[..|s| - 1], s[|s| - 1];
        assert s == front + [c];
        CleanWithoutRight(r, front, c);
        CalmPrefix(front, c, 0);
        TrimSettles(r, front);
      }
    }
  }

  lemma {:induction false} ApartNonBlank(lines: seq<string>)
    requires lines != [] && lines[|lines| - 1] != ""
    ensures NonBlank(lines) != []
    ensures Apart(NonBlank(lines)) <==> Apart(lines)
  {
    if |lines| == 1 {
      NonBlankCons(lines[0], []);
      assert lines == [lines[0]] + [];
    } else {
      assert lines == [lines[0]] + lines[1..];
      ApartNonBlank(lines[1..]);
      NonBlankCons(lines[0], lines[1..]);
      ApartCons(lines[0], NonBlank(lines[1..]));
    }
  }

  lemma LastLineWritten(front: string, c: char)
    requires c != '\n'
    ensures var lines := LfLines(front + [c]); lines[|lines| - 1] != ""
  {
    LfLinesSnoc(front, c);
  }

  /** In a text without outer whitespace the blank lines do not matter. */
  lemma TightApart(s: string)
    requires Tight(s)
    ensures Apart(NonBlank(LfLines(s))) <==> NoCrLf(s)
  {
    ApartIffNoCrLf(s);
    if s != "" {
      LastLineWritten(s[..|s| - 1], s[|s| - 1]);
      assert s == s[..|s| - 1] + [s[|s| - 1]];
      ApartNonBlank(LfLines(s));
    }
  }

  /** Sanitized text is settled, whatever the input; it holds a CRLF exactly when the scanner kept
      a line that ends in a carriage return before another non-blank one. */
  lemma SanitizeSettles(r: Rules, value: string)
    ensures Settled(r, Sanitize(r, value))
    ensures NoCrLf(Sanitize(r, value)) <==> Apart(NonBlank(Scan(r, Lines(value), Reading)))
  {
    var kept := Scan(r, Lines(value), Reading);
    var text := Join(kept);
    LinesOneLine(value);
    ScanCleans(r, Lines(value), Reading);
    if kept != [] { LfLinesJoin(kept); }
    assert NonBlank(LfLines(text)) == NonBlank(kept) && AllClean(r, LfLines(text));
    CollapseLines(text, 0);
    CleanByNonBlank(r, LfLines(text), LfLines(Collapse(text, 0)));
    CollapseCalms(text, 0);
    TrimSettles(r, Collapse(text, 0));
    TightApart(Sanitize(r, value));
  }

  lemma SettledUnchanged(r: Rules, s: string)
    requires Settled(r, s)
    ensures Sanitize(r, s) == s <==> NoCrLf(s)
  {
    if NoCrLf(s) {
      SameLines(s);
      ScanKeepsClean(r, LfLines(s));
      JoinLfLines(s);
      CalmUnchanged(s, 0);
      TightIsTrimmed(s);
    } else {
      SanitizeCrs(r, s);
    }
  }

  /** Sanitizing twice is sanitizing once exactly when, of the lines the scanner keeps, no
      non-blank one but the last ends in a carriage return. */
  lemma SanitizeIdempotent(r: Rules, value: string)
    ensures Sanitize(r, Sanitize(r, value)) == Sanitize(r, value)
            <==> Apart(NonBlank(Scan(r, Lines(value), Reading)))
  {
    SanitizeSettles(r, value);
    SettledUnchanged(r, Sanitize(r, value));
  }

  /** No carriage return stands before a CRLF: true of LF files and of CRLF files. */
  predicate PlainBreaks(s: string) {
    forall i :: 0 <= i && i + 2 < |s| && s[i] == '\r' && s[i + 1] == '\r' ==> s[i + 2] != '\n'
  }

  lemma PlainBreaksSlice(s: string, i: nat, j: nat)
    requires PlainBreaks(s) && i <= j <= |s|
    ensures PlainBreaks(s[i..j])
  {
    var t := s[i..j];
    forall k | 0 <= k && k + 2 < |t| && t[k] == '\r' && t[k + 1] == '\r' ensures t[k + 2] != '\n' {
      assert s[i + k] == '\r' && s[i + k + 1] == '\r';
    }
  }

  lemma {:induction false} LinesApart(s: string)
    requires PlainBreaks(s)
    ensures Apart(Lines(s))
    decreases |s|
  {
    if s != "" {
      var k := if s[0] == '\r' && |s| > 1 && s[1] == '\n' then 2 else 1;
      var rest := Lines(s[k..]);
      PlainBreaksSlice(s, k, |s|);
      LinesApart(s[k..]);
      if k == 2 || s[0] == '\n' {
        ApartCons("", rest);
      } else {
        GrownApart(s, rest);
      }
    }
  }

  lemma GrownApart(s: string, rest: seq<string>)
    requires PlainBreaks(s) && s != "" && rest == Lines(s[1..]) && Apart(rest)
    requires !(s[0] == '\r' && |s| > 1 && s[1] == '\n')
    ensures Apart(Grow(s[0], rest))
  {
    GrowApart(s[0], rest);
    if |rest| > 1 && rest[0] == "" { FirstLineEmpty(s[1..]); }
  }

  lemma FirstLineEmpty(s: string)
    requires |Lines(s)| > 1 && Lines(s)[0] == ""
    ensures s != "" && (s[0] == '\n' || (s[0] == '\r' && |s| > 1 && s[1] == '\n'))
  {}

  lemma {:induction false} ScanApart(r: Rules, lines: seq<string>, mode: Mode)
    requires Apart(lines)
    ensures Apart(NonBlank(Scan(r, lines, mode)))
  {
    if lines != [] {
      var kept := Kept(r, mode, lines[0]);
      var rest := Scan(r, lines[1..], NextMode(r, mode, lines[0]));
      ScanApart(r, lines[1..], NextMode(r, mode, lines[0]));
      if kept == [] {
        assert kept + rest == rest;
      } else {
        NonBlankCons(kept[0], rest);
        ApartCons(kept[0], NonBlank(rest));
      }
    }
  }

  /** So one pass is enough for every text in which no carriage return stands before a CRLF. */
  lemma PlainTextNeedsOnePass(r: Rules, value: string)
    requires PlainBreaks(value)
    ensures NoCrLf(Sanitize(r, value))
    ensures Sanitize(r, Sanitize(r, value)) == Sanitize(r, value)
  {
    LinesApart(value);
    ScanApart(r, Lines(value), Reading);
    SanitizeSettles(r, value);
    SanitizeIdempotent(r, value);
  }

  lemma TwoLinesStay(r: Rules, first: string, text: string)
    requires Clean(r, first) && Clean(r, "b") && text == first + "\n" + "b"
    requires Calm(text, 0) && Tight(text)
    ensures Trim(Collapse(Join(Scan(r, [first, "b"], Reading)), 0)) == text
  {
    ScanKeepsClean(r, [first, "b"]);
    assert [first, "b"][1..] == ["b"];
    CalmUnchanged(text, 0);
    TightIsTrimmed(text);
  }

  lemma CrLines()
    ensures Lines("a\r\r\nb") == ["a\r", "b"] && Lines("a\r\nb") == ["a", "b"]
  {
    SameLines("b");
    LfLinesOfOne("b");
    assert "\r\nb"[2..] == "b" && Lines("\r\nb") == ["", "b"];
    assert "\r\r\nb"[1..] == "\r\nb" && ['\r'] + "" == "\r";
    assert Lines("\r\r\nb") == ["\r", "b"];
    assert "a\r\r\nb"[1..] == "\r\r\nb" && ['a'] + "\r" == "a\r";
    assert "a\r\nb"[1..] == "\r\nb" && ['a'] + "" == "a";
  }

  /** With carriage returns it can take two passes: a line that ends in a lone CR, once rejoined
      with LF, reads as a CRLF break. */
  lemma CarriageReturnsNeedTwoPasses(r: Rules)
    requires !SystemText(r, "a") && !SystemText(r, "b")
    ensures Sanitize(r, "a\r\r\nb") == "a\r\nb"
    ensures Sanitize(r, "a\r\nb") == "a\nb"
  {
    CrLines();
    TrimSpaceRight("a", '\r');
    assert "a" + ['\r'] == "a\r";
    TightIsTrimmed("a");
    TightIsTrimmed("b");
    assert "a\r" + "\n" + "b" == "a\r\nb";
    TwoLinesStay(r, "a\r", "a\r\nb");
    TwoLinesStay(r, "a", "a\nb");
  }

  lemma SettledPlusNewline(r: Rules, s: string)
    requires Settled(r, s) && NoCrLf(s)
    ensures Sanitize(r, s + "\n") == s
  {
    assert s + "\n" == s + "\n" + "";
    LfLinesConcat(s, "");
    SameLines(s + "\n");
    ScanKeepsClean(r, LfLines(s + "\n"));
    JoinLfLines(s + "\n");
    if s == "" { assert s + "\n" == "\n"; } else { CalmNewline(s, 0); }
    CalmUnchanged(s + "\n", 0);
    TrimSpaceRight(s, '\n');
    TightIsTrimmed(s);
  }
}
