/** The vault editor's split / replace pair, which must bring an edited body back into its file. */
module VaultFiles {
  import opened Basics
  import opened VaultText

  // ---------------------------------------------------------------- splitting a file

  /** The first "---" at or after i. */
  function FindDashes(s: string, i: nat): (p: nat)
    ensures p == |s| || (i <= p && p + 3 <= |s| && s[p..p + 3] == "---")
    decreases |s| - i
  {
    if i + 3 > |s| then |s| else if s[i..i + 3] == "---" then i else FindDashes(s, i + 1)
  }

  function Spaces(s: string): (n: nat)
    ensures n <= |s|
  {
    if s != "" && IsSpace(s[0]) then 1 + Spaces(s[1..]) else 0
  }

  /** Length of the match of `/^---[\s\S]*?---\s*` + `/`, 0 when there is none. */
  function FrontLength(s: string): (n: nat)
    ensures n <= |s|
  {
    if !StartsWith(s, "---") then 0
    else
      var p := FindDashes(s, 3);
      if p == |s| then 0 else p + 3 + Spaces(s[p + 3..])
  }

  datatype Parts = Parts(front: string, body: string, system: string)

  /** `findIndex`; the length when no line is a system heading. */
  function HeadingIndex(r: Rules, lines: seq<string>): (i: nat)
    ensures i <= |lines|
  {
    if lines == [] || IsHeading(r, lines[0]) then 0 else 1 + HeadingIndex(r, lines[1..])
  }

  lemma {:induction false} HeadingIndexIsFirst(r: Rules, lines: seq<string>)
    ensures var i := HeadingIndex(r, lines);
            (i < |lines| ==> IsHeading(r, lines[i]))
            && forall k :: 0 <= k < i ==> !IsHeading(r, lines[k])
  {
    if lines != [] && !IsHeading(r, lines[0]) {
      var rest := lines[1..];
      HeadingIndexIsFirst(r, rest);
      FirstInRest(r, lines[0], rest, HeadingIndex(r, rest));
      assert lines == [lines[0]] + rest;
    }
  }

  lemma FirstInRest(r: Rules, first: string, rest: seq<string>, i: nat)
    requires !IsHeading(r, first) && i <= |rest| && (i < |rest| ==> IsHeading(r, rest[i]))
    requires forall k :: 0 <= k < i ==> !IsHeading(r, rest[k])
    ensures i < |rest| ==> IsHeading(r, ([first] + rest)[i + 1])
    ensures forall k :: 0 <= k < i + 1 ==> !IsHeading(r, ([first] + rest)[k])
  {
    forall k | 0 <= k < i + 1 ensures !IsHeading(r, ([first] + rest)[k]) {
      if k > 0 { assert ([first] + rest)[k] == rest[k - 1]; }
    }
  }

  /** Everything of `splitVaultMarkdown` after the front matter. */
  function SplitRest(r: Rules, front: string, rest: string): Parts {
    var text := Trim(rest);
    var lines := Lines(text);
    var i := HeadingIndex(r, lines);
    if i == |lines| then Parts(front, Sanitize(r, text), "")
    else Parts(front, Sanitize(r, Join(lines[..i])), Trim(Join(lines[i..])))
  }

  /** `splitVaultMarkdown`. */
  function Split(r: Rules, content: string): Parts {
    var n := FrontLength(content);
    SplitRest(r, content[..n], content[n..])
  }

  /** `replaceBody`. */
  function Replace(r: Rules, original: string, body: string): string {
    var parts := Split(r, original);
    parts.front + Trim(Sanitize(r, body)) + Suffix(parts.system)
  }

  function Suffix(system: string): string {
    if system != "" then "\n\n" + Trim(system) + "\n" else "\n"
  }

  // ---------------------------------------------------------------- where the parts are cut

  predicate DashesAt(s: string, j: int) {
    0 <= j && j + 3 <= |s| && s[j] == '-' && s[j + 1] == '-' && s[j + 2] == '-'
  }

  lemma DashesIff(s: string, j: nat)
    requires j + 3 <= |s|
    ensures s[j..j + 3] == "---" <==> DashesAt(s, j)
  {}

  lemma {:induction false} FindDashesIs(s: string, i: nat, k: nat)
    requires i <= k && DashesAt(s, k) && forall j :: i <= j < k ==> !DashesAt(s, j)
    ensures FindDashes(s, i) == k
    decreases k - i
  {
    DashesIff(s, i);
    if i < k { FindDashesIs(s, i + 1, k); }
  }

  lemma {:induction false} FindDashesNone(s: string, i: nat)
    requires forall j :: i <= j ==> !DashesAt(s, j)
    ensures FindDashes(s, i) == |s|
    decreases |s| - i
  {
    if i + 3 <= |s| {
      DashesIff(s, i);
      FindDashesNone(s, i + 1);
    }
  }

  lemma {:induction false} SpacesAre(s: string, n: nat)
    requires n <= |s| && (forall i :: 0 <= i < n ==> IsSpace(s[i])) && (n < |s| ==> !IsSpace(s[n]))
    ensures Spaces(s) == n
  {
    if n > 0 { SpacesAre(s[1..], n - 1); }
  }

  /** Front matter runs from dashes at the very start through the first dashes after them and the
      whitespace that follows. */
  lemma FrontEndsAt(s: string, k: nat, n: nat)
    requires DashesAt(s, 0) && 3 <= k && k + 3 <= n <= |s| && DashesAt(s, k)
    requires forall j :: 3 <= j < k ==> !DashesAt(s, j)
    requires (forall i :: k + 3 <= i < n ==> IsSpace(s[i])) && (n < |s| ==> !IsSpace(s[n]))
    ensures FrontLength(s) == n
  {
    DashesIff(s, 0);
    FindDashesIs(s, 3, k);
    SpacesAre(s[k + 3..], n - k - 3);
  }

  /** Otherwise there is none. */
  lemma NoFront(s: string)
    requires !DashesAt(s, 0) || forall j :: 3 <= j ==> !DashesAt(s, j)
    ensures FrontLength(s) == 0
  {
    if |s| >= 3 { DashesIff(s, 0); }
    if DashesAt(s, 0) { FindDashesNone(s, 3); }
  }

  /** The remainder is cut before its first heading of system data: what is above is the body, what
      is below, heading included, are the sections. */
  lemma SplitAtHeading(r: Rules, content: string, above: seq<string>, heading: string,
                       below: seq<string>)
    requires Lines(Trim(content[FrontLength(content)..])) == above + ([heading] + below)
    requires (forall l :: l in above ==> !IsHeading(r, l)) && IsHeading(r, heading)
    ensures Split(r, content) ==
            Parts(content[..FrontLength(content)], Sanitize(r, Join(above)), Trim(Join([heading] + below)))
  {
    HeadingAfter(r, above, [heading] + below);
    var lines := above + ([heading] + below);
    assert lines[..|above|] == above && lines[|above|..] == [heading] + below;
  }

  /** Without such a heading all of it is body. */
  lemma SplitWithoutHeading(r: Rules, content: string)
    requires forall l :: l in Lines(Trim(content[FrontLength(content)..])) ==> !IsHeading(r, l)
    ensures Split(r, content) ==
            Parts(content[..FrontLength(content)],
                  Sanitize(r, Trim(content[FrontLength(content)..])), "")
  {
    NoHeading(r, Lines(Trim(content[FrontLength(content)..])));
  }

  // ---------------------------------------------------------------- round trip

  /** System sections as `Split` delivers them. */
  ghost predicate SectionText(r: Rules, s: string) {
    Tight(s) && (s != "" ==> IsHeading(r, LfLines(s)[0]))
  }

  lemma BlankIsNoHeading(r: Rules, l: string)
    requires Sensible(r) && Trim(l) == ""
    ensures !IsHeading(r, l)
  {}

  /** Trimming a text keeps the trimmed form of its first line, when that is not blank. */
  lemma {:induction false} TrimFirstLine(s: string)
    requires Trim(LfLines(s)[0]) != ""
    ensures Trim(LfLines(Trim(s))[0]) == Trim(LfLines(s)[0]) && Trim(s) != ""
    decreases |s|
  {
    if Tight(s) {
      TightIsTrimmed(s);
    } else {
      TrimStep(s);
      assert LfLines(s)[0] != "";
      if IsSpace(s[0]) {
        var rest := LfLines(s[1..]);
        assert s[0] != '\n';
        TrimSpaceLeft(s[0], rest[0]);
        TrimFirstLine(s[1..]);
      } else {
        var front, c := s[..|s| - 1], s[|s| - 1];
        assert s == front + [c];
        LfLinesSnoc(front, c);
        var l := LfLines(front);
        if c != '\n' && |l| == 1 { TrimSpaceRight(l[0], c); }
        TrimFirstLine(front);
      }
    }
  }

  lemma SectionsOf(r: Rules, lines: seq<string>)
    requires Sensible(r) && lines != [] && AllOneLine(lines) && IsHeading(r, lines[0])
    ensures SectionText(r, Trim(Join(lines)))
  {
    LfLinesJoin(lines);
    if Trim(lines[0]) == "" { BlankIsNoHeading(r, lines[0]); }
    TrimFirstLine(Join(lines));
    TrimIsTight(Join(lines));
  }

  lemma SplitGivesSections(r: Rules, content: string)
    requires Sensible(r)
    ensures SectionText(r, Split(r, content).system)
  {
    var lines := Lines(Trim(content[FrontLength(content)..]));
    var i := HeadingIndex(r, lines);
    LinesOneLine(Trim(content[FrontLength(content)..]));
    HeadingIndexIsFirst(r, lines);
    if i < |lines| { SectionsOf(r, lines[i..]); }
  }

  lemma {:induction false} HeadingAfter(r: Rules, a: seq<string>, b: seq<string>)
    requires forall l :: l in a ==> !IsHeading(r, l)
    requires b != [] && IsHeading(r, b[0])
    ensures HeadingIndex(r, a + b) == |a|
  {
    if a == [] {
      assert a + b == b;
    } else {
      assert (a + b)[1..] == a[1..] + b;
      HeadingAfter(r, a[1..], b);
    }
  }

  lemma {:induction false} NoHeading(r: Rules, a: seq<string>)
    requires forall l :: l in a ==> !IsHeading(r, l)
    ensures HeadingIndex(r, a) == |a|
  {
    if a != [] { NoHeading(r, a[1..]); }
  }

  lemma CleanIsNoHeading(r: Rules, lines: seq<string>)
    requires Sensible(r) && AllClean(r, lines)
    ensures forall l :: l in lines ==> !IsHeading(r, l)
  {
    forall l | l in lines ensures !IsHeading(r, l) {
      if Trim(l) == "" { BlankIsNoHeading(r, l); }
    }
  }

  /** The trimmed remainder of a rebuilt file. */
  lemma RemainderOf(b: string, s: string)
    requires Tight(b) && Tight(s)
    ensures Trim(b + Suffix(s)) ==
            if s == "" then b else if b == "" then s else b + "\n\n" + s
  {
    TightIsTrimmed(s);
    if s == "" {
      TrimSpaceRight(b, '\n');
      TightIsTrimmed(b);
    } else {
      var t := b + "\n\n" + s;
      assert b + Suffix(s) == t + ['\n'];
      TrimSpaceRight(t, '\n');
      if b == "" { TrimTwoNewlines(s); assert t == "\n\n" + s; } else { TightIsTrimmed(t); }
    }
  }

  lemma TrimTwoNewlines(s: string)
    ensures Trim("\n\n" + s) == Trim(s)
  {
    assert "\n\n" + s == ['\n'] + ("\n" + s) && "\n" + s == ['\n'] + s;
    TrimSpaceLeft('\n', "\n" + s);
    TrimSpaceLeft('\n', s);
  }

  lemma NoCrLfSlice(s: string, i: nat, j: nat)
    requires NoCrLf(s) && i <= j <= |s|
    ensures NoCrLf(s[i..j])
  {
    var t := s[i..j];
    forall k | 0 < k < |t| && t[k] == '\n' ensures t[k - 1] != '\r' {
      assert s[i + k] == '\n' && s[i + k - 1] == t[k - 1];
    }
  }

  lemma PartsNoCrLf(b: string, s: string)
    requires Tight(b) && Tight(s) && b != "" && s != ""
    ensures NoCrLf(b + "\n\n" + s) <==> NoCrLf(b) && NoCrLf(s)
  {
    var t := b + "\n\n" + s;
    if NoCrLf(t) {
      NoCrLfSlice(t, 0, |b|);
      NoCrLfSlice(t, |b| + 2, |t|);
      assert t[0..|b|] == b && t[|b| + 2..|t|] == s;
    }
  }

  /** The trimmed remainder of a rebuilt file holds the carriage returns of its parts. */
  lemma RemainderCrs(b: string, s: string)
    requires Tight(b) && Tight(s)
    ensures Crs(Trim(b + Suffix(s))) == Crs(b) + Crs(s)
    ensures NoCrLf(Trim(b + Suffix(s))) <==> NoCrLf(b) && NoCrLf(s)
  {
    RemainderOf(b, s);
    if b != "" && s != "" { PartsNoCrLf(b, s); }
  }

  lemma {:induction false} CrsJoinSplit(lines: seq<string>, i: nat)
    requires i <= |lines|
    ensures Crs(Join(lines)) == Crs(Join(lines[..i])) + Crs(Join(lines[i..]))
  {
    if i == 0 {
      assert lines[..0] == [] && lines[0..] == lines;
    } else {
      CrsJoinSplit(lines[1..], i - 1);
      CrsJoin(lines);
      CrsJoin(lines[..i]);
      assert lines[..i][1..] == lines[1..][..i - 1] && lines[i..] == lines[1..][i - 1..];
    }
  }

  /** Splitting drops the carriage return of each CRLF in the remainder. */
  lemma SplitCrs(r: Rules, front: string, rest: string)
    ensures var parts := SplitRest(r, front, rest);
            Crs(parts.body) + Crs(parts.system) <= Crs(Trim(rest))
            && (!NoCrLf(Trim(rest)) ==> Crs(parts.body) + Crs(parts.system) < Crs(Trim(rest)))
  {
    var text := Trim(rest);
    var lines := Lines(text);
    var i := HeadingIndex(r, lines);
    SanitizeCrs(r, text);
    LinesCrs(text);
    CrsJoinSplit(lines, i);
    SanitizeCrs(r, Join(lines[..i]));
    TrimCrs(Join(lines[i..]));
  }

  /** A body with nothing after it, and sections with nothing before them. */
  lemma OnePartSplits(r: Rules, front: string, b: string, s: string)
    requires Sensible(r) && Settled(r, b) && SectionText(r, s) && (s == "" || b == "")
    requires NoCrLf(b) && NoCrLf(s)
    ensures SplitRest(r, front, b + Suffix(s)) == Parts(front, b, s)
  {
    RemainderOf(b, s);
    SettledUnchanged(r, b);
    if s == "" {
      SameLines(b);
      CleanIsNoHeading(r, LfLines(b));
      NoHeading(r, LfLines(b));
    } else {
      SameLines(s);
      JoinLfLines(s);
      TightIsTrimmed(s);
      assert LfLines(s)[..0] == [] && LfLines(s)[0..] == LfLines(s);
    }
  }

  /** The lines of body, blank separator and sections. */
  lemma TwoPartLines(b: string, s: string)
    ensures LfLines(b + "\n\n" + s) == (LfLines(b) + [""]) + LfLines(s)
  {
    assert b + "\n\n" + s == b + "\n" + ("\n" + s);
    LfLinesConcat(b, "\n" + s);
    assert ("\n" + s)[1..] == s;
    assert LfLines(b) + ([""] + LfLines(s)) == (LfLines(b) + [""]) + LfLines(s);
  }

  lemma JoinHead(b: string)
    ensures Join(LfLines(b) + [""]) == b + "\n"
  {
    assert b + "\n" == b + "\n" + "";
    LfLinesConcat(b, "");
    JoinLfLines(b + "\n");
  }

  /** The first system heading of a rebuilt file is the one its sections start with. */
  lemma HeadingAfterBody(r: Rules, b: string, s: string)
    requires Sensible(r) && Settled(r, b) && SectionText(r, s) && s != ""
    ensures HeadingIndex(r, (LfLines(b) + [""]) + LfLines(s)) == |LfLines(b)| + 1
  {
    CleanIsNoHeading(r, LfLines(b));
    BlankIsNoHeading(r, "");
    HeadingAfter(r, LfLines(b) + [""], LfLines(s));
  }

  lemma TwoPartsSplit(r: Rules, front: string, b: string, s: string)
    requires Sensible(r) && Settled(r, b) && SectionText(r, s) && s != "" && b != ""
    requires NoCrLf(b) && NoCrLf(s)
    ensures SplitRest(r, front, b + Suffix(s)) == Parts(front, b, s)
  {
    RemainderOf(b, s);
    PartsNoCrLf(b, s);
    SameLines(b + "\n\n" + s);
    TwoPartLines(b, s);
    HeadingAfterBody(r, b, s);
    JoinHead(b);
    JoinLfLines(s);
    var head := LfLines(b) + [""];
    assert (head + LfLines(s))[..|head|] == head && (head + LfLines(s))[|head|..] == LfLines(s);
    SettledPlusNewline(r, b);
    TightIsTrimmed(s);
  }

  /** Splitting the remainder of a rebuilt file gives back its body and its sections exactly when
      neither holds a CRLF. */
  lemma RemainderSplits(r: Rules, front: string, b: string, s: string)
    requires Sensible(r) && Settled(r, b) && SectionText(r, s)
    ensures SplitRest(r, front, b + Suffix(s)) == Parts(front, b, s) <==> NoCrLf(b) && NoCrLf(s)
  {
    if NoCrLf(b) && NoCrLf(s) {
      if s == "" || b == "" { OnePartSplits(r, front, b, s); } else { TwoPartsSplit(r, front, b, s); }
    } else {
      RemainderCrs(b, s);
      SplitCrs(r, front, b + Suffix(s));
    }
  }

  /** The rebuilt file comes apart as it was put together exactly when its front matter ends where
      the original's did and neither the sanitized body nor the sections hold a CRLF. */
  lemma RoundTripIffFrontKept(r: Rules, original: string, body: string)
    requires Sensible(r)
    ensures var parts := Split(r, original);
            Split(r, Replace(r, original, body)) == Parts(parts.front, Sanitize(r, body), parts.system)
            <==> FrontLength(Replace(r, original, body)) == FrontLength(original)
                 && NoCrLf(Sanitize(r, body)) && NoCrLf(parts.system)
  {
    SanitizeSettles(r, body);
    SplitGivesSections(r, original);
    ReplaceShape(r, original, body);
    var parts := Split(r, original);
    RebuiltSplits(r, parts.front, Sanitize(r, body), parts.system);
  }

  lemma SplitFront(r: Rules, content: string)
    ensures Split(r, content).front == content[..FrontLength(content)]
  {}

  lemma ConcatAssociates(a: string, b: string, c: string)
    ensures a + b + c == a + (b + c)
  {}

  lemma ReplaceShape(r: Rules, original: string, body: string)
    ensures var parts := Split(r, original);
            Replace(r, original, body) == parts.front + (Sanitize(r, body) + Suffix(parts.system))
            && parts.front == original[..FrontLength(original)]
  {
    var parts := Split(r, original);
    var b := Sanitize(r, body);
    SplitFront(r, original);
    TrimIsTight(Collapse(Join(Scan(r, Lines(body), Reading)), 0));
    TightIsTrimmed(b);
    ConcatAssociates(parts.front, b, Suffix(parts.system));
  }

  /** A rebuilt file: front matter, body, and after a blank line the sections, ended by a newline. */
  lemma ReplaceInParts(r: Rules, original: string, body: string)
    ensures var parts := Split(r, original);
            Replace(r, original, body) ==
              parts.front + (Sanitize(r, body)
                + if parts.system == "" then "\n" else "\n\n" + parts.system + "\n")
  {
    var text := Trim(original[FrontLength(original)..]);
    var i := HeadingIndex(r, Lines(text));
    ReplaceShape(r, original, body);
    TrimIsTight(Join(Lines(text)[i..]));
    TightIsTrimmed(Split(r, original).system);
  }

  lemma RebuiltSplits(r: Rules, front: string, b: string, s: string)
    requires Sensible(r) && Settled(r, b) && SectionText(r, s)
    ensures var made := front + (b + Suffix(s));
            Split(r, made) == Parts(front, b, s)
            <==> FrontLength(made) == |front| && NoCrLf(b) && NoCrLf(s)
  {
    var made := front + (b + Suffix(s));
    if FrontLength(made) == |front| {
      assert made[..|front|] == front && made[|front|..] == b + Suffix(s);
      RemainderSplits(r, front, b, s);
    }
  }

  lemma {:induction false} FindDashesSame(s: string, t: string, i: nat, k: nat)
    requires k <= |s| && k <= |t| && s[..k] == t[..k]
    requires FindDashes(s, i) + 3 <= k
    ensures FindDashes(t, i) == FindDashes(s, i)
    decreases |s| - i
  {
    if i + 3 <= k {
      assert s[i..i + 3] == s[..k][i..i + 3] && t[i..i + 3] == t[..k][i..i + 3];
    }
    if i + 3 <= |s| && s[i..i + 3] != "---" {
      FindDashesSame(s, t, i + 1, k);
    }
  }

  lemma {:induction false} SpacesConcat(a: string, b: string)
    requires Spaces(a) == |a|
    ensures Spaces(a + b) == |a| + Spaces(b)
  {
    if a == "" {
      assert a + b == b;
    } else {
      assert (a + b)[1..] == a[1..] + b;
      SpacesConcat(a[1..], b);
    }
  }

  lemma {:induction false} SpacesPrefix(s: string)
    ensures Spaces(s[..Spaces(s)]) == Spaces(s)
  {
    if s != "" && IsSpace(s[0]) {
      assert s[..Spaces(s)][1..] == s[1..][..Spaces(s[1..])];
      SpacesPrefix(s[1..]);
    }
  }

  lemma FrontDashesSame(s: string, t: string, n: nat)
    requires FrontLength(s) > 0 && n == FrontLength(s) && n <= |t| && s[..n] == t[..n]
    ensures StartsWith(t, "---") && FindDashes(t, 3) == FindDashes(s, 3)
  {
    assert s[..3] == s[..n][..3] && t[..3] == t[..n][..3];
    FindDashesSame(s, t, 3, n);
  }

  lemma SliceAcross(s: string, q: nat, n: nat, rest: string)
    requires q <= n <= |s|
    ensures (s[..n] + rest)[q..] == s[q..][..n - q] + rest
  {}

  lemma FrontLengthFrom(t: string, q: nat)
    requires StartsWith(t, "---") && q == FindDashes(t, 3) + 3 <= |t|
    ensures FrontLength(t) == q + Spaces(t[q..])
  {}

  /** Whatever follows it, a front matter is found again, and takes in leading whitespace. */
  lemma FrontLengthOf(s: string, rest: string)
    requires FrontLength(s) > 0
    ensures FrontLength(s[..FrontLength(s)] + rest) == FrontLength(s) + Spaces(rest)
  {
    var n := FrontLength(s);
    var q := FindDashes(s, 3) + 3;
    FrontLengthFrom(s, q);
    FrontDashesSame(s, s[..n] + rest, n);
    SliceAcross(s, q, n, rest);
    FrontLengthFrom(s[..n] + rest, q);
    BlankThenRest(s[q..], rest);
  }

  lemma BlankThenRest(s: string, rest: string)
    ensures Spaces(s[..Spaces(s)] + rest) == Spaces(s) + Spaces(rest)
  {
    SpacesPrefix(s);
    SpacesConcat(s[..Spaces(s)], rest);
  }

  /** For a file with front matter, replacing the body round-trips exactly when something of the
      body survives sanitizing (an empty body lets the front matter swallow the separating
      newlines) and no CRLF is left. */
  lemma ReplaceRoundTrips(r: Rules, original: string, body: string)
    requires Sensible(r) && FrontLength(original) > 0
    ensures var parts := Split(r, original);
            Split(r, Replace(r, original, body)) == Parts(parts.front, Sanitize(r, body), parts.system)
            <==> Sanitize(r, body) != "" && NoCrLf(Sanitize(r, body)) && NoCrLf(parts.system)
  {
    var rest := Sanitize(r, body) + Suffix(Split(r, original).system);
    RoundTripIffFrontKept(r, original, body);
    ReplaceShape(r, original, body);
    FrontLengthOf(original, rest);
    SanitizeSettles(r, body);
    assert Spaces(rest) == 0 <==> !IsSpace(rest[0]);
  }

  /** Text that reads as front matter. */
  predicate ReadsAsFront(s: string) {
    StartsWith(s, "---") && FindDashes(s, 3) < |s|
  }

  /** For a file without front matter it round-trips exactly when the new text does not read as
      front matter and no CRLF is left. */
  lemma FrontlessRoundTrips(r: Rules, original: string, body: string)
    requires Sensible(r) && FrontLength(original) == 0
    ensures var parts := Split(r, original);
            Split(r, Replace(r, original, body)) == Parts("", Sanitize(r, body), parts.system)
            <==> !ReadsAsFront(Sanitize(r, body) + Suffix(parts.system))
                 && NoCrLf(Sanitize(r, body)) && NoCrLf(parts.system)
  {
    var rest := Sanitize(r, body) + Suffix(Split(r, original).system);
    RoundTripIffFrontKept(r, original, body);
    ReplaceShape(r, original, body);
    assert "" + rest == rest;
  }

  lemma {:induction false} ApartFrom(lines: seq<string>, i: nat)
    requires Apart(lines) && i <= |lines|
    ensures Apart(lines[i..])
  {
    if 0 < i < |lines| {
      ApartFrom(lines[1..], i - 1);
      assert lines[i..] == lines[1..][i - 1..];
    }
  }

  lemma SliceOfSlice(s: string, i: nat, m: nat)
    requires i + m <= |s|
    ensures s[i..][..m] == s[i..i + m]
  {}

  lemma TrimIsSlice(s: string) returns (i: nat, j: nat)
    ensures i <= j <= |s| && Trim(s) == s[i..j]
  {
    var t := TrimLeft(s);
    var m := |TrimRight(t)|;
    TrimLeftFacts(s);
    TrimRightFacts(t);
    i, j := |s| - |t|, |s| - |t| + m;
    SliceOfSlice(s, i, m);
  }

  lemma PlainSections(r: Rules, content: string)
    requires PlainBreaks(content)
    ensures NoCrLf(Split(r, content).system)
  {
    var n := FrontLength(content);
    var text := Trim(content[n..]);
    PlainBreaksSlice(content, n, |content|);
    var i, j := TrimIsSlice(content[n..]);
    PlainBreaksSlice(content[n..], i, j);
    LinesApart(text);
    LinesOneLine(text);
    var k := HeadingIndex(r, Lines(text));
    if k < |Lines(text)| {
      var tail := Lines(text)[k..];
      ApartFrom(Lines(text), k);
      LfLinesJoin(tail);
      ApartIffNoCrLf(Join(tail));
      i, j := TrimIsSlice(Join(tail));
      NoCrLfSlice(Join(tail), i, j);
    }
  }

  /** LF files and CRLF files alike: only the front matter can spoil the round trip. */
  lemma PlainFilesRoundTrip(r: Rules, original: string, body: string)
    requires Sensible(r) && PlainBreaks(original) && PlainBreaks(body)
    ensures var parts := Split(r, original);
            Split(r, Replace(r, original, body)) == Parts(parts.front, Sanitize(r, body), parts.system)
            <==> if FrontLength(original) > 0 then Sanitize(r, body) != ""
                 else !ReadsAsFront(Sanitize(r, body) + Suffix(parts.system))
  {
    PlainTextNeedsOnePass(r, body);
    PlainSections(r, original);
    if FrontLength(original) > 0 {
      ReplaceRoundTrips(r, original, body);
    } else {
      FrontlessRoundTrips(r, original, body);
    }
  }

  const RULED_BODY := "---\nx\n---\ny"

  lemma RuledBodyLines()
    ensures LfLines(RULED_BODY) == ["---", "x", "---", "y"]
  {
    var lines := ["---", "x", "---", "y"];
    assert Join(["y"]) == "y" && ["---", "y"][1..] == ["y"];
    assert Join(["---", "y"]) == "---\ny" && ["x", "---", "y"][1..] == ["---", "y"];
    assert Join(["x", "---", "y"]) == "x\n---\ny" && lines[1..] == ["x", "---", "y"];
    assert Join(lines) == RULED_BODY;
    LfLinesJoin(lines);
  }

  lemma {:induction false} CalmWhenSingle(s: string, n: nat)
    requires n <= 1 && (n == 1 && s != "" ==> s[0] != '\n')
    requires forall i :: 0 < i < |s| && s[i] == '\n' ==> s[i - 1] != '\n'
    ensures Calm(s, n)
  {
    if s != "" {
      var rest := s[1..];
      forall i | 0 < i < |rest| && rest[i] == '\n' ensures rest[i - 1] != '\n' {
        assert s[i + 1] == '\n' && s[i] == rest[i - 1];
      }
      assert rest != "" && rest[0] == '\n' ==> s[1] == '\n';
      CalmWhenSingle(rest, if s[0] == '\n' then n + 1 else 0);
    }
  }

  lemma PlainLine(r: Rules, l: string)
    requires Tight(l) && !SystemText(r, l)
    ensures Clean(r, l)
  {
    TightIsTrimmed(l);
  }

  lemma FourClean(r: Rules, a: string, b: string, c: string)
    requires Clean(r, a) && Clean(r, b) && Clean(r, c)
    ensures AllClean(r, [a, b, a, c])
  {}

  lemma RuledBodyShape()
    ensures Tight(RULED_BODY) && NoCrLf(RULED_BODY) && Calm(RULED_BODY, 0)
  {
    CalmWhenSingle(RULED_BODY, 0);
  }

  lemma RuledBodySettled(r: Rules)
    requires !SystemText(r, "---") && !SystemText(r, "x") && !SystemText(r, "y")
    ensures Sanitize(r, RULED_BODY) == RULED_BODY
  {
    PlainLine(r, "---");
    PlainLine(r, "x");
    PlainLine(r, "y");
    FourClean(r, "---", "x", "y");
    RuledBodyLines();
    RuledBodyShape();
    SettledUnchanged(r, RULED_BODY);
  }

  lemma {:induction false} FindDashesFinds(s: string, i: nat, k: nat)
    requires i <= k && k + 3 <= |s| && s[k..k + 3] == "---"
    ensures FindDashes(s, i) <= k
    decreases k - i
  {
    if i < k { FindDashesFinds(s, i + 1, k); }
  }

  lemma RuledBodyReadsAsFront()
    ensures ReadsAsFront(RULED_BODY + Suffix(""))
  {
    var made := RULED_BODY + "\n";
    assert made[6..9] == "---" && made[..3] == "---";
    FindDashesFinds(made, 3, 6);
  }

  lemma EmptySplits(r: Rules)
    ensures Split(r, "").system == ""
  {}

  /** A body that opens with a rule and has another one becomes front matter when it is saved into
      a file that has none, although sanitizing leaves it unchanged. */
  lemma RuledBodyBecomesFront(r: Rules)
    requires Sensible(r) && !SystemText(r, "---") && !SystemText(r, "x") && !SystemText(r, "y")
    ensures Sanitize(r, RULED_BODY) == RULED_BODY
    ensures Split(r, Replace(r, "", RULED_BODY)) != Parts("", RULED_BODY, "")
  {
    RuledBodySettled(r);
    EmptySplits(r);
    RuledBodyReadsAsFront();
    FrontlessRoundTrips(r, "", RULED_BODY);
  }
}
