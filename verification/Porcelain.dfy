/** `git status --porcelain` text: how it is printed (Porcelain Format Version 1
    of the git-status manual) and how canonical-recovery.mjs reads it back after
    its `git()` helper has trimmed the output. */
module Porcelain {
  import opened PathQuoting
  import opened Text

  // ---------------------------------------------------------------------------
  // Printing
  // ---------------------------------------------------------------------------

  /** One line: the codes and the paths themselves, `orig` the old one of a rename or
      copy, else empty. */
  datatype StatusLine = StatusLine(x: char, y: char, orig: string, path: string)

  const ARROW := " -> "
  const CODES := " MTADRCU"

  function PrintLine(l: StatusLine): string {
    [l.x, l.y, ' '] + PrintNames(l)
  }

  function PrintNames(l: StatusLine): string {
    (if l.orig == "" then "" else PrintName(l.orig) + ARROW) + PrintName(l.path)
  }

  /** Every line is terminated, the last one too. */
  function PrintStatus(ls: seq<StatusLine>): string {
    if ls == [] then "" else PrintLine(ls[0]) + "\n" + PrintStatus(ls[1..])
  }

  predicate ValidLine(l: StatusLine) {
    ((l.x == l.y == '?') || (l.x in CODES && l.y in CODES && [l.x, l.y] != "  ")) && l.path != ""
  }

  /** The report loses nothing: no two lines print alike. */
  lemma PrintLineInjective(l: StatusLine, m: StatusLine)
    requires l.path != "" && m.path != ""
    requires PrintLine(l) == PrintLine(m)
    ensures l == m
  {
    assert PrintLine(l)[0] == l.x && PrintLine(l)[1] == l.y && PrintLine(l)[3..] == PrintNames(l);
    assert PrintLine(m)[0] == m.x && PrintLine(m)[1] == m.y && PrintLine(m)[3..] == PrintNames(m);
    SplitNames(l);
    SplitNames(m);
    var rest, rest' := AfterFirst(l), AfterFirst(m);
    PrintNamePrefix(FirstName(l), FirstName(m), rest, rest');
    if l.orig != "" {
      assert rest[4..] == PrintName(l.path) && rest'[4..] == PrintName(m.path);
      assert PrintName(l.path) + "" == PrintName(m.path) + "";
      PrintNamePrefix(l.path, m.path, "", "");
    }
  }

  function FirstName(l: StatusLine): string {
    if l.orig == "" then l.path else l.orig
  }

  function AfterFirst(l: StatusLine): string {
    if l.orig == "" then "" else ARROW + PrintName(l.path)
  }

  lemma SplitNames(l: StatusLine)
    ensures PrintNames(l) == PrintName(FirstName(l)) + AfterFirst(l)
  {
  }

  // ---------------------------------------------------------------------------
  // Reading
  // ---------------------------------------------------------------------------

  datatype StatusEntry = StatusEntry(path: string, xy: string, isUntracked: bool)

  /** `s.slice(0, n)` and `s.slice(n)`, total as in JavaScript. */
  function Take(s: string, n: nat): string { if n <= |s| then s[..n] else s }
  function Drop(s: string, n: nat): string { if n <= |s| then s[n..] else "" }

  function LastPart(raw: string): string {
    var parts := Split(raw, ARROW);
    parts[|parts| - 1]
  }

  /** The entry a line of the report contributes, if any. */
  function ReadLine(line: string): seq<StatusEntry> {
    var xy := Take(line, 2);
    var raw := Trim(Drop(line, 2));
    if Trim(line) == "" || raw == "" then []
    else [StatusEntry(LastPart(raw), xy, xy == "??" || (|xy| == 2 && xy[1] == '?'))]
  }

  function ReadLines(lines: seq<string>): seq<StatusEntry> {
    if lines == [] then [] else ReadLine(lines[0]) + ReadLines(lines[1..])
  }

  lemma {:induction false} ReadLinesAppend(a: seq<string>, b: seq<string>)
    ensures ReadLines(a + b) == ReadLines(a) + ReadLines(b)
  {
    if a == [] {
      assert a + b == b;
    } else {
      assert (a + b)[1..] == a[1..] + b;
      ReadLinesAppend(a[1..], b);
    }
  }

  /** `parseStatusEntries`: one pass over the lines, filling a list. */
  method ParseStatusEntries(statusText: string) returns (entries: seq<StatusEntry>)
    ensures entries == ReadLines(Split(statusText, "\n"))
  {
    entries := [];
    var lines := Split(statusText, "\n");
    for i := 0 to |lines|
      invariant entries == ReadLines(lines[..i])
    {
      var line := lines[i];
      ReadOneMore(lines, i);
      if Trim(line) == "" { continue; }
      var xy := Take(line, 2);
      var raw := Trim(Drop(line, 2));
      if raw == "" { continue; }
      var renameParts := Split(raw, ARROW);
      var path := renameParts[|renameParts| - 1];
      entries := entries + [StatusEntry(path, xy, xy == "??" || (|xy| == 2 && xy[1] == '?'))];
    }
    assert lines[..|lines|] == lines;
  }

  lemma ReadOneMore(lines: seq<string>, i: nat)
    requires i < |lines|
    ensures ReadLines(lines[..i + 1]) == ReadLines(lines[..i]) + ReadLine(lines[i])
  {
    assert lines[..i + 1] == lines[..i] + [lines[i]];
    ReadLinesAppend(lines[..i], [lines[i]]);
    assert ReadLines([lines[i]]) == ReadLine(lines[i]) + [];
  }

  // ---------------------------------------------------------------------------
  // The last part of a line
  // ---------------------------------------------------------------------------

  /** What is read of a path. */
  function ReadPath(path: string): string {
    LastPart(PrintName(path))
  }

  lemma StraddledArrow(s: string, p: string)
    requires |s| >= 3
    ensures OccursAt(s + ARROW + p, ARROW, |s| - 3) ==> EndsWith(s, " ->")
  {
    var n, w := |s|, (s + ARROW + p)[|s| - 3..|s| + 1];
    assert w[0] == s[n - 3] && w[1] == s[n - 2] && w[2] == s[n - 1];
    if w == ARROW {
      assert s[n - 3..] == [ARROW[0], ARROW[1], ARROW[2]] == " ->";
    }
  }

  /** Before the separator that is put there, only those of the text itself occur. */
  lemma NoEarlierArrow(s: string, p: string)
    requires !EndsWith(s, " ->")
    ensures forall k :: 0 <= k < |s| && OccursAt(s + ARROW + p, ARROW, k) ==> OccursAt(s, ARROW, k)
  {
    var t, n := s + ARROW + p, |s|;
    forall k | 0 <= k < n ensures OccursAt(t, ARROW, k) ==> OccursAt(s, ARROW, k) {
      var w := t[k..k + 4];
      if k + 4 <= n {
        assert w == s[k..k + 4];
      } else if k == n - 3 {
        StraddledArrow(s, p);
      } else if k == n - 2 {
        assert w[2] == t[n] == ' ' && ARROW[2] == '>';
      } else {
        assert w[1] == t[n] == ' ' && ARROW[1] == '-';
      }
    }
  }

  lemma FirstArrow(s: string, p: string)
    requires !EndsWith(s, " ->")
    ensures var i := IndexFrom(s, ARROW, 0);
            IndexFrom(s + ARROW + p, ARROW, 0) == if i == -1 then |s| else i
  {
    var t, i := s + ARROW + p, IndexFrom(s, ARROW, 0);
    NoEarlierArrow(s, p);
    assert t[|s|..|s| + 4] == ARROW && OccursAt(t, ARROW, |s|);
    if i != -1 {
      assert t[i..i + 4] == s[i..i + 4] && OccursAt(t, ARROW, i);
    }
  }

  lemma LastPartStep(raw: string, i: nat)
    requires IndexFrom(raw, ARROW, 0) == i
    ensures LastPart(raw) == LastPart(raw[i + 4..])
  {
    var rest := Split(raw[i + 4..], ARROW);
    assert Split(raw, ARROW) == [raw[..i]] + rest;
  }

  lemma SuffixEnds(s: string, i: nat, w: string)
    requires i <= |s|
    ensures EndsWith(s[i..], w) ==> EndsWith(s, w)
  {
    if EndsWith(s[i..], w) {
      assert s[i..][|s| - i - |w|..] == s[|s| - |w|..];
    }
  }

  /** Text that does not end in the beginning of a separator can stand before one. */
  lemma {:induction false} LastPartAfter(s: string, p: string)
    requires !EndsWith(s, " ->")
    ensures LastPart(s + ARROW + p) == LastPart(p)
    decreases |s|
  {
    var i := IndexFrom(s, ARROW, 0);
    FirstArrow(s, p);
    LastPartStep(s + ARROW + p, if i == -1 then |s| else i);
    if i == -1 {
      assert (s + ARROW + p)[|s| + 4..] == p;
    } else {
      var rest := s[i + 4..];
      assert (s + ARROW + p)[i + 4..] == rest + ARROW + p;
      SuffixEnds(s, i + 4, " ->");
      LastPartAfter(rest, p);
    }
  }

  lemma LastPartPlain(p: string)
    requires !Contains(p, ARROW)
    ensures LastPart(p) == p
  {
    assert IndexFrom(p, ARROW, 0) == -1;
  }

  /** The last part holds no separator. */
  lemma {:induction false} LastPartFree(raw: string)
    ensures !Contains(LastPart(raw), ARROW)
    decreases |raw|
  {
    var i := IndexFrom(raw, ARROW, 0);
    if i != -1 {
      LastPartFree(raw[i + 4..]);
    }
  }

  // ---------------------------------------------------------------------------
  // Names read back
  // ---------------------------------------------------------------------------

  /** Escaped text starts with characters of the separator only where the name does. */
  lemma {:induction false} EscapeStarts(name: string, w: string)
    requires StartsWith(Escape(name), w)
    requires forall i :: 0 <= i < |w| ==> w[i] == ' ' || w[i] == '-' || w[i] == '>'
    ensures StartsWith(name, w)
  {
    if w != "" && name != "" {
      var e := EscapeChar(name[0]);
      EscapeCharPrintable(name[0]);
      assert Escape(name)[0] == e[0] == w[0];
      assert e == [name[0]];
      assert Escape(name[1..]) == Escape(name)[1..];
      assert Escape(name)[..|w|][1..] == w[1..];
      EscapeStarts(name[1..], w[1..]);
      assert name[..|w|] == [name[0]] + name[1..][..|w| - 1];
    }
  }

  lemma {:induction false} EscapeArrow(name: string, i: nat) returns (j: nat)
    requires OccursAt(Escape(name), ARROW, i)
    ensures OccursAt(name, ARROW, j)
  {
    var e := EscapeChar(name[0]);
    if i >= |e| {
      assert Escape(name)[i..i + 4] == Escape(name[1..])[i - |e|..i - |e| + 4];
      var k := EscapeArrow(name[1..], i - |e|);
      j := k + 1;
      assert name[j..j + 4] == name[1..][k..k + 4];
    } else {
      EscapeCharPrintable(name[0]);
      assert Escape(name)[i..i + 4][0] == e[i] == ' ';
      EscapeStarts(name, ARROW);
      j := 0;
    }
  }

  lemma QuotedArrow(e: string, i: nat)
    requires OccursAt("\"" + e + "\"", ARROW, i)
    ensures i > 0 && OccursAt(e, ARROW, i - 1)
  {
    var q := "\"" + e + "\"";
    assert q[i..i + 4][0] == q[i] && q[i..i + 4][3] == q[i + 3];
    assert q[0] == '"' == q[|q| - 1];
    assert q[1..|q| - 1] == e;
    assert e[i - 1..i + 3] == q[i..i + 4];
  }

  lemma PrintedArrow(name: string)
    ensures Contains(PrintName(name), ARROW) ==> Contains(name, ARROW)
  {
    if Contains(PrintName(name), ARROW) && !Bare(name) {
      var i :| OccursAt(PrintName(name), ARROW, i);
      QuotedArrow(Escape(name), i);
      var j := EscapeArrow(name, i - 1);
    }
  }

  /** A path is read back as it is exactly when git prints it without quotes. Else it
      is read with its quotes, or cut at the last arrow in it. */
  lemma ReadPathRightIff(path: string)
    requires path != ""
    ensures ReadPath(path) == path <==> Bare(path)
    ensures !Contains(path, ARROW) ==> ReadPath(path) == PrintName(path)
  {
    PrintedArrow(path);
    LastPartFree(PrintName(path));
    PrintNamePrintable(path);
    ArrowHasBlank(path);
    if Bare(path) {
      LastPartPlain(path);
    } else if !Contains(path, ARROW) {
      LastPartPlain(PrintName(path));
    }
  }

  /** A misread path ends in a quote, so it is never taken for a bare one. */
  lemma ReadPathBareIff(path: string)
    requires path != ""
    ensures Bare(ReadPath(path)) <==> Bare(path)
  {
    PrintNamePrintable(path);
    if Bare(path) {
      ReadPathRightIff(path);
    } else {
      LastPartQuoted(PrintName(path));
      assert NeedsEscape('"');
    }
  }

  lemma {:induction false} LastPartQuoted(raw: string)
    requires raw != "" && raw[|raw| - 1] == '"'
    ensures var r := LastPart(raw); r != "" && r[|r| - 1] == '"'
    decreases |raw|
  {
    var i := IndexFrom(raw, ARROW, 0);
    if i != -1 {
      assert raw[i..i + 4][3] == raw[i + 3] == ' ';
      LastPartQuoted(raw[i + 4..]);
    }
  }

  lemma ArrowHasBlank(name: string)
    ensures Contains(name, ARROW) || EndsWith(name, " ->") ==> ' ' in name
    ensures EndsWith(name, " ->") ==> name[|name| - 1] == '>'
  {
    if Contains(name, ARROW) {
      var i :| OccursAt(name, ARROW, i);
      assert name[i..i + 4][0] == name[i];
    }
    if EndsWith(name, " ->") {
      assert name[|name| - 3..][0] == name[|name| - 3] && name[|name| - 3..][2] == name[|name| - 1];
    }
  }

  /** What is read of a line is what is read of its path, renamed or not. */
  lemma LastOfNames(l: StatusLine)
    requires l.path != ""
    ensures LastPart(PrintNames(l)) == ReadPath(l.path)
  {
    if l.orig == "" {
      assert PrintNames(l) == PrintName(l.path);
    } else {
      var q := PrintName(l.orig);
      PrintNamePrintable(l.orig);
      ArrowHasBlank(q);
      LastPartAfter(q, PrintName(l.path));
    }
  }

  lemma {:induction false} EscapePlain(name: string)
    requires forall i :: 0 <= i < |name| ==> !NeedsEscape(name[i])
    ensures Escape(name) == name
  {
    if name != "" {
      EscapePlain(name[1..]);
    }
  }

  /** A blank is enough: the quotes git puts around "a b" are read as part of it. */
  lemma BlankMisread()
    ensures PrintName("a b") == "\"a b\"" == ReadPath("a b")
  {
    var p := "a b";
    EscapePlain(p);
    assert p[1] == ' ';
    ReadPathRightIff(p);
  }

  /** Of an untracked "a -> b" only the end is read. */
  lemma ArrowMisread()
    ensures PrintName("a -> b") == "\"a -> b\"" && ReadPath("a -> b") == "b\""
  {
    var p, last := "a -> b", "b\"";
    assert PrintName(p) == "\"" + p + "\"" by {
      EscapePlain(p);
      assert p[1] == ' ';
    }
    assert "\"" + p + "\"" == "\"a" + ARROW + last;
    LastPartAfter("\"a", last);
    assert !Contains(last, ARROW) by { assert |last| < |ARROW|; }
    LastPartPlain(last);
  }

  // ---------------------------------------------------------------------------
  // Round trip
  // ---------------------------------------------------------------------------

  /** The line as the reader sees it: trimming the whole report takes the leading
      blank of a first line such as " M p" away. */
  function SeenLine(l: StatusLine, first: bool): string {
    if first && l.x == ' ' then PrintLine(l)[1..] else PrintLine(l)
  }

  function SeenCode(l: StatusLine, first: bool): string {
    if first && l.x == ' ' then [l.y, ' '] else [l.x, l.y]
  }

  /** Two code characters, optional white space and trimmed names. */
  lemma ReadCodeAndNames(code: string, gap: string, names: string)
    requires |code| == 2 && AllSpace(gap) && Trimmed(names) && names != ""
    ensures ReadLine(code + gap + names)
         == [StatusEntry(LastPart(names), code, code == "??" || code[1] == '?')]
  {
    var line := code + gap + names;
    assert line[..2] == code && line[2..] == gap + names + "";
    TrimPadded(gap, names, "");
    assert line[|line| - 1] == names[|names| - 1];
    TrimVisible(line, |line| - 1);
  }

  lemma ReadNames(l: StatusLine)
    requires ValidLine(l)
    ensures var n := PrintNames(l);
            n != "" && Trimmed(n) && '\n' !in n && LastPart(n) == ReadPath(l.path)
  {
    LastOfNames(l);
    PrintNamePrintable(l.path);
    if l.orig != "" {
      PrintNamePrintable(l.orig);
    }
  }

  lemma CodeBlanks(c: char)
    requires c == '?' || c in CODES
    ensures IsSpace(c) <==> c == ' '
    ensures c != '\n'
  {
  }

  lemma SeenShape(l: StatusLine, first: bool) returns (gap: string)
    ensures AllSpace(gap) && SeenLine(l, first) == SeenCode(l, first) + gap + PrintNames(l)
    ensures '\n' !in gap
  {
    gap := if first && l.x == ' ' then "" else " ";
    assert PrintLine(l)[1..] == [l.y, ' '] + PrintNames(l);
  }

  function SeenEntry(l: StatusLine, first: bool): StatusEntry {
    StatusEntry(ReadPath(l.path), SeenCode(l, first), l.y == '?')
  }

  lemma ReadSeenLine(l: StatusLine, first: bool)
    requires ValidLine(l)
    ensures ReadLine(SeenLine(l, first)) == [SeenEntry(l, first)]
  {
    ReadNames(l);
    var gap := SeenShape(l, first);
    ReadCodeAndNames(SeenCode(l, first), gap, PrintNames(l));
  }

  lemma SeenLineEnds(l: StatusLine, first: bool)
    requires ValidLine(l)
    ensures var s := SeenLine(l, first);
            s != "" && '\n' !in s && !IsSpace(s[|s| - 1]) && (first ==> !IsSpace(s[0]))
  {
    ReadNames(l);
    CodeBlanks(l.x);
    CodeBlanks(l.y);
    var gap := SeenShape(l, first);
    var s := SeenLine(l, first);
    assert s[|s| - 1] == PrintNames(l)[|PrintNames(l)| - 1];
    assert s[0] == SeenCode(l, first)[0];
    assert !(l.x == ' ' && l.y == ' ') by { assert [' ', ' '] == "  "; }
  }

  function SeenLines(ls: seq<StatusLine>, first: bool): (seen: seq<string>)
    ensures |seen| == |ls|
  {
    if ls == [] then [] else [SeenLine(ls[0], first)] + SeenLines(ls[1..], false)
  }

  ghost predicate SeenWell(seen: seq<string>) {
    forall i :: 0 <= i < |seen| ==>
      seen[i] != "" && '\n' !in seen[i] && !IsSpace(seen[i][|seen[i]| - 1])
  }

  function SeenEntries(ls: seq<StatusLine>, first: bool): (es: seq<StatusEntry>)
    ensures |es| == |ls|
  {
    if ls == [] then [] else [SeenEntry(ls[0], first)] + SeenEntries(ls[1..], false)
  }

  lemma {:induction false} SeenEntryAt(ls: seq<StatusLine>, first: bool, i: nat)
    requires i < |ls|
    ensures SeenEntries(ls, first)[i] == SeenEntry(ls[i], first && i == 0)
  {
    var rest := SeenEntries(ls[1..], false);
    if i > 0 {
      SeenEntryAt(ls[1..], false, i - 1);
      assert SeenEntries(ls, first)[i] == rest[i - 1];
    }
  }

  /** The lines seen give back the entries, in order. */
  lemma {:induction false} ReadSeenLines(ls: seq<StatusLine>, first: bool)
    requires forall i :: 0 <= i < |ls| ==> ValidLine(ls[i])
    ensures ReadLines(SeenLines(ls, first)) == SeenEntries(ls, first)
  {
    if ls != [] {
      ReadSeenLine(ls[0], first);
      ReadSeenLines(ls[1..], false);
      assert SeenLines(ls, first)[1..] == SeenLines(ls[1..], false);
    }
  }

  lemma {:induction false} SeenLinesEnd(ls: seq<StatusLine>, first: bool)
    requires forall i :: 0 <= i < |ls| ==> ValidLine(ls[i])
    ensures SeenWell(SeenLines(ls, first))
  {
    if ls != [] {
      SeenLineEnds(ls[0], first);
      SeenLinesEnd(ls[1..], false);
    }
  }

  lemma {:induction false} PrintStatusJoins(ls: seq<StatusLine>, first: bool)
    requires ls != []
    ensures PrintStatus(ls)
      == (if first && ls[0].x == ' ' then " " else "") + Join(SeenLines(ls, first), "\n") + "\n"
  {
    var pre := if first && ls[0].x == ' ' then " " else "";
    var head, rest := SeenLine(ls[0], first), SeenLines(ls[1..], false);
    assert PrintLine(ls[0]) == pre + head;
    assert SeenLines(ls, first)[1..] == rest;
    if |ls| > 1 {
      PrintStatusJoins(ls[1..], false);
      assert "" + Join(rest, "\n") == Join(rest, "\n");
      JoinTwo(head, rest);
      Regroup(pre, head, Join(rest, "\n"));
    } else {
      assert PrintStatus(ls[1..]) == "" && SeenLines(ls, first) == [head];
      assert pre + head + "\n" + "" == pre + head + "\n";
    }
  }

  lemma JoinTwo(head: string, rest: seq<string>)
    requires rest != []
    ensures Join([head] + rest, "\n") == head + "\n" + Join(rest, "\n")
  {
    assert ([head] + rest)[1..] == rest;
  }

  lemma Regroup(pre: string, head: string, tail: string)
    ensures pre + head + "\n" + (tail + "\n") == pre + (head + "\n" + tail) + "\n"
  {
  }

  lemma TrimJoined(pre: string, seen: seq<string>)
    requires seen != [] && SeenWell(seen) && seen[0] != "" && !IsSpace(seen[0][0]) && AllSpace(pre)
    ensures Trim(pre + Join(seen, "\n") + "\n") == Join(seen, "\n")
  {
    JoinEnds(seen, "\n");
    TrimPadded(pre, Join(seen, "\n"), "\n");
  }

  /** The report is its seen lines, with white space the trimming takes. */
  lemma ReportShape(ls: seq<StatusLine>) returns (pre: string)
    requires ls != [] && forall i :: 0 <= i < |ls| ==> ValidLine(ls[i])
    ensures AllSpace(pre) && PrintStatus(ls) == pre + Join(SeenLines(ls, true), "\n") + "\n"
  {
    pre := if ls[0].x == ' ' then " " else "";
    PrintStatusJoins(ls, true);
  }

  lemma SeenVisible(ls: seq<StatusLine>) returns (seen: seq<string>)
    requires ls != [] && forall i :: 0 <= i < |ls| ==> ValidLine(ls[i])
    ensures seen == SeenLines(ls, true) && seen != [] && SeenWell(seen) && seen[0] != "" && !IsSpace(seen[0][0])
  {
    seen := SeenLines(ls, true);
    SeenLinesEnd(ls, true);
    SeenLineEnds(ls[0], true);
  }

  lemma TrimmedReport(ls: seq<StatusLine>)
    requires ls != [] && forall i :: 0 <= i < |ls| ==> ValidLine(ls[i])
    ensures Trim(PrintStatus(ls)) == Join(SeenLines(ls, true), "\n")
  {
    var pre := ReportShape(ls);
    var seen := SeenVisible(ls);
    TrimJoined(pre, seen);
  }

  lemma NothingRead()
    ensures ReadLines(Split(Trim(""), "\n")) == []
  {
    SplitSingle("", '\n');
    assert Trim("") == "";
    assert ReadLines([""]) == ReadLine("") + [];
  }

  /** Reading the trimmed text of the report gives back the lines seen. */
  lemma ReadReport(ls: seq<StatusLine>)
    requires forall i :: 0 <= i < |ls| ==> ValidLine(ls[i])
    ensures ReadLines(Split(Trim(PrintStatus(ls)), "\n")) == SeenEntries(ls, true)
  {
    if ls == [] {
      NothingRead();
    } else {
      TrimmedReport(ls);
      ReadSeenLines(ls, true);
      SeenLinesEnd(ls, true);
      SplitOfJoin(SeenLines(ls, true), '\n');
    }
  }

  /** Reading the trimmed text of a status report gives one entry a line, in order,
      with the untracked flag, and with the path (the new one of a rename) exactly
      when that is printed bare; only the status code of a first line that starts
      with a blank is read shifted. */
  lemma StatusRoundTrip(ls: seq<StatusLine>)
    requires forall i :: 0 <= i < |ls| ==> ValidLine(ls[i])
    ensures var es := ReadLines(Split(Trim(PrintStatus(ls)), "\n"));
            && |es| == |ls|
            && forall i :: 0 <= i < |ls| ==>
                 && es[i].path == ReadPath(ls[i].path)
                 && (es[i].path == ls[i].path <==> Bare(ls[i].path))
                 && (es[i].isUntracked <==> ls[i].y == '?')
                 && es[i].xy == SeenCode(ls[i], i == 0)
  {
    ReadReport(ls);
    var es := SeenEntries(ls, true);
    forall i | 0 <= i < |ls|
      ensures es[i] == SeenEntry(ls[i], i == 0) && (ReadPath(ls[i].path) == ls[i].path <==> Bare(ls[i].path))
    {
      SeenEntryAt(ls, true, i);
      ReadPathRightIff(ls[i].path);
    }
  }
}
