/** The structured stdout report: the format the prompt asks for and the parser of
    codex-result-stdout-parser.mjs. */
module StdoutReport {
  import opened Text
  import opened Wrappers

  datatype Key = Status | Summary | ChangedFiles | Tests | Commit | RemoteHead
               | SubagentsUsed | Subagents | GptQuestions

  /** The key with its equals sign, in lower case. */
  function KeyText(k: Key): string {
    match k
    case Status => "status="
    case Summary => "summary="
    case ChangedFiles => "changed_files="
    case Tests => "tests="
    case Commit => "commit="
    case RemoteHead => "remote_head="
    case SubagentsUsed => "subagents_used="
    case Subagents => "subagents="
    case GptQuestions => "gpt_questions_used="
  }

  /** A character `.` does not match. */
  predicate IsTerminator(c: char) {
    c == '\n' || c == '\r' || c == '\U{2028}' || c == '\U{2029}'
  }

  predicate AllDigits(s: string) {
    s != "" && forall c <- s :: '0' <= c <= '9'
  }

  predicate IsStatusWord(s: string) {
    s == "completed" || s == "failed" || s == "timed_out"
  }

  predicate Captured(k: Key, value: string) {
    match k
    case Status => IsStatusWord(Lower(value))
    case SubagentsUsed => Lower(value) == "true" || Lower(value) == "false"
    case GptQuestions => AllDigits(value)
    case _ => forall c <- value :: !IsTerminator(c)
  }

  /** The case-insensitive expression of one key against a trimmed line: the text
      captured after the equals sign. */
  function Match(k: Key, trimmed: string): Option<string> {
    var n := |KeyText(k)|;
    if n <= |trimmed| && Lower(trimmed[..n]) == KeyText(k) && Captured(k, trimmed[n..])
    then Some(trimmed[n..]) else None
  }

  const KEYS := [Status, Summary, ChangedFiles, Tests, Commit, RemoteHead, SubagentsUsed, Subagents, GptQuestions]

  function FirstMatch(keys: seq<Key>, trimmed: string): Option<(Key, string)> {
    if keys == [] then None
    else match Match(keys[0], trimmed)
         case Some(v) => Some((keys[0], v))
         case None => FirstMatch(keys[1..], trimmed)
  }

  /** What the chain of tests makes of a line. */
  function Field(line: string): Option<(Key, string)> {
    FirstMatch(KEYS, Trim(line))
  }

  type LineField = Option<(Key, string)>

  function Fields(lines: seq<string>): (fs: seq<LineField>)
    ensures |fs| == |lines| && forall i :: 0 <= i < |lines| ==> fs[i] == Field(lines[i])
  {
    seq(|lines|, i requires 0 <= i < |lines| => Field(lines[i]))
  }

  predicate IsField(f: LineField, k: Key) {
    f.Some? && f.value.0 == k
  }

  /** The text captured by the last field of `k`. */
  function LastOf(fs: seq<LineField>, k: Key): Option<string> {
    if fs == [] then None
    else if IsField(fs[|fs| - 1], k) then Some(fs[|fs| - 1].value.1)
    else LastOf(fs[..|fs| - 1], k)
  }

  function LastValue(lines: seq<string>, k: Key): Option<string> {
    LastOf(Fields(lines), k)
  }

  predicate AnyField(fs: seq<LineField>) {
    exists i :: 0 <= i < |fs| && fs[i].Some?
  }

  // ---------------------------------------------------------------------------
  // The parser
  // ---------------------------------------------------------------------------

  datatype Report = Report(status: Option<string>, summary: Option<string>, changedFiles: seq<string>,
                           tests: Option<string>, commit: Option<string>, remoteHead: Option<string>)

  /** `questions` are the digits of the count; `subagents` the entries of the list. */
  datatype Parsed = Parsed(report: Report, structured: bool, subagentsUsed: bool, subagents: Option<seq<string>>,
                           questions: Option<string>, excerpt: Option<string>)

  /** `captured.trim() || null`. */
  function NonEmpty(v: Option<string>): Option<string> {
    if v.Some? && Trim(v.value) != "" then Some(Trim(v.value)) else None
  }

  function DropNone(v: Option<string>): Option<string> {
    if v.Some? && Lower(v.value) == "none" then None else v
  }

  /** `.map(f => f.trim()).filter(Boolean)`. */
  function CleanParts(parts: seq<string>): seq<string> {
    if parts == [] then []
    else (if Trim(parts[0]) == "" then [] else [Trim(parts[0])]) + CleanParts(parts[1..])
  }

  function FilesOf(raw: Option<string>): seq<string> {
    if raw.Some? && Lower(raw.value) != "none" then CleanParts(Split(raw.value, ",")) else []
  }

  function LowerOption(v: Option<string>): Option<string> {
    match v case Some(s) => Some(Lower(s)) case None => None
  }

  function ReportOf(lines: seq<string>): Report {
    Report(LowerOption(LastValue(lines, Status)),
           DropNone(NonEmpty(LastValue(lines, Summary))),
           FilesOf(NonEmpty(LastValue(lines, ChangedFiles))),
           DropNone(NonEmpty(LastValue(lines, Tests))),
           DropNone(NonEmpty(LastValue(lines, Commit))),
           DropNone(NonEmpty(LastValue(lines, RemoteHead))))
  }

  /** The list of the last subagent line that parses as one; `parseArray` is JSON
      parsing, which is not part of this model. */
  function LastList(fs: seq<LineField>, parseArray: string -> Option<seq<string>>): Option<seq<string>> {
    if fs == [] then None
    else
      var last := fs[|fs| - 1];
      if IsField(last, Subagents) && parseArray(Trim(last.value.1)).Some? then parseArray(Trim(last.value.1))
      else LastList(fs[..|fs| - 1], parseArray)
  }

  function Excerpt(output: string): string {
    if |output| <= 500 then output else output[..500]
  }

  /** `parseCodexResult`. */
  method ParseCodexResult(output: string, parseArray: string -> Option<seq<string>>) returns (r: Parsed)
    ensures output == "" ==> r == Parsed(Report(None, None, [], None, None, None), false, false, None, None, None)
    ensures output != "" ==>
      var lines := Split(output, "\n");
      && r.report == ReportOf(lines)
      && (r.structured <==> AnyField(Fields(lines)))
      && (r.subagentsUsed <==> LowerOption(LastValue(lines, SubagentsUsed)) == Some("true"))
      && r.subagents == LastList(Fields(lines), parseArray)
      && r.questions == LastValue(lines, GptQuestions)
      && r.excerpt.Some? && r.excerpt.value <= output
      && |r.excerpt.value| == (if |output| < 500 then |output| else 500)
      && Says(lines, r)
  {
    if output == "" {
      return Parsed(Report(None, None, [], None, None, None), false, false, None, None, None);
    }
    var lines := Split(output, "\n");
    var structured := false;
    var status: Option<string> := None;
    var summary: Option<string> := None;
    var changedFilesRaw: Option<string> := None;
    var tests: Option<string> := None;
    var commit: Option<string> := None;
    var remoteHead: Option<string> := None;
    var subagentsUsed := false;
    var subagents: Option<seq<string>> := None;
    var questions: Option<string> := None;
    ghost var fs := Fields(lines);
    for i := 0 to |lines|
      invariant structured <==> AnyField(fs[..i])
      invariant status == LowerOption(LastOf(fs[..i], Status))
      invariant summary == NonEmpty(LastOf(fs[..i], Summary))
      invariant changedFilesRaw == NonEmpty(LastOf(fs[..i], ChangedFiles))
      invariant tests == NonEmpty(LastOf(fs[..i], Tests))
      invariant commit == NonEmpty(LastOf(fs[..i], Commit))
      invariant remoteHead == NonEmpty(LastOf(fs[..i], RemoteHead))
      invariant subagentsUsed <==> LowerOption(LastOf(fs[..i], SubagentsUsed)) == Some("true")
      invariant subagents == LastList(fs[..i], parseArray)
      invariant questions == LastOf(fs[..i], GptQuestions)
    {
      OneMoreField(fs, i);
      OneMoreList(fs, i, parseArray);
      match Field(lines[i])
      case None =>
      case Some((key, value)) =>
        structured := true;
        match key
        case Status => status := Some(Lower(value));
        case Summary => summary := NonEmpty(Some(value));
        case ChangedFiles => changedFilesRaw := NonEmpty(Some(value));
        case Tests => tests := NonEmpty(Some(value));
        case Commit => commit := NonEmpty(Some(value));
        case RemoteHead => remoteHead := NonEmpty(Some(value));
        case SubagentsUsed => subagentsUsed := Lower(value) == "true";
        case Subagents =>
          var parsed := parseArray(Trim(value));
          if parsed.Some? { subagents := parsed; }
        case GptQuestions => questions := Some(value);
    }
    assert fs[..|lines|] == fs;
    var changedFiles := FilesOf(changedFilesRaw);
    summary := DropNone(summary);
    tests := DropNone(tests);
    commit := DropNone(commit);
    remoteHead := DropNone(remoteHead);
    r := Parsed(Report(status, summary, changedFiles, tests, commit, remoteHead), structured, subagentsUsed,
                subagents, questions, Some(Excerpt(output)));
    ParsedSays(lines, r);
  }

  lemma OneMoreList(fs: seq<LineField>, i: nat, parseArray: string -> Option<seq<string>>)
    requires i < |fs|
    ensures LastList(fs[..i + 1], parseArray) ==
      if IsField(fs[i], Subagents) && parseArray(Trim(fs[i].value.1)).Some? then parseArray(Trim(fs[i].value.1))
      else LastList(fs[..i], parseArray)
  {
    assert fs[..i + 1][..i] == fs[..i];
  }

  lemma OneMoreField(fs: seq<LineField>, i: nat)
    requires i < |fs|
    ensures forall k: Key ::
      LastOf(fs[..i + 1], k) == if IsField(fs[i], k) then Some(fs[i].value.1) else LastOf(fs[..i], k)
    ensures AnyField(fs[..i + 1]) <==> AnyField(fs[..i]) || fs[i].Some?
  {
    var more := fs[..i + 1];
    assert more[..i] == fs[..i] && more[i] == fs[i];
    assert forall j :: 0 <= j < i ==> more[j] == fs[..i][j];
  }

  // ---------------------------------------------------------------------------
  // The last matching line decides
  // ---------------------------------------------------------------------------

  /** The name of each key. */
  function NameOf(k: Key): string {
    match k
    case GptQuestions => "gpt_questions_used="
    case Subagents => "subagents="
    case SubagentsUsed => "subagents_used="
    case RemoteHead => "remote_head="
    case Commit => "commit="
    case Tests => "tests="
    case ChangedFiles => "changed_files="
    case Summary => "summary="
    case Status => "status="
  }

  /** What may follow the name: one of the status words, a truth value, digits, or any text
      without line terminators. */
  ghost predicate Allows(k: Key, v: string) {
    match k
    case Status => Lower(v) in {"completed", "failed", "timed_out"}
    case SubagentsUsed => Lower(v) in {"true", "false"}
    case GptQuestions => v != "" && forall c <- v :: '0' <= c <= '9'
    case _ => '\n' !in v && '\r' !in v && '\U{2028}' !in v && '\U{2029}' !in v
  }

  /** But for white space around it, the line is the name in any case and the value. */
  ghost predicate Gives(line: string, k: Key, v: string) {
    exists pre, head, post: string :: GivesAs(line, k, v, pre, head, post)
  }

  ghost predicate GivesAs(line: string, k: Key, v: string, pre: string, head: string, post: string) {
    && AllSpace(pre) && AllSpace(post) && line == pre + (head + v) + post && Trimmed(head + v)
    && Lower(head) == NameOf(k) && Allows(k, v)
  }

  lemma AllowsIff(k: Key, v: string)
    ensures Allows(k, v) <==> Captured(k, v)
  {
  }

  lemma GivesMatches(line: string, k: Key, v: string)
    requires Gives(line, k, v)
    ensures Match(k, Trim(line)) == Some(v)
  {
    var pre, head, post :| GivesAs(line, k, v, pre, head, post);
    TrimPadded(pre, head + v, post);
    AllowsIff(k, v);
    assert (head + v)[..|head|] == head && (head + v)[|head|..] == v;
  }

  lemma MatchGives(line: string, k: Key, v: string)
    requires Match(k, Trim(line)) == Some(v)
    ensures Gives(line, k, v)
  {
    var pre, post := TrimSplits(line);
    var head := MatchParts(Trim(line), k, v);
    assert GivesAs(line, k, v, pre, head, post);
  }

  lemma MatchParts(trimmed: string, k: Key, v: string) returns (head: string)
    requires Match(k, trimmed) == Some(v)
    ensures trimmed == head + v && Lower(head) == NameOf(k) && Allows(k, v)
  {
    head := trimmed[..|KeyText(k)|];
    AllowsIff(k, v);
  }

  lemma NoMatchNoGives(line: string, k: Key)
    requires Match(k, Trim(line)).None?
    ensures forall v :: !Gives(line, k, v)
  {
    if v :| Gives(line, k, v) {
      GivesMatches(line, k, v);
    }
  }

  /** The last line that gives the key gives it this value. */
  ghost predicate LastGives(lines: seq<string>, k: Key, v: string) {
    exists i :: 0 <= i < |lines| && Gives(lines[i], k, v) && NoneGives(lines, i + 1, k)
  }

  ghost predicate NoneGives(lines: seq<string>, from: nat, k: Key) {
    forall j, v :: from <= j < |lines| ==> !Gives(lines[j], k, v)
  }

  /** The value of a key is the one the last line that gives it gives. */
  lemma LastValueGiven(lines: seq<string>, k: Key)
    ensures match LastValue(lines, k) case Some(v) => LastGives(lines, k, v) case None => NoneGives(lines, 0, k)
  {
    LastMatchDecides(lines, k);
    var value := LastValue(lines, k);
    if value.Some? {
      var i :| 0 <= i < |lines| && Match(k, Trim(lines[i])) == value
        && forall j :: i < j < |lines| ==> Match(k, Trim(lines[j])).None?;
      MatchGives(lines[i], k, value.value);
      NoneFrom(lines, i + 1, k);
    } else {
      NoneFrom(lines, 0, k);
    }
  }

  lemma NoneFrom(lines: seq<string>, from: nat, k: Key)
    requires forall j :: from <= j < |lines| ==> Match(k, Trim(lines[j])).None?
    ensures NoneGives(lines, from, k)
  {
    forall j, v | from <= j < |lines| ensures !Gives(lines[j], k, v) {
      NoMatchNoGives(lines[j], k);
    }
  }

  /** A text field: the value given last, trimmed, unless that is empty or "none". */
  ghost predicate TextField(lines: seq<string>, k: Key, field: Option<string>) {
    match field
    case Some(s) => s != "" && Lower(s) != "none" && exists v :: LastGives(lines, k, v) && Trim(v) == s
    case None => NothingGiven(lines, k)
  }

  /** No line gives the key, or the last one that does says that there is nothing. */
  ghost predicate NothingGiven(lines: seq<string>, k: Key) {
    NoneGives(lines, 0, k) || exists v :: LastGives(lines, k, v) && (Trim(v) == "" || Lower(Trim(v)) == "none")
  }

  lemma TextFieldIs(lines: seq<string>, k: Key)
    ensures TextField(lines, k, DropNone(NonEmpty(LastValue(lines, k))))
  {
    LastValueGiven(lines, k);
  }

  /** The files: the parts between commas that are not blank, trimmed. */
  ghost predicate FilesField(lines: seq<string>, files: seq<string>) {
    || (files == [] && NothingGiven(lines, ChangedFiles))
    || (exists v :: LastGives(lines, ChangedFiles, v) && NamedIn(files, Split(Trim(v), ",")))
  }

  /** In order, and none is left out. */
  ghost predicate NamedIn(files: seq<string>, parts: seq<string>) {
    if parts == [] then files == []
    else if AllSpace(parts[0]) then NamedIn(files, parts[1..])
    else files != [] && Trim(parts[0]) == files[0] && NamedIn(files[1..], parts[1..])
  }

  lemma {:induction false} PartsNamed(parts: seq<string>)
    ensures NamedIn(CleanParts(parts), parts)
  {
    if parts != [] {
      PartsNamed(parts[1..]);
      BlankIff(parts[0]);
      if Trim(parts[0]) != "" {
        assert CleanParts(parts)[1..] == CleanParts(parts[1..]);
      } else {
        assert CleanParts(parts) == CleanParts(parts[1..]);
      }
    }
  }

  lemma BlankIff(s: string)
    ensures Trim(s) == "" <==> AllSpace(s)
  {
    if AllSpace(s) {
      TrimPadded(s, "", "");
      assert s + "" + "" == s;
    } else {
      var i :| 0 <= i < |s| && !IsSpace(s[i]);
      TrimVisible(s, i);
    }
  }

  lemma FilesFieldIs(lines: seq<string>)
    ensures FilesField(lines, FilesOf(NonEmpty(LastValue(lines, ChangedFiles))))
  {
    LastValueGiven(lines, ChangedFiles);
    var v := LastValue(lines, ChangedFiles);
    if v.Some? {
      PartsNamed(Split(Trim(v.value), ","));
    }
  }

  /** What a report says, line by line: every field is what the last line that gives its
      key gives. */
  ghost predicate Says(lines: seq<string>, r: Parsed) {
    && (match r.report.status
        case Some(s) => exists v :: LastGives(lines, Status, v) && Lower(v) == s
        case None => NoneGives(lines, 0, Status))
    && TextField(lines, Summary, r.report.summary) && TextField(lines, Tests, r.report.tests)
    && TextField(lines, Commit, r.report.commit) && TextField(lines, RemoteHead, r.report.remoteHead)
    && FilesField(lines, r.report.changedFiles)
    && (r.structured <==> exists i, k, v :: 0 <= i < |lines| && Gives(lines[i], k, v))
    && (r.subagentsUsed <==> exists v :: LastGives(lines, SubagentsUsed, v) && Lower(v) == "true")
    && (match r.questions
        case Some(s) => LastGives(lines, GptQuestions, s)
        case None => NoneGives(lines, 0, GptQuestions))
  }

  lemma AnyGiven(lines: seq<string>)
    ensures AnyField(Fields(lines)) <==> exists i, k, v :: 0 <= i < |lines| && Gives(lines[i], k, v)
  {
    var fs := Fields(lines);
    if i :| 0 <= i < |fs| && fs[i].Some? {
      FieldIsMatch(lines[i], fs[i].value.0, fs[i].value.1);
      MatchGives(lines[i], fs[i].value.0, fs[i].value.1);
    }
    if i, k, v :| 0 <= i < |lines| && Gives(lines[i], k, v) {
      GivesMatches(lines[i], k, v);
      FieldIsMatch(lines[i], k, v);
      assert fs[i].Some?;
    }
  }

  lemma OneLast(lines: seq<string>, k: Key, v: string, w: string)
    requires LastGives(lines, k, v) && LastGives(lines, k, w)
    ensures v == w
  {
    var i :| 0 <= i < |lines| && Gives(lines[i], k, v) && NoneGives(lines, i + 1, k);
    var j :| 0 <= j < |lines| && Gives(lines[j], k, w) && NoneGives(lines, j + 1, k);
    assert !(i < j) && !(j < i);
    GivesMatches(lines[i], k, v);
    GivesMatches(lines[i], k, w);
  }

  lemma ParsedSays(lines: seq<string>, r: Parsed)
    requires r.report == ReportOf(lines) && (r.structured <==> AnyField(Fields(lines)))
    requires r.subagentsUsed <==> LowerOption(LastValue(lines, SubagentsUsed)) == Some("true")
    requires r.questions == LastValue(lines, GptQuestions)
    ensures Says(lines, r)
  {
    LastValueGiven(lines, Status);
    LastValueGiven(lines, GptQuestions);
    TextFieldIs(lines, Summary);
    TextFieldIs(lines, Tests);
    TextFieldIs(lines, Commit);
    TextFieldIs(lines, RemoteHead);
    FilesFieldIs(lines);
    AnyGiven(lines);
    UsedSays(lines);
  }

  lemma UsedSays(lines: seq<string>)
    ensures LowerOption(LastValue(lines, SubagentsUsed)) == Some("true") <==>
      exists v :: LastGives(lines, SubagentsUsed, v) && Lower(v) == "true"
  {
    LastValueGiven(lines, SubagentsUsed);
    var used := LastValue(lines, SubagentsUsed);
    forall v | LastGives(lines, SubagentsUsed, v) ensures used == Some(v) {
      if used.Some? {
        OneLast(lines, SubagentsUsed, v, used.value);
      }
    }
  }

  /** A trimmed line matches the expression of one key at most, so the order in
      which the parser tries them does not matter. */
  lemma MatchExclusive(a: Key, b: Key, trimmed: string)
    requires a != b && Match(a, trimmed).Some?
    ensures Match(b, trimmed).None?
  {
    var ta, tb := KeyText(a), KeyText(b);
    var i := KeysDiffer(a, b);
    assert Lower(trimmed[..|ta|])[i] == LowerChar(trimmed[i]) == ta[i];
    assert |tb| <= |trimmed| ==> Lower(trimmed[..|tb|])[i] == LowerChar(trimmed[i]);
  }

  /** No key is a prefix of another. */
  lemma KeysDiffer(a: Key, b: Key) returns (i: nat)
    requires a != b
    ensures i < |KeyText(a)| && i < |KeyText(b)| && KeyText(a)[i] != KeyText(b)[i]
  {
    var ta, tb := KeyText(a), KeyText(b);
    i := if ta[0] != tb[0] then 0 else if ta[1] != tb[1] then 1 else if ta[2] != tb[2] then 2 else 9;
  }

  lemma {:induction false} FirstMatchIs(keys: seq<Key>, trimmed: string, k: Key, v: string)
    ensures FirstMatch(keys, trimmed) == Some((k, v)) ==> Match(k, trimmed) == Some(v)
    ensures k in keys && Match(k, trimmed) == Some(v) ==> FirstMatch(keys, trimmed) == Some((k, v))
  {
    if keys != [] {
      FirstMatchIs(keys[1..], trimmed, k, v);
      if keys[0] != k && Match(keys[0], trimmed).Some? {
        MatchExclusive(keys[0], k, trimmed);
      }
    }
  }

  lemma FieldIsMatch(line: string, k: Key, v: string)
    ensures Field(line) == Some((k, v)) <==> Match(k, Trim(line)) == Some(v)
  {
    FirstMatchIs(KEYS, Trim(line), k, v);
    assert k in KEYS by {
      assert KEYS[0] == Status && KEYS[1] == Summary && KEYS[2] == ChangedFiles && KEYS[3] == Tests
          && KEYS[4] == Commit && KEYS[5] == RemoteHead && KEYS[6] == SubagentsUsed
          && KEYS[7] == Subagents && KEYS[8] == GptQuestions;
    }
  }

  /** Each field is decided by the last line that matches its own key, whatever
      other lines there are; without such a line it has no value. */
  lemma LastMatchDecides(lines: seq<string>, k: Key)
    ensures LastValue(lines, k).None? ==> forall i :: 0 <= i < |lines| ==> Match(k, Trim(lines[i])).None?
    ensures LastValue(lines, k).Some? ==> exists i ::
      && 0 <= i < |lines| && Match(k, Trim(lines[i])) == LastValue(lines, k)
      && forall j :: i < j < |lines| ==> Match(k, Trim(lines[j])).None?
  {
    var fs := Fields(lines);
    forall i | 0 <= i < |lines|
      ensures Match(k, Trim(lines[i])) == if IsField(fs[i], k) then Some(fs[i].value.1) else None
    {
      FieldDecidesMatch(lines[i], k);
    }
    var i := LastOfAt(fs, k);
  }

  lemma FieldDecidesMatch(line: string, k: Key)
    ensures Match(k, Trim(line)) == if IsField(Field(line), k) then Some(Field(line).value.1) else None
  {
    var m := Match(k, Trim(line));
    if m.Some? {
      FieldIsMatch(line, k, m.value);
    }
    if IsField(Field(line), k) {
      FieldIsMatch(line, k, Field(line).value.1);
    }
  }

  predicate ListField(f: LineField, parseArray: string -> Option<seq<string>>) {
    IsField(f, Subagents) && parseArray(Trim(f.value.1)).Some?
  }

  /** The subagent list is that of the last line of its key that parses as one; later
      lines that do not parse leave it. */
  lemma {:induction false} LastListDecides(fs: seq<LineField>, parseArray: string -> Option<seq<string>>)
    returns (i: int)
    ensures -1 <= i < |fs| && forall j :: i < j < |fs| ==> !ListField(fs[j], parseArray)
    ensures i == -1 ==> LastList(fs, parseArray).None?
    ensures i != -1 ==> ListField(fs[i], parseArray) && LastList(fs, parseArray) == parseArray(Trim(fs[i].value.1))
  {
    if fs == [] {
      i := -1;
    } else if ListField(fs[|fs| - 1], parseArray) {
      i := |fs| - 1;
    } else {
      i := LastListDecides(fs[..|fs| - 1], parseArray);
    }
  }

  /** Where the value comes from: `i` is the last field of the key, -1 if none. */
  lemma {:induction false} LastOfAt(fs: seq<LineField>, k: Key) returns (i: int)
    ensures -1 <= i < |fs| && forall j :: i < j < |fs| ==> !IsField(fs[j], k)
    ensures i == -1 ==> LastOf(fs, k).None?
    ensures i != -1 ==> IsField(fs[i], k) && LastOf(fs, k) == Some(fs[i].value.1)
  {
    if fs == [] {
      i := -1;
    } else if IsField(fs[|fs| - 1], k) {
      i := |fs| - 1;
    } else {
      i := LastOfAt(fs[..|fs| - 1], k);
    }
  }

  // ---------------------------------------------------------------------------
  // Round trip
  // ---------------------------------------------------------------------------

  function OrNone(v: Option<string>): string {
    match v case Some(s) => s case None => "none"
  }

  function PrintFiles(files: seq<string>, pad: string): string {
    if files == [] then "none" else Join(files, "," + pad)
  }

  /** The keys as codex-prompt-builder.mjs asks for them. */
  function UpperText(k: Key): (t: string)
    requires InReport(k)
    ensures |t| == |KeyText(k)| && forall i :: 0 <= i < |t| ==> LowerChar(t[i]) == KeyText(k)[i]
    ensures !IsSpace(t[0])
  {
    match k
    case Status => "STATUS="
    case Summary => "SUMMARY="
    case ChangedFiles => "CHANGED_FILES="
    case Tests => "TESTS="
    case Commit => "COMMIT="
    case RemoteHead => "REMOTE_HEAD="
  }

  /** The six keys the report prints. */
  predicate InReport(k: Key) {
    k.Status? || k.Summary? || k.ChangedFiles? || k.Tests? || k.Commit? || k.RemoteHead?
  }

  ghost predicate SingleLine(s: string) {
    s != "" && Trimmed(s) && forall c <- s :: !IsTerminator(c)
  }

  ghost predicate PlainValue(v: Option<string>) {
    v.Some? ==> SingleLine(v.value) && Lower(v.value) != "none"
  }

  ghost predicate PlainFiles(files: seq<string>) {
    && (forall i :: 0 <= i < |files| ==> SingleLine(files[i]) && ',' !in files[i])
    && (|files| == 1 ==> Lower(files[0]) != "none")
  }

  ghost predicate Printable(r: Report) {
    && r.status.Some? && IsStatusWord(r.status.value)
    && PlainValue(r.summary) && PlainValue(r.tests) && PlainValue(r.commit) && PlainValue(r.remoteHead)
    && PlainFiles(r.changedFiles)
  }

  ghost predicate Pad(pad: string) {
    AllSpace(pad) && forall c <- pad :: !IsTerminator(c)
  }

  /** What the printed line of a key carries after the equals sign. */
  function PrintedValue(r: Report, pad: string, k: Key): string
    requires InReport(k)
  {
    match k
    case Status => OrNone(r.status)
    case Summary => OrNone(r.summary)
    case ChangedFiles => PrintFiles(r.changedFiles, pad)
    case Tests => OrNone(r.tests)
    case Commit => OrNone(r.commit)
    case RemoteHead => OrNone(r.remoteHead)
  }

  /** One of the six lines of the report. */
  function PrintedLine(r: Report, pad: string, k: Key): string
    requires InReport(k)
  {
    UpperText(k) + PrintedValue(r, pad, k)
  }

  lemma {:induction false} JoinSingleLine(files: seq<string>, pad: string)
    requires files != [] && PlainFiles(files) && Pad(pad)
    ensures SingleLine(Join(files, "," + pad))
    ensures |files| > 1 ==> ',' in Join(files, "," + pad)
  {
    if |files| > 1 {
      var rest := files[1..];
      JoinRestSingleLine(rest, pad);
      var j := Join(files, "," + pad);
      assert j == files[0] + ("," + pad) + Join(rest, "," + pad);
      assert j[|files[0]|] == ',';
    }
  }

  lemma {:induction false} JoinRestSingleLine(files: seq<string>, pad: string)
    requires files != [] && Pad(pad)
    requires forall i :: 0 <= i < |files| ==> SingleLine(files[i]) && ',' !in files[i]
    ensures SingleLine(Join(files, "," + pad))
  {
    if |files| > 1 {
      JoinRestSingleLine(files[1..], pad);
      var tail := Join(files[1..], "," + pad);
      var j := files[0] + ("," + pad) + tail;
      assert j[0] == files[0][0] && j[|j| - 1] == tail[|tail| - 1];
    }
  }

  lemma {:induction false} CleanSplit(pre: string, files: seq<string>, pad: string)
    requires AllSpace(pre) && Pad(pad) && files != []
    requires forall i :: 0 <= i < |files| ==> SingleLine(files[i]) && ',' !in files[i]
    ensures CleanParts(Split(pre + Join(files, "," + pad), ",")) == files
    decreases files
  {
    var head := pre + files[0];
    TrimPadded(pre, files[0], "");
    assert pre + files[0] + "" == head;
    if |files| == 1 {
      SplitSingle(head, ',');
      assert CleanParts([head]) == [Trim(head)] + CleanParts([]);
    } else {
      var rest := Join(files[1..], "," + pad);
      assert pre + Join(files, "," + pad) == head + [','] + (pad + rest);
      SplitHead(head, pad + rest, ',');
      CleanSplit(pad, files[1..], pad);
      var parts := [head] + Split(pad + rest, ",");
      assert parts[1..] == Split(pad + rest, ",");
    }
  }

  lemma FilesReadBack(files: seq<string>, pad: string)
    requires PlainFiles(files) && Pad(pad)
    ensures FilesOf(NonEmpty(Some(PrintFiles(files, pad)))) == files
  {
    var text := PrintFiles(files, pad);
    if files == [] {
      NoneWord();
    } else {
      JoinSingleLine(files, pad);
      TrimTrimmed(text);
      CleanSplit("", files, pad);
      assert "" + text == text;
      if |files| > 1 {
        NoneHasNoComma(text);
      }
    }
  }

  lemma NoneWord()
    ensures Trim("none") == "none" && Lower("none") == "none"
  {
    TrimTrimmed("none");
  }

  lemma NoneHasNoComma(s: string)
    requires ',' in s
    ensures Lower(s) != "none"
  {
    var i :| 0 <= i < |s| && s[i] == ',';
    assert Lower(s)[i] == ',';
  }

  lemma ValueReadBack(v: Option<string>)
    requires PlainValue(v)
    ensures DropNone(NonEmpty(Some(OrNone(v)))) == v
  {
    NoneWord();
    if v.Some? { TrimTrimmed(v.value); }
  }

  lemma StatusWordIsLine(s: string)
    requires IsStatusWord(s)
    ensures SingleLine(s) && Lower(s) == s
  {
    forall i | 0 <= i < |s| ensures LowerChar(s[i]) == s[i] && !IsSpace(s[i]) && !IsTerminator(s[i]) {
      if s == "completed" {
        assert 'a' <= s[i] <= 'z';
      } else if s == "failed" {
        assert 'a' <= s[i] <= 'z';
      } else {
        assert 'a' <= s[i] <= 'z' || s[i] == '_';
      }
    }
  }

  lemma OrNoneIsLine(v: Option<string>)
    requires PlainValue(v)
    ensures SingleLine(OrNone(v))
  {
  }

  lemma PrintedValueIsLine(r: Report, pad: string, k: Key)
    requires Printable(r) && Pad(pad) && InReport(k)
    ensures SingleLine(PrintedValue(r, pad, k)) && Captured(k, PrintedValue(r, pad, k))
  {
    match k
    case Status => StatusWordIsLine(r.status.value);
    case Summary => OrNoneIsLine(r.summary);
    case ChangedFiles =>
      OrNoneIsLine(None);
      if r.changedFiles != [] {
        JoinSingleLine(r.changedFiles, pad);
      }
    case Tests => OrNoneIsLine(r.tests);
    case Commit => OrNoneIsLine(r.commit);
    case RemoteHead => OrNoneIsLine(r.remoteHead);
  }

  /** A printed line is a line of its own key and carries the printed value. */
  lemma PrintedLineMatches(r: Report, pad: string, k: Key)
    requires Printable(r) && Pad(pad) && InReport(k)
    ensures Field(PrintedLine(r, pad, k)) == Some((k, PrintedValue(r, pad, k)))
  {
    PrintedValueIsLine(r, pad, k);
    KeyAndValue(UpperText(k), PrintedValue(r, pad, k), k);
  }

  lemma KeyAndValue(head: string, v: string, k: Key)
    requires |head| == |KeyText(k)| && forall i :: 0 <= i < |head| ==> LowerChar(head[i]) == KeyText(k)[i]
    requires head != "" && !IsSpace(head[0]) && SingleLine(v) && Captured(k, v)
    ensures Field(head + v) == Some((k, v))
  {
    var line := head + v;
    assert line[|head|..] == v && line[..|head|] == head;
    assert Lower(head) == KeyText(k);
    assert Match(k, line) == Some(v);
    assert line[0] == head[0] && line[|line| - 1] == v[|v| - 1];
    TrimTrimmed(line);
    FieldIsMatch(line, k, v);
  }

  /** A line that is not part of the report: it has no field, or one of the fields
      that the six lines do not set. */
  predicate Noise(line: string) {
    Field(line).None? || !InReport(Field(line).value.0)
  }

  ghost predicate ReportOrNoise(line: string, r: Report, pad: string) {
    Noise(line) || exists k :: InReport(k) && line == PrintedLine(r, pad, k)
  }

  lemma ReportLineField(line: string, r: Report, pad: string, k: Key)
    requires Printable(r) && Pad(pad) && InReport(k) && ReportOrNoise(line, r, pad)
    ensures if line == PrintedLine(r, pad, k) then Field(line) == Some((k, PrintedValue(r, pad, k)))
            else !IsField(Field(line), k)
  {
    PrintedLineMatches(r, pad, k);
    if !Noise(line) {
      var other :| InReport(other) && line == PrintedLine(r, pad, other);
      PrintedLineMatches(r, pad, other);
    }
  }

  lemma PrintedValueFound(lines: seq<string>, r: Report, pad: string, k: Key)
    requires Printable(r) && Pad(pad) && InReport(k)
    requires forall l <- lines :: ReportOrNoise(l, r, pad)
    requires PrintedLine(r, pad, k) in lines
    ensures LastValue(lines, k) == Some(PrintedValue(r, pad, k))
  {
    var fs := Fields(lines);
    forall i | 0 <= i < |lines|
      ensures if lines[i] == PrintedLine(r, pad, k) then fs[i] == Some((k, PrintedValue(r, pad, k)))
              else !IsField(fs[i], k)
    {
      ReportLineField(lines[i], r, pad, k);
    }
    var i := LastOfAt(fs, k);
  }

  /** A printed report is read back with its original fields from any text that
      contains its six lines, in any order and with other lines anywhere between. */
  lemma ReportRoundTrip(lines: seq<string>, r: Report, pad: string)
    requires Printable(r) && Pad(pad)
    requires forall k :: InReport(k) ==> PrintedLine(r, pad, k) in lines
    requires forall l <- lines :: ReportOrNoise(l, r, pad) && '\n' !in l
    ensures ReportOf(Split(Join(lines, "\n"), "\n")) == r
  {
    assert PrintedLine(r, pad, Status) in lines;
    SplitOfJoin(lines, '\n');
    PrintedValueFound(lines, r, pad, Status);
    PrintedValueFound(lines, r, pad, Summary);
    PrintedValueFound(lines, r, pad, ChangedFiles);
    PrintedValueFound(lines, r, pad, Tests);
    PrintedValueFound(lines, r, pad, Commit);
    PrintedValueFound(lines, r, pad, RemoteHead);
    StatusWordIsLine(r.status.value);
    ValueReadBack(r.summary);
    ValueReadBack(r.tests);
    ValueReadBack(r.commit);
    ValueReadBack(r.remoteHead);
    FilesReadBack(r.changedFiles, pad);
  }
}
