/** The runtime.env editor of bin/gptwork.mjs: reading `KEY=value` lines into a
    map and rewriting the file with one key set. */
module RuntimeEnv {
  import opened Text
  import opened Wrappers

  // ---------------------------------------------------------------------------
  // Reading
  // ---------------------------------------------------------------------------

  /** `loadEnvLines`: no file, no lines. */
  function LoadEnvLines(file: Option<string>): seq<string> {
    match file
    case None => []
    case Some(text) => Split(text, "\n")
  }

  /** The key and value a raw line assigns, if any: comments and blank lines do not. */
  function Assignment(raw: string): Option<(string, string)> {
    var line := Trim(raw);
    var idx := IndexFrom(line, "=", 0);
    if line == "" || StartsWith(line, "#") || idx == -1 then None
    else Some((line[..idx], line[idx + 1..]))
  }

  function Bind(values: map<string, string>, a: Option<(string, string)>): map<string, string> {
    match a
    case None => values
    case Some((key, value)) => values[key := value]
  }

  /** Later lines win. */
  function EnvMap(lines: seq<string>): map<string, string> {
    if lines == [] then map[]
    else Bind(EnvMap(lines[..|lines| - 1]), Assignment(lines[|lines| - 1]))
  }

  /** `envMapFromLines`. */
  method EnvMapFromLines(lines: seq<string>) returns (values: map<string, string>)
    ensures values == EnvMap(lines)
  {
    values := map[];
    for i := 0 to |lines|
      invariant values == EnvMap(lines[..i])
    {
      assert lines[..i + 1][..i] == lines[..i];
      var line := Trim(lines[i]);
      if line == "" || StartsWith(line, "#") || IndexFrom(line, "=", 0) == -1 { continue; }
      var idx := IndexFrom(line, "=", 0);
      values := values[line[..idx] := line[idx + 1..]];
    }
    assert lines[..|lines|] == lines;
  }

  /** The line, but for white space around it, is a key without "=", "=" and a value, and
      does not start with "#". */
  ghost predicate Assigns(raw: string, key: string, value: string) {
    exists pre, post: string ::
      && AllSpace(pre) && AllSpace(post) && raw == pre + (key + "=" + value) + post && Trimmed(key + "=" + value)
      && '=' !in key && !StartsWith(key, "#")
  }

  lemma AssignsRead(raw: string, key: string, value: string)
    requires Assigns(raw, key, value)
    ensures Assignment(raw) == Some((key, value))
  {
    var whole := key + "=" + value;
    var pre, post: string :| AllSpace(pre) && AllSpace(post) && raw == pre + whole + post && Trimmed(whole)
      && '=' !in key && !StartsWith(key, "#");
    TrimPadded(pre, whole, post);
    KeyFirst(whole, key);
    assert whole[..|key|] == key && whole[|key| + 1..] == value;
    assert whole[..1] == (if key == "" then "=" else key[..1]);
  }

  lemma ReadAssigns(raw: string, key: string, value: string)
    requires Assignment(raw) == Some((key, value))
    ensures Assigns(raw, key, value)
  {
    var pre, post := TrimSplits(raw);
    var line := Trim(raw);
    assert line[|key|..|key| + 1] == "=";
    assert line == key + "=" + value;
    KeyOnly(line, key);
    assert key != "" ==> key[..1] == line[..1];
  }

  ghost predicate AssignsKey(raw: string, key: string) {
    exists value :: Assigns(raw, key, value)
  }

  lemma AssignsIff(raw: string, key: string)
    ensures AssignsKey(raw, key) <==> Assignment(raw).Some? && Assignment(raw).value.0 == key
    ensures forall value :: Assigns(raw, key, value) <==> Assignment(raw) == Some((key, value))
  {
    forall value ensures Assigns(raw, key, value) <==> Assignment(raw) == Some((key, value)) {
      if Assigns(raw, key, value) { AssignsRead(raw, key, value); }
      if Assignment(raw) == Some((key, value)) { ReadAssigns(raw, key, value); }
    }
    if Assignment(raw).Some? && Assignment(raw).value.0 == key {
      assert Assigns(raw, key, Assignment(raw).value.1);
    }
  }

  lemma KeyFirst(line: string, key: string)
    requires '=' !in key && |key| < |line| && line[..|key|] == key && line[|key|] == '='
    ensures IndexFrom(line, "=", 0) == |key|
  {
    assert line[|key|..|key| + 1] == "=";
    assert OccursAt(line, "=", |key|);
    forall k | 0 <= k < |key| ensures !OccursAt(line, "=", k) {
      assert line[k..k + 1] == [key[k]];
    }
  }

  lemma KeyOnly(line: string, key: string)
    requires IndexFrom(line, "=", 0) == |key| && |key| < |line| && line[..|key|] == key
    ensures '=' !in key
  {
    if k :| 0 <= k < |key| && key[k] == '=' {
      assert line[k..k + 1] == "=";
      assert OccursAt(line, "=", k);
    }
  }

  /** The last line that assigns the key. */
  ghost predicate LastOf(lines: seq<string>, i: int, key: string) {
    0 <= i < |lines| && AssignsKey(lines[i], key) && forall j :: i < j < |lines| ==> !AssignsKey(lines[j], key)
  }

  /** Of several lines that assign a key the last one counts. */
  lemma {:induction false} LastLineWins(lines: seq<string>, key: string, i: int)
    requires LastOf(lines, i, key)
    ensures key in EnvMap(lines) && Assigns(lines[i], key, EnvMap(lines)[key])
  {
    var n := |lines| - 1;
    AssignsIff(lines[n], key);
    if i < n {
      assert lines[..n][i] == lines[i];
      LastLineWins(lines[..n], key, i);
    }
  }

  /** And a key that is bound is bound by a line. */
  lemma {:induction false} BoundByLine(lines: seq<string>, key: string) returns (i: int)
    requires key in EnvMap(lines)
    ensures LastOf(lines, i, key)
  {
    var n := |lines| - 1;
    AssignsIff(lines[n], key);
    if AssignsKey(lines[n], key) {
      i := n;
    } else {
      i := BoundByLine(lines[..n], key);
      assert lines[..n][i] == lines[i];
    }
  }

  // ---------------------------------------------------------------------------
  // Writing
  // ---------------------------------------------------------------------------

  predicate Plain(line: string, key: string) {
    StartsWith(line, key + "=")
  }

  predicate Found(lines: seq<string>, key: string) {
    exists i :: 0 <= i < |lines| && Plain(lines[i], key)
  }

  function SetLine(line: string, key: string, value: string): string {
    if Plain(line, key) then key + "=" + value else line
  }

  function Replaced(lines: seq<string>, key: string, value: string): (next: seq<string>)
    ensures |next| == |lines|
    ensures forall i :: 0 <= i < |lines| ==> next[i] == SetLine(lines[i], key, value)
  {
    seq(|lines|, i requires 0 <= i < |lines| => SetLine(lines[i], key, value))
  }

  function NextLines(lines: seq<string>, key: string, value: string): seq<string> {
    Replaced(lines, key, value) + if Found(lines, key) then [] else [key + "=" + value]
  }

  /** The filter keeps every line but an empty last one. */
  function DropEmptyLast(lines: seq<string>): seq<string> {
    if lines != [] && lines[|lines| - 1] == "" then lines[..|lines| - 1] else lines
  }

  function SetText(file: Option<string>, key: string, value: string): string {
    Join(DropEmptyLast(NextLines(LoadEnvLines(file), key, value)), "\n") + "\n"
  }

  class EnvFile {
    var content: Option<string>

    constructor (content: Option<string>)
      ensures this.content == content
    {
      this.content := content;
    }

    /** `setRuntimeEnv`: every plain line of the key is rewritten, or one is added. */
    method SetRuntimeEnv(key: string, value: string)
      modifies this
      ensures content == Some(SetText(old(content), key, value))
      ensures '\n' !in key && '\n' !in value ==>
        Rewritten(LoadEnvLines(old(content)), LoadEnvLines(content), key, value)
    {
      if '\n' !in key && '\n' !in value {
        TextRewritten(content, key, value);
      }
      var next := WriteKey(LoadEnvLines(content), key, value);
      var kept := KeepLines(next);
      content := Some(Join(kept, "\n") + "\n");
    }
  }

  method WriteKey(lines: seq<string>, key: string, value: string) returns (next: seq<string>)
    ensures next == NextLines(lines, key, value)
  {
    var found := false;
    next := [];
    for i := 0 to |lines|
      invariant |next| == i && forall k :: 0 <= k < i ==> next[k] == SetLine(lines[k], key, value)
      invariant found <==> exists k :: 0 <= k < i && Plain(lines[k], key)
    {
      if StartsWith(lines[i], key + "=") {
        assert Plain(lines[i], key);
        found := true;
        next := next + [key + "=" + value];
      } else {
        next := next + [lines[i]];
      }
    }
    if !found {
      next := next + [key + "=" + value];
    }
  }

  method KeepLines(next: seq<string>) returns (kept: seq<string>)
    ensures kept == DropEmptyLast(next)
  {
    kept := [];
    for i := 0 to |next|
      invariant i < |next| ==> kept == next[..i]
      invariant i == |next| ==> kept == DropEmptyLast(next)
    {
      if next[i] != "" || i < |next| - 1 {
        kept := kept + [next[i]];
      }
    }
  }

  // ---------------------------------------------------------------------------
  // What a written file holds
  // ---------------------------------------------------------------------------

  ghost predicate ValidKey(key: string) {
    Trimmed(key) && '=' !in key && '\n' !in key && !StartsWith(key, "#")
  }

  ghost predicate ValidValue(value: string) {
    '\n' !in value && (value == "" || !IsSpace(value[|value| - 1]))
  }

  ghost predicate OneLiners(lines: seq<string>) {
    forall i :: 0 <= i < |lines| ==> '\n' !in lines[i]
  }

  lemma LoadedOneLiners(file: Option<string>)
    ensures OneLiners(LoadEnvLines(file))
  {
    if file.Some? {
      JoinOfSplit(file.value, '\n');
    }
  }

  /** The lines of the file just written: the kept lines and the empty rest after
      the final newline. */
  lemma WrittenLines(file: Option<string>, key: string, value: string)
    requires '\n' !in key && '\n' !in value
    ensures var next := NextLines(LoadEnvLines(file), key, value);
            && DropEmptyLast(next) != []
            && LoadEnvLines(Some(SetText(file, key, value))) == DropEmptyLast(next) + [""]
  {
    var lines := LoadEnvLines(file);
    var next := NextLines(lines, key, value);
    LoadedOneLiners(file);
    if Found(lines, key) {
      var i :| 0 <= i < |lines| && Plain(lines[i], key);
      assert next[i] == key + "=" + value != "";
    }
    assert OneLiners(next);
    var kept := DropEmptyLast(next);
    assert kept != [];
    JoinAppend(kept, [""], "\n");
    assert Join(kept + [""], "\n") == SetText(file, key, value);
    SplitOfJoin(kept + [""], '\n');
  }

  /** What becomes of the lines of a file: those that start with the key and "=" are
      rewritten where they are, and all others stay but an empty last one, which a file has
      that ends in a line break. If there was none the line is added behind all the others,
      and the empty last one stays too, as a blank line in front of it. */
  ghost predicate Rewritten(lines: seq<string>, after: seq<string>, key: string, value: string) {
    var line, start := key + "=" + value, key + "=";
    if exists i :: 0 <= i < |lines| && StartsWith(lines[i], start) then
      var kept := if lines[|lines| - 1] == "" then |lines| - 1 else |lines|;
      && |after| == kept + 1 && after[kept] == ""
      && forall i :: 0 <= i < kept ==> after[i] == if StartsWith(lines[i], start) then line else lines[i]
    else
      after == lines + [line, ""]
  }

  lemma TextRewritten(file: Option<string>, key: string, value: string)
    requires '\n' !in key && '\n' !in value
    ensures Rewritten(LoadEnvLines(file), LoadEnvLines(Some(SetText(file, key, value))), key, value)
  {
    WrittenLines(file, key, value);
    var lines := LoadEnvLines(file);
    if Found(lines, key) {
      LinesReplaced(lines, key, value);
    } else {
      LineAdded(lines, key, value);
    }
  }

  lemma LinesReplaced(lines: seq<string>, key: string, value: string)
    requires Found(lines, key)
    ensures Rewritten(lines, DropEmptyLast(NextLines(lines, key, value)) + [""], key, value)
  {
    var replaced := Replaced(lines, key, value);
    assert NextLines(lines, key, value) == replaced;
    assert key + "=" + value != "" && !Plain("", key);
    assert lines[|lines| - 1] == "" <==> replaced[|lines| - 1] == "";
  }

  lemma LineAdded(lines: seq<string>, key: string, value: string)
    requires !Found(lines, key)
    ensures Rewritten(lines, DropEmptyLast(NextLines(lines, key, value)) + [""], key, value)
  {
    var line, replaced := key + "=" + value, Replaced(lines, key, value);
    forall i | 0 <= i < |lines| ensures replaced[i] == lines[i] {
      assert !Plain(lines[i], key);
    }
    assert replaced == lines;
    var next := lines + [line];
    assert NextLines(lines, key, value) == next && next[|next| - 1] == line != "";
    assert next + [""] == lines + [line, ""];
  }

  lemma EnvMapDropEmpty(lines: seq<string>)
    ensures EnvMap(DropEmptyLast(lines)) == EnvMap(lines)
    ensures EnvMap(lines + [""]) == EnvMap(lines)
  {
    assert Assignment("").None?;
    assert (lines + [""])[..|lines|] == lines;
  }

  /** A plain line of the key assigns that key; the written one assigns the value. */
  lemma PlainAssigns(line: string, key: string)
    requires ValidKey(key) && Plain(line, key)
    ensures Assignment(line).Some? && Assignment(line).value.0 == key
  {
    var t := Trim(line);
    assert line[..|key|] == line[..|key| + 1][..|key|] == key;
    assert line[|key|] == line[..|key| + 1][|key|] == '=';
    assert line[0] == if key == "" then '=' else key[0];
    TrimReaches(line, |key|);
    assert t[..|key|] == line[..|key|];
    KeyFirst(t, key);
    assert t[..1] == [line[0]] && (key != "" ==> key[..1] == [key[0]]);
  }

  lemma WrittenAssigns(key: string, value: string)
    requires ValidKey(key) && ValidValue(value)
    ensures Assignment(key + "=" + value) == Some((key, value))
  {
    var line := key + "=" + value;
    assert Trimmed(line);
    TrimTrimmed(line);
    assert line[..|key| + 1] == key + "=";
    assert line[..|key|] == key && line[|key| + 1..] == value;
    PlainAssigns(line, key);
    KeyFirst(line, key);
  }

  /** The assignment of the key that takes effect is an indented one, which the
      editor does not recognise as the key's line. */
  predicate EffectiveIsIndented(lines: seq<string>, key: string) {
    if lines == [] then false
    else
      var last := lines[|lines| - 1];
      if Assignment(last).Some? && Assignment(last).value.0 == key then !Plain(last, key)
      else EffectiveIsIndented(lines[..|lines| - 1], key)
  }

  /** Rewriting plain lines changes the map at that key only, and only when a plain
      line is the one that takes effect. */
  lemma {:induction false} ReplacedMap(lines: seq<string>, key: string, value: string)
    requires ValidKey(key) && ValidValue(value)
    ensures EnvMap(Replaced(lines, key, value))
         == if key !in EnvMap(lines) || EffectiveIsIndented(lines, key) then EnvMap(lines)
            else EnvMap(lines)[key := value]
  {
    if lines != [] {
      var init := lines[..|lines| - 1];
      var last := lines[|lines| - 1];
      ReplacedMap(init, key, value);
      var next := Replaced(lines, key, value);
      assert next[..|lines| - 1] == Replaced(init, key, value);
      if Plain(last, key) {
        PlainAssigns(last, key);
        WrittenAssigns(key, value);
      }
      BindReplaced(EnvMap(init), EffectiveIsIndented(init, key), key, value, Assignment(last));
    }
  }

  /** One line more: the old map `m` against the map the rewritten lines give. */
  lemma BindReplaced(m: map<string, string>, indented: bool, key: string, value: string,
                     a: Option<(string, string)>)
    ensures var m' := if key !in m || indented then m else m[key := value];
            && (a.None? || a.value.0 != key ==>
                  Bind(m', a) == if key !in Bind(m, a) || indented then Bind(m, a) else Bind(m, a)[key := value])
            && (a.Some? && a.value.0 == key ==> Bind(m', a) == Bind(m, a))
            && (a.Some? && a.value.0 == key ==> m'[key := value] == Bind(m, a)[key := value])
  {
  }

  lemma {:induction false} PlainLineBinds(lines: seq<string>, key: string)
    requires ValidKey(key) && Found(lines, key)
    ensures key in EnvMap(lines)
  {
    var i :| 0 <= i < |lines| && Plain(lines[i], key);
    if i == |lines| - 1 {
      PlainAssigns(lines[i], key);
    } else {
      assert lines[..|lines| - 1][i] == lines[i];
      PlainLineBinds(lines[..|lines| - 1], key);
    }
  }

  /** When the editor finds no plain line, a bound key can only be bound by an
      indented one. */
  lemma {:induction false} UnfoundIsIndented(lines: seq<string>, key: string)
    requires !Found(lines, key) && key in EnvMap(lines)
    ensures EffectiveIsIndented(lines, key)
  {
    var init := lines[..|lines| - 1];
    assert !Plain(lines[|lines| - 1], key);
    forall i | 0 <= i < |init| ensures !Plain(init[i], key) {
      assert !Plain(lines[i], key);
    }
    if !(Assignment(lines[|lines| - 1]).Some? && Assignment(lines[|lines| - 1]).value.0 == key) {
      UnfoundIsIndented(init, key);
    }
  }

  /** The set call is lost: there is a plain line to rewrite, but a later indented
      assignment of the same key still takes effect. */
  predicate Shadowed(file: Option<string>, key: string) {
    Found(LoadEnvLines(file), key) && EffectiveIsIndented(LoadEnvLines(file), key)
  }

  function ReadFile(file: Option<string>): map<string, string> {
    EnvMap(LoadEnvLines(file))
  }

  /** Setting a key and reading the file back: the value set, and the old value of
      every other key; nothing changes exactly when the key is shadowed. */
  lemma SetThenRead(file: Option<string>, key: string, value: string)
    requires ValidKey(key) && ValidValue(value)
    ensures ReadFile(Some(SetText(file, key, value)))
         == if Shadowed(file, key) then ReadFile(file) else ReadFile(file)[key := value]
  {
    var lines := LoadEnvLines(file);
    var next := NextLines(lines, key, value);
    WrittenLines(file, key, value);
    EnvMapDropEmpty(DropEmptyLast(next));
    EnvMapDropEmpty(next);
    ReplacedMap(lines, key, value);
    WrittenAssigns(key, value);
    if Found(lines, key) {
      PlainLineBinds(lines, key);
      assert next == Replaced(lines, key, value);
    } else {
      assert next[..|lines|] == Replaced(lines, key, value);
      if key in EnvMap(lines) {
        UnfoundIsIndented(lines, key);
      }
    }
  }

  /** The value is read back exactly when the key is not shadowed by an indented
      assignment of another value. */
  lemma ValueReadBackIff(file: Option<string>, key: string, value: string)
    requires ValidKey(key) && ValidValue(value)
    ensures var after := ReadFile(Some(SetText(file, key, value)));
            && key in after
            && (after[key] == value <==>
                (Shadowed(file, key) ==> key in ReadFile(file) && ReadFile(file)[key] == value))
  {
    SetThenRead(file, key, value);
    if Shadowed(file, key) {
      PlainLineBinds(LoadEnvLines(file), key);
    }
  }

  /** A key that starts with "#" is written but never read back: its line is a
      comment to the reader. */
  lemma {:induction false} CommentKeyUnreadable(lines: seq<string>, key: string)
    requires StartsWith(key, "#")
    ensures key !in EnvMap(lines)
  {
    if lines != [] {
      CommentKeyUnreadable(lines[..|lines| - 1], key);
      var last := Trim(lines[|lines| - 1]);
      if Assignment(lines[|lines| - 1]).Some? {
        var k := Assignment(lines[|lines| - 1]).value.0;
        assert k == last[..|k|];
        assert k != "" ==> k[..1] == last[..1];
      }
    }
  }

  lemma WrittenLinePresent(lines: seq<string>, key: string, value: string) returns (j: nat)
    ensures j < |NextLines(lines, key, value)| && NextLines(lines, key, value)[j] == key + "=" + value
  {
    if Found(lines, key) {
      j :| 0 <= j < |lines| && Plain(lines[j], key);
    } else {
      j := |lines|;
    }
  }

  lemma SetLineAgain(line: string, key: string, value: string)
    ensures Plain(key + "=" + value, key)
    ensures SetLine(SetLine(line, key, value), key, value) == SetLine(line, key, value)
    ensures SetLine(key + "=" + value, key, value) == key + "=" + value
    ensures SetLine("", key, value) == ""
  {
    assert (key + "=" + value)[..|key| + 1] == key + "=";
  }

  lemma NextLinesAgain(lines: seq<string>, key: string, value: string)
    ensures var again := DropEmptyLast(NextLines(lines, key, value)) + [""];
            NextLines(again, key, value) == again
  {
    var next := NextLines(lines, key, value);
    var again := DropEmptyLast(next) + [""];
    var j := WrittenLinePresent(lines, key, value);
    SetLineAgain("", key, value);
    assert again[j] == next[j] && Found(again, key);
    forall i | 0 <= i < |again| ensures SetLine(again[i], key, value) == again[i] {
      if i < |again| - 1 {
        assert again[i] == next[i];
        if i < |lines| { SetLineAgain(lines[i], key, value); }
      }
    }
    assert Replaced(again, key, value) == again;
    assert again + [] == again;
  }

  /** A second identical set leaves the file text unchanged. */
  lemma SetIdempotent(file: Option<string>, key: string, value: string)
    requires '\n' !in key && '\n' !in value
    ensures SetText(Some(SetText(file, key, value)), key, value) == SetText(file, key, value)
  {
    var kept := DropEmptyLast(NextLines(LoadEnvLines(file), key, value));
    WrittenLines(file, key, value);
    NextLinesAgain(LoadEnvLines(file), key, value);
    assert DropEmptyLast(kept + [""]) == kept;
  }

  // ---------------------------------------------------------------------------
  // Independent keys commute
  // ---------------------------------------------------------------------------

  /** A line plain for one valid key is not plain for another. */
  lemma PlainDistinct(line: string, a: string, b: string)
    requires ValidKey(a) && ValidKey(b) && Plain(line, a) && Plain(line, b)
    ensures a == b
  {
    PlainAssigns(line, a);
    PlainAssigns(line, b);
  }

  /** Setting one key leaves the lines of another as they are, for finding them
      and for deciding which one takes effect. */
  lemma {:induction false} ReplacedKeepsOther(lines: seq<string>, key: string, value: string, other: string)
    requires ValidKey(key) && ValidValue(value) && ValidKey(other) && key != other
    ensures EffectiveIsIndented(Replaced(lines, key, value), other) <==> EffectiveIsIndented(lines, other)
    ensures Found(Replaced(lines, key, value), other) <==> Found(lines, other)
  {
    var next := Replaced(lines, key, value);
    WrittenAssigns(key, value);
    var written := key + "=" + value;
    assert Plain(written, key) by { assert written[..|key| + 1] == key + "="; }
    forall i | 0 <= i < |lines| ensures Plain(next[i], other) <==> Plain(lines[i], other) {
      if Plain(lines[i], key) {
        if Plain(lines[i], other) { PlainDistinct(lines[i], key, other); }
        if Plain(written, other) { PlainDistinct(written, key, other); }
      }
    }
    if lines != [] {
      var init := lines[..|lines| - 1];
      var last := lines[|lines| - 1];
      ReplacedKeepsOther(init, key, value, other);
      assert next[..|lines| - 1] == Replaced(init, key, value);
      if Plain(last, key) {
        PlainAssigns(last, key);
      }
    }
  }

  lemma EffectiveAppendEmpty(lines: seq<string>, key: string)
    ensures EffectiveIsIndented(lines + [""], key) <==> EffectiveIsIndented(lines, key)
  {
    assert Assignment("").None?;
    assert (lines + [""])[..|lines|] == lines;
  }

  lemma FoundAppendEmpty(lines: seq<string>, key: string)
    ensures Found(lines + [""], key) <==> Found(lines, key)
  {
    var more := lines + [""];
    assert !Plain("", key);
    if Found(lines, key) {
      var i :| 0 <= i < |lines| && Plain(lines[i], key);
      assert more[i] == lines[i];
    }
    if Found(more, key) {
      var i :| 0 <= i < |more| && Plain(more[i], key);
      assert i < |lines| && lines[i] == more[i];
    }
  }

  lemma EffectiveDropEmpty(lines: seq<string>, key: string)
    ensures EffectiveIsIndented(lines + [""], key) <==> EffectiveIsIndented(lines, key)
    ensures EffectiveIsIndented(DropEmptyLast(lines), key) <==> EffectiveIsIndented(lines, key)
    ensures Found(lines + [""], key) <==> Found(lines, key)
    ensures Found(DropEmptyLast(lines), key) <==> Found(lines, key)
  {
    EffectiveAppendEmpty(lines, key);
    FoundAppendEmpty(lines, key);
    if DropEmptyLast(lines) != lines {
      var init := lines[..|lines| - 1];
      assert lines == init + [""];
      EffectiveAppendEmpty(init, key);
      FoundAppendEmpty(init, key);
    }
  }

  lemma NextKeepsOther(lines: seq<string>, key: string, value: string, other: string)
    requires ValidKey(key) && ValidValue(value) && ValidKey(other) && key != other
    ensures EffectiveIsIndented(NextLines(lines, key, value), other) <==> EffectiveIsIndented(lines, other)
    ensures Found(NextLines(lines, key, value), other) <==> Found(lines, other)
  {
    var next, replaced := NextLines(lines, key, value), Replaced(lines, key, value);
    var written := key + "=" + value;
    ReplacedKeepsOther(lines, key, value, other);
    if Found(lines, key) {
      assert next == replaced;
    } else {
      WrittenAssigns(key, value);
      SetLineAgain("", key, value);
      if Plain(written, other) { PlainDistinct(written, key, other); }
      assert next[..|lines|] == replaced && next[|lines|] == written;
      assert forall i :: 0 <= i < |lines| ==> next[i] == replaced[i];
    }
  }

  lemma SetKeepsOther(file: Option<string>, key: string, value: string, other: string)
    requires ValidKey(key) && ValidValue(value) && ValidKey(other) && key != other
    ensures Shadowed(Some(SetText(file, key, value)), other) <==> Shadowed(file, other)
  {
    var next := NextLines(LoadEnvLines(file), key, value);
    WrittenLines(file, key, value);
    EffectiveDropEmpty(DropEmptyLast(next), other);
    EffectiveDropEmpty(next, other);
    NextKeepsOther(LoadEnvLines(file), key, value, other);
  }

  lemma BothSet(file: Option<string>, a: string, va: string, b: string, vb: string)
    requires ValidKey(a) && ValidKey(b) && ValidValue(va) && ValidValue(vb) && a != b
    ensures ReadFile(Some(SetText(Some(SetText(file, a, va)), b, vb)))
         == Overlay(Overlay(ReadFile(file), Shadowed(file, a), a, va), Shadowed(file, b), b, vb)
  {
    SetThenRead(file, a, va);
    SetThenRead(Some(SetText(file, a, va)), b, vb);
    SetKeepsOther(file, a, va, b);
  }

  function Overlay(m: map<string, string>, skip: bool, key: string, value: string): map<string, string> {
    if skip then m else m[key := value]
  }

  lemma OverlaysCommute(m: map<string, string>, sa: bool, a: string, va: string, sb: bool, b: string, vb: string)
    requires a != b
    ensures Overlay(Overlay(m, sa, a, va), sb, b, vb) == Overlay(Overlay(m, sb, b, vb), sa, a, va)
  {
  }

  /** Sets of distinct keys commute on the parsed map, shadowed or not. */
  lemma SetsCommute(file: Option<string>, a: string, va: string, b: string, vb: string)
    requires ValidKey(a) && ValidKey(b) && ValidValue(va) && ValidValue(vb) && a != b
    ensures ReadFile(Some(SetText(Some(SetText(file, a, va)), b, vb)))
         == ReadFile(Some(SetText(Some(SetText(file, b, vb)), a, va)))
  {
    BothSet(file, a, va, b, vb);
    BothSet(file, b, vb, a, va);
    OverlaysCommute(ReadFile(file), Shadowed(file, a), a, va, Shadowed(file, b), b, vb);
  }
}
