/** Cleaning a dirty canonical working tree: what the status report is classified
    as, and what `recoverCanonicalDirty` may then remove or restore. */
module DirtyRecovery {
  import opened PathQuoting
  import opened Porcelain
  import opened Text
  import opened Wrappers

  /** What classifyDirtyPath answers; the patterns behind it are a parameter. */
  datatype PathClass = GeneratedTemp | ExpectedArtifact | SourceMutation | Unknown

  predicate Safe(c: PathClass) {
    c == GeneratedTemp || c == ExpectedArtifact
  }

  // ---------------------------------------------------------------------------
  // The working tree and its status report
  // ---------------------------------------------------------------------------

  /** `p` lies beneath the directory `dir`, written with or without its slash. */
  predicate Beneath(dir: string, p: string) {
    StartsWith(p, dir + "/") || (EndsWith(dir, "/") && StartsWith(p, dir))
  }

  /** The reported path stands for `p`: itself, or a wholly untracked directory,
      which git reports once with a closing slash. */
  predicate Covers(reported: string, p: string) {
    reported == p || (EndsWith(reported, "/") && StartsWith(p, reported))
  }

  /** What `-e result.json` keeps: every path with such a component. */
  predicate KeptBySweep(p: string) {
    "result.json" in Split(p, "/")
  }

  type Files = map<string, string>

  predicate Same(before: Files, after: Files, p: string) {
    (p in before <==> p in after) && (p in before ==> before[p] == after[p])
  }

  datatype Kind = Missing | File | Directory

  class WorkingTree {
    /** Contents of the working tree, of the index and of HEAD. */
    var files: Files
    const index: Files
    const head: Files
    /** Ignored paths and paths inside nested repositories, which `git clean -f` keeps. */
    const ignored: set<string>
    const nested: set<string>
    /** Whether a reported name, read as a pathspec, also matches another path. */
    const globs: (string, string) -> bool
    /** No command fails on a path it applies to. */
    const reliable: bool

    constructor (files: Files, index: Files, head: Files, ignored: set<string>, nested: set<string>,
                 globs: (string, string) -> bool, reliable: bool)
      ensures this.files == files && this.index == index && this.head == head
      ensures this.ignored == ignored && this.nested == nested && this.globs == globs && this.reliable == reliable
    {
      this.files, this.index, this.head := files, index, head;
      this.ignored, this.nested, this.globs, this.reliable := ignored, nested, globs, reliable;
    }

    predicate Matches(spec: string, p: string) {
      spec == p || Beneath(spec, p) || globs(spec, p)
    }

    predicate Untracked(files: Files, p: string) {
      p in files && p !in index && p !in ignored
    }

    predicate Modified(files: Files, p: string) {
      p in index && (p !in files || files[p] != index[p])
    }

    predicate Staged(p: string) {
      !Same(head, index, p)
    }

    predicate IsClean(files: Files) {
      && (forall p <- files.Keys :: !Untracked(files, p))
      && (forall p <- index.Keys :: !Modified(files, p))
      && (forall p <- index.Keys + head.Keys :: !Staged(p))
    }

    /** `lines` reports the differences of this tree and nothing else (a rename reports
        its old name beside the new one), with untracked paths last, which are never
        the name of an indexed file. */
    ghost predicate Reports(files: Files, lines: seq<StatusLine>) {
      && (forall p :: Untracked(files, p) ==>
           exists i :: 0 <= i < |lines| && lines[i].y == '?' && Covers(lines[i].path, p))
      && (forall p :: Modified(files, p) ==> exists i :: 0 <= i < |lines| && lines[i].y != '?' && lines[i].path == p)
      && (forall p :: Staged(p) ==>
           exists i :: 0 <= i < |lines| && lines[i].y != '?' && (lines[i].path == p || lines[i].orig == p))
      && (forall i :: 0 <= i < |lines| ==> Genuine(files, lines[i]))
      && (forall i, j :: 0 <= i < j < |lines| && lines[i].y == '?' ==> lines[j].y == '?')
      && (forall i :: 0 <= i < |lines| && lines[i].y == '?' ==> lines[i].path !in index)
    }

    /** The reported path is there to report. */
    ghost predicate Genuine(files: Files, l: StatusLine) {
      if l.y == '?' then exists p :: Untracked(files, p) && Covers(l.path, p)
      else Modified(files, l.path) || Staged(l.path)
    }

    /** A report is empty exactly when the tree is clean. */
    lemma EmptyIffClean(files: Files, lines: seq<StatusLine>)
      requires Reports(files, lines)
      ensures lines == [] <==> IsClean(files)
    {
      if lines == [] {
        assert forall p :: !Untracked(files, p) && !Modified(files, p) && !Staged(p);
      } else {
        assert Genuine(files, lines[0]);
      }
    }

    /** `p` is a file here and no directory, neither here nor in the index. */
    predicate PlainFile(files: Files, p: string) {
      p in files && forall q <- files.Keys + index.Keys :: !Beneath(p, q)
    }

    /** `git clean` may remove it. */
    predicate Removable(p: string) {
      p !in index && p !in ignored && p !in nested
    }

    /** What cleaning and restoring may do to a path: nothing, remove an untracked
        file, or give a tracked file its index content back. */
    predicate Removed(before: Files, after: Files, p: string) {
      Removable(p) && p in before && p !in after
    }

    predicate Restored(after: Files, p: string) {
      p in index && p in after && after[p] == index[p]
    }

    predicate Tidied(before: Files, after: Files, p: string) {
      Same(before, after, p) || Removed(before, after, p) || Restored(after, p)
    }

    /** existsSync and statSync. */
    method Stat(p: string) returns (kind: Kind)
      ensures kind.Missing? ==> p !in files && forall q :: q in files ==> !Beneath(p, q)
      ensures kind.File? ==> p in files && forall q :: q in files ==> !Beneath(p, q)
      ensures kind.Directory? && p in files ==> exists q :: q in files && Beneath(p, q)
    {
      if exists q <- files.Keys :: Beneath(p, q) {
        kind := Directory;
      } else if p in files {
        kind := File;
      } else if * {
        kind := Directory; // an empty one
      } else {
        kind := Missing;
      }
    }

    /** What happened to `p` was reported: an untracked file was removed, or a changed
        tracked file got its index content back, by a line whose path as it was read
        is classified as safe. */
    ghost predicate Accounted(before: Files, after: Files, lines: seq<StatusLine>, files: seq<ClassifiedFile>,
                              p: string)
      requires |files| == |lines|
    {
      || Same(before, after, p)
      || (Removed(before, after, p) &&
          exists i :: 0 <= i < |lines| && lines[i].y == '?' && Covers(lines[i].path, p)
            && files[i].category in {GeneratedTemp, ExpectedArtifact})
      || (Restored(after, p) &&
          exists i :: 0 <= i < |lines| && lines[i].y != '?' && lines[i].path == p
            && files[i].category in {GeneratedTemp, ExpectedArtifact})
    }

    lemma AccountedWhenSafe(before: Files, after: Files, lines: seq<StatusLine>, files: seq<ClassifiedFile>, p: string)
      requires Reports(before, lines) && Tidied(before, after, p) && |files| == |lines|
      requires AllSafe(files)
      ensures Accounted(before, after, lines, files, p)
    {
      if Removed(before, after, p) {
        assert Untracked(before, p);
      } else if !Same(before, after, p) {
        assert Modified(before, p);
      }
    }

    /** Removes some of the removable paths among `candidates`; all when `all`. */
    method RemoveSome(candidates: set<string>, all: bool)
      modifies this
      ensures forall p :: Same(old(files), files, p) || (p in candidates && Removed(old(files), files, p))
      ensures all ==> forall p :: p in candidates && Removable(p) ==> p !in files
    {
      var gone: set<string> := *;
      var removed := set p | p in candidates && Removable(p) && (all || p in gone);
      files := files - removed;
    }

    /** `git clean -f[d] -- spec`. A run that fails may have removed some paths. */
    method CleanPath(spec: string, directories: bool) returns (ok: bool)
      modifies this
      ensures forall p :: Same(old(files), files, p) || (Matches(spec, p) && Removed(old(files), files, p))
      ensures ok && directories ==> forall p :: Matches(spec, p) && Removable(p) ==> p !in files
      ensures ok && Removable(spec) ==> spec !in files
      ensures reliable ==> ok
    {
      ok := *;
      ok := ok || reliable;
      if directories {
        var matching := set p | p in files.Keys && Matches(spec, p);
        RemoveSome(matching, ok);
      } else {
        var matching := set p | p in files.Keys && Matches(spec, p) && p != spec;
        RemoveSome(matching, false);
        ghost var mid := files;
        RemoveSome({spec}, ok);
        forall p ensures Same(old(files), files, p) || (Matches(spec, p) && Removed(old(files), files, p)) {
          assert Same(old(files), mid, p) || (p in matching && Removed(old(files), mid, p));
          assert Same(mid, files, p) || (p in {spec} && Removed(mid, files, p));
        }
      }
    }

    /** `git checkout -- spec`. */
    method CheckoutPath(spec: string) returns (ok: bool)
      modifies this
      ensures forall p :: Same(old(files), files, p) || (Matches(spec, p) && Restored(files, p))
      ensures ok && spec in index ==> Restored(files, spec)
      ensures reliable && spec in index ==> ok
    {
      ok := *;
      ok := ok || (reliable && spec in index);
      var chosen: set<string> := *;
      var restored := set p | p in index.Keys && Matches(spec, p) && (ok || p in chosen);
      files := files + (map p | p in restored :: index[p]);
    }

    /** `git clean -fd -e result.json`, failure ignored. */
    method Sweep()
      modifies this
      ensures forall p :: Same(old(files), files, p) || (!KeptBySweep(p) && Removed(old(files), files, p))
      ensures reliable ==> forall p :: Removable(p) && p in files ==> KeptBySweep(p)
    {
      var ok: bool := *;
      ok := ok || reliable;
      var swept := set p | p in files.Keys && !KeptBySweep(p);
      RemoveSome(swept, ok);
    }

    /** `git(status --porcelain) === ""`, or nothing when the command fails. */
    method StatusAnswer() returns (clean: Option<bool>)
      ensures clean.Some? ==> (clean.value <==> IsClean(files))
      ensures reliable ==> clean.Some?
    {
      clean := Some(IsClean(files));
      if * { if !reliable { clean := None; } }
    }
  }

  // ---------------------------------------------------------------------------
  // classifyCanonicalDirty
  // ---------------------------------------------------------------------------

  datatype ClassifiedFile = ClassifiedFile(path: string, isUntracked: bool, category: PathClass)

  /** `overall` is absent for a clean report. */
  datatype Classification = Classification(
    files: seq<ClassifiedFile>, categories: map<PathClass, nat>, bySource: map<PathClass, seq<string>>,
    overall: Option<PathClass>)
  {
    predicate IsDirty() { files != [] }
    predicate IsSafeToClean() { overall.Some? && Safe(overall.value) }
  }

  predicate SomeFile(files: seq<ClassifiedFile>, c: PathClass) {
    exists i :: 0 <= i < |files| && files[i].category == c
  }

  /** The paths of one class, in order. */
  function PathsOf(files: seq<ClassifiedFile>, c: PathClass): seq<string> {
    if files == [] then []
    else
      var last := files[|files| - 1];
      PathsOf(files[..|files| - 1], c) + if last.category == c then [last.path] else []
  }

  /** What the report of `lines` is classified as: every path by what is read of it. */
  ghost predicate ClassifiedFrom(c: Classification, lines: seq<StatusLine>, classify: string -> PathClass) {
    && |c.files| == |lines|
    && (forall i :: 0 <= i < |lines| ==>
          var read := ReadPath(lines[i].path);
          c.files[i] == ClassifiedFile(read, lines[i].y == '?', classify(read)))
    && (c.IsDirty() <==> c.overall.Some?)
    && (c.IsSafeToClean() <==> lines != [] && AllSafe(c.files))
  }

  /** All are of the two classes that may be cleaned. */
  predicate AllSafe(files: seq<ClassifiedFile>) {
    forall i :: 0 <= i < |files| ==> files[i].category == GeneratedTemp || files[i].category == ExpectedArtifact
  }

  /** Reads the status report the `git()` helper returns, trimmed; a status command
      that failed (`None`) reads like an empty report. */
  method ReadStatus(status: Option<seq<StatusLine>>) returns (entries: seq<StatusEntry>, ghost lines: seq<StatusLine>)
    requires status.Some? ==> forall i :: 0 <= i < |status.value| ==> ValidLine(status.value[i])
    ensures lines == if status.Some? then status.value else []
    ensures |entries| == |lines|
    ensures forall i :: 0 <= i < |lines| ==>
      entries[i].path == ReadPath(lines[i].path) && (entries[i].isUntracked <==> lines[i].y == '?')
  {
    lines := if status.Some? then status.value else [];
    StatusRoundTrip(lines);
    var text := if status.Some? then Trim(PrintStatus(status.value)) else "";
    assert Trim(PrintStatus([])) == "";
    entries := ParseStatusEntries(text);
  }

  /** How many paths there are of each class that occurs. */
  method CountClasses(files: seq<ClassifiedFile>) returns (categories: map<PathClass, nat>)
    ensures forall c :: c in categories <==> SomeFile(files, c)
    ensures forall c <- categories :: categories[c] == |PathsOf(files, c)|
  {
    categories := map[];
    for i := 0 to |files|
      invariant forall c :: c in categories <==> SomeFile(files[..i], c)
      invariant forall c :: |PathsOf(files[..i], c)| == if c in categories then categories[c] else 0
    {
      OneMoreFile(files, i);
      var c := files[i].category;
      categories := categories[c := (if c in categories then categories[c] else 0) + 1];
    }
    assert files[..|files|] == files;
  }

  /** And which. */
  method GroupByClass(files: seq<ClassifiedFile>) returns (bySource: map<PathClass, seq<string>>)
    ensures forall c :: c in bySource <==> SomeFile(files, c)
    ensures forall c <- bySource :: bySource[c] == PathsOf(files, c)
  {
    bySource := map[];
    for i := 0 to |files|
      invariant forall c :: c in bySource <==> SomeFile(files[..i], c)
      invariant forall c :: PathsOf(files[..i], c) == if c in bySource then bySource[c] else []
    {
      OneMoreFile(files, i);
      var c := files[i].category;
      if c !in bySource { bySource := bySource[c := []]; }
      bySource := bySource[c := bySource[c] + [files[i].path]];
    }
    assert files[..|files|] == files;
  }

  lemma OneMoreFile(files: seq<ClassifiedFile>, i: nat)
    requires i < |files|
    ensures forall c :: SomeFile(files[..i + 1], c) <==> SomeFile(files[..i], c) || c == files[i].category
    ensures forall c :: PathsOf(files[..i + 1], c)
                     == PathsOf(files[..i], c) + if files[i].category == c then [files[i].path] else []
  {
    assert files[..i + 1][..i] == files[..i] && files[..i + 1][i] == files[i];
  }

  /** The most severe class wins. */
  method OverallClass(files: seq<ClassifiedFile>) returns (overall: Option<PathClass>)
    ensures overall.None? <==> files == []
    ensures overall == Some(SourceMutation) <==> SomeFile(files, SourceMutation)
    ensures overall == Some(Unknown) <==> SomeFile(files, Unknown) && !SomeFile(files, SourceMutation)
    ensures overall == Some(GeneratedTemp) <==>
      files != [] && forall i :: 0 <= i < |files| ==> files[i].category == GeneratedTemp
    ensures overall == Some(GeneratedTemp) || overall == Some(ExpectedArtifact) <==> files != [] && AllSafe(files)
  {
    ClassesSplit(files);
    overall := None;
    if |files| > 0 {
      if SomeFile(files, SourceMutation) {
        overall := Some(SourceMutation);
      } else if SomeFile(files, Unknown) {
        overall := Some(Unknown);
      } else if forall i :: 0 <= i < |files| ==> files[i].category == GeneratedTemp {
        overall := Some(GeneratedTemp);
      } else {
        overall := Some(ExpectedArtifact);
      }
    }
  }

  function ClassifyEntries(entries: seq<StatusEntry>, classify: string -> PathClass): (files: seq<ClassifiedFile>)
    ensures |files| == |entries|
    ensures forall i :: 0 <= i < |entries| ==>
      files[i] == ClassifiedFile(entries[i].path, entries[i].isUntracked, classify(entries[i].path))
  {
    seq(|entries|, i requires 0 <= i < |entries| =>
      ClassifiedFile(entries[i].path, entries[i].isUntracked, classify(entries[i].path)))
  }

  /** `classifyCanonicalDirty`. */
  method ClassifyCanonicalDirty(status: Option<seq<StatusLine>>, classify: string -> PathClass)
    returns (c: Classification)
    requires status.Some? ==> forall i :: 0 <= i < |status.value| ==> ValidLine(status.value[i])
    ensures ClassifiedFrom(c, if status.Some? then status.value else [], classify)
    ensures forall k :: k in c.bySource <==> SomeFile(c.files, k)
    ensures forall k :: k in c.categories <==> SomeFile(c.files, k)
    ensures forall k <- c.bySource :: c.bySource[k] == PathsOf(c.files, k) && c.categories[k] == |PathsOf(c.files, k)|
  {
    var entries, lines := ReadStatus(status);
    var files := ClassifyEntries(entries, classify);
    var categories := CountClasses(files);
    var bySource := GroupByClass(files);
    var overall := OverallClass(files);
    c := Classification(files, categories, bySource, overall);
  }

  lemma ClassesSplit(files: seq<ClassifiedFile>)
    ensures !SomeFile(files, SourceMutation) && !SomeFile(files, Unknown) <==> AllSafe(files)
  {
    if !SomeFile(files, SourceMutation) && !SomeFile(files, Unknown) {
      forall i | 0 <= i < |files| ensures files[i].category == GeneratedTemp || files[i].category == ExpectedArtifact {
        assert files[i].category != SourceMutation && files[i].category != Unknown;
      }
    }
  }

  // ---------------------------------------------------------------------------
  // recoverCanonicalDirty
  // ---------------------------------------------------------------------------

  datatype Step = SkippedNotFound | CleanedDirectory | CleanedFile | CheckedOut | Failed

  datatype Action = Action(file: string, step: Step)

  datatype Outcome = NoopClean | BlockedUnsafe | BlockedMisclassified | CleanedSafeOnly | PartialClean

  datatype Recovery = Recovery(outcome: Outcome, cleanAfter: bool, actions: seq<Action>) {
    predicate Attempted() { outcome.CleanedSafeOnly? || outcome.PartialClean? }
  }

  /** The untracked flag of the last classified file with this path, as a lookup
      filled in order answers. */
  function LastUntracked(files: seq<ClassifiedFile>, path: string): bool {
    if files == [] then false
    else if files[|files| - 1].path == path then files[|files| - 1].isUntracked
    else LastUntracked(files[..|files| - 1], path)
  }

  /** Untracked paths are reported last, so the lookup finds an untracked entry. */
  lemma {:induction false} LastUntrackedFinds(files: seq<ClassifiedFile>, k: nat)
    requires k < |files| && files[k].isUntracked
    requires forall i, j :: 0 <= i < j < |files| && files[i].isUntracked ==> files[j].isUntracked
    ensures LastUntracked(files, files[k].path)
  {
    if files[|files| - 1].path != files[k].path {
      LastUntrackedFinds(files[..|files| - 1], k);
    }
  }

  /** No removable file is left under the reported path. */
  ghost predicate Cleared(tree: WorkingTree, files: Files, path: string) {
    forall p :: Covers(path, p) && tree.Removable(p) ==> p !in files
  }

  /** What one turn of the loop does to the tree: an untracked path is cleared, a
      tracked file restored, unless that failed. */
  ghost predicate CleanedOne(tree: WorkingTree, before: Files, after: Files, path: string, isUntracked: bool,
                             step: Step)
  {
    && (!step.Failed? && isUntracked ==> Cleared(tree, after, path))
    && (step.CheckedOut? && path in tree.index ==> tree.Restored(after, path))
    && (tree.reliable && isUntracked ==> !step.Failed?)
    && (tree.reliable && !isUntracked && path in tree.index && path in before ==>
         (forall q :: q in before ==> !Beneath(path, q)) ==> tree.Restored(after, path))
  }

  /** One path of the loop. */
  method CleanOne(tree: WorkingTree, path: string, isUntracked: bool) returns (step: Step)
    modifies tree
    ensures forall p :: tree.Tidied(old(tree.files), tree.files, p)
    ensures forall p :: Same(old(tree.files), tree.files, p) || tree.Matches(path, p)
    ensures CleanedOne(tree, old(tree.files), tree.files, path, isUntracked, step)
    // What is reported tells what was there.
    ensures step.SkippedNotFound? ==> tree.files == old(tree.files) && path !in tree.files
    ensures if exists q :: q in old(tree.files) && Beneath(path, q) then step in {CleanedDirectory, Failed}
            else path in old(tree.files) ==>
              step in (if isUntracked then {CleanedFile, Failed} else {CheckedOut, Failed})
  {
    var kind := tree.Stat(path);
    var ok;
    if kind.Missing? {
      step := SkippedNotFound;
    } else if kind.Directory? {
      ok := tree.CleanPath(path, true);
      step := if ok then CleanedDirectory else Failed;
    } else if isUntracked {
      ok := tree.CleanPath(path, false);
      step := if ok then CleanedFile else Failed;
    } else {
      ok := tree.CheckoutPath(path);
      step := if ok then CheckedOut else Failed;
    }
  }

  lemma TidiedChains(tree: WorkingTree, a: Files, b: Files, c: Files)
    requires forall p :: tree.Tidied(a, b, p)
    requires forall p :: tree.Tidied(b, c, p)
    ensures forall p :: tree.Tidied(a, c, p)
  {
    forall p ensures tree.Tidied(a, c, p) {
      assert tree.Tidied(a, b, p) && tree.Tidied(b, c, p);
    }
  }

  /** What was restored or cleared stays so. */
  lemma ProgressKept(tree: WorkingTree, before: Files, after: Files)
    requires forall p :: tree.Tidied(before, after, p)
    ensures forall p :: tree.Restored(before, p) ==> tree.Restored(after, p)
    ensures forall path :: Cleared(tree, before, path) ==> Cleared(tree, after, path)
  {
    forall p | tree.Restored(before, p) ensures tree.Restored(after, p) {
      assert tree.Tidied(before, after, p);
    }
    forall path | Cleared(tree, before, path) ensures Cleared(tree, after, path) {
      forall p | Covers(path, p) && tree.Removable(p) ensures p !in after {
        assert tree.Tidied(before, after, p);
      }
    }
  }

  /** What the loop has achieved after one action for each of the first paths. */
  ghost predicate Progress(tree: WorkingTree, before: Files, now: Files, lines: seq<StatusLine>,
                           files: seq<ClassifiedFile>, actions: seq<Action>)
  {
    && |actions| <= |lines| == |files|
    && (forall p :: tree.Tidied(before, now, p))
    && (forall k :: 0 <= k < |actions| ==> Done(tree, now, files[k].path, actions[k]))
    && (tree.Reports(before, lines) ==>
         forall k :: 0 <= k < |actions| ==> LineDone(tree, before, now, lines[k], files[k].path, actions[k]))
  }

  /** An untracked entry is cleared and a changed file restored, unless that failed or
      the path was misread. */
  ghost predicate LineDone(tree: WorkingTree, before: Files, now: Files, l: StatusLine, read: string, a: Action) {
    if read != l.path then true
    else if l.y == '?' then
      (a.step.Failed? && !tree.reliable) || Cleared(tree, now, l.path)
    else
      tree.reliable && l.path in tree.index && tree.PlainFile(before, l.path) ==> tree.Restored(now, l.path)
  }

  /** The action is for this path, and a checkout reported as done was done. */
  predicate Done(tree: WorkingTree, now: Files, path: string, a: Action) {
    a.file == path && (a.step.CheckedOut? && path in tree.index ==> tree.Restored(now, path))
  }

  lemma OneMoreAction(tree: WorkingTree, before: Files, mid: Files, now: Files, lines: seq<StatusLine>,
                      files: seq<ClassifiedFile>, actions: seq<Action>, a: Action)
    requires Progress(tree, before, mid, lines, files, actions) && |actions| < |lines|
    requires forall p :: tree.Tidied(mid, now, p)
    requires Done(tree, now, files[|actions|].path, a)
    requires tree.Reports(before, lines) ==>
      LineDone(tree, before, now, lines[|actions|], files[|actions|].path, a)
    ensures Progress(tree, before, now, lines, files, actions + [a])
  {
    TidiedChains(tree, before, mid, now);
    ProgressKept(tree, mid, now);
  }

  /** The files are the lines as they are read. */
  ghost predicate ReadFrom(files: seq<ClassifiedFile>, lines: seq<StatusLine>) {
    && |files| == |lines|
    && forall k :: 0 <= k < |lines| ==>
         files[k].path == ReadPath(lines[k].path) && files[k].isUntracked == (lines[k].y == '?') && lines[k].path != ""
  }

  /** The lookup answers as the report says for an indexed path that is read right. */
  lemma LookupTracked(tree: WorkingTree, before: Files, lines: seq<StatusLine>, files: seq<ClassifiedFile>,
                      path: string)
    requires tree.Reports(before, lines) && ReadFrom(files, lines)
    requires path in tree.index && path != "" && ReadPath(path) == path
    ensures !LastUntracked(files, path)
  {
    ReadPathRightIff(path);
    forall k | 0 <= k < |files| && files[k].isUntracked ensures files[k].path != path {
      ReadPathBareIff(lines[k].path);
      ReadPathRightIff(lines[k].path);
    }
    LastTrackedFinds(files, path);
  }

  lemma {:induction false} LastTrackedFinds(files: seq<ClassifiedFile>, path: string)
    requires forall k :: 0 <= k < |files| && files[k].isUntracked ==> files[k].path != path
    ensures !LastUntracked(files, path)
  {
    if files != [] {
      LastTrackedFinds(files[..|files| - 1], path);
    }
  }

  /** A plain file of the index is one still. */
  lemma StaysPlain(tree: WorkingTree, before: Files, mid: Files, path: string)
    requires forall p :: tree.Tidied(before, mid, p)
    requires path in tree.index && tree.PlainFile(before, path)
    ensures path in mid && forall q :: q in mid ==> !Beneath(path, q)
  {
    assert tree.Tidied(before, mid, path);
    forall q | q in mid ensures !Beneath(path, q) {
      assert tree.Tidied(before, mid, q);
      assert q in before.Keys + tree.index.Keys;
    }
  }

  /** A reliable loop leaves no changed plain file unrestored that is printed bare. */
  lemma LoopRestores(tree: WorkingTree, before: Files, after: Files, lines: seq<StatusLine>,
                     files: seq<ClassifiedFile>, actions: seq<Action>, p: string)
    requires tree.Reports(before, lines) && tree.reliable && |actions| == |lines| && ReadFrom(files, lines)
    requires Progress(tree, before, after, lines, files, actions)
    requires tree.Modified(before, p) && tree.PlainFile(before, p) && Bare(p)
    ensures tree.Restored(after, p)
  {
    var k :| 0 <= k < |lines| && lines[k].y != '?' && lines[k].path == p;
    ReadPathRightIff(p);
    assert LineDone(tree, before, after, lines[k], files[k].path, actions[k]);
  }

  /** `p` was reported under a name that is not printed bare. */
  ghost predicate Misread(lines: seq<StatusLine>, p: string) {
    exists i :: 0 <= i < |lines| && lines[i].y == '?' && Covers(lines[i].path, p) && !Bare(lines[i].path)
  }

  /** The untracked files that are left after the loop were reported in quotes, or lie
      in nested repositories. */
  lemma LoopLeaves(tree: WorkingTree, before: Files, after: Files, lines: seq<StatusLine>, p: string)
    requires tree.Reports(before, lines)
    requires forall q :: tree.Tidied(before, after, q)
    requires forall k :: 0 <= k < |lines| && lines[k].y == '?' && Bare(lines[k].path) ==>
      Cleared(tree, after, lines[k].path)
    requires tree.Untracked(after, p)
    ensures p in tree.nested || Misread(lines, p)
  {
    assert tree.Tidied(before, after, p);
    assert tree.Untracked(before, p);
    var k :| 0 <= k < |lines| && lines[k].y == '?' && Covers(lines[k].path, p);
    assert Bare(lines[k].path) ==> Cleared(tree, after, lines[k].path);
  }

  lemma NothingFailed(tree: WorkingTree, before: Files, after: Files, lines: seq<StatusLine>,
                      files: seq<ClassifiedFile>, actions: seq<Action>)
    requires tree.Reports(before, lines) && |actions| == |lines| && ReadFrom(files, lines)
    requires Progress(tree, before, after, lines, files, actions)
    requires tree.reliable || forall k :: 0 <= k < |actions| ==> !actions[k].step.Failed?
    ensures forall p :: tree.Untracked(after, p) ==> p in tree.nested || Misread(lines, p)
  {
    forall k | 0 <= k < |lines| && lines[k].y == '?' && Bare(lines[k].path)
      ensures Cleared(tree, after, lines[k].path)
    {
      ReadPathRightIff(lines[k].path);
      assert LineDone(tree, before, after, lines[k], files[k].path, actions[k]);
    }
    forall p | tree.Untracked(after, p) ensures p in tree.nested || Misread(lines, p) {
      LoopLeaves(tree, before, after, lines, p);
    }
  }

  /** One turn of the loop does what it can for its line. */
  lemma TurnDone(tree: WorkingTree, before: Files, mid: Files, now: Files, lines: seq<StatusLine>,
                 files: seq<ClassifiedFile>, i: nat, step: Step)
    requires ReadFrom(files, lines) && i < |lines| && tree.Reports(before, lines)
    requires forall p :: tree.Tidied(before, mid, p)
    requires CleanedOne(tree, mid, now, files[i].path, LastUntracked(files, files[i].path), step)
    ensures LineDone(tree, before, now, lines[i], files[i].path, Action(files[i].path, step))
  {
    var path := files[i].path;
    if path == lines[i].path {
      if lines[i].y == '?' {
        LastUntrackedFinds(files, i);
      } else if path in tree.index && tree.PlainFile(before, path) {
        LookupTracked(tree, before, lines, files, path);
        StaysPlain(tree, before, mid, path);
      }
    }
  }

  /** The loop over the paths. */
  method CleanAll(tree: WorkingTree, files: seq<ClassifiedFile>, ghost lines: seq<StatusLine>)
    returns (actions: seq<Action>)
    requires ReadFrom(files, lines)
    modifies tree
    ensures |actions| == |lines| && Progress(tree, old(tree.files), tree.files, lines, files, actions)
  {
    actions := [];
    var i := 0;
    while i < |files|
      invariant 0 <= i == |actions| <= |files|
      invariant Progress(tree, old(tree.files), tree.files, lines, files, actions)
    {
      var path := files[i].path;
      ghost var mid := tree.files;
      var step := CleanOne(tree, path, LastUntracked(files, path));
      if tree.Reports(old(tree.files), lines) {
        TurnDone(tree, old(tree.files), mid, tree.files, lines, files, i, step);
      }
      OneMoreAction(tree, old(tree.files), mid, tree.files, lines, files, actions, Action(path, step));
      actions := actions + [Action(path, step)];
      i := i + 1;
    }
  }

  /** What the loop achieved outlives the sweep. */
  lemma AfterSweep(tree: WorkingTree, before: Files, looped: Files, after: Files, lines: seq<StatusLine>,
                   files: seq<ClassifiedFile>, actions: seq<Action>)
    requires Progress(tree, before, looped, lines, files, actions) && |actions| == |lines|
    requires ReadFrom(files, lines) && AllSafe(files)
    requires forall p :: Same(looped, after, p) || tree.Removed(looped, after, p)
    ensures forall k :: 0 <= k < |lines| ==> Done(tree, after, files[k].path, actions[k])
    ensures tree.Reports(before, lines) ==> forall p :: tree.Accounted(before, after, lines, files, p)
    ensures tree.Reports(before, lines) ==>
      tree.reliable || (forall k :: 0 <= k < |actions| ==> !actions[k].step.Failed?) ==>
      forall p :: tree.Untracked(after, p) ==> p in tree.nested || Misread(lines, p)
    ensures tree.Reports(before, lines) && tree.reliable ==>
      forall p :: tree.Modified(before, p) && tree.PlainFile(before, p) && Bare(p) ==> tree.Restored(after, p)
  {
    TidiedChains(tree, before, looped, after);
    ProgressKept(tree, looped, after);
    assert Progress(tree, before, after, lines, files, actions);
    if tree.Reports(before, lines) {
      forall p ensures tree.Accounted(before, after, lines, files, p) {
        tree.AccountedWhenSafe(before, after, lines, files, p);
      }
      if tree.reliable || forall k :: 0 <= k < |actions| ==> !actions[k].step.Failed? {
        NothingFailed(tree, before, after, lines, files, actions);
      }
      if tree.reliable {
        forall p | tree.Modified(before, p) && tree.PlainFile(before, p) && Bare(p) ensures tree.Restored(after, p) {
          LoopRestores(tree, before, after, lines, files, actions, p);
        }
      }
    }
  }

  /** `lines` is the report the classification was made from. */
  method RecoverCanonicalDirty(tree: WorkingTree, c: Classification, ghost lines: seq<StatusLine>,
                               ghost classify: string -> PathClass)
    returns (r: Recovery)
    requires ClassifiedFrom(c, lines, classify)
    requires forall i :: 0 <= i < |lines| ==> lines[i].path != ""
    modifies tree
    // Nothing to do, or one path that is not safe: nothing is touched.
    ensures r.Attempted() <==> c.IsDirty() && AllSafe(c.files)
    ensures !r.Attempted() ==> tree.files == old(tree.files) && r.actions == []
    ensures r.outcome.NoopClean? <==> lines == []
    ensures r.outcome.BlockedUnsafe? <==> lines != [] && !AllSafe(c.files)
    // Every path that changed was reported, by a line that is classified as safe.
    ensures tree.Reports(old(tree.files), lines) ==>
      forall p :: tree.Accounted(old(tree.files), tree.files, lines, c.files, p)
    // One action per safe path, in order; what is reported as done was done.
    ensures r.Attempted() ==>
      |r.actions| == |lines| && forall i :: 0 <= i < |lines| ==> Done(tree, tree.files, c.files[i].path, r.actions[i])
    // Without a failed action no untracked file is left that was printed bare,
    // result.json included.
    ensures r.Attempted() && tree.Reports(old(tree.files), lines) ==>
      tree.reliable || (forall i :: 0 <= i < |r.actions| ==> !r.actions[i].step.Failed?) ==>
      forall p :: tree.Untracked(tree.files, p) ==> p in tree.nested || Misread(lines, p)
    // Without faults the sweep takes those printed in quotes too, but for result.json,
    // and every changed file that is there is restored if it was printed bare.
    ensures r.Attempted() && tree.reliable ==>
      forall p :: tree.Untracked(tree.files, p) ==> p in tree.nested || KeptBySweep(p)
    ensures r.Attempted() && tree.reliable && tree.Reports(old(tree.files), lines) ==>
      forall p :: tree.Modified(old(tree.files), p) && tree.PlainFile(old(tree.files), p) && Bare(p) ==>
        tree.Restored(tree.files, p)
    ensures tree.reliable && r.Attempted() ==> (r.cleanAfter <==> tree.IsClean(tree.files))
    ensures r.outcome.CleanedSafeOnly? <==> r.Attempted() && r.cleanAfter
    ensures r.Attempted() && r.cleanAfter ==> tree.IsClean(tree.files)
    ensures r.outcome.NoopClean? ==> r.cleanAfter
    ensures !r.Attempted() && r.cleanAfter ==> r.outcome.NoopClean?
  {
    if !c.IsDirty() {
      r := Recovery(NoopClean, true, []);
    } else if !c.IsSafeToClean() {
      r := Recovery(BlockedUnsafe, false, []);
    } else if exists i :: 0 <= i < |c.files| && !Safe(c.files[i].category) {
      r := Recovery(BlockedMisclassified, false, []);
    } else {
      var actions := CleanAll(tree, c.files, lines);
      ghost var looped := tree.files;
      tree.Sweep();
      AfterSweep(tree, old(tree.files), looped, tree.files, lines, c.files, actions);
      var status := tree.StatusAnswer();
      var cleanAfter := status == Some(true);
      r := Recovery(if cleanAfter then CleanedSafeOnly else PartialClean, cleanAfter, actions);
    }
  }

  // ---------------------------------------------------------------------------
  // Classification and recovery together
  // ---------------------------------------------------------------------------

  /** The two calls in a row: what is answered is wrong exactly when the status could
      not be read and the tree is dirty. */
  method ClassifyAndRecover(tree: WorkingTree, status: Option<seq<StatusLine>>, classify: string -> PathClass)
    returns (r: Recovery)
    requires status.Some? ==>
      tree.Reports(tree.files, status.value) && forall i :: 0 <= i < |status.value| ==> ValidLine(status.value[i])
    modifies tree
    ensures status.Some? ==> (r.outcome.NoopClean? <==> tree.IsClean(old(tree.files)))
    ensures status.None? ==> r.outcome.NoopClean? && tree.files == old(tree.files)
    ensures r.cleanAfter && !tree.IsClean(tree.files) <==> status.None? && !tree.IsClean(old(tree.files))
  {
    var c := ClassifyCanonicalDirty(status, classify);
    ghost var lines := if status.Some? then status.value else [];
    if status.Some? {
      tree.EmptyIffClean(tree.files, lines);
    }
    r := RecoverCanonicalDirty(tree, c, lines, classify);
  }

  /** The failing input: one untracked file and a status that cannot be read. */
  method UnreadDirtyAnsweredClean(classify: string -> PathClass) returns (tree: WorkingTree, r: Recovery)
    ensures fresh(tree) && r.cleanAfter && r.outcome.NoopClean? && !tree.IsClean(tree.files)
  {
    tree := new WorkingTree(map["a" := ""], map[], map[], {}, {}, (_, _) => false, true);
    assert tree.Untracked(tree.files, "a");
    r := ClassifyAndRecover(tree, None, classify);
  }

  /** The cleaning step of a delivery recovery: it goes on only on a clean tree, whatever
      could not be read and whatever failed. */
  method CleanBeforeDelivery(tree: WorkingTree, status: Option<seq<StatusLine>>, classify: string -> PathClass)
    returns (proceed: bool)
    requires status.Some? ==> forall i :: 0 <= i < |status.value| ==> ValidLine(status.value[i])
    modifies tree
    ensures proceed ==> tree.IsClean(tree.files)
    ensures tree.reliable && tree.IsClean(old(tree.files)) ==> proceed && tree.files == old(tree.files)
  {
    var clean := tree.StatusAnswer();
    proceed := clean == Some(true);
    if clean == Some(false) {
      var c := ClassifyCanonicalDirty(status, classify);
      if c.IsSafeToClean() {
        var r := RecoverCanonicalDirty(tree, c, if status.Some? then status.value else [], classify);
        proceed := r.cleanAfter;
      }
    }
  }
}
