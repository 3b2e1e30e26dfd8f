/** The change records the pipeline starts from: how one line of
    `git diff --cached --name-status` becomes a FileChange, the language
    and status names, the ticket found in the branch name, and the totals
    (main.go:315-349, 351-445, 447-464). The git processes themselves are
    not run: their outputs are parameters, `None` standing for a command
    that failed. */
module Changes {
  import opened Text
  import opened Common

  datatype FileChange = FileChange(
    path: string,
    status: string,     // "Added", "Modified", ..., "Unknown"
    addition: int,      // lines added
    deletion: int,      // lines deleted
    isBinary: bool,
    diff: string,
    language: string)   // detected programming language

  datatype GitInfo = GitInfo(
    files: seq<FileChange>,
    branch: string,
    jiraTicket: string,
    lastCommit: string,
    additions: int,     // TotalChanges.Additions
    deletions: int)     // TotalChanges.Deletions

  // ---------------------------------------------------------------------
  // detectLanguage

  /** filepath.Ext: the suffix from the last '.' of the last path element,
      or "" when that element has no '.' */
  function Ext(path: string): (e: string)
    ensures |e| <= |path| && e == path[|path| - |e|..]
    ensures e == [] || e[0] == '.'
    ensures forall i :: 1 <= i < |e| ==> e[i] != '.' && e[i] != '/'
  {
    if path == [] then ""
    else
      var c := path[|path| - 1];
      if c == '/' then ""
      else if c == '.' then "."
      else
        var e := Ext(path[..|path| - 1]);
        if e == "" then "" else e + [c]
  }

  /** Whatever precedes it, a final '.'-suffix free of '.' and '/' is the extension. */
  lemma {:induction false} ExtOfSuffix(stem: string, e: string)
    requires |e| >= 1 && e[0] == '.'
    requires forall i :: 1 <= i < |e| ==> e[i] != '.' && e[i] != '/'
    ensures Ext(stem + e) == e
  {
    var p := stem + e;
    if |e| > 1 {
      var init := e[..|e| - 1];
      assert p[..|p| - 1] == stem + init;
      ExtOfSuffix(stem, init);
      assert init + [e[|e| - 1]] == e;
    }
  }

  const LANGUAGES: map<string, string> := map[
    ".go" := "Go", ".js" := "JavaScript", ".jsx" := "JavaScript",
    ".ts" := "TypeScript", ".tsx" := "TypeScript", ".py" := "Python",
    ".rb" := "Ruby", ".java" := "Java", ".php" := "PHP", ".rs" := "Rust",
    ".c" := "C", ".cpp" := "C++", ".cs" := "C#", ".html" := "HTML",
    ".css" := "CSS", ".md" := "Markdown"]

  /** '.' followed by lower-case letters */
  predicate IsLowerExt(e: string) {
    |e| >= 2 && e[0] == '.' && forall i :: 1 <= i < |e| ==> 'a' <= e[i] <= 'z'
  }

  lemma LanguageKeyShape(ext: string)
    requires ext in LANGUAGES
    ensures IsLowerExt(ext)
  {
  }

  /** The language named by the lower-cased extension, or "Unknown" */
  function DetectLanguage(filename: string): (lang: string)
    ensures Ext(filename) == "" ==> lang == "Unknown"
    ensures lang == "Unknown" || lang in LANGUAGES.Values
  {
    var ext := LowerAscii(Ext(filename));
    if ext in LANGUAGES then LANGUAGES[ext] else "Unknown"
  }

  /** A path ending in a known extension, in lower or upper case, gets
      that extension's language, whatever directories and stem precede it. */
  lemma DetectLanguageOfExtension(stem: string, ext: string)
    requires ext in LANGUAGES
    ensures DetectLanguage(stem + ext) == LANGUAGES[ext]
    ensures DetectLanguage(stem + UpperAscii(ext)) == LANGUAGES[ext]
  {
    LanguageKeyShape(ext);
    KeyCases(ext);
    DetectLanguageOfSuffix(stem, ext);
    DetectLanguageOfSuffix(stem, UpperAscii(ext));
  }

  /** Both spellings of a table key lower-case to the key, and neither
      holds a '.' or '/' after the first byte. */
  lemma KeyCases(ext: string)
    requires IsLowerExt(ext)
    ensures LowerAscii(ext) == ext && LowerAscii(UpperAscii(ext)) == ext
    ensures UpperAscii(ext)[0] == '.'
    ensures forall i :: 1 <= i < |ext| ==> UpperAscii(ext)[i] != '.' && UpperAscii(ext)[i] != '/'
  {
    assert forall i :: 0 <= i < |ext| ==> LowerAscii(ext)[i] == ext[i];
    assert forall i :: 0 <= i < |ext| ==> LowerAscii(UpperAscii(ext))[i] == ext[i];
  }

  /** For every path whose last element ends in a '.'-suffix, in any
      letter case: the language is the table's entry for the lower-cased
      suffix, and "Unknown" when the table has none. */
  lemma DetectLanguageOfSuffix(stem: string, e: string)
    requires |e| >= 1 && e[0] == '.'
    requires forall i :: 1 <= i < |e| ==> e[i] != '.' && e[i] != '/'
    ensures DetectLanguage(stem + e) ==
      if LowerAscii(e) in LANGUAGES then LANGUAGES[LowerAscii(e)] else "Unknown"
  {
    ExtOfSuffix(stem, e);
  }

  /** A mixed-case extension is looked up lower-cased. */
  lemma MixedCaseExtension()
    ensures DetectLanguage("src/a.Go") == "Go"
  {
    var e := ".Go";
    assert LowerAscii(e) == ".go" by {
      assert LowerAscii(e)[0] == '.' && LowerAscii(e)[1] == 'g' && LowerAscii(e)[2] == 'o';
    }
    assert ".go" in LANGUAGES && LANGUAGES[".go"] == "Go";
    assert "src/a.Go" == "src/a" + e;
    DetectLanguageOfSuffix("src/a", e);
  }

  /** An extension the table lacks gives "Unknown". */
  lemma UnknownExtension()
    ensures DetectLanguage("notes/a.txt") == "Unknown"
  {
    var e := ".txt";
    assert LowerAscii(e) == e by {
      assert forall i :: 0 <= i < |e| ==> LowerAscii(e)[i] == e[i];
    }
    assert e !in LANGUAGES by {
      forall k | k in LANGUAGES ensures k != e {
        LanguageKeyShape(k);
        if |k| == 4 { assert k == ".php" || k == ".tsx" || k == ".jsx" || k == ".cpp" || k == ".css"; }
      }
    }
    assert "notes/a.txt" == "notes/a" + e;
    DetectLanguageOfSuffix("notes/a", e);
  }

  // ---------------------------------------------------------------------
  // parseGitStatus

  const STATUS_NAMES: map<char, string> := map[
    'A' := "Added", 'M' := "Modified", 'D' := "Deleted",
    'R' := "Renamed", 'C' := "Copied", 'U' := "Unmerged"]

  /** The status name for the first byte of a name-status code; the caller
      always passes a non-empty field (Go would panic on `status[0]`). */
  function ParseGitStatus(status: string): (name: string)
    requires status != []
    ensures name == "Unknown" <==> status[0] !in STATUS_NAMES
  {
    if status[0] in STATUS_NAMES then STATUS_NAMES[status[0]] else "Unknown"
  }

  /** The status letter a name stands for */
  function StatusCode(name: string): Option<char> {
    if name == "Added" then Some('A')
    else if name == "Modified" then Some('M')
    else if name == "Deleted" then Some('D')
    else if name == "Renamed" then Some('R')
    else if name == "Copied" then Some('C')
    else if name == "Unmerged" then Some('U')
    else None
  }

  /** The name keeps the status letter: no two letters share a name, and
      every other code collapses to "Unknown". */
  lemma StatusRoundTrip(status: string)
    requires status != []
    ensures StatusCode(ParseGitStatus(status)) ==
      if status[0] in STATUS_NAMES then Some(status[0]) else None
  {
  }

  // ---------------------------------------------------------------------
  // The JIRA ticket: leftmost match of [A-Z]+-[0-9]+ in the branch name

  function UpperRunEnd(s: string, i: nat): (j: nat)
    requires i <= |s|
    ensures i <= j <= |s|
    ensures forall k :: i <= k < j ==> IsUpper(s[k])
    ensures j == |s| || !IsUpper(s[j])
    decreases |s| - i
  {
    if i < |s| && IsUpper(s[i]) then UpperRunEnd(s, i + 1) else i
  }

  function DigitRunEnd(s: string, i: nat): (j: nat)
    requires i <= |s|
    ensures i <= j <= |s|
    ensures forall k :: i <= k < j ==> IsDigit(s[k])
    ensures j == |s| || !IsDigit(s[j])
    decreases |s| - i
  {
    if i < |s| && IsDigit(s[i]) then DigitRunEnd(s, i + 1) else i
  }

  /** The pattern matches at offset i (greedy runs, so the upper-case run
      must be followed by '-' and a digit). */
  predicate TicketAt(s: string, i: nat) {
    i < |s| && IsUpper(s[i]) &&
    var j := UpperRunEnd(s, i);
    j + 1 < |s| && s[j] == '-' && IsDigit(s[j + 1])
  }

  /** End of the (greedy) match at offset i */
  function TicketEnd(s: string, i: nat): (k: nat)
    requires TicketAt(s, i)
    ensures i + 3 <= k <= |s|
    ensures k == |s| || !IsDigit(s[k])
  {
    DigitRunEnd(s, UpperRunEnd(s, i) + 1)
  }

  /** t is in the language of [A-Z]+-[0-9]+ */
  predicate IsTicket(t: string) {
    exists j | 0 < j < |t| - 1 ::
      t[j] == '-' && (forall k | 0 <= k < j :: IsUpper(t[k])) &&
      (forall k | j < k < |t| :: IsDigit(t[k]))
  }

  /** What the scan takes at an offset where it matches is a ticket. */
  lemma TicketAtIsTicket(s: string, i: nat)
    requires TicketAt(s, i)
    ensures IsTicket(s[i..TicketEnd(s, i)])
  {
    var t := s[i..TicketEnd(s, i)];
    var j := UpperRunEnd(s, i) - i;
    assert t[j] == '-' && (forall k | 0 <= k < j :: IsUpper(t[k])) &&
      (forall k | j < k < |t| :: IsDigit(t[k]));
  }

  /** Wherever a ticket starts, the scan's test matches. */
  lemma TicketStartsAt(s: string, i: nat, k: nat)
    requires i < k <= |s| && IsTicket(s[i..k])
    ensures TicketAt(s, i)
  {
    var t := s[i..k];
    var j :| 0 < j < |t| - 1 && t[j] == '-' && (forall m | 0 <= m < j :: IsUpper(t[m])) &&
      (forall m | j < m < |t| :: IsDigit(t[m]));
    assert forall m | i <= m < i + j :: IsUpper(s[m]) by {
      forall m | i <= m < i + j ensures IsUpper(s[m]) { assert s[m] == t[m - i]; }
    }
    assert s[i + j] == '-' && IsDigit(s[i + j + 1]) by {
      assert s[i + j] == t[j] && s[i + j + 1] == t[j + 1];
    }
    assert !IsUpper(s[i + j]);
    assert UpperRunEnd(s, i) == i + j;
  }

  /** The scan's test at an offset is exactly "some match starts here",
      and what it takes is a match. */
  lemma TicketAtMeaning(s: string, i: nat)
    ensures TicketAt(s, i) ==> IsTicket(s[i..TicketEnd(s, i)])
    ensures TicketAt(s, i) <== exists k | i < k <= |s| :: IsTicket(s[i..k])
  {
    if TicketAt(s, i) {
      TicketAtIsTicket(s, i);
    }
    if exists k | i < k <= |s| :: IsTicket(s[i..k]) {
      var k :| i < k <= |s| && IsTicket(s[i..k]);
      TicketStartsAt(s, i, k);
    }
  }

  predicate NoTicketBefore(s: string, i: nat) {
    forall j :: 0 <= j < i ==> !TicketAt(s, j)
  }

  /** regexp.FindString for [A-Z]+-\d+: scans for the leftmost offset where
      the pattern matches and returns that (greedy) match, or "". */
  method FindTicket(branch: string) returns (ticket: string)
    ensures ticket == "" <==> NoTicketBefore(branch, |branch|)
    ensures ticket != "" ==> exists i ::
      0 <= i < |branch| && TicketAt(branch, i) && NoTicketBefore(branch, i) &&
      ticket == branch[i..TicketEnd(branch, i)]
  {
    var i := 0;
    while i < |branch|
      invariant 0 <= i <= |branch|
      invariant NoTicketBefore(branch, i)
    {
      if TicketAt(branch, i) {
        return branch[i..TicketEnd(branch, i)];
      }
      i := i + 1;
    }
    return "";
  }

  // ---------------------------------------------------------------------
  // getGitInfo: name-status lines to FileChanges and totals

  /** `git diff --cached --numstat <path>` reports a binary file as "-\t-" */
  predicate IsBinaryStat(stats: seq<string>) {
    |stats| >= 2 && stats[0] == "-" && stats[1] == "-"
  }

  /** What one name-status line contributes: nothing when it has fewer than
      two fields, its path is ignored, or a per-path git command fails;
      otherwise one FileChange, whose counts come from numstat unless the
      file is binary. `ignored` stands for matching the configured ignore
      globs, `diffOf` and `numstatOf` for the per-path git commands. */
  function ParseEntry(line: string, ignored: string -> bool,
                      diffOf: string -> Option<string>,
                      numstatOf: string -> Option<string>): (r: Option<FileChange>)
    ensures r.Some? <==>
      var parts := Fields(line);
      |parts| >= 2 && !ignored(parts[1]) && diffOf(parts[1]).Some? && numstatOf(parts[1]).Some?
    ensures r.Some? ==>
      var parts := Fields(line);
      var stats := Fields(numstatOf(parts[1]).value);
      && r.value.path == parts[1]
      && r.value.isBinary == IsBinaryStat(stats)
      && (r.value.isBinary || |stats| < 2 ==> r.value.addition == 0 && r.value.deletion == 0)
      && (!r.value.isBinary && |stats| >= 2 ==>
            r.value.addition == Atoi(stats[0]) && r.value.deletion == Atoi(stats[1]))
      && r.value.status == ParseGitStatus(parts[0])
      && r.value.language == DetectLanguage(parts[1])
      && r.value.diff == diffOf(parts[1]).value
  {
    var parts := Fields(line);
    if |parts| < 2 then None
    else
      var path := parts[1];
      if ignored(path) then None
      else match (diffOf(path), numstatOf(path))
        case (Some(diff), Some(numstat)) =>
          var stats := Fields(numstat);
          var binary := IsBinaryStat(stats);
          var counted := !binary && |stats| >= 2;
          Some(FileChange(path, ParseGitStatus(parts[0]),
                          if counted then Atoi(stats[0]) else 0,
                          if counted then Atoi(stats[1]) else 0,
                          binary, diff, DetectLanguage(path)))
        case _ => None
  }

  /** A numstat line as git writes it, "<added>\t<deleted>\t<path>", gives
      the file exactly the counts written in it. */
  lemma NumstatCounts(line: string, ignored: string -> bool,
                      diffOf: string -> Option<string>,
                      numstatOf: string -> Option<string>,
                      added: int, deleted: int, path: string)
    requires MIN_INT64 <= added <= MAX_INT64 && MIN_INT64 <= deleted <= MAX_INT64
    requires IsWordOf(path)
    requires ParseEntry(line, ignored, diffOf, numstatOf).Some?
    requires numstatOf(Fields(line)[1]) ==
      Some(IntToString(added) + "\t" + IntToString(deleted) + "\t" + path)
    ensures var f := ParseEntry(line, ignored, diffOf, numstatOf).value;
      !f.isBinary && f.addition == added && f.deletion == deleted
  {
    var a, d := IntToString(added), IntToString(deleted);
    IntToStringWord(added);
    IntToStringWord(deleted);
    var ws := [a, d, path];
    assert Join(ws, "\t") == a + "\t" + (d + "\t" + path) by {
      assert ws[1..] == [d, path] && ws[1..][1..] == [path];
      assert Join([path], "\t") == path;
      assert Join([d, path], "\t") == d + "\t" + path;
    }
    AppendAssoc(a + "\t", d + "\t", path);
    AppendAssoc(a + "\t", d, "\t");
    FieldsJoin(ws, "\t");
    AtoiIntToString(added);
    AtoiIntToString(deleted);
  }

  /** The files the lines yield, in line order */
  function Kept(lines: seq<string>, ignored: string -> bool,
                diffOf: string -> Option<string>,
                numstatOf: string -> Option<string>): seq<FileChange>
  {
    if lines == [] then []
    else
      Keep(Kept(lines[..|lines| - 1], ignored, diffOf, numstatOf),
           ParseEntry(lines[|lines| - 1], ignored, diffOf, numstatOf))
  }

  /** The files so far, with the line's file when it yields one */
  function Keep(files: seq<FileChange>, change: Option<FileChange>): seq<FileChange> {
    match change
    case Some(f) => files + [f]
    case None => files
  }

  lemma KeptSnoc(lines: seq<string>, i: nat, ignored: string -> bool,
                 diffOf: string -> Option<string>,
                 numstatOf: string -> Option<string>)
    requires i < |lines|
    ensures Kept(lines[..i + 1], ignored, diffOf, numstatOf) ==
      Keep(Kept(lines[..i], ignored, diffOf, numstatOf), ParseEntry(lines[i], ignored, diffOf, numstatOf))
  {
    assert lines[..i + 1][..i] == lines[..i];
  }

  /** Binary files carry no line counts */
  predicate NoBinaryCounts(files: seq<FileChange>) {
    forall i :: 0 <= i < |files| && files[i].isBinary ==> files[i].addition == 0 && files[i].deletion == 0
  }

  /** Exact sums of the counts of the non-binary files */
  function SumAdditions(files: seq<FileChange>): int {
    if files == [] then 0
    else
      var f := files[|files| - 1];
      SumAdditions(files[..|files| - 1]) + (if f.isBinary then 0 else f.addition)
  }

  function SumDeletions(files: seq<FileChange>): int {
    if files == [] then 0
    else
      var f := files[|files| - 1];
      SumDeletions(files[..|files| - 1]) + (if f.isBinary then 0 else f.deletion)
  }

  /** Adding a file's counts to the wrapped totals keeps them the wrapped
      sums; a file whose counts are not added has zero counts or is binary. */
  lemma TotalsSnoc(files: seq<FileChange>, f: FileChange, counted: bool,
                   additions: int, deletions: int)
    requires additions == Wrap64(SumAdditions(files))
    requires deletions == Wrap64(SumDeletions(files))
    requires counted ==> !f.isBinary
    requires !counted && !f.isBinary ==> f.addition == 0 && f.deletion == 0
    ensures (if counted then Wrap64(additions + f.addition) else additions) == Wrap64(SumAdditions(files + [f]))
    ensures (if counted then Wrap64(deletions + f.deletion) else deletions) == Wrap64(SumDeletions(files + [f]))
  {
    SumsSnoc(files, f);
    WrappedSnoc(SumAdditions(files), additions, f.addition, counted, SumAdditions(files + [f]));
    WrappedSnoc(SumDeletions(files), deletions, f.deletion, counted, SumDeletions(files + [f]));
  }

  lemma SumsSnoc(files: seq<FileChange>, f: FileChange)
    ensures SumAdditions(files + [f]) == SumAdditions(files) + if f.isBinary then 0 else f.addition
    ensures SumDeletions(files + [f]) == SumDeletions(files) + if f.isBinary then 0 else f.deletion
  {
    assert (files + [f])[..|files|] == files;
  }

  /** A wrapped running total stays the wrapped sum when a count is added
      to both, or to neither. */
  lemma WrappedSnoc(sum: int, total: int, count: int, counted: bool, newSum: int)
    requires total == Wrap64(sum)
    requires newSum == sum + if counted then count else 0
    ensures (if counted then Wrap64(total + count) else total) == Wrap64(newSum)
  {
    if counted {
      WrapAdd(sum, count);
    }
  }

  /** The change-record part of getGitInfo. `branchOut`, `headOut` and
      `nameStatusOut` are the outputs of `git rev-parse --abbrev-ref HEAD`,
      `git rev-parse HEAD` and `git diff --cached --name-status`. */
  method CollectChanges(jiraIntegration: bool, branchOut: Option<string>,
                        headOut: Option<string>, nameStatusOut: Option<string>,
                        ignored: string -> bool,
                        diffOf: string -> Option<string>,
                        numstatOf: string -> Option<string>)
    returns (r: Result<GitInfo>)
    ensures r.Err? <==> nameStatusOut.None?
    ensures r.Err? ==> r.error == StagedFilesUnavailable
    ensures r.Ok? ==>
      var info := r.value;
      && info.files == Kept(Split(TrimSpace(nameStatusOut.value), '\n'), ignored, diffOf, numstatOf)
      && info.additions == Wrap64(SumAdditions(info.files))
      && info.deletions == Wrap64(SumDeletions(info.files))
      && NoBinaryCounts(info.files)
      && info.branch == (if branchOut.Some? then TrimSpace(branchOut.value) else "")
      && info.lastCommit == (if headOut.Some? then TrimSpace(headOut.value) else "")
    ensures r.Ok? ==>
      var info := r.value;
      && (info.jiraTicket == "" <==>
            !jiraIntegration || branchOut.None? || NoTicketBefore(info.branch, |info.branch|))
      && (info.jiraTicket != "" ==> exists i ::
            0 <= i < |info.branch| && TicketAt(info.branch, i) &&
            NoTicketBefore(info.branch, i) &&
            info.jiraTicket == info.branch[i..TicketEnd(info.branch, i)])
  {
    var branch, ticket, lastCommit := "", "", "";
    if branchOut.Some? {
      branch := TrimSpace(branchOut.value);
      if jiraIntegration {
        ticket := FindTicket(branch);
      }
    }
    if headOut.Some? {
      lastCommit := TrimSpace(headOut.value);
    }
    if nameStatusOut.None? {
      return Err(StagedFilesUnavailable);
    }
    var lines := Split(TrimSpace(nameStatusOut.value), '\n');
    var files, additions, deletions := CollectFiles(lines, ignored, diffOf, numstatOf);
    return Ok(GitInfo(files, branch, ticket, lastCommit, additions, deletions));
  }

  /** The loop of getGitInfo over the name-status lines: appends each kept
      file and accumulates the (wrapping) totals of the non-binary ones. */
  method CollectFiles(lines: seq<string>, ignored: string -> bool,
                      diffOf: string -> Option<string>,
                      numstatOf: string -> Option<string>)
    returns (files: seq<FileChange>, additions: int, deletions: int)
    ensures files == Kept(lines, ignored, diffOf, numstatOf)
    ensures additions == Wrap64(SumAdditions(files))
    ensures deletions == Wrap64(SumDeletions(files))
    ensures NoBinaryCounts(files)
  {
    files, additions, deletions := [], 0, 0;
    var i := 0;
    while i < |lines|
      invariant 0 <= i <= |lines|
      invariant files == Kept(lines[..i], ignored, diffOf, numstatOf)
      invariant additions == Wrap64(SumAdditions(files))
      invariant deletions == Wrap64(SumDeletions(files))
      invariant NoBinaryCounts(files)
    {
      KeptSnoc(lines, i, ignored, diffOf, numstatOf);
      var change, counted := ParseLine(lines[i], ignored, diffOf, numstatOf);
      files, additions, deletions := AddChange(files, additions, deletions, change, counted);
      i := i + 1;
    }
    assert lines[..i] == lines;
  }

  /** Appending one kept file and, when its counts were read, adding them
      to the totals keeps the totals the wrapped sums. */
  method AddChange(files: seq<FileChange>, additions: int, deletions: int,
                   change: Option<FileChange>, counted: bool)
    returns (files': seq<FileChange>, additions': int, deletions': int)
    requires additions == Wrap64(SumAdditions(files))
    requires deletions == Wrap64(SumDeletions(files))
    requires NoBinaryCounts(files)
    requires counted ==> change.Some? && !change.value.isBinary
    requires change.Some? && !counted ==> change.value.addition == 0 && change.value.deletion == 0
    ensures files' == Keep(files, change)
    ensures additions' == Wrap64(SumAdditions(files'))
    ensures deletions' == Wrap64(SumDeletions(files'))
    ensures NoBinaryCounts(files')
  {
    files', additions', deletions' := files, additions, deletions;
    if change.Some? {
      var f := change.value;
      TotalsSnoc(files, f, counted, additions, deletions);
      if counted {
        additions' := Wrap64(additions + f.addition);
        deletions' := Wrap64(deletions + f.deletion);
      }
      files' := files + [f];
    }
  }

  /** One pass of the loop body of getGitInfo: the `continue`s become a
      `None`; `counted` says whether the numstat counts were read and go
      into the totals. */
  method ParseLine(line: string, ignored: string -> bool,
                   diffOf: string -> Option<string>,
                   numstatOf: string -> Option<string>)
    returns (change: Option<FileChange>, counted: bool)
    ensures change == ParseEntry(line, ignored, diffOf, numstatOf)
    ensures counted ==> change.Some? && !change.value.isBinary
    ensures change.Some? && !counted ==> change.value.addition == 0 && change.value.deletion == 0
  {
    counted := false;
    if line == "" {
      assert Fields(line) == [];
      return None, counted;
    }
    var parts := Fields(line);
    if |parts| < 2 {
      return None, counted;
    }
    var status, path := parts[0], parts[1];
    if ignored(path) {
      return None, counted;
    }
    var diff := diffOf(path);
    if diff.None? {
      return None, counted;
    }
    var numstat := numstatOf(path);
    if numstat.None? {
      return None, counted;
    }
    var stats := Fields(numstat.value);
    var isBinary := IsBinaryStat(stats);
    var file := FileChange(path, ParseGitStatus(status), 0, 0, isBinary,
                           diff.value, DetectLanguage(path));
    if !isBinary && |stats| >= 2 {
      file := file.(addition := Atoi(stats[0]), deletion := Atoi(stats[1]));
      counted := true;
    }
    return Some(file), counted;
  }
}
