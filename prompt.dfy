/** The prompt sent to the language model (main.go:497-550): a header with
    the totals, the branch and the ticket, one line per language with its
    file count, one section per changed file, and the rules block chosen
    by the commit style.

    The order of the language lines comes from iterating a Go map, which
    is unspecified; it is a parameter here (`langOrder`), any duplicate-free
    listing of the languages present. */
module Prompt {
  import opened Text
  import opened Settings
  import opened Changes

  // ---------------------------------------------------------------------
  // Language statistics

  /** Number of files whose detected language is `lang` */
  function Count(files: seq<FileChange>, lang: string): (n: nat)
    ensures n <= |files|
  {
    if files == [] then 0
    else Count(files[..|files| - 1], lang) + (if files[|files| - 1].language == lang then 1 else 0)
  }

  /** The languages present among `files` (the keys of `languageStats`) */
  function Languages(files: seq<FileChange>): (langs: set<string>)
    ensures forall k :: 0 <= k < |files| ==> files[k].language in langs
    ensures forall l :: l in langs <==> Count(files, l) > 0
  {
    if files == [] then {}
    else Languages(files[..|files| - 1]) + {files[|files| - 1].language}
  }

  predicate Distinct(order: seq<string>) {
    forall i, j :: 0 <= i < j < |order| ==> order[i] != order[j]
  }

  /** `order` is one possible iteration order of the language map */
  predicate LanguageOrder(order: seq<string>, files: seq<FileChange>) {
    Distinct(order)
    && (forall l :: l in order ==> l in Languages(files))
    && (forall l :: l in Languages(files) ==> l in order)
  }

  function LanguageLine(lang: string, n: nat): string {
    "- " + lang + " (" + IntToString(n) + " files)\n"
  }

  /** The language block, one line per language of `order` */
  function LanguageLines(order: seq<string>, files: seq<FileChange>): string {
    if order == [] then ""
    else LanguageLines(order[..|order| - 1], files) + LanguageLine(order[|order| - 1], Count(files, order[|order| - 1]))
  }

  // ---------------------------------------------------------------------
  // File sections

  function SectionTitle(f: FileChange): string {
    "\n=== " + f.path + " (" + f.status + ") ===\n"
  }

  function CountsLine(f: FileChange): string {
    "Changes: +" + IntToString(f.addition) + "/-" + IntToString(f.deletion) + " lines\n"
  }

  /** The section of one changed file: its title, then either its counts
      and diff or the binary marker. */
  function FileSection(f: FileChange): string {
    SectionTitle(f) + if f.isBinary then "[Binary file]\n" else CountsLine(f) + f.diff
  }

  function Sections(files: seq<FileChange>): (r: seq<string>)
    ensures |r| == |files|
  {
    seq(|files|, k requires 0 <= k < |files| => FileSection(files[k]))
  }

  function FilesBlock(files: seq<FileChange>): string {
    Concat(Sections(files))
  }

  // ---------------------------------------------------------------------
  // Header, rules and the whole prompt

  const INTRO := "Generate a commit message for the following changes:\n\n"

  function TotalsLine(info: GitInfo): string {
    "Total Changes: +" + IntToString(info.additions) + "/-" + IntToString(info.deletions) + " lines\n"
  }

  function BranchLine(info: GitInfo): string {
    "\nBranch: " + info.branch + "\n"
  }

  function TicketLine(info: GitInfo): string {
    if info.jiraTicket != "" then "JIRA Ticket: " + info.jiraTicket + "\n" else ""
  }

  function Header(info: GitInfo): string {
    INTRO + TotalsLine(info) + BranchLine(info) + TicketLine(info)
  }

  const RULES_INTRO := "\nPlease generate a commit message following these rules:\n"
  const TYPES_RULE := "\n2. Types should be one of: "
  const BREAKING_RULE := "\n5. If there are breaking changes, include a BREAKING CHANGE section"

  /** The second conventional rule: the allowed types, comma separated */
  function TypesLine(prefixes: seq<string>): string {
    TYPES_RULE + Join(prefixes, ", ") + "\n"
  }

  function ConventionalRules(prefixes: seq<string>): string {
    "\n1. Use conventional commit format: <type>(<scope>): <description>"
    + TypesLine(prefixes)
    + "3. Keep the description concise and clear\n4. Use imperative mood (\"add\" not \"added\")"
  }

  const DETAILED_RULES :=
    "\n1. Start with a clear summary line\n2. Add a detailed body explaining the changes"
    + "\n3. Include technical details where relevant\n4. Mention any potential side effects"

  function StyleRules(cfg: Config): string {
    if cfg.style == "conventional" then
      ConventionalRules(cfg.scopePrefix) + (if cfg.includeBreaking then BREAKING_RULE else "")
    else if cfg.style == "detailed" then DETAILED_RULES
    else ""
  }

  /** The closing rules block, chosen by the commit style */
  function Rules(cfg: Config): string {
    RULES_INTRO + StyleRules(cfg)
  }

  const LANGUAGES_TITLE := "\nLanguages affected:\n"
  const FILES_TITLE := "\nChanged files:\n"

  function PromptText(info: GitInfo, cfg: Config, langOrder: seq<string>): string {
    Header(info)
    + (LANGUAGES_TITLE + LanguageLines(langOrder, info.files))
    + (FILES_TITLE + FilesBlock(info.files))
    + Rules(cfg)
  }

  /** The prompt as generateCommitMessage writes it into its builder, part
      by part: header, language statistics, file sections, rules. */
  method BuildPrompt(info: GitInfo, cfg: Config, langOrder: seq<string>) returns (prompt: string)
    requires LanguageOrder(langOrder, info.files)
    ensures prompt == PromptText(info, cfg, langOrder)
  {
    prompt := WriteHeader(info);
    var stats := CountLanguages(info.files);
    prompt := WriteLanguages(prompt, langOrder, stats, info.files);
    prompt := WriteFileSections(prompt, info.files);
    var rules := WriteRules(cfg);
    prompt := prompt + rules;
  }

  method WriteHeader(info: GitInfo) returns (prompt: string)
    ensures prompt == Header(info)
  {
    prompt := INTRO;
    prompt := prompt + TotalsLine(info);
    prompt := prompt + BranchLine(info);
    if info.jiraTicket != "" {
      prompt := prompt + ("JIRA Ticket: " + info.jiraTicket + "\n");
    } else {
      assert prompt + "" == prompt;
    }
  }

  /** The language lines, in the map's iteration order, with the counts
      read from the map */
  method WriteLanguages(start: string, langOrder: seq<string>, stats: map<string, nat>,
                        files: seq<FileChange>) returns (prompt: string)
    requires forall l :: l in langOrder ==> l in stats && stats[l] == Count(files, l)
    ensures prompt == start + (LANGUAGES_TITLE + LanguageLines(langOrder, files))
  {
    prompt := start + LANGUAGES_TITLE;
    var j := 0;
    assert prompt + LanguageLines(langOrder[..j], files) == prompt;
    while j < |langOrder|
      invariant 0 <= j <= |langOrder|
      invariant prompt == start + LANGUAGES_TITLE + LanguageLines(langOrder[..j], files)
    {
      var lang := langOrder[j];
      var line := LanguageLine(lang, stats[lang]);
      LanguageLinesSnoc(langOrder, files, j);
      AppendAssoc(start + LANGUAGES_TITLE, LanguageLines(langOrder[..j], files), line);
      prompt := prompt + line;
      j := j + 1;
    }
    assert langOrder[..j] == langOrder;
    AppendAssoc(start, LANGUAGES_TITLE, LanguageLines(langOrder, files));
  }

  lemma LanguageLinesSnoc(order: seq<string>, files: seq<FileChange>, j: nat)
    requires j < |order|
    ensures LanguageLines(order[..j + 1], files) ==
      LanguageLines(order[..j], files) + LanguageLine(order[j], Count(files, order[j]))
  {
    assert order[..j + 1][..j] == order[..j];
  }

  /** The rules block for the configured style */
  method WriteRules(cfg: Config) returns (rules: string)
    ensures rules == Rules(cfg)
  {
    rules := RULES_INTRO;
    if cfg.style == "conventional" {
      var conventional := ConventionalRules(cfg.scopePrefix);
      if cfg.includeBreaking {
        conventional := conventional + BREAKING_RULE;
      } else {
        assert conventional + "" == conventional;
      }
      rules := rules + conventional;
    } else if cfg.style == "detailed" {
      rules := rules + DETAILED_RULES;
    } else {
      assert rules + "" == rules;
    }
  }

  /** The `languageStats` map: each language present, with its file count */
  method CountLanguages(files: seq<FileChange>) returns (stats: map<string, nat>)
    ensures stats.Keys == Languages(files)
    ensures forall l :: l in stats ==> stats[l] == Count(files, l)
  {
    stats := map[];
    var i := 0;
    while i < |files|
      invariant 0 <= i <= |files|
      invariant stats.Keys == Languages(files[..i])
      invariant forall l :: l in stats ==> stats[l] == Count(files[..i], l)
    {
      assert files[..i + 1][..i] == files[..i];
      var lang := files[i].language;
      var n := if lang in stats then stats[lang] else 0;
      stats := stats[lang := n + 1];
      i := i + 1;
    }
    assert files[..i] == files;
  }

  lemma FilesBlockSnoc(files: seq<FileChange>, i: nat)
    requires i < |files|
    ensures FilesBlock(files[..i + 1]) == FilesBlock(files[..i]) + FileSection(files[i])
  {
    var s := Sections(files[..i + 1]);
    assert s[..i] == Sections(files[..i]);
    assert s[i] == FileSection(files[i]);
  }

  /** One file's section: a counts line and the diff, or the binary marker */
  method WriteFileSection(file: FileChange) returns (section: string)
    ensures section == FileSection(file)
  {
    section := SectionTitle(file);
    if !file.isBinary {
      section := section + CountsLine(file);
      section := section + file.diff;
    } else {
      section := section + "[Binary file]\n";
    }
  }

  /** The "Changed files" loop: one section appended per file */
  method WriteFileSections(start: string, files: seq<FileChange>) returns (prompt: string)
    ensures prompt == start + (FILES_TITLE + FilesBlock(files))
  {
    prompt := start + FILES_TITLE;
    var i := 0;
    assert prompt + FilesBlock(files[..i]) == prompt;
    while i < |files|
      invariant 0 <= i <= |files|
      invariant prompt == start + FILES_TITLE + FilesBlock(files[..i])
    {
      var section := WriteFileSection(files[i]);
      FilesBlockSnoc(files, i);
      AppendAssoc(start + FILES_TITLE, FilesBlock(files[..i]), section);
      prompt := prompt + section;
      i := i + 1;
    }
    assert files[..i] == files;
    AppendAssoc(start, FILES_TITLE, FilesBlock(files));
  }

  // ---------------------------------------------------------------------
  // Properties of the prompt

  /** Number of files whose language is listed in `order` */
  function CountIn(files: seq<FileChange>, order: seq<string>): nat {
    if files == [] then 0
    else CountIn(files[..|files| - 1], order) + (if files[|files| - 1].language in order then 1 else 0)
  }

  function SumCounts(order: seq<string>, files: seq<FileChange>): nat {
    if order == [] then 0
    else SumCounts(order[..|order| - 1], files) + Count(files, order[|order| - 1])
  }

  lemma {:induction false} CountInSnoc(files: seq<FileChange>, order: seq<string>, l: string)
    requires l !in order
    ensures CountIn(files, order + [l]) == CountIn(files, order) + Count(files, l)
  {
    if files != [] {
      CountInSnoc(files[..|files| - 1], order, l);
    }
  }

  lemma {:induction false} CountInAll(files: seq<FileChange>, order: seq<string>)
    requires forall k :: 0 <= k < |files| ==> files[k].language in order
    ensures CountIn(files, order) == |files|
  {
    if files != [] {
      CountInAll(files[..|files| - 1], order);
    }
  }

  lemma {:induction false} SumCountsIn(order: seq<string>, files: seq<FileChange>)
    requires Distinct(order)
    ensures SumCounts(order, files) == CountIn(files, order)
  {
    if order == [] {
      CountInNone(files);
    } else {
      var init, l := order[..|order| - 1], order[|order| - 1];
      SumCountsIn(init, files);
      CountInSnoc(files, init, l);
      assert init + [l] == order;
    }
  }

  lemma {:induction false} CountInNone(files: seq<FileChange>)
    ensures CountIn(files, []) == 0
  {
    if files != [] {
      CountInNone(files[..|files| - 1]);
    }
  }

  /** The per-language counts of the language block add up to the number
      of changed files, whatever the map's iteration order. */
  lemma LanguageCountsSum(order: seq<string>, files: seq<FileChange>)
    requires LanguageOrder(order, files)
    ensures SumCounts(order, files) == |files|
  {
    SumCountsIn(order, files);
    CountInAll(files, order);
  }

  /** A section opens with its title; after it comes the binary marker
      exactly when the file is binary, and otherwise its counts and diff. */
  lemma FileSectionShape(f: FileChange)
    ensures HasPrefix(FileSection(f), SectionTitle(f))
    ensures f.isBinary <==> FileSection(f)[|SectionTitle(f)|..] == "[Binary file]\n"
    ensures !f.isBinary ==> FileSection(f)[|SectionTitle(f)|..] == CountsLine(f) + f.diff
  {
    var r := FileSection(f);
    var title := SectionTitle(f);
    assert r[|title|..] == if f.isBinary then "[Binary file]\n" else CountsLine(f) + f.diff;
    if !f.isBinary {
      assert CountsLine(f)[0] == 'C';
      assert r[|title|..][0] != '[';
    }
  }

  lemma FilesBlockAppend(a: seq<FileChange>, b: seq<FileChange>)
    ensures FilesBlock(a + b) == FilesBlock(a) + FilesBlock(b)
  {
    assert Sections(a + b) == Sections(a) + Sections(b);
    ConcatAppend(Sections(a), Sections(b));
  }

  /** Each file contributes exactly its own section, in file order: the
      block is the sections before it, its section, and the sections after. */
  lemma FileSectionAt(files: seq<FileChange>, k: nat)
    requires k < |files|
    ensures FilesBlock(files) ==
      FilesBlock(files[..k]) + FileSection(files[k]) + FilesBlock(files[k + 1..])
  {
    assert files == files[..k] + [files[k]] + files[k + 1..];
    FilesBlockAppend(files[..k] + [files[k]], files[k + 1..]);
    FilesBlockAppend(files[..k], [files[k]]);
    assert Sections([files[k]]) == [FileSection(files[k])];
    assert Concat([FileSection(files[k])]) == FileSection(files[k]);
  }

  lemma {:induction false} LanguageLinesAppend(a: seq<string>, b: seq<string>, files: seq<FileChange>)
    ensures LanguageLines(a + b, files) == LanguageLines(a, files) + LanguageLines(b, files)
  {
    if b != [] {
      var init := b[..|b| - 1];
      LanguageLinesAppend(a, init, files);
      assert (a + b)[..|a + b| - 1] == a + init;
      var l := b[|b| - 1];
      var line := LanguageLine(l, Count(files, l));
      assert LanguageLines(a + b, files) == LanguageLines(a + init, files) + line;
      assert LanguageLines(b, files) == LanguageLines(init, files) + line;
      assert (LanguageLines(a, files) + LanguageLines(init, files)) + line
        == LanguageLines(a, files) + (LanguageLines(init, files) + line);
    } else {
      assert a + b == a;
    }
  }

  /** The k-th language of the iteration order gets one line with its
      file count, between the lines of the languages before and after it. */
  lemma LanguageLineAt(order: seq<string>, files: seq<FileChange>, k: nat)
    requires k < |order|
    ensures LanguageLines(order, files) ==
      LanguageLines(order[..k], files) + LanguageLine(order[k], Count(files, order[k]))
      + LanguageLines(order[k + 1..], files)
  {
    assert order == order[..k] + [order[k]] + order[k + 1..];
    LanguageLinesAppend(order[..k] + [order[k]], order[k + 1..], files);
    LanguageLinesAppend(order[..k], [order[k]], files);
    assert ([] + [order[k]]) == [order[k]];
  }

  /** The rules close the prompt, and open with their heading. */
  lemma RulesClosePrompt(info: GitInfo, cfg: Config, langOrder: seq<string>)
    ensures HasSuffix(PromptText(info, cfg, langOrder), Rules(cfg))
    ensures HasPrefix(Rules(cfg), RULES_INTRO)
  {
    var body := Header(info)
      + (LANGUAGES_TITLE + LanguageLines(langOrder, info.files))
      + (FILES_TITLE + FilesBlock(info.files));
    AppendParts(body, Rules(cfg));
    AppendParts(RULES_INTRO, StyleRules(cfg));
  }

  /** The conventional style lists the allowed types, comma separated; any
      style other than "conventional" and "detailed" gets the heading alone. */
  lemma RulesListTypes(cfg: Config)
    ensures cfg.style == "conventional" ==> Contains(Rules(cfg), TypesLine(cfg.scopePrefix))
    ensures cfg.style != "conventional" && cfg.style != "detailed" ==> Rules(cfg) == RULES_INTRO
  {
    if cfg.style == "conventional" {
      var line := TypesLine(cfg.scopePrefix);
      var first := "\n1. Use conventional commit format: <type>(<scope>): <description>";
      var rest := "3. Keep the description concise and clear\n4. Use imperative mood (\"add\" not \"added\")";
      var extra := if cfg.includeBreaking then BREAKING_RULE else "";
      assert HasPrefix(line, line);
      ContainsWithin(first, line, rest, line);
      ContainsWithin(RULES_INTRO, ConventionalRules(cfg.scopePrefix), extra, line);
      AppendAssoc(RULES_INTRO, ConventionalRules(cfg.scopePrefix), extra);
    } else if cfg.style != "detailed" {
      assert RULES_INTRO + "" == RULES_INTRO;
    }
  }

  /** The breaking-change rule ends the prompt exactly when the style is
      conventional and IncludeBreaking is set. */
  lemma BreakingRuleLast(info: GitInfo, cfg: Config, langOrder: seq<string>)
    ensures HasSuffix(PromptText(info, cfg, langOrder), BREAKING_RULE) <==>
      cfg.style == "conventional" && cfg.includeBreaking
  {
    var p := PromptText(info, cfg, langOrder);
    var body := Header(info)
      + (LANGUAGES_TITLE + LanguageLines(langOrder, info.files))
      + (FILES_TITLE + FilesBlock(info.files));
    var style := StyleRules(cfg);
    AppendAssoc(body, RULES_INTRO, style);
    if cfg.style == "conventional" && cfg.includeBreaking {
      AppendAssoc(body + RULES_INTRO, ConventionalRules(cfg.scopePrefix), BREAKING_RULE);
      AppendParts(body + RULES_INTRO + ConventionalRules(cfg.scopePrefix), BREAKING_RULE);
    } else {
      // every other rules block ends with a byte other than the breaking rule's last
      var last := if cfg.style == "conventional" then ')' else if cfg.style == "detailed" then 's' else '\n';
      if cfg.style == "conventional" {
        assert style == ConventionalRules(cfg.scopePrefix) + "";
      }
      assert p == (body + RULES_INTRO) + style;
      assert p[|p| - 1] == last;
      assert BREAKING_RULE[|BREAKING_RULE| - 1] == 'n';
    }
  }

  /** The ticket line closes the header exactly when a ticket was found;
      the header always opens with the request line. */
  lemma HeaderTicket(info: GitInfo)
    ensures info.jiraTicket == "" ==> HasSuffix(Header(info), BranchLine(info))
    ensures info.jiraTicket != "" ==> HasSuffix(Header(info), "JIRA Ticket: " + info.jiraTicket + "\n")
    ensures HasPrefix(Header(info), INTRO)
  {
    var a, b, c := TotalsLine(info), BranchLine(info), TicketLine(info);
    AppendAssoc(INTRO, a, b);
    AppendAssoc(INTRO, a + b, c);
    AppendParts(INTRO, a + b + c);
    AppendParts(INTRO + a, b);
    AppendParts(INTRO + a + b, c);
    if info.jiraTicket == "" {
      assert INTRO + a + b + c == INTRO + a + b;
    }
  }
}
