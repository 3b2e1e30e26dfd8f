# zing: the commit-message pipeline, modelled in Dafny

zing is a command-line tool. It reads the staged changes of a git
repository, asks a language model (OpenAI or a local Ollama server) for a
commit message, post-processes the answer and commits it. This project
models the pipeline in `main.go`:

- **Change collection** (`getGitInfo`, `detectLanguage`, `parseGitStatus`).
  The lines of `git diff --cached --name-status` become file records. Each
  record has a status name, a language, a binary flag and line counts.
  The running totals wrap like Go's `int` on a 64-bit platform. The Jira ticket is the leftmost
  match of `[A-Z]+-\d+` in the branch name.
- **Prompt assembly** (`generateCommitMessage`, main.go:497-550). The
  prompt is a header, the per-language file counts, one section per file,
  and a rules block chosen by the commit style.
- **The retry loop** (main.go:566-588). The backends are oracles that answer
  each attempt with a message or an error.
- **Post-processing** (`postProcessCommitMessage`, `addCommitEmojis`). Four
  stages run in order: ticket suffix, co-author trailer, emoji prefix, and
  truncation of the subject line.
- **The conventional-commit check** (`verifyConventionalCommit`). It is
  written as a predicate over strings and proved equal to the regular
  expression's own reading.

Modelling conventions:

- Strings are `seq<char>` with one `char` per byte, because Go's `len` and
  slicing count bytes. The emoji are written as their UTF-8 bytes.
- The configuration is an explicit `Settings.Config` value rather than a
  global.
- The outputs of the git commands are parameters. `None` stands for a
  command that failed.
- The order in which Go ranges over a map is a parameter: `langOrder` for
  the language statistics, `emojiOrder` for the emoji table. A contract
  says which orders are possible. The emoji result is proved to be the
  same for every order.
- Each method is proved against a specification. Most are proved equal
  to a specification function, and the properties are proved about those
  functions. `FindTicket`, `CountLanguages` and `CollectChanges` have
  relational contracts instead: the leftmost match, the count of each
  language, and the fields of the collected record.

Files:

- `text.dfy`: the Go library functions the pipeline uses, including
  `strings.Split`, `Join`, `Fields`, `TrimSpace`, `Contains`,
  `strconv.Atoi` and 64-bit wrap-around.
- `common.dfy`: the error kinds and the configuration.
- `changes.dfy`: change collection.
- `prompt.dfy`: the prompt.
- `validator.dfy`: the conventional-commit check.
- `postprocess.dfy`: the four stages.
- `generate.dfy`: the retry loop and the whole generation.

Where the code and the behaviour described for it differ, the model
follows the code:

- **Missing OpenAI key.** It is not reported at once. The OpenAI adapter
  returns an ordinary error, which the loop retries until it gives up with
  "failed after n attempts" (`Generate.MissingKeyRetried`).
- **Scope never required.** With `IncludeScope` set, a message without a
  scope still passes, because the pattern's scope group is optional
  (`Conventional.ScopeNeverRequired`).
- **Truncation can panic.** A message longer than `MaxLength` whose first
  line is shorter than `MaxLength` does not come through unchanged. The
  slice `lines[0][:MaxLength]` is out of range and Go panics. The model
  returns `Err(SubjectSlicePanic)` (`PostProcess.TruncationPanics`).
- **The type is written twice.** The emoji replacement template ends in
  `$0`, the whole match, so `feat: x` becomes `<sparkles> featfeat: x`
  rather than `<sparkles> feat: x` (`PostProcess.EmojiDuplicatesType`).
  The model keeps this behaviour.

## Model

| member | source | states |
|---|---|---|
| Changes.Ext | main.go:316 | the extension `filepath.Ext` returns is a suffix of the path that is empty or starts with '.' and holds no other '.' or '/' |
| Changes.ExtOfSuffix | main.go:316 | whatever precedes it, a final '.'-suffix free of '.' and '/' is the extension |
| Changes.DetectLanguage | main.go:315-349 | a path without an extension gets "Unknown"; every answer is "Unknown" or one of the table's languages |
| Changes.DetectLanguageOfExtension | main.go:315-349 | a path ending in a known extension, in lower or upper case, gets that extension's language, whatever directories and stem precede it |
| Changes.DetectLanguageOfSuffix | main.go:315-349 | for every path ending in a '.'-suffix, in any letter case, the language is the table's entry for the lower-cased suffix, and "Unknown" when the table has none |
| Changes.MixedCaseExtension | main.go:316 | a mixed-case extension such as ".Go" is looked up lower-cased |
| Changes.UnknownExtension | main.go:346-348 | an extension the table lacks, such as ".txt", gives "Unknown" |
| Changes.LanguageKeyShape | main.go:317-345 | every extension in the table is '.' followed by lower-case letters, so lower-casing the path's extension is what makes the lookup case-blind |
| Changes.ParseGitStatus | main.go:447-464 | the name is "Unknown" exactly when the code's first byte is none of A, M, D, R, C, U |
| Changes.StatusRoundTrip | main.go:447-464 | each of the six letters gets its own name, from which the letter can be read back; every other code gives "Unknown" |
| Changes.TicketAtMeaning | main.go:360-365 | the scan's test at an offset holds exactly when some match of `[A-Z]+-[0-9]+` starts there, and the text it takes is such a match |
| Changes.TicketAtIsTicket | main.go:360-365 | the greedy text taken at a matching offset is in the language of `[A-Z]+-[0-9]+` |
| Changes.TicketStartsAt | main.go:360-365 | wherever a ticket starts, the scan's test matches at that offset |
| Changes.FindTicket | main.go:360-365 | the result is "" exactly when no match starts anywhere in the branch; otherwise it is the greedy match at the leftmost offset where one starts |
| Changes.ParseEntry | main.go:383-440 | a line yields a file exactly when it has at least two fields, its path is not ignored and both per-path git commands succeed; the file keeps the path, is binary exactly when numstat's first two fields are "-" and "-", and has zero counts when binary or when numstat has fewer than two fields, and otherwise the Atoi of numstat's first two fields; its status is the parsed first field, its language the detected one, its diff the path's diff |
| Changes.NumstatCounts | main.go:416-436 | a numstat line "added\tdeleted\tpath" written with `%d` gives a non-binary file with exactly those counts |
| Changes.Kept | main.go:382-441 | the files the lines yield, in line order: each line adds ParseEntry's file, if any, after those of the lines before it |
| Changes.ParseLine | main.go:383-440 | one loop pass yields ParseEntry's file, and its counts are read and added only for a non-binary file |
| Changes.KeptSnoc | main.go:382-441 | the step of the CollectFiles loop: the files kept from one more status line are the files kept so far followed by that line's file, if it has one |
| Changes.SumsSnoc | main.go:434-438 | a further file raises the exact sums by its counts, or by nothing when it is binary |
| Changes.WrappedSnoc | main.go:437-438 | a wrapping `+=` keeps the total equal to the wrapped exact sum |
| Changes.TotalsSnoc | main.go:434-438 | adding a file's counts to the totals, or skipping them for a binary or uncounted file, keeps both totals equal to the wrapped sums over the kept files |
| Changes.AddChange | main.go:432-440 | appending a kept file and adding its counts keeps the totals equal to the wrapped sums, and binary files carry no counts |
| Changes.CollectFiles | main.go:382-441 | the files are those the lines yield, in line order; the totals are the 64-bit wrapped sums of the non-binary counts; binary files carry zero counts |
| Changes.CollectChanges | main.go:351-445 | the only error is a failed name-status command; branch and commit hash are the trimmed outputs, or "" when their command failed; the files and totals are as CollectFiles says; the ticket is "" exactly when integration is off, the branch is unknown or it holds no match, and otherwise is the leftmost match |
| Text.Atoi | main.go:435-436 | `strconv.Atoi` with its error dropped always gives a value in the 64-bit range |
| Text.AtoiIntToString | main.go:435-436 | Atoi reads back every 64-bit integer that `%d` writes |
| Text.Wrap64 | main.go:437-438 | the wrapped value is in the 64-bit range and equals its argument when that is in range |
| Text.WrapAdd | main.go:437-438 | wrapping after every addition gives what wrapping the exact sum once gives |
| Text.Fields | main.go:388 | `strings.Fields`: every field is non-empty and holds no whitespace |
| Text.FieldsJoin | main.go:423 | words joined by runs of whitespace come back from `strings.Fields` as the same words, in order |
| Text.Split | main.go:382 | `strings.Split` with a one-byte separator always gives at least one piece, and no piece holds the separator |
| Text.JoinSplit | main.go:626-628 | joining the pieces of a split with the separator gives back the string |
| Text.SplitJoin | main.go:626-628 | splitting a join of separator-free pieces gives back the pieces |
| Text.ContainsAt | main.go:606 | an occurrence at any offset makes `strings.Contains` true |
| Text.SplitCons | main.go:626 | a separator-free piece followed by the separator is the first piece of the split, and the rest splits as before |
| Text.Join | main.go:538 | `strings.Join`: the pieces with the separator between each two; its inverse is stated by Text.SplitJoin |
| Text.Contains | main.go:606 | `strings.Contains`: the substring opens the text or some suffix of it; Text.ContainsAt states it finds every occurrence |
| Text.IntToString | main.go:501-503 | `%d`: an optional '-' and the decimal digits; its inverse is stated by Text.AtoiIntToString |
| Text.IntToStringWord | main.go:416-436 | `%d` writes a non-empty word without whitespace that is never a lone "-" |
| Text.LowerAscii | main.go:316 | definition of `strings.ToLower` on ASCII; Text.LowerAsciiIdempotent, Text.LowerAsciiFixed, Changes.KeyCases and Changes.DetectLanguageOfSuffix state its properties |
| Text.LowerAsciiIdempotent | main.go:316 | lower-casing an already lower-cased string changes nothing |
| Text.LowerAsciiFixed | main.go:316 | lower-casing leaves a string unchanged exactly when none of its bytes is in 'A'..'Z' |
| Text.TrimSpace | main.go:358 | `strings.TrimSpace` gives a string that neither starts nor ends with whitespace |
| Text.TrimSpaceMeaning | main.go:382 | the trimmed string is a piece of its argument, with only whitespace cut off before and after it |
| Prompt.CountLanguages | main.go:512-515 | the statistics map has exactly the languages of the files as keys, each mapped to its number of files |
| Prompt.LanguageCountsSum | main.go:512-519 | in any order Go may range over the map, the listed counts add up to the number of files |
| Prompt.LanguageLineAt | main.go:517-519 | each language of the iteration order gets exactly one "- lang (n files)" line with its count, between the lines of the languages before and after it |
| Prompt.WriteLanguages | main.go:516-519 | the language heading and one line per language, in iteration order, follow what was written before |
| Prompt.FileSectionShape | main.go:524-530 | a file's section opens with its "=== path (status) ===" title and continues with "[Binary file]" exactly for a binary file, otherwise with its counts line and diff |
| Prompt.FileSectionAt | main.go:523-531 | every file contributes exactly its own section, in file order |
| Prompt.FilesBlockAppend | main.go:523-531 | the sections of two runs of files are the sections of the first run followed by those of the second |
| Prompt.WriteFileSection | main.go:524-530 | one file's section, as the loop body writes it |
| Prompt.WriteFileSections | main.go:522-531 | the files heading and every file's section, in order, follow what was written before |
| Prompt.WriteHeader | main.go:500-509 | the request line, the totals, the branch and, when there is one, the ticket |
| Prompt.HeaderTicket | main.go:506-509 | the header opens with the request line; when a ticket was found it ends with the ticket line, and otherwise with the branch line |
| Prompt.WriteRules | main.go:534-550 | the rules block for the configured style |
| Prompt.RulesClosePrompt | main.go:534-550 | the rules block, opening with its heading, closes the prompt |
| Prompt.RulesListTypes | main.go:535-550 | the conventional style lists the allowed types joined by ", "; any style other than conventional and detailed gets only the heading |
| Prompt.BreakingRuleLast | main.go:541-543 | the breaking-change rule ends the prompt exactly when the style is conventional and IncludeBreaking is set |
| Prompt.PromptText | main.go:497-550 | the header, the language lines in the given order, the file sections in file order and the rules block; the Write* methods and BuildPrompt are proved to produce it |
| Prompt.BuildPrompt | main.go:497-550 | the prompt is the header, the language lines in the map's iteration order, one section per file in file order, and the rules block |
| Conventional.ScopeLength | main.go:637 | the scope found at the start is empty or an opening parenthesis, at least one byte other than ')', and a closing parenthesis |
| Conventional.ScopeUnique | main.go:637 | a scope can open a string in only one way |
| Conventional.AfterTypeMeaning | main.go:636-639 | the deterministic reading of what follows the type accepts exactly what some choice for the optional scope group followed by ": " and a non-newline byte accepts |
| Conventional.ConventionalMatches | main.go:635-641 | the hand-written check accepts exactly the messages the pattern matches |
| Conventional.VerifyConventionalCommit | main.go:634-649 | no error exactly when the message matches the pattern built from the type list and the scope setting; otherwise the no-match error |
| Conventional.ScopeNeverRequired | main.go:636-638 | setting IncludeScope never rejects a message that passes without it |
| Conventional.UnscopedAccepted | main.go:635-639 | a listed type, ": " and a description starting with a non-newline byte pass, whether or not scopes are allowed |
| Conventional.ScopedAccepted | main.go:635-639 | a listed type, a scope, ": " and a description pass when scopes are allowed |
| Conventional.ScopeRejectedWhenExcluded | main.go:635-639 | with scopes not allowed and every type a word, a message whose first non-letter byte is '(' is rejected |
| Conventional.EmptyTypeList | main.go:635 | with an empty type list the group is `()`, so any message that opens with ": " and a non-newline byte passes |
| PostProcess.TicketStage | main.go:605-609 | the message with " [T]" appended when integration is on, a ticket was found and the message lacks it; PostProcess.TicketStageMeaning states its properties |
| PostProcess.TicketStageMeaning | main.go:605-609 | the ticket stage changes the message exactly when integration is on, a ticket was found and the message lacks it, and then appends " [T]"; afterwards the message contains the ticket |
| PostProcess.TicketStageIdempotent | main.go:605-609 | applying the ticket stage twice gives what applying it once gives |
| PostProcess.TrailerAppend | main.go:614-616 | the trailer of two author lists is the first's trailer followed by the second's |
| PostProcess.SplitTrailer | main.go:614-616 | split into lines, the trailer is one "Co-authored-by: a" line per author, in order, and the empty piece after the last newline |
| PostProcess.SplitBlankLine | main.go:613 | the blank line splits into the message's lines, an empty line and the trailer's lines |
| PostProcess.CoAuthorStage | main.go:612-617 | without co-authors the message; otherwise the message, a blank line and one "Co-authored-by: a" line per author; PostProcess.CoAuthorStageMeaning states its properties |
| PostProcess.CoAuthorStageMeaning | main.go:612-617 | for every author list the message is a prefix of the result, which is unchanged without co-authors; when no author holds a newline, its lines are the message's lines, an empty line, one "Co-authored-by: a" line per author in list order, and the empty piece after the final newline |
| PostProcess.AppendCoAuthors | main.go:613-616 | the loop appends the blank line and exactly the trailer |
| PostProcess.StartsWithTypeMeaning | main.go:663 | the deterministic test is exactly "some choice for the optional scope group, then ':'" after the type |
| PostProcess.AfterMatchedType | main.go:663 | after a matching type comes ':' or the scope's '(' |
| PostProcess.EmojiKey | main.go:652-660 | every key of the emoji table is one of the seven types and a non-empty word |
| PostProcess.TypeHasEmoji | main.go:652-660 | every one of the seven types has an emoji |
| PostProcess.TypeMatchUnique | main.go:662-666 | two types made of letters cannot both match one message |
| PostProcess.DefaultTypesHaveEmoji | main.go:257 | a fresh configuration lists exactly the seven types of the emoji table, in the same order |
| PostProcess.FirstMatch | main.go:662-666 | the type found matches the message, and when none is found no listed type matches |
| PostProcess.NoTypeAfterEmoji | main.go:662-666 | once an emoji opens the message no type matches it, so a second rewrite cannot happen |
| PostProcess.EmojiStage | main.go:651-669 | the emoji, a space and the matching type in front of the whole message, or the message when no type matches; PostProcess.EmojiStageMeaning states its properties |
| PostProcess.EmojiStageMeaning | main.go:651-669 | when type t matches, the result is emoji(t), " ", t and then the whole message; when no type matches, the message is unchanged |
| PostProcess.EmojiStageIdempotent | main.go:651-669 | rewriting twice gives what rewriting once gives |
| PostProcess.EmojiDuplicatesType | main.go:665 | "feat: x" becomes the sparkles emoji followed by " featfeat: x", because `$0` puts the matched type back |
| PostProcess.ReplaceStep | main.go:662-666 | one replacement advances the loop from the types already visited to those visited including the current one |
| PostProcess.ProgressComplete | main.go:662-666 | once every key of the table has had its turn, the loop has done the whole rewrite |
| PostProcess.AddCommitEmojis | main.go:651-669 | in every order Go may range over the table, the loop gives the one-rewrite result |
| PostProcess.TruncateSubject | main.go:625-629 | the subject-line cut, with the slice panic as an error; PostProcess.TruncateSubjectMeaning states its properties |
| PostProcess.TruncateSubjectMeaning | main.go:625-629 | truncation fails exactly when the message is too long and the first line is shorter than MaxLength or MaxLength is negative; a short message is unchanged; otherwise the first line is cut to MaxLength bytes and every other line is kept byte for byte |
| PostProcess.TruncationKeepsBody | main.go:625-629 | a message longer than MaxLength whose first line is exactly MaxLength bytes comes through whole |
| PostProcess.TruncationPanics | main.go:625-629 | a first line shorter than MaxLength in a longer message makes the slice panic |
| PostProcess.PostProcessed | main.go:603-632 | the ticket, co-author, emoji and truncation stages composed in the source's order; PostProcess.PostProcessedMeaning states its properties |
| PostProcess.PostProcessedMeaning | main.go:603-632 | a processed message's first line is at most MaxLength bytes; with every optional stage off and a message within MaxLength, nothing changes |
| PostProcess.PostProcessCommitMessage | main.go:603-632 | the method applies the four stages in the source's order and returns exactly the composed result |
| Generate.OpenAI | main.go:671-675 | definition of the OpenAI adapter; Generate.OpenAIWithoutRequest, Generate.MissingKeyRetried and Generate.GeneratedErrors state its properties |
| Generate.OpenAIWithoutRequest | main.go:671-675 | without a key the outcome does not depend on the OpenAI endpoint at all, so no request is made; with a key the outcome is the endpoint's answer |
| Generate.RetryFrom | main.go:567-588 | the loop from a given attempt on: stop at the first success, at an unknown provider, or after the failure of attempt MaxRetries; Generate.RetryFromMeaning states its properties |
| Generate.Retry | main.go:566-588 | the whole loop, which makes no request when MaxRetries is below one; Generate.RetryMeaning states its properties |
| Generate.RetryFromMeaning | main.go:567-588 | from any attempt on: the request count is bounded by MaxRetries; a message comes from the first request that succeeded, after only failures; an error is the unknown provider, or the last failure after MaxRetries failed requests |
| Generate.RetryMeaning | main.go:567-588 | at most MaxRetries requests; success only from the first request that succeeded, every earlier one having failed; "failed after n attempts" only after n failed requests, wrapping the last error; an unknown provider fails before any request; with MaxRetries below one there is no request and the empty message goes on |
| Generate.UnsupportedProviderFails | main.go:568-575 | an unknown provider is an error with no request as soon as the loop runs |
| Generate.MissingKeyRetried | main.go:567-588 | with no OpenAI key every attempt fails and the loop gives up after MaxRetries attempts with the missing-key error |
| Generate.GenerateWithRetries | main.go:567-588 | the loop returns exactly the retry function's result and request count |
| Generate.Finish | main.go:590-600 | a loop error passes through; an answer is post-processed and, when the gate is on, checked; Generate.FinishMeaning states its properties |
| Generate.FinishMeaning | main.go:590-600 | a finished message has a subject within MaxLength and, when the gate is on, matches the pattern; a loop error passes through unchanged; an answer fails only by the subject slice or by the gate; once post-processing succeeds, the answer is rejected exactly when the gate is on and the message does not match the pattern |
| Generate.Generated | main.go:497-601 | the prompt, the retry loop and the finishing steps composed; Generate.GeneratedChecked, GeneratedFromAnswer and GeneratedErrors state its properties |
| Generate.GeneratedChecked | main.go:590-600 | a generated message has a subject of at most MaxLength bytes and, when the gate is on, matches the conventional-commit pattern |
| Generate.GeneratedFromAnswer | main.go:566-600 | a generated message is the post-processed answer of the first request that succeeded, every earlier request having failed |
| Generate.GeneratedErrors | main.go:566-600 | a failure is an unknown provider, exhausted retries, a failed format check or a subject-slice panic; with no OpenAI key the OpenAI provider always ends in exhausted retries; a failed format check means the gate is on and the post-processed first successful answer does not match the pattern |
| Generate.GenerateCommitMessage | main.go:497-601 | the method returns exactly the generation function's result for these changes, configuration and backends |

## Left out

- The git commands (`exec.Command`: `getGitInfo`'s process calls, `getFileDiff`, the commit itself and the hook installer) are not run. Their outputs are parameters; per-path commands are the functions `diffOf` and `numstatOf`.
- The HTTP adapters `generateWithOpenAI` and `generateWithOllama` are oracles: one outcome per prompt and attempt. Their JSON encoding, the OpenAI client and the timeouts are not modelled. So the model does not capture that OpenAI panics on an empty `Choices` list, or that Ollama does not check the HTTP status code.
- The spinner, `time.Sleep` between attempts and the context deadline are left out. The deadline is shared by all attempts, so a late attempt can fail only because an early one was slow. In the model that is one more failure the oracle may return.
- Configuration and cache I/O (TOML load and save, the commit cache, `time.Now`) are left out. The configuration is an explicit value, and only the fields the pipeline reads are kept.
- The terminal layer is left out: the cobra commands, colours, template validation, the confirmation prompt and the empty-change-set check in the caller (main.go:763-765).
- The ignore globs matched with `filepath.Match` are an abstract predicate `ignored` on paths.
- Warnings and debug output are left out: the `warn.Printf` lines for a file skipped because its diff or stats failed (main.go:411, 419), the prompt's `debugLog` (main.go:552) and the retry warning (main.go:585-586). None of them changes what the pipeline returns.
- The emoji are modelled as the UTF-8 bytes of the emoji their literals name, such as E2 9C A8 for the sparkles of `feat`. The literals in main.go are those emoji garbled into Mac Roman text, so there `feat`'s literal is the seven bytes E2 80 9A C3 BA C2 AE. The lengths differ, so the model does not capture how the garbled literals count towards MaxLength. Every proved property only uses the fact that each emoji starts with a byte above 0x7F, and that holds for both spellings.
- The model assumes a 64-bit platform, where Go's `int` is 64 bits wide. The totals wrap at 2^64, and Atoi clamps to the 64-bit range.
- `Temperature` is left out. It is a float that is only passed to the backends.
- Changes.ParseGitStatus: requires a non-empty code, as Go indexes `status[0]`. The one caller passes the first field of `strings.Fields`, which is never empty.
- Conventional.VerifyConventionalCommit: folds ASCII letters only. Go's `(?i)` also folds the multi-byte letters U+017F and U+212A to 's' and 'k'.
- Conventional.VerifyConventionalCommit: takes each configured type literally. A type containing regular-expression syntax is not interpreted as a pattern, and the error path for a pattern that fails to compile (main.go:642-644) is not modelled.
- Text.TrimSpace: removes ASCII whitespace only. Go also removes Unicode spaces such as U+0085 and U+00A0.
- Text.Fields: splits at ASCII whitespace only, for the same reason as Text.TrimSpace.
- Generate.GenerateWithRetries: the attempt counter is an unbounded `nat`. Go's `int` counter never overflows either: when `attempt == MaxRetries` the loop returns (main.go:581-583) before `attempt++` runs.
