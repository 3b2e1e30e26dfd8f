/** postProcessCommitMessage (main.go:603-632) and addCommitEmojis
    (main.go:651-669): the generated message goes through four stages in a
    fixed order — ticket suffix, co-author trailer, emoji prefix, and
    truncation of the first line. Each stage is a specification function;
    the method applies them the way the source does, reassigning the
    message step by step. */
module PostProcess {
  import opened Text
  import opened Common
  import opened Settings
  import opened Conventional

  // ---------------------------------------------------------------------
  // Ticket suffix (main.go:605-609)

  /** The message with " [T]" appended when ticket integration is on, a
      ticket was found and the message does not mention it yet */
  function TicketStage(msg: string, jiraIntegration: bool, ticket: string): string {
    if jiraIntegration && ticket != "" && !Contains(msg, ticket) then msg + " [" + ticket + "]"
    else msg
  }

  /** The stage changes the message exactly when all three conditions
      hold, by appending the bracketed ticket, and afterwards the message
      mentions the ticket whenever integration is on and one was found. */
  lemma TicketStageMeaning(msg: string, jiraIntegration: bool, ticket: string)
    ensures TicketStage(msg, jiraIntegration, ticket) != msg <==>
      jiraIntegration && ticket != "" && !Contains(msg, ticket)
    ensures TicketStage(msg, jiraIntegration, ticket) != msg ==>
      TicketStage(msg, jiraIntegration, ticket) == msg + " [" + ticket + "]"
    ensures jiraIntegration && ticket != "" ==> Contains(TicketStage(msg, jiraIntegration, ticket), ticket)
  {
    var r := TicketStage(msg, jiraIntegration, ticket);
    if jiraIntegration && ticket != "" && !Contains(msg, ticket) {
      assert |r| > |msg|;
      var at := |msg| + 2;
      assert r[at..at + |ticket|] == ticket;
      ContainsAt(r, ticket, at);
    }
  }

  /** Applying the stage twice gives what applying it once gives. */
  lemma TicketStageIdempotent(msg: string, jiraIntegration: bool, ticket: string)
    ensures TicketStage(TicketStage(msg, jiraIntegration, ticket), jiraIntegration, ticket) ==
      TicketStage(msg, jiraIntegration, ticket)
  {
    TicketStageMeaning(msg, jiraIntegration, ticket);
  }

  // ---------------------------------------------------------------------
  // Co-author trailer (main.go:612-617)

  function CoAuthorField(author: string): string {
    "Co-authored-by: " + author
  }

  /** One "Co-authored-by: a\n" line per author, in list order */
  function Trailer(authors: seq<string>): string {
    if authors == [] then "" else CoAuthorField(authors[0]) + "\n" + Trailer(authors[1..])
  }

  /** The trailer's lines without their newlines */
  function CoAuthorFields(authors: seq<string>): (fields: seq<string>)
    ensures |fields| == |authors|
  {
    if authors == [] then [] else [CoAuthorField(authors[0])] + CoAuthorFields(authors[1..])
  }

  /** With no co-authors the message is unchanged; otherwise a blank line
      and the trailer follow it. */
  function CoAuthorStage(msg: string, authors: seq<string>): string {
    if |authors| > 0 then msg + "\n\n" + Trailer(authors) else msg
  }

  lemma {:induction false} TrailerAppend(a: seq<string>, b: seq<string>)
    ensures Trailer(a + b) == Trailer(a) + Trailer(b)
  {
    if a == [] {
      assert a + b == b;
    } else {
      assert (a + b)[1..] == a[1..] + b;
      TrailerAppend(a[1..], b);
      AppendAssoc(CoAuthorField(a[0]) + "\n", Trailer(a[1..]), Trailer(b));
    }
  }

  lemma TrailerSnoc(authors: seq<string>, i: nat)
    requires i < |authors|
    ensures Trailer(authors[..i + 1]) == Trailer(authors[..i]) + (CoAuthorField(authors[i]) + "\n")
  {
    assert authors[..i + 1] == authors[..i] + [authors[i]];
    TrailerAppend(authors[..i], [authors[i]]);
    assert Trailer([authors[i]]) == CoAuthorField(authors[i]) + "\n" + "";
  }

  /** Split into lines, the trailer is one field per author followed by the
      empty piece after its last newline. */
  lemma {:induction false} SplitTrailer(authors: seq<string>)
    requires forall k :: 0 <= k < |authors| ==> '\n' !in authors[k]
    ensures Split(Trailer(authors), '\n') == CoAuthorFields(authors) + [""]
  {
    if authors != [] {
      var first := CoAuthorField(authors[0]);
      assert '\n' !in first by {
        assert first == "Co-authored-by: " + authors[0];
      }
      SplitAppend(first, '\n', Trailer(authors[1..]));
      SplitTrailer(authors[1..]);
      AppendAssoc([first], CoAuthorFields(authors[1..]), [""]);
    }
  }

  /** A blank line between two texts splits into the first's lines, an
      empty line, and the second's lines. */
  lemma SplitBlankLine(msg: string, t: string)
    ensures Split(msg + "\n\n" + t, '\n') == Split(msg, '\n') + [""] + Split(t, '\n')
  {
    var x, y := msg + ['\n'], [] + ['\n'];
    assert msg + "\n\n" == x + y;
    AppendAssoc(x, y, t);
    SplitAppend(msg, '\n', y + t);
    SplitAppend([], '\n', t);
    assert Split([], '\n') == [[]];
  }

  /** For every author list, the original message opens the result, and
      it is unchanged when there are no co-authors. When no author holds a
      newline, the result split into lines is the message's lines, an
      empty line, one "Co-authored-by: a" line per author in list order,
      and the empty piece after the final newline. */
  lemma CoAuthorStageMeaning(msg: string, authors: seq<string>)
    ensures HasPrefix(CoAuthorStage(msg, authors), msg)
    ensures authors == [] ==> CoAuthorStage(msg, authors) == msg
    ensures authors != [] && (forall k :: 0 <= k < |authors| ==> '\n' !in authors[k]) ==>
      Split(CoAuthorStage(msg, authors), '\n') == Split(msg, '\n') + [""] + CoAuthorFields(authors) + [""]
  {
    if authors != [] {
      var t := Trailer(authors);
      AppendParts(msg, "\n\n" + t);
      AppendAssoc(msg, "\n\n", t);
      if forall k :: 0 <= k < |authors| ==> '\n' !in authors[k] {
        SplitBlankLine(msg, t);
        SplitTrailer(authors);
        AppendAssoc(Split(msg, '\n') + [""], CoAuthorFields(authors), [""]);
      }
    }
  }

  // ---------------------------------------------------------------------
  // Emoji prefix (main.go:651-669)

  /** The emoji of each commit type, as their UTF-8 bytes */
  const EMOJIS: map<string, string> := map[
    "feat" := "\U{E2}\U{9C}\U{A8}",                        // sparkles
    "fix" := "\U{F0}\U{9F}\U{90}\U{9B}",                   // bug
    "docs" := "\U{F0}\U{9F}\U{93}\U{9A}",                  // books
    "style" := "\U{F0}\U{9F}\U{92}\U{8E}",                 // gem
    "refactor" := "\U{E2}\U{99}\U{BB}\U{EF}\U{B8}\U{8F}",  // recycle
    "test" := "\U{F0}\U{9F}\U{A7}\U{AA}",                  // test tube
    "chore" := "\U{F0}\U{9F}\U{94}\U{A7}"]                 // wrench

  const EMOJI_TYPES: seq<string> := ["feat", "fix", "docs", "style", "refactor", "test", "chore"]

  /** `order` is an order in which Go may range over the emoji map: it
      visits every key, and nothing else */
  predicate EmojiOrder(order: seq<string>) {
    (forall t :: t in order ==> t in EMOJIS) && (forall t :: t in EMOJIS ==> t in order)
  }

  /** The pattern `^t(\([^)]+\))?:` finds its match: the message opens
      with `t` (case-sensitively), the optional scope, and a colon. */
  predicate StartsWithType(msg: string, t: string) {
    HasPrefix(msg, t) &&
    var rest := msg[|t|..];
    var k := ScopeLength(rest);
    k < |rest| && rest[k] == ':'
  }

  /** The regular expression's own reading: some choice for the optional
      group, then the colon */
  predicate TypePatternMatches(msg: string, t: string) {
    HasPrefix(msg, t) &&
    exists k :: 0 <= k < |msg| - |t| && (k == 0 || IsScope(msg[|t|..][..k])) && msg[|t|..][k] == ':'
  }

  lemma StartsWithTypeMeaning(msg: string, t: string)
    ensures StartsWithType(msg, t) <==> TypePatternMatches(msg, t)
  {
    if TypePatternMatches(msg, t) {
      var rest := msg[|t|..];
      var k :| 0 <= k < |msg| - |t| && (k == 0 || IsScope(rest[..k])) && rest[k] == ':';
      if k > 0 {
        ScopeUnique(rest, k);
      }
    }
  }

  /** After a matching type comes the colon or the scope's parenthesis. */
  lemma AfterMatchedType(msg: string, t: string)
    requires StartsWithType(msg, t)
    ensures |msg| > |t| && (msg[|t|] == ':' || msg[|t|] == '(')
  {
    var rest := msg[|t|..];
    if ScopeLength(rest) > 0 {
      assert rest[..ScopeLength(rest)][0] == '(';
    }
  }

  /** Every emoji key is one of the listed types, a non-empty word */
  lemma EmojiKey(t: string)
    requires t in EMOJIS
    ensures t in EMOJI_TYPES && IsWord(t) && t != []
  {
  }

  /** Every listed type has an emoji */
  lemma TypeHasEmoji(t: string)
    requires t in EMOJI_TYPES
    ensures t in EMOJIS
  {
  }

  /** Two commit types made of letters cannot both match one message. */
  lemma TypeMatchUnique(msg: string, t1: string, t2: string)
    requires IsWord(t1) && IsWord(t2)
    requires StartsWithType(msg, t1) && StartsWithType(msg, t2)
    ensures t1 == t2
  {
    AfterMatchedType(msg, t1);
    AfterMatchedType(msg, t2);
    if |t1| == |t2| {
      assert t1 == msg[..|t1|] == t2;
    }
  }

  /** A fresh configuration allows exactly the seven types the emoji table
      knows, in the same order, so every default type can get an emoji. */
  lemma DefaultTypesHaveEmoji(t: string)
    ensures DEFAULT_CONFIG.scopePrefix == EMOJI_TYPES
    ensures t in DEFAULT_CONFIG.scopePrefix <==> t in EMOJIS
  {
    if t in EMOJIS {
      EmojiKey(t);
    }
    if t in EMOJI_TYPES {
      TypeHasEmoji(t);
    }
  }

  /** The first type, in the fixed list order, that matches */
  function FirstMatch(msg: string, types: seq<string>): (r: Option<string>)
    ensures r.Some? ==> r.value in types && StartsWithType(msg, r.value)
    ensures r.None? ==> forall t :: t in types ==> !StartsWithType(msg, t)
  {
    if types == [] then None
    else if StartsWithType(msg, types[0]) then Some(types[0])
    else FirstMatch(msg, types[1..])
  }

  /** The one commit type whose pattern matches the message, if any */
  function MatchingType(msg: string): Option<string> {
    FirstMatch(msg, EMOJI_TYPES)
  }

  /** What the loop of addCommitEmojis leaves: the matching type's emoji,
      a space and the type, in front of the WHOLE message (the replacement
      `$0` puts the matched type back after the inserted one). */
  function EmojiStage(msg: string): string {
    match MatchingType(msg)
    case Some(t) => EMOJIS[t] + " " + t + msg
    case None => msg
  }

  /** Once an emoji opens the message no type matches it: every emoji
      starts with a byte above 0x7F and every type with a letter. */
  lemma NoTypeAfterEmoji(t: string, msg: string, t2: string)
    requires t in EMOJIS && t2 in EMOJIS
    ensures !StartsWithType(EMOJIS[t] + " " + t + msg, t2)
  {
    EmojiKey(t2);
    var r := EMOJIS[t] + " " + t + msg;
    assert r[0] == EMOJIS[t][0];
    assert r[0] as int >= 0x80;
    assert IsLetter(t2[0]);
  }

  /** The rewrite happens exactly when some type matches, and then puts
      that type's emoji, a space and the type before the message. */
  lemma EmojiStageMeaning(msg: string, t: string)
    requires t in EMOJIS
    ensures StartsWithType(msg, t) ==> EmojiStage(msg) == EMOJIS[t] + " " + t + msg
    ensures (forall t2 :: t2 in EMOJIS ==> !StartsWithType(msg, t2)) ==> EmojiStage(msg) == msg
  {
    EmojiKey(t);
    var m := MatchingType(msg);
    if m.Some? {
      TypeHasEmoji(m.value);
      EmojiKey(m.value);
      if StartsWithType(msg, t) {
        TypeMatchUnique(msg, t, m.value);
      }
    }
  }

  /** Rewriting twice gives what rewriting once gives. */
  lemma EmojiStageIdempotent(msg: string)
    ensures EmojiStage(EmojiStage(msg)) == EmojiStage(msg)
  {
    var m := MatchingType(msg);
    if m.Some? {
      TypeHasEmoji(m.value);
      var r := EmojiStage(msg);
      forall t2 | t2 in EMOJIS ensures !StartsWithType(r, t2) {
        NoTypeAfterEmoji(m.value, msg, t2);
      }
      EmojiStageMeaning(r, m.value);
    }
  }

  /** The type is written twice: "feat: x" becomes "<sparkles> featfeat: x". */
  lemma EmojiDuplicatesType()
    ensures EmojiStage("feat: x") == EMOJIS["feat"] + " featfeat: x"
  {
    var msg := "feat: x";
    assert msg[..4] == "feat";
    assert ScopeLength(msg[4..]) == 0;
    EmojiStageMeaning(msg, "feat");
  }

  /** The message after the replacements for the types in `done`: it has
      its emoji once the matching type has had its turn. */
  function Progress(message: string, done: seq<string>): string {
    var m := MatchingType(message);
    if m.Some? && m.value in done then EmojiStage(message) else message
  }

  /** One replacement moves the loop from the types before `t` to those
      up to and including it. */
  lemma ReplaceStep(message: string, done: seq<string>, t: string)
    requires t in EMOJIS
    ensures var before := Progress(message, done);
      (if StartsWithType(before, t) then EMOJIS[t] + " " + t + before else before) == Progress(message, done + [t])
  {
    EmojiKey(t);
    var m := MatchingType(message);
    if m.Some? {
      TypeHasEmoji(m.value);
      if m.value in done {
        NoTypeAfterEmoji(m.value, message, t);
      } else if StartsWithType(message, t) {
        EmojiKey(m.value);
        TypeMatchUnique(message, t, m.value);
      }
    }
  }

  /** addCommitEmojis: one anchored replacement per type, in the map's
      iteration order. Whatever that order, the result is the same. */
  method AddCommitEmojis(message: string, order: seq<string>) returns (msg: string)
    requires EmojiOrder(order)
    ensures msg == EmojiStage(message)
  {
    msg := message;
    for i := 0 to |order|
      invariant msg == Progress(message, order[..i])
    {
      var t := order[i];
      ReplaceStep(message, order[..i], t);
      TakeSnoc(order, i);
      if StartsWithType(msg, t) {
        msg := EMOJIS[t] + " " + t + msg;
      }
    }
    ProgressComplete(message, order);
  }

  /** Once every type has had its turn, the loop has done the whole rewrite. */
  lemma ProgressComplete(message: string, order: seq<string>)
    requires EmojiOrder(order)
    ensures Progress(message, order[..|order|]) == EmojiStage(message)
  {
    assert order[..|order|] == order;
    var m := MatchingType(message);
    if m.Some? {
      TypeHasEmoji(m.value);
    }
  }

  // ---------------------------------------------------------------------
  // Subject truncation (main.go:625-629)

  /** When the message is longer than MaxLength, its first line is cut to
      MaxLength bytes; the slice expression panics when the first line is
      shorter than that or MaxLength is negative. */
  function TruncateSubject(msg: string, maxLength: int): Result<string> {
    if |msg| <= maxLength then Ok(msg)
    else
      var lines := Split(msg, '\n');
      if maxLength < 0 || maxLength > |lines[0]| then Err(SubjectSlicePanic(|lines[0]|, maxLength))
      else Ok(Join([lines[0][..maxLength]] + lines[1..], "\n"))
  }

  /** The truncation fails exactly when it would slice past the first
      line; otherwise the first line is at most MaxLength bytes, and when a
      cut happens it keeps the first MaxLength bytes of the first line and
      every other line byte for byte. */
  lemma TruncateSubjectMeaning(msg: string, maxLength: int)
    ensures TruncateSubject(msg, maxLength).Err? <==>
      |msg| > maxLength && (maxLength < 0 || maxLength > |Split(msg, '\n')[0]|)
    ensures |msg| <= maxLength ==> TruncateSubject(msg, maxLength) == Ok(msg)
    ensures TruncateSubject(msg, maxLength).Ok? ==>
      |Split(TruncateSubject(msg, maxLength).value, '\n')[0]| <= maxLength
    ensures TruncateSubject(msg, maxLength).Ok? && |msg| > maxLength ==>
      var lines := Split(TruncateSubject(msg, maxLength).value, '\n');
      lines[0] == Split(msg, '\n')[0][..maxLength] && lines[1..] == Split(msg, '\n')[1..]
  {
    var lines := Split(msg, '\n');
    SplitHeadPrefix(msg, '\n');
    if |msg| > maxLength && 0 <= maxLength <= |lines[0]| {
      var parts := [lines[0][..maxLength]] + lines[1..];
      assert forall k :: 0 <= k < |parts| ==> '\n' !in parts[k] by {
        forall k | 0 <= k < |parts| ensures '\n' !in parts[k] {
          if k == 0 {
            assert '\n' !in lines[0];
          } else {
            assert parts[k] == lines[k];
          }
        }
      }
      SplitJoin(parts, '\n');
    }
  }

  /** A message longer than MaxLength whose first line is exactly
      MaxLength bytes comes through whole: only the subject is bounded. */
  lemma TruncationKeepsBody()
    ensures TruncateSubject("ab\ncdef", 2) == Ok("ab\ncdef")
  {
    var msg := "ab\ncdef";
    assert msg[2] == '\n' && msg[..2] == "ab";
    IndexOfUnique(msg, '\n', 2);
    var lines := Split(msg, '\n');
    assert lines[0] == "ab";
    assert lines[0][..2] == lines[0];
    assert [lines[0]] + lines[1..] == lines;
    JoinSplit(msg, '\n');
  }

  /** A first line shorter than MaxLength in a longer message makes the
      slice panic. */
  lemma TruncationPanics()
    ensures TruncateSubject("ab\ncdef", 3).Err?
  {
    var msg := "ab\ncdef";
    assert msg[2] == '\n' && msg[..2] == "ab";
    IndexOfUnique(msg, '\n', 2);
  }

  // ---------------------------------------------------------------------
  // The whole chain

  /** The four stages in the source's order */
  function PostProcessed(message: string, ticket: string, cfg: Config): Result<string> {
    var withTicket := TicketStage(message, cfg.jiraIntegration, ticket);
    var withAuthors := CoAuthorStage(withTicket, cfg.coAuthors);
    var withEmoji := if cfg.emojisEnabled then EmojiStage(withAuthors) else withAuthors;
    TruncateSubject(withEmoji, cfg.maxLength)
  }

  /** A processed message's first line never exceeds MaxLength bytes; with
      every optional stage off and a short message, nothing changes. */
  lemma PostProcessedMeaning(message: string, ticket: string, cfg: Config)
    ensures PostProcessed(message, ticket, cfg).Ok? ==>
      |Split(PostProcessed(message, ticket, cfg).value, '\n')[0]| <= cfg.maxLength
    ensures !cfg.jiraIntegration && cfg.coAuthors == [] && !cfg.emojisEnabled && |message| <= cfg.maxLength ==>
      PostProcessed(message, ticket, cfg) == Ok(message)
  {
    var withTicket := TicketStage(message, cfg.jiraIntegration, ticket);
    var withAuthors := CoAuthorStage(withTicket, cfg.coAuthors);
    var withEmoji := if cfg.emojisEnabled then EmojiStage(withAuthors) else withAuthors;
    TruncateSubjectMeaning(withEmoji, cfg.maxLength);
  }

  /** postProcessCommitMessage, reassigning the message stage by stage */
  method PostProcessCommitMessage(message: string, ticket: string, cfg: Config, emojiOrder: seq<string>)
    returns (r: Result<string>)
    requires EmojiOrder(emojiOrder)
    ensures r == PostProcessed(message, ticket, cfg)
  {
    var msg := message;
    if cfg.jiraIntegration && ticket != "" {
      if !Contains(msg, ticket) {
        msg := msg + " [" + ticket + "]";
      }
    }
    if |cfg.coAuthors| > 0 {
      msg := AppendCoAuthors(msg, cfg.coAuthors);
    }
    if cfg.emojisEnabled {
      msg := AddCommitEmojis(msg, emojiOrder);
    }
    if |msg| > cfg.maxLength {
      var lines := Split(msg, '\n');
      if cfg.maxLength < 0 || cfg.maxLength > |lines[0]| {
        return Err(SubjectSlicePanic(|lines[0]|, cfg.maxLength));
      }
      lines := lines[0 := lines[0][..cfg.maxLength]];
      assert lines == [Split(msg, '\n')[0][..cfg.maxLength]] + Split(msg, '\n')[1..];
      msg := Join(lines, "\n");
    }
    return Ok(msg);
  }

  /** The co-author branch: a blank line, then one line per author */
  method AppendCoAuthors(message: string, authors: seq<string>) returns (msg: string)
    requires |authors| > 0
    ensures msg == CoAuthorStage(message, authors)
  {
    msg := message + "\n\n";
    assert Trailer(authors[..0]) == "";
    for i := 0 to |authors|
      invariant msg == message + "\n\n" + Trailer(authors[..i])
    {
      TrailerSnoc(authors, i);
      AppendAssoc(message + "\n\n", Trailer(authors[..i]), CoAuthorField(authors[i]) + "\n");
      assert "Co-authored-by: " + authors[i] + "\n" == CoAuthorField(authors[i]) + "\n";
      msg := msg + ("Co-authored-by: " + authors[i] + "\n");
    }
    assert authors[..|authors|] == authors;
  }
}
