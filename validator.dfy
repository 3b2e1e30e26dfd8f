/** The conventional-commit check of verifyConventionalCommit
    (main.go:634-649), restated without a regular-expression engine.

    The source builds the pattern
      ^(?i)(p1|p2|...)(\([^)]+\))?: .+
    from the configured type list, the scope group only when IncludeScope
    is set, and reports whether the message matches. `(?i)` folds ASCII
    letters only here; `[^)]` matches any byte but ')', a newline included;
    `.` matches any byte but a newline. */
module Conventional {
  import opened Text
  import opened Common

  // ---------------------------------------------------------------------
  // The optional scope `(\([^)]+\))?`

  /** `t` is an opening parenthesis, at least one byte other than ')',
      and a closing parenthesis */
  predicate IsScope(t: string) {
    |t| >= 3 && t[0] == '(' && t[|t| - 1] == ')' && ')' !in t[1..|t| - 1]
  }

  /** Length of the scope that opens `r`, or 0 when none does */
  function ScopeLength(r: string): (k: nat)
    ensures k <= |r|
    ensures k == 0 || IsScope(r[..k])
  {
    if |r| >= 1 && r[0] == '(' && ')' in r[1..] && IndexOf(r[1..], ')') >= 1 then
      var i := IndexOf(r[1..], ')');
      assert r[..i + 2][1..i + 1] == r[1..][..i];
      i + 2
    else 0
  }

  /** There is only one way a scope can open `r`: the one ScopeLength finds. */
  lemma ScopeUnique(r: string, k: nat)
    requires k <= |r| && IsScope(r[..k])
    ensures k == ScopeLength(r)
  {
    var t := r[1..];
    assert t[k - 2] == ')';
    assert t[..k - 2] == r[..k][1..k - 1];
    IndexOfUnique(t, ')', k - 2);
  }

  // ---------------------------------------------------------------------
  // The message pattern

  /** `: .+` at the start of `r`: a colon, a space, then at least one byte
      other than a newline (the pattern is not anchored at the end) */
  predicate ColonTail(r: string) {
    |r| >= 3 && r[0] == ':' && r[1] == ' ' && r[2] != '\n'
  }

  /** The alternatives of the type group. Joining an empty list gives the
      group `()`, which matches the empty string. */
  function Alternatives(prefixes: seq<string>): (alts: seq<string>)
    ensures |alts| >= 1
  {
    if prefixes == [] then [""] else prefixes
  }

  /** The message opens with `p`, ignoring the case of ASCII letters */
  predicate FoldedPrefix(msg: string, p: string) {
    |p| <= |msg| && LowerAscii(msg[..|p|]) == LowerAscii(p)
  }

  /** What may follow the type: the scope when it is allowed and present,
      then the colon tail */
  predicate AfterType(rest: string, includeScope: bool) {
    var k := if includeScope then ScopeLength(rest) else 0;
    ColonTail(rest[k..])
  }

  /** The verdict of verifyConventionalCommit: some alternative of the type
      group, then what may follow it. */
  predicate IsConventional(msg: string, prefixes: seq<string>, includeScope: bool) {
    var alts := Alternatives(prefixes);
    exists i :: 0 <= i < |alts| && FoldedPrefix(msg, alts[i]) && AfterType(msg[|alts[i]|..], includeScope)
  }

  /** verifyConventionalCommit: no error, or the no-match error */
  function VerifyConventionalCommit(msg: string, prefixes: seq<string>, includeScope: bool): (r: Option<Error>)
    ensures r.None? <==> MatchesPattern(msg, prefixes, includeScope)
    ensures r.Some? ==> r.value == NotConventional
  {
    if IsConventional(msg, prefixes, includeScope) then
      ConventionalMatches(msg, prefixes, includeScope);
      None
    else
      ConventionalMatches(msg, prefixes, includeScope);
      Some(NotConventional)
  }

  // ---------------------------------------------------------------------
  // The regular expression's own reading, and agreement with it

  /** The optional group may be taken as any scope (when it is part of the
      pattern) or left out, as long as the colon tail follows. */
  predicate ScopeThenColon(rest: string, includeScope: bool) {
    exists k :: 0 <= k <= |rest| && (k == 0 || (includeScope && IsScope(rest[..k]))) && ColonTail(rest[k..])
  }

  /** A match of the pattern: some alternative, some choice for the
      optional group, then the tail */
  predicate MatchesPattern(msg: string, prefixes: seq<string>, includeScope: bool) {
    var alts := Alternatives(prefixes);
    exists i :: 0 <= i < |alts| && FoldedPrefix(msg, alts[i]) && ScopeThenColon(msg[|alts[i]|..], includeScope)
  }

  lemma AfterTypeMeaning(rest: string, includeScope: bool)
    ensures AfterType(rest, includeScope) <==> ScopeThenColon(rest, includeScope)
  {
    var k := if includeScope then ScopeLength(rest) else 0;
    if AfterType(rest, includeScope) {
      assert k == 0 || (includeScope && IsScope(rest[..k]));
    }
    if ScopeThenColon(rest, includeScope) {
      var j :| 0 <= j <= |rest| && (j == 0 || (includeScope && IsScope(rest[..j]))) && ColonTail(rest[j..]);
      if j > 0 {
        ScopeUnique(rest, j);
      } else if includeScope && ScopeLength(rest) > 0 {
        // a scope opens with '(' where the colon tail needs ':'
        assert rest[..ScopeLength(rest)][0] == '(';
      }
    }
  }

  /** The hand-written check accepts exactly the messages the pattern
      matches. */
  lemma ConventionalMatches(msg: string, prefixes: seq<string>, includeScope: bool)
    ensures IsConventional(msg, prefixes, includeScope) <==> MatchesPattern(msg, prefixes, includeScope)
  {
    var alts := Alternatives(prefixes);
    forall i | 0 <= i < |alts| && |alts[i]| <= |msg|
      ensures AfterType(msg[|alts[i]|..], includeScope) <==> ScopeThenColon(msg[|alts[i]|..], includeScope)
    {
      AfterTypeMeaning(msg[|alts[i]|..], includeScope);
    }
  }

  // ---------------------------------------------------------------------
  // Consequences

  /** Setting IncludeScope never rejects a message that passed without it:
      the scope stays optional. */
  lemma ScopeNeverRequired(msg: string, prefixes: seq<string>)
    ensures IsConventional(msg, prefixes, false) ==> IsConventional(msg, prefixes, true)
  {
    if IsConventional(msg, prefixes, false) {
      var alts := Alternatives(prefixes);
      var i :| 0 <= i < |alts| && FoldedPrefix(msg, alts[i]) && AfterType(msg[|alts[i]|..], false);
      var rest := msg[|alts[i]|..];
      AfterTypeMeaning(rest, false);
      AfterTypeMeaning(rest, true);
      assert ScopeThenColon(rest, true);
    }
  }

  /** A listed type, then ": " and a description, passes whether or not
      scopes are allowed: the scope is never required. */
  lemma UnscopedAccepted(prefixes: seq<string>, i: nat, description: string, includeScope: bool)
    requires i < |prefixes|
    requires description != [] && description[0] != '\n'
    ensures IsConventional(prefixes[i] + ": " + description, prefixes, includeScope)
  {
    var p := prefixes[i];
    var msg := p + ": " + description;
    assert msg[..|p|] == p;
    var rest := msg[|p|..];
    assert rest == ": " + description;
    assert ScopeLength(rest) == 0;
    assert FoldedPrefix(msg, Alternatives(prefixes)[i]) && AfterType(rest, includeScope);
  }

  /** A listed type, a scope, then ": " and a description passes when
      scopes are allowed. */
  lemma ScopedAccepted(prefixes: seq<string>, i: nat, scope: string, description: string)
    requires i < |prefixes| && IsScope(scope)
    requires description != [] && description[0] != '\n'
    ensures IsConventional(prefixes[i] + scope + ": " + description, prefixes, true)
  {
    var p := prefixes[i];
    var msg := p + scope + ": " + description;
    assert msg[..|p|] == p;
    var rest := msg[|p|..];
    assert rest[..|scope|] == scope;
    ScopeUnique(rest, |scope|);
    assert rest[|scope|..] == ": " + description;
    assert FoldedPrefix(msg, Alternatives(prefixes)[i]) && AfterType(rest, true);
  }

  /** A commit type made of letters only, as all the default ones are */
  predicate IsWord(t: string) {
    forall k :: 0 <= k < |t| ==> IsLetter(t[k])
  }

  /** When scopes are not allowed and every listed type is a word, a
      message whose first non-letter byte is '(' is rejected: no
      alternative can end where the colon has to start. */
  lemma ScopeRejectedWhenExcluded(msg: string, prefixes: seq<string>, j: nat)
    requires forall q :: q in prefixes ==> IsWord(q)
    requires j < |msg| && msg[j] == '('
    requires forall k :: 0 <= k < j ==> IsLetter(msg[k])
    ensures !IsConventional(msg, prefixes, false)
  {
    var alts := Alternatives(prefixes);
    forall i | 0 <= i < |alts| && FoldedPrefix(msg, alts[i])
      ensures !AfterType(msg[|alts[i]|..], false)
    {
      var q := alts[i];
      assert IsWord(q) by {
        if prefixes != [] { assert q in prefixes; }
      }
      if |q| < j {
        assert IsLetter(msg[|q|]);
      }
    }
  }

  /** With an empty type list the type group is empty: any message that
      opens with the colon tail passes. */
  lemma EmptyTypeList(msg: string, includeScope: bool)
    requires ColonTail(msg)
    ensures IsConventional(msg, [], includeScope)
  {
    var alts := Alternatives([]);
    assert alts[0] == "";
    assert msg[..0] == "";
    assert msg[0..] == msg;
    assert ScopeLength(msg) == 0;
    assert FoldedPrefix(msg, alts[0]) && AfterType(msg[|alts[0]|..], includeScope);
  }
}
