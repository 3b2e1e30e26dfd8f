/** generateCommitMessage (main.go:497-601): build the prompt, ask the
    configured backend with retries, post-process the answer and, when
    asked to, check it against the conventional-commit pattern.

    The two HTTP adapters are oracles: for each attempt they either answer
    with a message or fail with an error text. The environment's
    OPENAI_API_KEY is a parameter, because the OpenAI adapter reads it on
    every call and fails before any request when it is empty. */
module Generate {
  import opened Text
  import opened Common
  import opened Settings
  import opened Changes
  import opened Prompt
  import opened Conventional
  import opened PostProcess

  /** What one request to a backend gives */
  datatype Outcome = Success(message: string) | Failure(cause: string)

  /** The environment the generation runs in: the OpenAI key, and what
      each backend answers to a prompt on a given attempt */
  datatype Backends = Backends(
    apiKey: string,
    openai: (string, nat) -> Outcome,
    ollama: (string, nat) -> Outcome
  )

  /** The error the OpenAI adapter returns without a key (main.go:674) */
  const MISSING_KEY: string := "OPENAI_API_KEY environment variable not set"

  /** The OpenAI adapter: no request without a key */
  function OpenAI(b: Backends, prompt: string, attempt: nat): (o: Outcome)
    ensures b.apiKey == "" ==> o == Failure(MISSING_KEY)
    ensures b.apiKey != "" ==> o == b.openai(prompt, attempt)
  {
    if b.apiKey == "" then Failure(MISSING_KEY) else b.openai(prompt, attempt)
  }

  /** Without a key the adapter fails before any request: backends that
      differ only in the OpenAI endpoint give the same outcome. With a key
      the outcome is the endpoint's own answer. */
  lemma OpenAIWithoutRequest(b: Backends, endpoint: (string, nat) -> Outcome, prompt: string, attempt: nat)
    ensures b.apiKey == "" ==> OpenAI(b, prompt, attempt) == OpenAI(b.(openai := endpoint), prompt, attempt)
    ensures b.apiKey != "" ==> OpenAI(b.(openai := endpoint), prompt, attempt) == endpoint(prompt, attempt)
  {
  }

  /** The provider switch inside the retry loop; None for a provider the
      switch does not know */
  function Call(b: Backends, provider: string, prompt: string, attempt: nat): Option<Outcome> {
    if provider == "openai" then Some(OpenAI(b, prompt, attempt))
    else if provider == "ollama" then Some(b.ollama(prompt, attempt))
    else None
  }

  // ---------------------------------------------------------------------
  // The retry loop (main.go:566-588)

  /** How the loop ends, and how many requests it made */
  datatype Run = Run(result: Result<string>, calls: nat)

  /** Every attempt from `lo` up to, not including, `hi` reached a backend
      and failed */
  predicate FailedBetween(b: Backends, provider: string, prompt: string, lo: nat, hi: nat) {
    forall a :: lo <= a < hi ==> Call(b, provider, prompt, a).Some? && Call(b, provider, prompt, a).value.Failure?
  }

  /** The loop from attempt `attempt` on */
  function RetryFrom(b: Backends, provider: string, prompt: string, maxRetries: int, attempt: nat): Run
    requires 1 <= attempt <= maxRetries
    decreases maxRetries - attempt
  {
    match Call(b, provider, prompt, attempt)
    case None => Run(Err(UnsupportedProvider(provider)), attempt - 1)
    case Some(Success(m)) => Run(Ok(m), attempt)
    case Some(Failure(e)) =>
      if attempt == maxRetries then Run(Err(FailedAfter(maxRetries, e)), attempt)
      else RetryFrom(b, provider, prompt, maxRetries, attempt + 1)
  }

  /** The whole loop. When MaxRetries is below one the body never runs and
      the empty message goes on, with no error. */
  function Retry(b: Backends, provider: string, prompt: string, maxRetries: int): Run {
    if maxRetries < 1 then Run(Ok(""), 0)
    else RetryFrom(b, provider, prompt, maxRetries, 1)
  }

  lemma {:induction false} RetryFromMeaning(b: Backends, provider: string, prompt: string, maxRetries: int, attempt: nat)
    requires 1 <= attempt <= maxRetries
    ensures var r := RetryFrom(b, provider, prompt, maxRetries, attempt);
      attempt - 1 <= r.calls <= maxRetries &&
      (r.result.Ok? ==>
        attempt <= r.calls &&
        Call(b, provider, prompt, r.calls) == Some(Success(r.result.value)) &&
        FailedBetween(b, provider, prompt, attempt, r.calls)) &&
      (r.result.Err? ==>
        (r.result.error == UnsupportedProvider(provider) && provider != "openai" && provider != "ollama" &&
         r.calls == attempt - 1) ||
        (r.result.error.FailedAfter? && r.result.error.attempts == maxRetries && r.calls == maxRetries &&
         Call(b, provider, prompt, maxRetries) == Some(Failure(r.result.error.cause)) &&
         FailedBetween(b, provider, prompt, attempt, maxRetries + 1)))
    decreases maxRetries - attempt
  {
    var o := Call(b, provider, prompt, attempt);
    if o.Some? && o.value.Failure? && attempt < maxRetries {
      RetryFromMeaning(b, provider, prompt, maxRetries, attempt + 1);
    }
  }

  /** The loop makes at most MaxRetries requests. It ends with a message
      exactly from the first request that succeeded, every earlier one
      having failed; it gives up with the last error only after
      MaxRetries failed requests; an unknown provider stops it before any
      request. */
  lemma RetryMeaning(b: Backends, provider: string, prompt: string, maxRetries: int)
    ensures var r := Retry(b, provider, prompt, maxRetries);
      r.calls <= if maxRetries < 1 then 0 else maxRetries
    ensures var r := Retry(b, provider, prompt, maxRetries);
      r.result.Ok? && maxRetries >= 1 ==>
        1 <= r.calls &&
        Call(b, provider, prompt, r.calls) == Some(Success(r.result.value)) &&
        FailedBetween(b, provider, prompt, 1, r.calls)
    ensures var r := Retry(b, provider, prompt, maxRetries);
      r.result.Err? ==>
        (r.result.error == UnsupportedProvider(provider) && provider != "openai" && provider != "ollama" &&
         r.calls == 0) ||
        (r.result.error.FailedAfter? && r.result.error.attempts == maxRetries && r.calls == maxRetries &&
         Call(b, provider, prompt, maxRetries) == Some(Failure(r.result.error.cause)) &&
         FailedBetween(b, provider, prompt, 1, maxRetries + 1))
    ensures maxRetries < 1 ==> Retry(b, provider, prompt, maxRetries) == Run(Ok(""), 0)
  {
    if maxRetries >= 1 {
      RetryFromMeaning(b, provider, prompt, maxRetries, 1);
    }
  }

  /** An unknown provider is an error as soon as the loop runs at all. */
  lemma UnsupportedProviderFails(b: Backends, provider: string, prompt: string, maxRetries: int)
    requires provider != "openai" && provider != "ollama" && maxRetries >= 1
    ensures Retry(b, provider, prompt, maxRetries) == Run(Err(UnsupportedProvider(provider)), 0)
  {
  }

  /** A missing OpenAI key is not reported at once: every attempt fails with
      it and the loop gives up after MaxRetries of them. */
  lemma {:induction false} MissingKeyRetried(b: Backends, prompt: string, maxRetries: int, attempt: nat)
    requires b.apiKey == "" && 1 <= attempt <= maxRetries
    ensures RetryFrom(b, "openai", prompt, maxRetries, attempt) ==
      Run(Err(FailedAfter(maxRetries, MISSING_KEY)), maxRetries)
    decreases maxRetries - attempt
  {
    if attempt < maxRetries {
      MissingKeyRetried(b, prompt, maxRetries, attempt + 1);
    }
  }

  /** The retry loop, step by step: each attempt asks the backend once. */
  method GenerateWithRetries(b: Backends, provider: string, prompt: string, maxRetries: int)
    returns (r: Result<string>, calls: nat)
    ensures Run(r, calls) == Retry(b, provider, prompt, maxRetries)
  {
    calls := 0;
    var attempt: nat := 1;
    while attempt <= maxRetries
      invariant 1 <= attempt && calls == attempt - 1
      invariant attempt == 1 || attempt <= maxRetries
      invariant attempt <= maxRetries ==>
        RetryFrom(b, provider, prompt, maxRetries, attempt) == Retry(b, provider, prompt, maxRetries)
      decreases maxRetries - attempt
    {
      var outcome: Outcome;
      if provider == "openai" {
        outcome := OpenAI(b, prompt, attempt);
      } else if provider == "ollama" {
        outcome := b.ollama(prompt, attempt);
      } else {
        return Err(UnsupportedProvider(provider)), calls;
      }
      calls := calls + 1;
      if outcome.Success? {
        return Ok(outcome.message), calls;
      }
      if attempt == maxRetries {
        return Err(FailedAfter(maxRetries, outcome.cause)), calls;
      }
      attempt := attempt + 1;
    }
    return Ok(""), calls;
  }

  // ---------------------------------------------------------------------
  // The whole generation

  /** The conventional-commit gate applies only when it is switched on and
      the style is "conventional" (main.go:594-598). */
  predicate GateOn(cfg: Config) {
    cfg.verifyConventional && cfg.style == "conventional"
  }

  /** What follows the retry loop (main.go:590-600): a failed loop's
      error is returned as it is; an answer is post-processed and then, when
      the gate is on, checked. */
  function Finish(answer: Result<string>, ticket: string, cfg: Config): Result<string> {
    match answer
    case Err(e) => Err(e)
    case Ok(m) =>
      match PostProcessed(m, ticket, cfg)
      case Err(e) => Err(e)
      case Ok(msg) =>
        if GateOn(cfg) && VerifyConventionalCommit(msg, cfg.scopePrefix, cfg.includeScope).Some? then
          Err(NotConventional)
        else Ok(msg)
  }

  /** A finished message has a subject of at most MaxLength bytes and, when
      the gate is on, matches the conventional-commit pattern; an answer
      fails to finish only by the subject slice or by the gate. */
  lemma FinishMeaning(answer: Result<string>, ticket: string, cfg: Config)
    ensures var r := Finish(answer, ticket, cfg);
      r.Ok? ==> |Split(r.value, '\n')[0]| <= cfg.maxLength
    ensures var r := Finish(answer, ticket, cfg);
      r.Ok? && GateOn(cfg) ==> MatchesPattern(r.value, cfg.scopePrefix, cfg.includeScope)
    ensures var r := Finish(answer, ticket, cfg);
      r.Ok? ==> answer.Ok? && PostProcessed(answer.value, ticket, cfg) == r
    ensures answer.Err? ==> Finish(answer, ticket, cfg) == answer
    ensures var r := Finish(answer, ticket, cfg);
      answer.Ok? && r.Err? ==> r.error.SubjectSlicePanic? || (r.error == NotConventional && GateOn(cfg))
    ensures answer.Ok? && PostProcessed(answer.value, ticket, cfg).Ok? ==>
      (Finish(answer, ticket, cfg).Err? <==>
         GateOn(cfg) && !MatchesPattern(PostProcessed(answer.value, ticket, cfg).value, cfg.scopePrefix, cfg.includeScope))
  {
    if answer.Ok? {
      PostProcessedMeaning(answer.value, ticket, cfg);
      TruncateSubjectMeaning(answer.value, cfg.maxLength);
    }
  }

  /** What generateCommitMessage returns for these changes, configuration
      and backends, with the prompt's languages listed in `langOrder` */
  function Generated(info: GitInfo, cfg: Config, b: Backends, langOrder: seq<string>): Result<string> {
    Finish(Retry(b, cfg.provider, PromptText(info, cfg, langOrder), cfg.maxRetries).result, info.jiraTicket, cfg)
  }

  /** A generated message has a subject of at most MaxLength bytes and,
      when the gate is on, matches the conventional-commit pattern. */
  lemma GeneratedChecked(info: GitInfo, cfg: Config, b: Backends, langOrder: seq<string>)
    ensures var r := Generated(info, cfg, b, langOrder);
      r.Ok? ==> |Split(r.value, '\n')[0]| <= cfg.maxLength
    ensures var r := Generated(info, cfg, b, langOrder);
      r.Ok? && GateOn(cfg) ==> MatchesPattern(r.value, cfg.scopePrefix, cfg.includeScope)
  {
    FinishMeaning(Retry(b, cfg.provider, PromptText(info, cfg, langOrder), cfg.maxRetries).result, info.jiraTicket, cfg);
  }

  /** A generated message is the post-processed answer of the first
      request that succeeded, every earlier request having failed. */
  lemma GeneratedFromAnswer(info: GitInfo, cfg: Config, b: Backends, langOrder: seq<string>)
    ensures var r := Generated(info, cfg, b, langOrder);
      var prompt := PromptText(info, cfg, langOrder);
      var run := Retry(b, cfg.provider, prompt, cfg.maxRetries);
      r.Ok? && cfg.maxRetries >= 1 ==>
        run.result.Ok? && PostProcessed(run.result.value, info.jiraTicket, cfg) == r &&
        Call(b, cfg.provider, prompt, run.calls) == Some(Success(run.result.value)) &&
        FailedBetween(b, cfg.provider, prompt, 1, run.calls)
  {
    var prompt := PromptText(info, cfg, langOrder);
    RetryMeaning(b, cfg.provider, prompt, cfg.maxRetries);
    FinishMeaning(Retry(b, cfg.provider, prompt, cfg.maxRetries).result, info.jiraTicket, cfg);
  }

  /** A failed generation reports one of the four errors the pipeline can
      meet; with no OpenAI key the OpenAI provider always ends in the retry
      loop's error, after MaxRetries attempts. */
  lemma GeneratedErrors(info: GitInfo, cfg: Config, b: Backends, langOrder: seq<string>)
    ensures var r := Generated(info, cfg, b, langOrder);
      r.Err? ==> r.error.UnsupportedProvider? || r.error.FailedAfter? || r.error == NotConventional ||
                 r.error.SubjectSlicePanic?
    ensures cfg.provider == "openai" && b.apiKey == "" && cfg.maxRetries >= 1 ==>
      Generated(info, cfg, b, langOrder) == Err(FailedAfter(cfg.maxRetries, MISSING_KEY))
    ensures var run := Retry(b, cfg.provider, PromptText(info, cfg, langOrder), cfg.maxRetries);
      Generated(info, cfg, b, langOrder) == Err(NotConventional) ==>
        GateOn(cfg) && run.result.Ok? && PostProcessed(run.result.value, info.jiraTicket, cfg).Ok? &&
        !MatchesPattern(PostProcessed(run.result.value, info.jiraTicket, cfg).value, cfg.scopePrefix, cfg.includeScope)
  {
    var prompt := PromptText(info, cfg, langOrder);
    RetryMeaning(b, cfg.provider, prompt, cfg.maxRetries);
    FinishMeaning(Retry(b, cfg.provider, prompt, cfg.maxRetries).result, info.jiraTicket, cfg);
    if cfg.provider == "openai" && b.apiKey == "" && cfg.maxRetries >= 1 {
      MissingKeyRetried(b, prompt, cfg.maxRetries, 1);
    }
  }

  /** generateCommitMessage, from the prompt to the checked message */
  method GenerateCommitMessage(info: GitInfo, cfg: Config, b: Backends, langOrder: seq<string>, emojiOrder: seq<string>)
    returns (r: Result<string>)
    requires LanguageOrder(langOrder, info.files)
    requires EmojiOrder(emojiOrder)
    ensures r == Generated(info, cfg, b, langOrder)
  {
    var prompt := BuildPrompt(info, cfg, langOrder);
    var answer, calls := GenerateWithRetries(b, cfg.provider, prompt, cfg.maxRetries);
    if answer.Err? {
      return Err(answer.error);
    }
    var processed := PostProcessCommitMessage(answer.value, info.jiraTicket, cfg, emojiOrder);
    if processed.Err? {
      return Err(processed.error);
    }
    var message := processed.value;
    if cfg.verifyConventional && cfg.style == "conventional" {
      var err := VerifyConventionalCommit(message, cfg.scopePrefix, cfg.includeScope);
      if err.Some? {
        return Err(NotConventional);
      }
    }
    return Ok(message);
  }
}
