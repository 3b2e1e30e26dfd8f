/** Outcome types and the error kinds the pipeline returns. */
module Common {

  datatype Option<T> = None | Some(value: T)

  datatype Result<T> = Ok(value: T) | Err(error: Error)

  /** The ways the pipeline stops without a message. Each carries what the
      source's error text reports. */
  datatype Error =
      /** `git diff --cached --name-status` failed: "error getting staged files" */
    | StagedFilesUnavailable
      /** `AI.Provider` is neither "openai" nor "ollama": "unsupported provider: <p>" */
    | UnsupportedProvider(provider: string)
      /** every attempt failed: "failed after <n> attempts: <last error>" */
    | FailedAfter(attempts: int, cause: string)
      /** the final message does not match the conventional-commit pattern */
    | NotConventional
      /** Go panics slicing the subject line: `lines[0][:MaxLength]` is out of
          range when the subject is shorter than MaxLength or MaxLength < 0 */
    | SubjectSlicePanic(subjectLength: nat, maxLength: int)
}

/** The part of the configuration file the pipeline reads, passed
    explicitly instead of living in a global. */
module Settings {

  datatype Config = Config(
    provider: string,            // AI.Provider: "openai" or "ollama"
    style: string,               // Commit.Style: "conventional", "detailed" or "custom"
    includeScope: bool,          // Commit.IncludeScope
    includeBreaking: bool,       // Commit.IncludeBreaking
    maxLength: int,              // Commit.MaxLength
    scopePrefix: seq<string>,    // Commit.ScopePrefix: the allowed commit types
    jiraIntegration: bool,       // Commit.JiraIntegration
    coAuthors: seq<string>,      // Commit.CoAuthors
    emojisEnabled: bool,         // Commit.EmojisEnabled
    verifyConventional: bool,    // Commit.VerifyConventional
    maxRetries: int              // System.MaxRetries
  )

  /** The values a fresh configuration file is written with */
  const DEFAULT_CONFIG: Config := Config(
    "ollama", "conventional", true, true, 72,
    ["feat", "fix", "docs", "style", "refactor", "test", "chore"],
    true, [], false, true, 3)
}
