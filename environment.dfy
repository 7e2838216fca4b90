/** The outside world the pipeline consults, as values the caller supplies:
    every network service and the float parser become functions here, so that
    everything else is deterministic in them. */
module Environment {
  import opened Wrappers
  import opened Llm

  /** One literature search: a first result, none, or an exception. */
  datatype SearchOutcome = Found | NotFound | SearchRaised

  /** A news article; only its title is used. */
  datatype Article = Article(title: string)

  /** The news service's answer to a query: the listed articles (none when the
      response has no `articles` entry), or an exception. */
  datatype NewsReply = Articles(articles: seq<Article>) | NewsRaised

  datatype Env = Env(
    /** The Cerebras chat-completion service. */
    complete: Completion,
    /** Python's `float()` on an already stripped string: None where it raises ValueError. */
    parseFloat: string -> Option<real>,
    /** Google Scholar, then arXiv, queried with a title. */
    scholar: string -> SearchOutcome,
    arxiv: string -> SearchOutcome,
    /** The NewsAPI client, absent when no API key was configured. */
    news: Option<string -> NewsReply>)
}
