/** `HistoryCheck`: the small model's truth score of a historical statement. */
module HistoryCheck {
  import opened Wrappers
  import opened Text
  import opened Llm
  import opened Environment
  import opened BaseCheck

  /** The prompt's wording is not modelled, only where the statement goes. */
  const HistoryTemplate := "[rate the historical statement from 0 to 1] Statement: {text} Truth score:"

  /** The check's container. The constructor replaces the inherited, empty
      container by a new empty one, then registers the default pair. */
  function HistoryRegistry(): map<string, Client> {
    RegistryOf([(DefaultProvider, DefaultModel)])
  }

  /** `HistoryCheck.check_fact`: the default pair is the registered one, so
      only the service can fail; the score lies in [0, 1] and is 0.5 for an
      answer that is not a number. */
  function CheckHistory(text: string, env: Env): (r: Result<real, Failure>)
    ensures var reply := env.complete(DefaultModel, TruthPrompt(HistoryTemplate, text));
      && (r.Err? <==> reply.Raised?)
      && (r.Ok? ==> 0.0 <= r.value <= 1.0)
      && (reply.Content? ==> r == Ok(ScoreOf(reply.text, env.parseFloat)))
      && (reply.Content? && env.parseFloat(Strip(reply.text)).None? ==> r == Ok(0.5))
      && (reply.NoContent? ==> r == Ok(ScoreOf(NoContentAnswer(DefaultModel), env.parseFloat)))
      && (reply.NoContent? && env.parseFloat(NoContentAnswer(DefaultModel)).None? ==> r == Ok(0.5))
  {
    NoContentScore(DefaultModel, env.parseFloat);
    RegistryOfHasLast([(DefaultProvider, DefaultModel)]);
    TruthScore(HistoryRegistry(), text, HistoryTemplate, DefaultProvider, DefaultModel, env)
  }

  /** The container holds the default pair and nothing else. */
  lemma HistoryRegistryOnlyDefault()
    ensures HistoryRegistry().Keys == {MakeKey(DefaultProvider, DefaultModel)}
    ensures HistoryRegistry()[MakeKey(DefaultProvider, DefaultModel)] == Client(DefaultProvider, DefaultModel)
  {
    assert RegistryOf([(DefaultProvider, DefaultModel)][..0]) == map[];
  }
}
