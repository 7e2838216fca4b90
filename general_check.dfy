/** `GeneralCheck`, the small model's truth score of a general statement,
    and `NoneCheck`, for opinions, which trusts every statement. */
module GeneralCheck {
  import opened Wrappers
  import opened Text
  import opened Llm
  import opened Environment
  import opened BaseCheck

  /** The prompt's wording is not modelled, only where the statement goes. */
  const GeneralTemplate := "[rate the general statement from 0 to 1] Statement: {text} Truth score:"

  /** The check's container: the default pair only. */
  function GeneralRegistry(): map<string, Client> {
    RegistryOf([(DefaultProvider, DefaultModel)])
  }

  /** `GeneralCheck.check_fact`: the default pair is the registered one, so
      only the service can fail; the score lies in [0, 1] and is 0.5 for an
      answer that is not a number. */
  function CheckGeneral(text: string, env: Env): (r: Result<real, Failure>)
    ensures var reply := env.complete(DefaultModel, TruthPrompt(GeneralTemplate, text));
      && (r.Err? <==> reply.Raised?)
      && (r.Ok? ==> 0.0 <= r.value <= 1.0)
      && (reply.Content? ==> r == Ok(ScoreOf(reply.text, env.parseFloat)))
      && (reply.Content? && env.parseFloat(Strip(reply.text)).None? ==> r == Ok(0.5))
      && (reply.NoContent? ==> r == Ok(ScoreOf(NoContentAnswer(DefaultModel), env.parseFloat)))
      && (reply.NoContent? && env.parseFloat(NoContentAnswer(DefaultModel)).None? ==> r == Ok(0.5))
  {
    NoContentScore(DefaultModel, env.parseFloat);
    RegistryOfHasLast([(DefaultProvider, DefaultModel)]);
    TruthScore(GeneralRegistry(), text, GeneralTemplate, DefaultProvider, DefaultModel, env)
  }

  /** `NoneCheck.check_fact`: every statement scores 1, without asking anyone. */
  function CheckNone(text: string): (score: real)
    ensures score == 1.0
  {
    1.0
  }
}
