/** `MathCheck`: the large model's correctness score of a mathematical
    statement. */
module MathCheck {
  import opened Wrappers
  import opened Text
  import opened Llm
  import opened Environment
  import opened BaseCheck

  /** The prompt's wording is not modelled, only where the statement goes:
      the template is `MathIntro + "{text}" + MathOutro`. */
  const MathIntro := "Rate this mathematical statement: "
  const MathOutro := " Correctness score:"
  const MathTemplate := MathIntro + "{text}" + MathOutro

  /** The check's container: the large model. */
  function MathRegistry(): map<string, Client> {
    RegistryOf([(CerebrasProvider, LargeModel)])
  }

  /** The prompt sent is the statement between the template's two halves,
      whatever the statement holds. */
  lemma MathPrompt(text: string)
    ensures TruthPrompt(MathTemplate, text) == MathIntro + text + MathOutro
  {
    TruthPromptShape(MathIntro, MathOutro, text);
  }

  /** `MathCheck.check_fact`: it asks the large model, which it registered,
      so only the service can fail; the score lies in [0, 1] and is 0.5 for
      an answer that is not a number. */
  function CheckMath(text: string, env: Env): (r: Result<real, Failure>)
    ensures var reply := env.complete(LargeModel, MathIntro + text + MathOutro);
      && (r.Err? <==> reply.Raised?)
      && (r.Ok? ==> 0.0 <= r.value <= 1.0)
      && (reply.Content? ==> r == Ok(ScoreOf(reply.text, env.parseFloat)))
      && (reply.Content? && env.parseFloat(Strip(reply.text)).None? ==> r == Ok(0.5))
      && (reply.NoContent? ==> r == Ok(ScoreOf(NoContentAnswer(LargeModel), env.parseFloat)))
      && (reply.NoContent? && env.parseFloat(NoContentAnswer(LargeModel)).None? ==> r == Ok(0.5))
  {
    NoContentScore(LargeModel, env.parseFloat);
    RegistryOfHasLast([(CerebrasProvider, LargeModel)]);
    MathPrompt(text);
    TruthScore(MathRegistry(), text, MathTemplate, CerebrasProvider, LargeModel, env)
  }
}
