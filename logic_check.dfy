/** `LogicCheck`: the large model's validity score of a logical statement. */
module LogicCheck {
  import opened Wrappers
  import opened Text
  import opened Llm
  import opened Environment
  import opened BaseCheck

  /** The prompt's wording is not modelled, only where the statement goes. */
  const LogicTemplate := "[rate the logical statement from 0 to 1] Statement: {text} Validity score:"

  /** The check's container: both Cerebras models, the small one first. */
  function LogicRegistry(): map<string, Client> {
    RegistryOf([(CerebrasProvider, SmallModel), (CerebrasProvider, LargeModel)])
  }

  /** Both models are registered, each under its own pair. */
  lemma LogicRegistryHoldsBoth()
    ensures Lookup(LogicRegistry(), CerebrasProvider, SmallModel) == Ok(Client(CerebrasProvider, SmallModel))
    ensures Lookup(LogicRegistry(), CerebrasProvider, LargeModel) == Ok(Client(CerebrasProvider, LargeModel))
  {
    RegistryOfHasLast([(CerebrasProvider, SmallModel)]);
    RegistryOfHasLast([(CerebrasProvider, SmallModel), (CerebrasProvider, LargeModel)]);
    assert MakeKey(CerebrasProvider, SmallModel) != MakeKey(CerebrasProvider, LargeModel) by {
      assert MakeKey(CerebrasProvider, SmallModel)[16] != MakeKey(CerebrasProvider, LargeModel)[16];
    }
  }

  /** `LogicCheck.check_fact`: it asks the large model, which it registered,
      so only the service can fail; the score lies in [0, 1] and is 0.5 for
      an answer that is not a number. */
  function CheckLogic(text: string, env: Env): (r: Result<real, Failure>)
    ensures var reply := env.complete(LargeModel, TruthPrompt(LogicTemplate, text));
      && (r.Err? <==> reply.Raised?)
      && (r.Ok? ==> 0.0 <= r.value <= 1.0)
      && (reply.Content? ==> r == Ok(ScoreOf(reply.text, env.parseFloat)))
      && (reply.Content? && env.parseFloat(Strip(reply.text)).None? ==> r == Ok(0.5))
      && (reply.NoContent? ==> r == Ok(ScoreOf(NoContentAnswer(LargeModel), env.parseFloat)))
      && (reply.NoContent? && env.parseFloat(NoContentAnswer(LargeModel)).None? ==> r == Ok(0.5))
  {
    NoContentScore(LargeModel, env.parseFloat);
    LogicRegistryHoldsBoth();
    TruthScore(LogicRegistry(), text, LogicTemplate, CerebrasProvider, LargeModel, env)
  }
}
