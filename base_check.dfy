/** `BaseCheck.get_llm_truth_score`, shared by every LLM-backed check: ask a
    registered model with the formatted prompt, read a number from the
    answer, clamp it into [0, 1], and fall back to 0.5 when no number can be
    read. */
module BaseCheck {
  import opened Wrappers
  import opened Text
  import opened Llm
  import opened Environment

  /** The provider and model used when a check names none. */
  const DefaultProvider := CerebrasProvider
  const DefaultModel := SmallModel

  /** `max(0.0, min(1.0, x))`. */
  function Clamp(x: real): (r: real)
    ensures 0.0 <= r <= 1.0
    ensures 0.0 <= x <= 1.0 ==> r == x
    ensures x > 1.0 ==> r == 1.0
    ensures x < 0.0 ==> r == 0.0
  {
    var upper := if x < 1.0 then x else 1.0;
    if upper > 0.0 then upper else 0.0
  }

  /** Clamping never reverses an order. */
  lemma ClampMonotone(x: real, y: real)
    requires x <= y
    ensures Clamp(x) <= Clamp(y)
  {
  }

  /** The score read from an answer: its stripped text parsed as a number and
      clamped, or 0.5 when it does not parse. */
  function ScoreOf(response: string, parse: string -> Option<real>): (score: real)
    ensures 0.0 <= score <= 1.0
    ensures parse(Strip(response)).None? ==> score == 0.5
    ensures parse(Strip(response)).Some? ==> score == Clamp(parse(Strip(response)).value)
  {
    match parse(Strip(response))
    case None => 0.5
    case Some(x) => Clamp(x)
  }

  /** Whitespace around the number is ignored. */
  lemma ScoreIgnoresPadding(response: string, parse: string -> Option<real>)
    ensures ScoreOf(Strip(response), parse) == ScoreOf(response, parse)
  {
    StripIdempotent(response);
  }

  /** A number already in [0, 1] is the score itself. */
  lemma ScoreInRange(response: string, parse: string -> Option<real>, x: real)
    requires parse(Strip(response)) == Some(x) && 0.0 <= x <= 1.0
    ensures ScoreOf(response, parse) == x
  {
  }

  /** The prompt: the template with its `{text}` field replaced. */
  function TruthPrompt(template: string, text: string): string {
    Substitute(template, "{text}", text)
  }

  /** A template whose only brace opens its one `{text}` field gives the
      text between the template's two halves. */
  lemma TruthPromptShape(pre: string, post: string, text: string)
    requires '{' !in pre && '{' !in post
    ensures TruthPrompt(pre + "{text}" + post, text) == pre + text + post
  {
    SubstituteOnce(pre, "{text}", post, text);
  }

  /** `get_llm_truth_score` on a check's container `registry`. A pair the
      container does not hold fails with KeyError; a Cerebras client fails
      only when the service raises, and otherwise scores the service's
      answer; any score lies in [0, 1]. */
  function TruthScore(registry: map<string, Client>, text: string, template: string,
                      llm: string, model: string, env: Env): (r: Result<real, Failure>)
    ensures r.Ok? ==> 0.0 <= r.value <= 1.0
    ensures MakeKey(llm, model) !in registry ==> r == Err(KeyError(MakeKey(llm, model)))
    ensures MakeKey(llm, model) in registry && registry[MakeKey(llm, model)] == Client(CerebrasProvider, model) ==>
              var reply := env.complete(model, TruthPrompt(template, text));
              && (r.Err? <==> reply.Raised?)
              && (r.Err? ==> r.error == ServiceError)
              && (reply.Content? ==> r == Ok(ScoreOf(reply.text, env.parseFloat)))
              && (reply.NoContent? ==> r == Ok(ScoreOf(NoContentAnswer(model), env.parseFloat)))
  {
    CerebrasIsLowerCase();
    match Lookup(registry, llm, model)
    case Err(e) => Err(e)
    case Ok(client) =>
      var response :- GenerateText(client, TruthPrompt(template, text), env.complete);
      Ok(ScoreOf(response, env.parseFloat))
  }

  /** The client's answer for a reply without content has no padding. */
  lemma NoContentAnswerStripped(model: string)
    ensures Strip(NoContentAnswer(model)) == NoContentAnswer(model)
  {
    var e := NoContentAnswer(model);
    assert e[0] == '[' && e[|e| - 1] == 't';
    StripStripped(e);
  }

  /** The client's error string scores 0.5 whenever `float()` rejects it. */
  lemma NoContentScore(model: string, parse: string -> Option<real>)
    ensures parse(NoContentAnswer(model)).None? ==> ScoreOf(NoContentAnswer(model), parse) == 0.5
  {
    NoContentAnswerStripped(model);
  }

  /** A Cerebras reply without content is scored through the client's error
      string, and since `float()` rejects that string the score is 0.5. */
  lemma NoContentScoresHalf(registry: map<string, Client>, text: string, template: string, model: string, env: Env)
    requires MakeKey(CerebrasProvider, model) in registry
    requires registry[MakeKey(CerebrasProvider, model)] == Client(CerebrasProvider, model)
    requires env.complete(model, TruthPrompt(template, text)).NoContent?
    requires env.parseFloat(NoContentAnswer(model)).None?
    ensures TruthScore(registry, text, template, CerebrasProvider, model, env) == Ok(0.5)
  {
    NoContentScore(model, env.parseFloat);
  }

  /** A Cerebras answer that does not parse scores exactly 0.5. */
  lemma UnparsableScoresHalf(registry: map<string, Client>, text: string, template: string, model: string, env: Env)
    requires MakeKey(CerebrasProvider, model) in registry
    requires registry[MakeKey(CerebrasProvider, model)] == Client(CerebrasProvider, model)
    requires env.complete(model, TruthPrompt(template, text)).Content?
    requires env.parseFloat(Strip(env.complete(model, TruthPrompt(template, text)).text)).None?
    ensures TruthScore(registry, text, template, CerebrasProvider, model, env) == Ok(0.5)
  {
  }
}
