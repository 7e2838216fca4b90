/** The LLM client registry (`LLMContainer`) and the deterministic part of
    `LLMClient.generate_text`. The Cerebras chat-completion call is the
    `Completion` oracle passed in by the caller. */
module Llm {
  import opened Wrappers
  import opened Text

  /** An `LLMClient`: the provider name and the model it was registered with. */
  datatype Client = Client(name: string, model: string)

  /** The exceptions that escape the pipeline: a registry lookup on a missing
      key, and an exception raised by the Cerebras SDK call. */
  datatype Failure = KeyError(key: string) | ServiceError

  /** What the Cerebras chat-completion call gives: the first choice's
      content, a response whose content cannot be extracted, or an exception. */
  datatype Reply = Content(text: string) | NoContent | Raised

  /** The Cerebras service: for a model name and a prompt, its reply. */
  type Completion = (string, string) -> Reply

  const CerebrasProvider := "cerebras"
  const SmallModel := "llama3.1-8b"
  const LargeModel := "llama3.3-70b"

  /** `_make_key`: the registry key of a provider/model pair. */
  function MakeKey(name: string, model: string): (key: string)
    ensures |key| == |name| + 1 + |model|
    ensures key[..|name|] == name && key[|name|] == ':' && key[|name| + 1..] == model
  {
    name + ":" + model
  }

  /** The environment variable `register_llm` reads for a provider, chosen
      case-insensitively; an unknown provider reads none. */
  function ApiKeyVariable(name: string): (v: Option<string>)
    ensures v.Some? <==> Lower(name) in {"openai", "anthropic", "cohere", "cerebras"}
  {
    var n := Lower(name);
    if n == "openai" then Some("OPENAI_API_KEY")
    else if n == "anthropic" then Some("ANTHROPIC_API_KEY")
    else if n == "cohere" then Some("COHERE_API_KEY")
    else if n == "cerebras" then Some("CEREBRAS_API_KEY")
    else None
  }

  /** The answer the Cerebras client gives when the service's response has
      no content to extract. */
  function NoContentAnswer(model: string): string {
    "[cerebras-" + model + "] Error processing prompt"
  }

  /** `LLMClient.generate_text`. The three mock providers echo the prompt, the
      Cerebras provider asks the service, and any other provider gives the
      generic mock answer. Provider names are matched case-insensitively. */
  function GenerateText(c: Client, prompt: string, remote: Completion): (r: Result<string, Failure>)
    ensures r.Err? <==> Lower(c.name) == CerebrasProvider && remote(c.model, prompt).Raised?
    ensures r.Err? ==> r.error == ServiceError
    ensures Lower(c.name) == CerebrasProvider && remote(c.model, prompt).Content? ==>
              r == Ok(remote(c.model, prompt).text)
    ensures Lower(c.name) == CerebrasProvider && remote(c.model, prompt).NoContent? ==>
              r == Ok(NoContentAnswer(c.model))
    ensures Lower(c.name) == "openai" ==> r == Ok("[OpenAI-" + c.model + "] Processing with GPT: " + prompt)
    ensures Lower(c.name) == "anthropic" ==> r == Ok("[Anthropic-" + c.model + "] Processing with Claude: " + prompt)
    ensures Lower(c.name) == "cohere" ==> r == Ok("[Cohere-" + c.model + "] Processing with Command: " + prompt)
  {
    var n := Lower(c.name);
    if n == "openai" then Ok("[OpenAI-" + c.model + "] Processing with GPT: " + prompt)
    else if n == "anthropic" then Ok("[Anthropic-" + c.model + "] Processing with Claude: " + prompt)
    else if n == "cohere" then Ok("[Cohere-" + c.model + "] Processing with Command: " + prompt)
    else if n == CerebrasProvider then
      match remote(c.model, prompt)
      case Content(text) => Ok(text)
      case NoContent => Ok(NoContentAnswer(c.model))
      case Raised => Err(ServiceError)
    else Ok("[" + c.name + "-" + c.model + "] Response to prompt: " + prompt)
  }

  /** Only the Cerebras provider consults the service: every other provider
      answers alike whatever the service would say, and never fails. */
  lemma MockIgnoresService(c: Client, prompt: string, remote1: Completion, remote2: Completion)
    requires Lower(c.name) != CerebrasProvider
    ensures GenerateText(c, prompt, remote1) == GenerateText(c, prompt, remote2)
    ensures GenerateText(c, prompt, remote1).Ok?
  {
  }

  /** The mock answers end with the prompt itself. */
  lemma MockEchoesPrompt(c: Client, prompt: string, remote: Completion)
    requires Lower(c.name) != CerebrasProvider
    ensures var r := GenerateText(c, prompt, remote).value;
      |r| > |prompt| && r[|r| - |prompt|..] == prompt
  {
    var r := GenerateText(c, prompt, remote).value;
    var n := Lower(c.name);
    var head := if n == "openai" then "[OpenAI-" + c.model + "] Processing with GPT: "
      else if n == "anthropic" then "[Anthropic-" + c.model + "] Processing with Claude: "
      else if n == "cohere" then "[Cohere-" + c.model + "] Processing with Command: "
      else "[" + c.name + "-" + c.model + "] Response to prompt: ";
    assert r == head + prompt;
  }

  lemma CerebrasIsLowerCase()
    ensures Lower(CerebrasProvider) == CerebrasProvider
  {
  }

  /** A provider outside the four known ones gets exactly the generic mock
      answer, whatever the service would say. */
  lemma GenerateTextUnknownProvider(name: string, model: string, prompt: string, remote: Completion)
    requires !(Lower(name) in {"openai", "anthropic", "cohere", "cerebras"})
    ensures GenerateText(Client(name, model), prompt, remote)
         == Ok("[" + name + "-" + model + "] Response to prompt: " + prompt)
  {
  }

  /** The registry after `register_llm(name, model)`: the key of the pair now
      holds a fresh client, every other key is as before. */
  function Registered(clients: map<string, Client>, name: string, model: string): (m: map<string, Client>)
    ensures m.Keys == clients.Keys + {MakeKey(name, model)}
    ensures m[MakeKey(name, model)] == Client(name, model)
    ensures forall k | k in clients && k != MakeKey(name, model) :: m[k] == clients[k]
  {
    clients[MakeKey(name, model) := Client(name, model)]
  }

  /** `get_llm(name, model)`: the client under the pair's key, or a KeyError. */
  function Lookup(clients: map<string, Client>, name: string, model: string): (r: Result<Client, Failure>)
    ensures r.Ok? <==> MakeKey(name, model) in clients
    ensures r.Ok? ==> r.value == clients[MakeKey(name, model)]
    ensures r.Err? ==> r.error == KeyError(MakeKey(name, model))
  {
    var key := MakeKey(name, model);
    if key in clients then Ok(clients[key]) else Err(KeyError(key))
  }

  /** The registry of a container on which the given pairs were registered in
      order, starting from an empty one. */
  function RegistryOf(pairs: seq<(string, string)>): map<string, Client> {
    if pairs == [] then map[]
    else
      var last := pairs[|pairs| - 1];
      Registered(RegistryOf(pairs[..|pairs| - 1]), last.0, last.1)
  }

  /** The pair registered last is always found, as itself. */
  lemma RegistryOfHasLast(pairs: seq<(string, string)>)
    requires pairs != []
    ensures var last := pairs[|pairs| - 1];
      Lookup(RegistryOf(pairs), last.0, last.1) == Ok(Client(last.0, last.1))
  {
    var last := pairs[|pairs| - 1];
    RegisterThenGet(RegistryOf(pairs[..|pairs| - 1]), last.0, last.1);
  }

  /** `LLMContainer`: a dictionary of clients updated in place. */
  class LLMContainer {
    var clients: map<string, Client>

    constructor ()
      ensures clients == map[]
    {
      clients := map[];
    }

    /** `register_llm`. A missing API key is only logged, so registration
        never fails. */
    method RegisterLlm(name: string, model: string)
      modifies this
      ensures clients == Registered(old(clients), name, model)
    {
      clients := clients[MakeKey(name, model) := Client(name, model)];
    }

    /** `get_llm`. */
    method GetLlm(name: string, model: string) returns (r: Result<Client, Failure>)
      ensures r.Ok? <==> MakeKey(name, model) in clients
      ensures r.Ok? ==> r.value == clients[MakeKey(name, model)]
      ensures r == Lookup(clients, name, model)
    {
      var key := MakeKey(name, model);
      if key in clients {
        r := Ok(clients[key]);
      } else {
        r := Err(KeyError(key));
      }
    }
  }

  /** After registering a pair, looking it up gives a client with that name
      and model. */
  lemma RegisterThenGet(clients: map<string, Client>, name: string, model: string)
    ensures Lookup(Registered(clients, name, model), name, model) == Ok(Client(name, model))
  {
  }

  /** Registering the same pair twice is the same as registering it once. */
  lemma ReregisterReplaces(clients: map<string, Client>, name: string, model: string)
    ensures Registered(Registered(clients, name, model), name, model) == Registered(clients, name, model)
  {
  }

  /** Looking up a pair whose key was never registered fails with KeyError. */
  lemma UnregisteredFails(clients: map<string, Client>, name: string, model: string)
    requires MakeKey(name, model) !in clients
    ensures Lookup(clients, name, model) == Err(KeyError(name + ":" + model))
  {
  }

  /** The key is not injective: ("a:b", "c") and ("a", "b:c") share an entry,
      so the second registration overwrites the first, and looking up the
      first pair then returns the second client. */
  lemma MakeKeyNotInjective(clients: map<string, Client>)
    ensures MakeKey("a:b", "c") == MakeKey("a", "b:c")
    ensures Lookup(Registered(Registered(clients, "a:b", "c"), "a", "b:c"), "a:b", "c")
         == Ok(Client("a", "b:c"))
  {
    assert MakeKey("a:b", "c") == MakeKey("a", "b:c");
  }

  /** With colon-free provider names the key does identify the pair. */
  lemma MakeKeyInjectiveWithoutColon(n1: string, m1: string, n2: string, m2: string)
    requires ':' !in n1 && ':' !in n2
    ensures MakeKey(n1, m1) == MakeKey(n2, m2) <==> n1 == n2 && m1 == m2
  {
  }

  /** API-key loading matches the provider case-insensitively, the key does
      not: a client registered as "Cerebras" is not found as "cerebras". */
  lemma ProviderCaseSensitiveKey(model: string)
    ensures ApiKeyVariable("Cerebras") == ApiKeyVariable("cerebras") == Some("CEREBRAS_API_KEY")
    ensures Lookup(Registered(map[], "Cerebras", model), "cerebras", model).Err?
  {
    assert Lower("Cerebras") == "cerebras";
    assert MakeKey("Cerebras", model)[0] != MakeKey("cerebras", model)[0];
  }
}
