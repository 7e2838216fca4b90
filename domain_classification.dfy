/** `DomainClassifier`: the large Cerebras model names a domain, and its
    answer is normalised and checked against the closed set of labels. */
module DomainClassification {
  import opened Wrappers
  import opened Text
  import opened Llm
  import opened Environment

  /** The classifier's domains, in the order the prompt lists them. */
  const Labels: seq<string> := ["history", "paper", "math", "logic", "latest_news", "general", "none"]

  /** The classifier's own container: the large model only. */
  function ClassifierRegistry(): map<string, Client> {
    RegistryOf([(CerebrasProvider, LargeModel)])
  }

  /** The classification prompt: the comma-separated labels, then the text.
      The instructions' wording is not modelled. */
  function ClassifyPrompt(text: string): string {
    "[classify into one of: " + Join(", ", Labels) + "] Text: " + text
  }

  /** The answer trimmed and lowercased. */
  function Normalize(response: string): string {
    Lower(Strip(response))
  }

  /** The label read from an answer: the normalised answer when it is one of
      the labels, and `general` otherwise. Never absent. */
  function Classify(response: string): (domain: string)
    ensures domain in Labels
    ensures Normalize(response) in Labels ==> domain == Normalize(response)
    ensures Normalize(response) !in Labels ==> domain == "general"
  {
    var n := Normalize(response);
    if n in Labels then n else "general"
  }

  /** A trimmed string without capitals is its own normal form. */
  lemma NormalizeFixed(s: string)
    requires IsStripped(s)
    requires forall i | 0 <= i < |s| :: !('A' <= s[i] <= 'Z')
    ensures Normalize(s) == s
  {
    StripStripped(s);
    LowerOfLowercase(s);
  }

  /** Every label is already trimmed and lowercase. */
  lemma LabelsNormal(domain: string)
    requires domain in Labels
    ensures Normalize(domain) == domain
  {
    if domain == "history" {
      NormalizeFixed("history");
    } else if domain == "paper" {
      NormalizeFixed("paper");
    } else if domain == "math" {
      NormalizeFixed("math");
    } else if domain == "logic" {
      NormalizeFixed("logic");
    } else if domain == "latest_news" {
      NormalizeFixed("latest_news");
    } else if domain == "general" {
      NormalizeFixed("general");
    } else {
      assert domain == "none";
      NormalizeFixed("none");
    }
  }

  /** A returned label read back as an answer gives itself. */
  lemma ClassifyIdempotent(response: string)
    ensures Classify(Classify(response)) == Classify(response)
  {
    LabelsNormal(Classify(response));
  }

  /** Case never matters: an answer and its lowercase form give one label. */
  lemma ClassifyIgnoresCase(response: string)
    ensures Classify(Lower(response)) == Classify(response)
  {
    StripLower(response);
    LowerIdempotent(Strip(response));
  }

  /** Surrounding whitespace never matters. */
  lemma ClassifyIgnoresPadding(response: string)
    ensures Classify(Strip(response)) == Classify(response)
  {
    StripIdempotent(response);
  }

  /** A label in any case, padded with whitespace on either side, is
      recognised. */
  lemma ClassifyPaddedLabel(pre: string, answer: string, post: string)
    requires IsBlank(pre) && IsBlank(post) && IsStripped(answer)
    requires Lower(answer) in Labels
    ensures Classify(pre + answer + post) == Lower(answer)
  {
    StripPadded(pre, answer, post);
  }

  /** Near misses are not recognised: a label with trailing punctuation
      falls back to `general`, ... */
  lemma ClassifyTrailingPunctuation()
    ensures Classify("history.") == "general"
  {
    var s := "history.";
    assert |s| == 8;
    assert Normalize(s) == s by {
      NormalizeFixed(s);
    }
    assert s !in Labels by {
      LabelLengths();
    }
  }

  /** ... and so does a label behind a prefix. */
  lemma ClassifyPrefixedLabel()
    ensures Classify("domain: math") == "general"
  {
    var s := "domain: math";
    assert |s| == 12;
    assert Normalize(s) == s by {
      NormalizeFixed(s);
    }
    assert s !in Labels by {
      LabelLengths();
    }
  }

  /** The labels' lengths, enough to tell most answers from a label. */
  lemma LabelLengths()
    ensures forall l | l in Labels :: |l| == 4 || |l| == 5 || |l| == 7 || |l| == 11
  {
  }

  /** `classify`: ask the large model and read the label. The container
      registered that model, so only the service itself can fail; an answer
      without content yields the client's error string, hence `general`. */
  function ClassifyText(text: string, env: Env): (r: Result<string, Failure>)
    ensures r.Err? <==> env.complete(LargeModel, ClassifyPrompt(text)).Raised?
    ensures r.Ok? ==> r.value in Labels
    ensures env.complete(LargeModel, ClassifyPrompt(text)).Content? ==>
              r == Ok(Classify(env.complete(LargeModel, ClassifyPrompt(text)).text))
    ensures env.complete(LargeModel, ClassifyPrompt(text)).NoContent? ==> r == Ok("general")
  {
    RegistryOfHasLast([(CerebrasProvider, LargeModel)]);
    CerebrasIsLowerCase();
    match Lookup(ClassifierRegistry(), CerebrasProvider, LargeModel)
    case Err(e) => Err(e)
    case Ok(client) =>
      var response :- GenerateText(client, ClassifyPrompt(text), env.complete);
      NoContentIsGeneral();
      Ok(Classify(response))
  }

  /** The client's error string is not a label. */
  lemma NoContentIsGeneral()
    ensures Classify(NoContentAnswer(LargeModel)) == "general"
  {
    var response := NoContentAnswer(LargeModel);
    StripStripped(response);
    assert Normalize(response)[0] == '[';
  }
}
