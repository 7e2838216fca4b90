/** `LatestNewsCheck`: recent headlines matching the statement's keywords
    are given to the large model as context for its consistency score. */
module LatestNewsCheck {
  import opened Wrappers
  import opened Text
  import opened Llm
  import opened Environment
  import opened BaseCheck

  /** `re.sub(r'[^\w\s]', '', text)`: every character that is neither a word
      character nor whitespace deleted, the others kept in order. */
  function Scrub(text: string): (r: string)
    ensures |r| <= |text|
    ensures forall k | 0 <= k < |r| :: IsWordChar(r[k]) || IsSpace(r[k])
  {
    if text == [] then []
    else if IsWordChar(text[0]) || IsSpace(text[0]) then [text[0]] + Scrub(text[1..])
    else Scrub(text[1..])
  }

  /** Text made of word characters and whitespace only is left as it is. */
  lemma {:induction false} ScrubKeeps(text: string)
    requires forall k | 0 <= k < |text| :: IsWordChar(text[k]) || IsSpace(text[k])
    ensures Scrub(text) == text
  {
    if text != [] {
      ScrubKeeps(text[1..]);
      assert text == [text[0]] + text[1..];
    }
  }

  /** Scrubbing distributes over concatenation. */
  lemma {:induction false} ScrubConcat(a: string, b: string)
    ensures Scrub(a + b) == Scrub(a) + Scrub(b)
  {
    if a != [] {
      assert (a + b)[1..] == a[1..] + b;
      ScrubConcat(a[1..], b);
    } else {
      assert a + b == b;
    }
  }

  /** A character that is neither a word character nor whitespace is
      deleted, not replaced: the text on its two sides is joined. */
  lemma ScrubDeletes(a: string, c: char, b: string)
    requires !IsWordChar(c) && !IsSpace(c)
    ensures Scrub(a + [c] + b) == Scrub(a) + Scrub(b)
  {
    assert Scrub([c]) == [] by {
      assert [c][1..] == [];
    }
    assert Scrub(a + [c]) == Scrub(a) by {
      ScrubConcat(a, [c]);
    }
    ScrubConcat(a + [c], b);
  }

  /** So an apostrophe joins the two halves of a contraction. */
  lemma ScrubContraction()
    ensures Scrub("don't") == "dont"
  {
    assert "don't" == "don" + ['\''] + "t";
    ScrubDeletes("don", '\'', "t");
    ScrubKeeps("don");
    ScrubKeeps("t");
  }

  /** The words longer than three characters, in order. */
  function LongWords(ws: seq<string>): (r: seq<string>)
    ensures |r| <= |ws|
    ensures forall k | 0 <= k < |r| :: |r[k]| > 3 && r[k] in ws
  {
    if ws == [] then []
    else if |ws[0]| > 3 then [ws[0]] + LongWords(ws[1..])
    else LongWords(ws[1..])
  }

  /** Every word longer than three characters is kept. */
  lemma {:induction false} LongWordsKeepsLong(ws: seq<string>, i: nat)
    requires i < |ws| && |ws[i]| > 3
    ensures ws[i] in LongWords(ws)
  {
    if i > 0 {
      assert ws[i] == ws[1..][i - 1];
      LongWordsKeepsLong(ws[1..], i - 1);
    }
  }

  /** A list of long words is kept whole. */
  lemma {:induction false} LongWordsKeeps(ws: seq<string>)
    requires forall k | 0 <= k < |ws| :: |ws[k]| > 3
    ensures LongWords(ws) == ws
  {
    if ws != [] {
      var rest := ws[1..];
      assert forall k | 0 <= k < |rest| :: rest[k] == ws[k + 1];
      LongWordsKeeps(rest);
      calc {
        LongWords(ws);
        [ws[0]] + LongWords(rest);
        [ws[0]] + rest;
        ws;
      }
    }
  }

  /** Filtering a concatenation filters each part. */
  lemma {:induction false} LongWordsAppend(a: seq<string>, b: seq<string>)
    ensures LongWords(a + b) == LongWords(a) + LongWords(b)
  {
    if a == [] {
      assert a + b == b;
    } else {
      assert (a + b)[0] == a[0];
      assert (a + b)[1..] == a[1..] + b;
      LongWordsAppend(a[1..], b);
    }
  }

  /** A word of three characters or fewer is dropped, and only it: the
      words around it are filtered as before. */
  lemma LongWordsDropsShort(a: seq<string>, w: string, b: seq<string>)
    requires |w| <= 3
    ensures LongWords(a + [w] + b) == LongWords(a) + LongWords(b)
  {
    LongWordsAppend(a + [w], b);
    LongWordsAppend(a, [w]);
    assert LongWords([w]) == LongWords([]);
  }

  /** The search keywords of a statement: the words of its scrubbed text
      longer than three characters. */
  function Keywords(text: string): (r: seq<string>)
    ensures forall k | 0 <= k < |r| :: |r[k]| > 3 && IsWord(r[k])
  {
    var ws := Words(Scrub(text));
    LongWords(ws)
  }

  /** A statement that is a space-separated list of plain words has as
      keywords exactly its words longer than three characters, in order. */
  lemma KeywordsOfJoin(ws: seq<string>)
    requires forall k | 0 <= k < |ws| :: ws[k] != [] && forall c | c in ws[k] :: IsWordChar(c)
    ensures Keywords(Join(" ", ws)) == LongWords(ws)
  {
    ScrubPlainJoin(ws);
    WordsPlainJoin(ws);
  }

  /** Scrubbing leaves plain words joined by spaces alone. */
  lemma ScrubPlainJoin(ws: seq<string>)
    requires forall k | 0 <= k < |ws| :: forall c | c in ws[k] :: IsWordChar(c)
    ensures Scrub(Join(" ", ws)) == Join(" ", ws)
  {
    PlainJoin(ws);
    ScrubKeeps(Join(" ", ws));
  }

  /** Non-empty plain words joined by spaces split back into themselves. */
  lemma WordsPlainJoin(ws: seq<string>)
    requires forall k | 0 <= k < |ws| :: ws[k] != [] && forall c | c in ws[k] :: IsWordChar(c)
    ensures Words(Join(" ", ws)) == ws
  {
    forall k | 0 <= k < |ws|
      ensures IsWord(ws[k])
    {
      assert forall i | 0 <= i < |ws[k]| :: IsWordChar(ws[k][i]);
    }
    WordsOfJoin(ws);
  }

  /** A statement that is already a space-separated list of long plain words
      is its own keyword list, in order. */
  lemma KeywordsOfPlainWords(ws: seq<string>)
    requires forall k | 0 <= k < |ws| :: |ws[k]| > 3 && forall c | c in ws[k] :: IsWordChar(c)
    ensures Keywords(Join(" ", ws)) == ws
  {
    KeywordsOfJoin(ws);
    LongWordsKeeps(ws);
  }

  /** Joining plain words with spaces gives word characters and spaces. */
  lemma {:induction false} PlainJoin(ws: seq<string>)
    requires forall k | 0 <= k < |ws| :: forall c | c in ws[k] :: IsWordChar(c)
    ensures forall i | 0 <= i < |Join(" ", ws)| :: IsWordChar(Join(" ", ws)[i]) || Join(" ", ws)[i] == ' '
  {
    if |ws| > 1 {
      PlainJoin(ws[1..]);
      var s := Join(" ", ws);
      assert s == ws[0] + " " + Join(" ", ws[1..]);
      forall i | 0 <= i < |s|
        ensures IsWordChar(s[i]) || s[i] == ' '
      {
        if i < |ws[0]| {
          assert s[i] == ws[0][i];
        } else if i > |ws[0]| {
          assert s[i] == Join(" ", ws[1..])[i - |ws[0]| - 1];
        }
      }
    } else if |ws| == 1 {
      assert forall i | 0 <= i < |ws[0]| :: ws[0][i] in ws[0];
    }
  }

  /** Punctuation never splits or joins keywords, it only vanishes: a
      statement and its scrubbed form have the same keywords. */
  lemma KeywordsOfScrubbed(text: string)
    ensures Keywords(Scrub(text)) == Keywords(text)
  {
    ScrubKeeps(Scrub(text));
  }

  /** The news query: the keywords joined with `" OR "`. */
  function Query(keywords: seq<string>): (q: string)
    ensures keywords == [] ==> q == []
    ensures |keywords| == 1 ==> q == keywords[0]
  {
    Join(" OR ", keywords)
  }

  /** Each further keyword is one more `" OR "` alternative. */
  lemma QueryAppend(a: seq<string>, b: seq<string>)
    requires a != [] && b != []
    ensures Query(a + b) == Query(a) + " OR " + Query(b)
  {
    JoinAppend(" OR ", a, b);
  }

  /** `_search_news`: no client or no keyword gives no article without a
      query; otherwise the articles the service lists for the query, and
      none when it raises. */
  function SearchNews(text: string, news: Option<string -> NewsReply>): (r: seq<Article>)
    ensures news.None? || Keywords(text) == [] ==> r == []
    ensures news.Some? && Keywords(text) != [] ==>
              match news.value(Query(Keywords(text)))
              case Articles(found) => r == found
              case NewsRaised => r == []
  {
    match news
    case None => []
    case Some(search) =>
      var keywords := Keywords(text);
      if keywords == [] then []
      else
        match search(Query(keywords))
        case Articles(found) => found
        case NewsRaised => []
  }

  /** Without a keyword the service is never asked: any two services give
      the same (empty) answer. */
  lemma NoKeywordsNoQuery(text: string, a: string -> NewsReply, b: string -> NewsReply)
    requires Keywords(text) == []
    ensures SearchNews(text, Some(a)) == SearchNews(text, Some(b)) == []
  {
  }

  /** One `Headline: <title>` line for each of the first three articles. */
  function Headlines(articles: seq<Article>): (lines: seq<string>)
    ensures |lines| == if |articles| < 3 then |articles| else 3
    ensures forall i | 0 <= i < |lines| :: lines[i] == "Headline: " + articles[i].title
  {
    var n := if |articles| < 3 then |articles| else 3;
    seq(n, i requires 0 <= i < n => "Headline: " + articles[i].title)
  }

  /** The context given to the model: the headline lines, newline-joined. */
  function Context(articles: seq<Article>): (c: string)
    ensures articles == [] <==> c == []
    ensures articles != [] ==> var first := "Headline: " + articles[0].title;
              |first| <= |c| && c[..|first|] == first
  {
    var lines := Headlines(articles);
    if lines == [] then []
    else
      var c := Join("\n", lines);
      assert c[..|lines[0]|] == lines[0];
      c
  }

  /** The context lines are the first three articles' headlines, in order,
      when no title holds a newline. */
  lemma ContextLines(articles: seq<Article>)
    requires articles != []
    requires forall i | 0 <= i < |articles| :: '\n' !in articles[i].title
    ensures SplitOn(Context(articles), '\n') == Headlines(articles)
  {
    var lines := Headlines(articles);
    forall k | 0 <= k < |lines|
      ensures '\n' !in lines[k]
    {
      assert lines[k] == "Headline: " + articles[k].title;
    }
    SplitOnJoin(lines, '\n');
  }

  /** Articles after the third never reach the context. */
  lemma ContextTopThree(articles: seq<Article>, more: seq<Article>)
    requires |articles| >= 3
    ensures Context(articles + more) == Context(articles)
  {
    assert Headlines(articles + more) == Headlines(articles);
  }

  /** The news prompt, formatted with the context and the statement; its
      wording is not modelled, only where the two go. */
  const NewsHead := "Headlines:\n"
  const NewsMiddle := "\nStatement: "
  const NewsTail := "\nConsistency score:"

  function NewsPrompt(text: string, context: string): string {
    NewsHead + context + NewsMiddle + text + NewsTail
  }

  /** The check's container: the large model. */
  function NewsRegistry(): map<string, Client> {
    RegistryOf([(CerebrasProvider, LargeModel)])
  }

  /** The formatted prompt is formatted a second time by the shared score
      step; without braces in the statement and the headlines that second
      pass changes nothing. */
  lemma NewsPromptFormattedOnce(text: string, context: string)
    requires '{' !in text && '{' !in context
    ensures TruthPrompt(NewsPrompt(text, context), text) == NewsPrompt(text, context)
  {
    var p := NewsPrompt(text, context);
    assert '{' !in NewsHead && '{' !in NewsMiddle && '{' !in NewsTail;
    assert forall i | 0 <= i < |p| :: p[i] in NewsHead || p[i] in context || p[i] in NewsMiddle || p[i] in text || p[i] in NewsTail;
    SubstituteAbsent(p, "{text}", text);
  }

  /** `LatestNewsCheck.check_fact`: exactly 0.1, without asking the model,
      when no article is found; otherwise the large model's score of the
      statement against the top headlines, which can fail only when the
      service raises. Either way the score lies in [0, 1]. */
  function CheckNews(text: string, env: Env): (r: Result<real, Failure>)
    ensures SearchNews(text, env.news) == [] ==> r == Ok(0.1)
    ensures r.Ok? ==> 0.0 <= r.value <= 1.0
    ensures SearchNews(text, env.news) != [] ==>
              var prompt := TruthPrompt(NewsPrompt(text, Context(SearchNews(text, env.news))), text);
              var reply := env.complete(LargeModel, prompt);
              && (r.Err? <==> reply.Raised?)
              && (reply.Content? ==> r == Ok(ScoreOf(reply.text, env.parseFloat)))
              && (reply.NoContent? ==> r == Ok(ScoreOf(NoContentAnswer(LargeModel), env.parseFloat)))
              && (reply.NoContent? && env.parseFloat(NoContentAnswer(LargeModel)).None? ==> r == Ok(0.5))
  {
    NoContentScore(LargeModel, env.parseFloat);
    var articles := SearchNews(text, env.news);
    if articles == [] then Ok(0.1)
    else
      RegistryOfHasLast([(CerebrasProvider, LargeModel)]);
      TruthScore(NewsRegistry(), text, NewsPrompt(text, Context(articles)), CerebrasProvider, LargeModel, env)
  }
}
