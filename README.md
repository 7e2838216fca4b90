# Hallucination detection pipeline: a Dafny model of its deterministic core

The pipeline reads a text and splits it into partitions, either blank-line paragraphs or fixed word windows. A large language model extracts the statements of each partition. A second call classifies each statement into one of seven domains. A domain-specific check then scores the statement between 0 and 1:

- an LLM truth score;
- a literature search for a quoted paper title;
- a news search followed by an LLM consistency score;
- or a constant 1 for opinions.

Each score is finally read as a risk tier.

This project models every deterministic step of that pipeline. The outside world is a value the caller supplies, `Environment.Env`:

- the Cerebras chat-completion service, `(model, prompt) -> Content(text) | NoContent | Raised`;
- Python's `float()` on a stripped string, as `string -> Option<real>`;
- Google Scholar and arXiv, each `title -> Found | NotFound | SearchRaised`;
- the NewsAPI client, absent when no key is configured, as `query -> Articles(list) | NewsRaised`.

Every check and the whole run are functions of the statement and that environment. The exceptions the code lets escape become `Result` errors (`Llm.Failure`):

- `KeyError` from a registry lookup;
- an exception raised by the Cerebras call.

Exceptions the code catches become the documented defaults.

The modules follow the source files:

| Module | Source | What it holds |
|---|---|---|
| `Llm` | `llm.py` | `LLMContainer` is a class whose client map its methods update in place, specified by the pure `Registered` and `Lookup`. |
| `StatementParser` | `statement_parser.py` | Partitioning. The two loops are methods proved against recursive specification functions. |
| `DomainClassification`, `BaseCheck`, the six check modules, `CheckAggregator` | the files of the same names | Pure functions. |
| `Report` | `main.py` | The risk tiers, and the record loop as methods proved against `Records`. |
| `Text` | — | The Python string operations used throughout (`isspace`, `strip`, `lower`, `split`, `join`), over `seq<char>`. |

The intended design is that a failing text-generation service degrades to a default score or domain. In the code, the Cerebras call (`llm.py:35-43`) sits outside any `try`, so its exception escapes the checks, the classifier, the extractor and the run. The model follows the code and returns `Err(ServiceError)` in those cases. The contracts state exactly when: the error happens if and only if the service raises.

A Cerebras reply without content is not an error. The client answers with its own error string, `[cerebras-<model>] Error processing prompt` (`llm.py:44-49`), and that string flows on as an ordinary answer. The extractor makes it one statement, the classifier reads it as `general`, and a score check hands it to `float()` like any other answer.

## Model

| member | source | states |
|---|---|---|
| Llm.MakeKey | hallucination_detection/llm.py:91-92 | The key is the provider name, one colon, then the model name, and nothing else. |
| Llm.ApiKeyVariable | hallucination_detection/llm.py:64-79 | An API-key variable is read exactly for openai, anthropic, cohere and cerebras, matched case-insensitively. |
| Llm.GenerateText | hallucination_detection/llm.py:22-53 | The openai, anthropic and cohere mocks (any case) answer with their fixed prefix followed by the prompt. The only failure is a Cerebras-named client whose service raises. Cerebras content is returned unchanged, and a reply without content gives `[cerebras-<model>] Error processing prompt`. |
| Llm.MockIgnoresService | hallucination_detection/llm.py:25-30 | A client that is not Cerebras never fails and never consults the service: any two services give the same answer. |
| Llm.MockEchoesPrompt | hallucination_detection/llm.py:25-51 | A client that is not Cerebras answers with a non-empty prefix followed by the whole prompt. |
| Llm.GenerateTextUnknownProvider | hallucination_detection/llm.py:50-51 | Any other provider gets exactly `[name-model] Response to prompt: ` followed by the prompt. |
| Llm.Registered | hallucination_detection/llm.py:81-83 | Registration adds the pair's key, stores a client with that name and model, and leaves every other entry unchanged. |
| Llm.Lookup | hallucination_detection/llm.py:86-89 | The lookup succeeds exactly when the key is present and returns the stored client; otherwise it fails with KeyError on that key. |
| Llm.LLMContainer.constructor | hallucination_detection/llm.py:59-61 | A new container is empty. |
| Llm.LLMContainer.RegisterLlm | hallucination_detection/llm.py:63-84 | The map becomes `Registered(old map, name, model)`. A missing API key never stops registration. |
| Llm.LLMContainer.GetLlm | hallucination_detection/llm.py:86-89 | The result is `Lookup` on the current map: the stored client, or KeyError. |
| Llm.RegisterThenGet | hallucination_detection/llm.py:81-89 | After registering (n, m), looking up (n, m) gives a client named n with model m. |
| Llm.ReregisterReplaces | hallucination_detection/llm.py:82-83 | Registering a pair twice is the same as registering it once. |
| Llm.UnregisteredFails | hallucination_detection/llm.py:86-89 | A pair never registered fails with KeyError(`n:m`). |
| Llm.MakeKeyNotInjective | hallucination_detection/llm.py:91-92 | ("a:b", "c") and ("a", "b:c") share a key, so the second registration overwrites the first. |
| Llm.MakeKeyInjectiveWithoutColon | hallucination_detection/llm.py:91-92 | With colon-free provider names, equal keys mean equal pairs, and the converse holds. |
| Llm.ProviderCaseSensitiveKey | hallucination_detection/llm.py:63-92 | "Cerebras" and "cerebras" load the same API key, but a client registered as "Cerebras" is not found as "cerebras". |
| Llm.RegistryOfHasLast | hallucination_detection/llm.py:81-89 | In a container built by successive registrations, the pair registered last is always found as itself. |
| Text.Strip | hallucination_detection/statement_parser.py:36 | `strip()` leaves no whitespace at either end, and gives the empty string exactly for blank input. |
| Text.StripIdempotent | hallucination_detection/statement_parser.py:36 | Stripping twice is stripping once. |
| Text.StripPadded | hallucination_detection/statement_parser.py:36 | `strip()` removes exactly the blank padding around a text that has none of its own. |
| Text.Lower | hallucination_detection/domain_classification.py:38 | `lower()` keeps the length, lowercases each character on its own, and leaves no ASCII capital letter. |
| Text.LowerIdempotent | hallucination_detection/domain_classification.py:38 | Lowercasing twice is lowercasing once. |
| Text.StripLower | hallucination_detection/domain_classification.py:38 | `strip()` and `lower()` commute. |
| Text.SplitOn | hallucination_detection/statement_parser.py:68 | `split('\n')` gives at least one piece, and no piece holds a newline. |
| Text.SplitOnJoin | hallucination_detection/statement_parser.py:68 | Splitting the newline-join of newline-free pieces gives the pieces back. |
| Text.JoinSplitOn | hallucination_detection/statement_parser.py:68 | Joining the pieces of `split('\n')` with newlines gives the text back. |
| Text.JoinAppend | hallucination_detection/statement_parser.py:99 | Joining a concatenation of two non-empty lists is joining each, with one separator between. |
| Text.Words | hallucination_detection/statement_parser.py:87 | Every element of `split()` is a non-empty run of non-whitespace. |
| Text.WordsOfJoin | hallucination_detection/statement_parser.py:99 | `" ".join(ws).split()` is `ws` for any list of words. |
| Text.WordsOfStrip | hallucination_detection/statement_parser.py:36 | Stripping a text does not change its words. |
| Text.KeepStripped | hallucination_detection/statement_parser.py:68 | The filtered comprehension keeps only non-empty, stripped pieces and is never longer than its input. |
| Text.SubstituteOnce | hallucination_detection/checks/base_check.py:36 | Filling the one field of `pre + field + post` gives `pre + value + post` whatever the value holds, when neither half contains the field's first character. |
| StatementParser.WindowSize | hallucination_detection/statement_parser.py:98 | The effective window is at least 1, and it equals `max_words` when `max_words` is positive. |
| StatementParser.WindowsFlatten | hallucination_detection/statement_parser.py:94-104 | The word groups, concatenated, are the input words: same order, nothing lost, no overlap. |
| StatementParser.WindowsSizes | hallucination_detection/statement_parser.py:96-103 | There are ceil(n / window) groups. Every group but the last has exactly the window's size; the last has between 1 and that size. |
| StatementParser.WindowsOfNonPositive | hallucination_detection/statement_parser.py:98 | With `max_words <= 0`, every word is a group of its own. |
| StatementParser.WindowsAppend | hallucination_detection/statement_parser.py:96-100 | After a whole number of windows the groups split: `Windows(a + b)` is `Windows(a) + Windows(b)`. |
| StatementParser.SplitLongText | hallucination_detection/statement_parser.py:90-104 | The loop's chunks are the window groups, each joined with single spaces. |
| StatementParser.ChunksKeepWords | hallucination_detection/statement_parser.py:94-104 | The chunks' words, read in order, are exactly the input words. |
| StatementParser.ChunksShape | hallucination_detection/statement_parser.py:94-104 | No chunk is empty, and chunk i splits back into exactly group i. |
| StatementParser.ChunkByWords | hallucination_detection/statement_parser.py:86-88 | The chunks are the window chunks of the text's words. |
| StatementParser.ChunkParagraphs | hallucination_detection/statement_parser.py:73-84 | The loop's result is each paragraph's pieces in turn: the paragraph itself when short, its chunks otherwise. |
| StatementParser.ShortParagraphVerbatim | hallucination_detection/statement_parser.py:80-81 | A paragraph of at most `max_words` words passes through verbatim, spacing and newlines included. |
| StatementParser.ParagraphPiecesKeepWords | hallucination_detection/statement_parser.py:79-83 | A paragraph's pieces hold exactly its words, in order. |
| StatementParser.ChunkedParagraphsAppend | hallucination_detection/statement_parser.py:77-84 | Paragraph order is kept and no piece spans two paragraphs: chunking a concatenation chunks each part on its own. |
| StatementParser.ChunkedParagraphsKeepWords | hallucination_detection/statement_parser.py:77-84 | The pieces of all paragraphs hold exactly the paragraphs' words, in order. |
| StatementParser.SeparatorEnd | hallucination_detection/statement_parser.py:42 | A `\n\s*\n` match is at least two characters long, lies within the text, and starts and ends with a newline. |
| StatementParser.SeparatorEndShape | hallucination_detection/statement_parser.py:42 | A match is all whitespace. Where none starts at a newline, the whitespace run after that newline holds no other newline. |
| StatementParser.SplitBlankLines | hallucination_detection/statement_parser.py:42 | `re.split` always gives at least one piece. |
| StatementParser.SeparatorBeforeStripped | hallucination_detection/statement_parser.py:42 | Any text that `\n\s*\n` matches whole (a newline, whitespace, a last newline) is matched whole when a stripped text follows it. |
| StatementParser.SplitAtBlankLine | hallucination_detection/statement_parser.py:42 | A blank line splits, whether it is empty, holds spaces or tabs, or is a run of several: the pieces of two stripped texts around any `\n\s*\n` separator are the first text's pieces, then the second's. |
| StatementParser.ParagraphsAtBlankLine | hallucination_detection/statement_parser.py:42 | The paragraphs of two stripped texts around any `\n\s*\n` separator are the first text's paragraphs, then the second's. |
| StatementParser.ParagraphsOfJoinAll | hallucination_detection/statement_parser.py:42 | Stripped paragraphs without blank lines, joined with blank lines, split back into exactly those paragraphs. |
| StatementParser.Paragraphs | hallucination_detection/statement_parser.py:42 | Paragraphs are non-empty and stripped. |
| StatementParser.ParagraphsKeepWords | hallucination_detection/statement_parser.py:42 | Splitting into paragraphs loses no word and keeps the words' order. |
| StatementParser.OneParagraphWithoutBlankLine | hallucination_detection/statement_parser.py:42 | A text without a blank-line separator is one paragraph, the stripped text, or none when it is blank. |
| StatementParser.PartitionAtBlankLine | hallucination_detection/statement_parser.py:40-45 | In paragraph mode no partition spans a blank line: the partitions of two stripped texts around any `\n\s*\n` separator are the first text's, then the second's. |
| StatementParser.PartitionText | hallucination_detection/statement_parser.py:30-48 | The method returns `Partition`: nothing for blank text, else the paragraph chunks or the word chunks of the stripped text. |
| StatementParser.PartitionOfBlank | hallucination_detection/statement_parser.py:36-38 | Empty or whitespace-only text gives no partition, in both modes. |
| StatementParser.PartitionKeepsWords | hallucination_detection/statement_parser.py:30-48 | In both modes the partitions hold the text's words, in order, each exactly once. |
| StatementParser.PartitionChunksNonEmpty | hallucination_detection/statement_parser.py:36-48 | No partition is empty, in either mode. |
| StatementParser.ChunkWordCounts | hallucination_detection/statement_parser.py:96-103 | For n words there are ceil(n / window) chunks. Every chunk but the last has exactly the window's number of words; the last has between 1 and that many. |
| StatementParser.PartitionByWords | hallucination_detection/statement_parser.py:36-48 | Word mode chunks the words of the original text: stripping and blank input change nothing. |
| StatementParser.ParserRegistryHasLargeModel | hallucination_detection/statement_parser.py:26-28 | The parser's container holds the large model under its own pair. |
| StatementParser.Statements | hallucination_detection/statement_parser.py:68 | Every statement is non-empty and stripped. |
| StatementParser.ExtractStatements | hallucination_detection/statement_parser.py:50-71 | Extraction fails exactly when the service raises. Otherwise the statements are the answer's trimmed, non-empty lines; a reply without content gives the statements of the client's error string. |
| StatementParser.NoContentIsOneStatement | hallucination_detection/statement_parser.py:65-68 | The client's error string for a reply without content is exactly one statement, itself. |
| StatementParser.StatementsOfBlank | hallucination_detection/statement_parser.py:68 | An empty or blank answer yields no statement. |
| StatementParser.StatementsConcat | hallucination_detection/statement_parser.py:68 | Statements keep the answer's line order: two blocks joined by a newline give the first block's statements, then the second's. |
| StatementParser.StatementsOfOneLine | hallucination_detection/statement_parser.py:68 | A non-blank single-line answer is one statement: the stripped line. |
| DomainClassification.Classify | hallucination_detection/domain_classification.py:38-45 | The result is always one of the seven labels. It is the trimmed, lowercased answer when that is a label, and `general` otherwise. |
| DomainClassification.LabelsNormal | hallucination_detection/domain_classification.py:16 | Every label is already trimmed and lowercase. |
| DomainClassification.ClassifyIdempotent | hallucination_detection/domain_classification.py:38-42 | A returned label, read back as an answer, gives itself. |
| DomainClassification.ClassifyIgnoresCase | hallucination_detection/domain_classification.py:38 | An answer and its lowercase form give the same label. |
| DomainClassification.ClassifyIgnoresPadding | hallucination_detection/domain_classification.py:38 | Surrounding whitespace never changes the label. |
| DomainClassification.ClassifyPaddedLabel | hallucination_detection/domain_classification.py:38 | A label in any case with whitespace on either side is recognised as that label in lowercase. |
| DomainClassification.ClassifyTrailingPunctuation | hallucination_detection/domain_classification.py:44-45 | `"history."` falls back to `general`. |
| DomainClassification.ClassifyPrefixedLabel | hallucination_detection/domain_classification.py:44-45 | `"domain: math"` falls back to `general`. |
| DomainClassification.NoContentIsGeneral | hallucination_detection/domain_classification.py:31-45 | The client's error string for an answer without content classifies as `general`. |
| DomainClassification.ClassifyText | hallucination_detection/domain_classification.py:18-45 | Classification fails exactly when the service raises; otherwise it returns a label. That label is the answer's label, or `general` for an answer without content. |
| BaseCheck.Clamp | hallucination_detection/checks/base_check.py:43 | The result is in [0, 1]. A value above 1 becomes 1, below 0 becomes 0, and a value in [0, 1] is unchanged. |
| BaseCheck.ClampMonotone | hallucination_detection/checks/base_check.py:43 | Clamping keeps order. |
| BaseCheck.ScoreOf | hallucination_detection/checks/base_check.py:42-47 | The score is in [0, 1]. It is exactly 0.5 when the stripped answer does not parse, and the clamped number otherwise. |
| BaseCheck.ScoreIgnoresPadding | hallucination_detection/checks/base_check.py:42 | Whitespace around the answer is ignored. |
| BaseCheck.ScoreInRange | hallucination_detection/checks/base_check.py:42-43 | A parsed number already in [0, 1] is the score itself. |
| BaseCheck.TruthPromptShape | hallucination_detection/checks/base_check.py:36 | A template whose only brace opens its `{text}` field gives the statement between the template's two halves. |
| BaseCheck.TruthScore | hallucination_detection/checks/base_check.py:23-49 | An unregistered pair fails with KeyError. A registered Cerebras client fails only when the service raises. Otherwise it scores the service's answer, or, for a reply without content, the client's error string. Every score is in [0, 1]. |
| BaseCheck.NoContentScore | hallucination_detection/checks/base_check.py:42-47 | The client's error string scores 0.5 whenever `float()` rejects it. |
| BaseCheck.NoContentScoresHalf | hallucination_detection/checks/base_check.py:38-47 | A Cerebras reply without content scores exactly 0.5 when `float()` rejects the client's error string. |
| BaseCheck.UnparsableScoresHalf | hallucination_detection/checks/base_check.py:45-47 | An answer that does not parse scores exactly 0.5. |
| GeneralCheck.CheckGeneral | hallucination_detection/checks/general_check.py:10-28 | The lookup of the default pair never fails. The check fails only when the service raises, its score is in [0, 1], and an unparsable answer scores 0.5. A reply without content is scored through the client's error string, so it scores 0.5 when `float()` rejects that string. |
| GeneralCheck.CheckNone | hallucination_detection/checks/general_check.py:36-39 | Every input scores exactly 1. |
| HistoryCheck.HistoryRegistryOnlyDefault | hallucination_detection/checks/history_check.py:11-14 | The container holds exactly the default pair. |
| HistoryCheck.CheckHistory | hallucination_detection/checks/history_check.py:11-28 | The lookup of the default pair never fails. The check fails only when the service raises, its score is in [0, 1], and an unparsable answer scores 0.5. A reply without content is scored through the client's error string, so it scores 0.5 when `float()` rejects that string. |
| MathCheck.MathPrompt | hallucination_detection/checks/math_check.py:17-26 | The prompt is the template with its single `{text}` field replaced by the statement. |
| MathCheck.CheckMath | hallucination_detection/checks/math_check.py:10-28 | The check asks the large model, which it registered. It fails only when the service raises, its score is in [0, 1], and an unparsable answer scores 0.5. A reply without content is scored through the client's error string, so it scores 0.5 when `float()` rejects that string. |
| LogicCheck.LogicRegistryHoldsBoth | hallucination_detection/checks/logic_check.py:9-12 | Both models are registered, each under its own pair. |
| LogicCheck.CheckLogic | hallucination_detection/checks/logic_check.py:9-26 | The check asks the 70b model, which is registered. It fails only when the service raises, its score is in [0, 1], and an unparsable answer scores 0.5. A reply without content is scored through the client's error string, so it scores 0.5 when `float()` rejects that string. |
| PaperCheck.QuotedSpan | hallucination_detection/checks/paper_check.py:21 | A span is found exactly when the quote character occurs twice. The span holds no quote and lies between two quotes of the text. |
| PaperCheck.QuotedSpanOf | hallucination_detection/checks/paper_check.py:21-23 | The span is exactly the text between the first two quotes. |
| PaperCheck.Title | hallucination_detection/checks/paper_check.py:21-25 | The title is always a piece of the statement. |
| PaperCheck.TitleDoubleQuoted | hallucination_detection/checks/paper_check.py:21-23 | A double-quoted title is taken, whatever single quotes come before it. |
| PaperCheck.TitleSingleQuoted | hallucination_detection/checks/paper_check.py:21-23 | Without a pair of double quotes, the single-quoted title is taken. |
| PaperCheck.TitleUnquoted | hallucination_detection/checks/paper_check.py:24-25 | With no pair of either quote, the title is the whole statement. |
| PaperCheck.TitleEmptyQuotes | hallucination_detection/checks/paper_check.py:21-23 | An empty `""` gives the empty title, even when a single-quoted title follows. |
| PaperCheck.CheckPaper | hallucination_detection/checks/paper_check.py:17-53 | The score is 0.95, 0.90 or 0.1. It is 0.95 exactly on a Scholar hit, and 0.90 exactly on a Scholar miss or failure with an arXiv hit. Nothing fails. |
| PaperCheck.ScholarHitIgnoresArxiv | hallucination_detection/checks/paper_check.py:31-35 | On a Scholar hit, arXiv is never consulted: any arXiv gives 0.95. |
| PaperCheck.SameTitleSameScore | hallucination_detection/checks/paper_check.py:27-53 | Only the extracted title matters to the score. |
| LatestNewsCheck.Scrub | hallucination_detection/checks/latest_news_check.py:36 | Only word characters and whitespace remain, and the text never grows. |
| LatestNewsCheck.ScrubKeeps | hallucination_detection/checks/latest_news_check.py:36 | Text of word characters and whitespace is left as it is. |
| LatestNewsCheck.ScrubConcat | hallucination_detection/checks/latest_news_check.py:36 | Scrubbing works character by character: it distributes over concatenation. |
| LatestNewsCheck.ScrubDeletes | hallucination_detection/checks/latest_news_check.py:36 | Any character that is neither a word character nor whitespace is deleted, and the text on either side of it is scrubbed as before. |
| LatestNewsCheck.ScrubContraction | hallucination_detection/checks/latest_news_check.py:36 | `don't` scrubs to `dont`: an apostrophe vanishes rather than splitting the word. |
| LatestNewsCheck.LongWords | hallucination_detection/checks/latest_news_check.py:37 | Every kept word is longer than 3 characters and comes from the input. |
| LatestNewsCheck.LongWordsKeepsLong | hallucination_detection/checks/latest_news_check.py:37 | Every word longer than 3 characters is kept. |
| LatestNewsCheck.LongWordsDropsShort | hallucination_detection/checks/latest_news_check.py:37 | A word of at most 3 characters is dropped, and the words around it are filtered as before. |
| LatestNewsCheck.LongWordsAppend | hallucination_detection/checks/latest_news_check.py:37 | The filter works word by word: it distributes over concatenation, keeping the order. |
| LatestNewsCheck.LongWordsKeeps | hallucination_detection/checks/latest_news_check.py:37 | A list of long words is kept whole, in order. |
| LatestNewsCheck.Keywords | hallucination_detection/checks/latest_news_check.py:36-37 | Every keyword is a whitespace-free word longer than 3 characters. |
| LatestNewsCheck.KeywordsOfJoin | hallucination_detection/checks/latest_news_check.py:36-37 | The keywords of plain words joined by spaces are exactly the words longer than 3 characters, in order. |
| LatestNewsCheck.KeywordsOfPlainWords | hallucination_detection/checks/latest_news_check.py:36-37 | A space-separated list of long plain words is its own keyword list, in order. |
| LatestNewsCheck.KeywordsOfScrubbed | hallucination_detection/checks/latest_news_check.py:36 | A statement and its scrubbed form have the same keywords. |
| LatestNewsCheck.Query | hallucination_detection/checks/latest_news_check.py:47 | No keyword gives the empty query, and a single keyword is the query itself. |
| LatestNewsCheck.QueryAppend | hallucination_detection/checks/latest_news_check.py:47 | Each further list of keywords adds ` OR ` and their own query. |
| LatestNewsCheck.SearchNews | hallucination_detection/checks/latest_news_check.py:25-64 | A missing client or no keywords gives no article. Otherwise the result is the service's articles for the keywords joined with ` OR `, and none when it raises. |
| LatestNewsCheck.NoKeywordsNoQuery | hallucination_detection/checks/latest_news_check.py:39-41 | Without a keyword the service is never asked: any two services give the same empty result. |
| LatestNewsCheck.Headlines | hallucination_detection/checks/latest_news_check.py:77-80 | There is one `Headline: <title>` line for each of the first three articles, in order, and no more. |
| LatestNewsCheck.Context | hallucination_detection/checks/latest_news_check.py:77-80 | The context is empty exactly when there is no article, and otherwise starts with the first article's `Headline:` line. |
| LatestNewsCheck.ContextLines | hallucination_detection/checks/latest_news_check.py:77-80 | The context's lines are those headlines when no title holds a newline. |
| LatestNewsCheck.ContextTopThree | hallucination_detection/checks/latest_news_check.py:77-80 | Articles after the third never reach the context. |
| LatestNewsCheck.NewsPromptFormattedOnce | hallucination_detection/checks/latest_news_check.py:94-98 | When the statement and headlines have no braces, the second formatting pass leaves the prompt unchanged. |
| LatestNewsCheck.CheckNews | hallucination_detection/checks/latest_news_check.py:66-101 | With no articles the score is exactly 0.1, without a model call. Otherwise the large model's score fails only when the service raises. A reply without content scores 0.5 when `float()` rejects the client's error string. Every score is in [0, 1]. |
| CheckAggregator.TableCoversLabels | hallucination_detection/check_aggregator.py:23-31 | The domain table's keys are exactly the classifier's seven labels. |
| CheckAggregator.TableNamesChecks | hallucination_detection/check_aggregator.py:23-31 | Each domain maps to the check of its own name. |
| CheckAggregator.CheckFact | hallucination_detection/check_aggregator.py:39 | Every check's score is in [0, 1], and the paper and opinion checks never fail. |
| CheckAggregator.CheckFor | hallucination_detection/check_aggregator.py:37 | A domain in the table gets its check; any other domain gets the general check. |
| CheckAggregator.CheckStatement | hallucination_detection/check_aggregator.py:34-40 | The returned domain is the classifier's output, and the score is what that domain's check returns. The score is in [0, 1]. It fails exactly when classification or that check fails. |
| CheckAggregator.ClassifiedDomainInTable | hallucination_detection/check_aggregator.py:36-37 | Every classified domain is in the table, so the fallback is never used. |
| CheckAggregator.OpinionScoresOne | hallucination_detection/check_aggregator.py:36-40 | A statement classified `none` scores 1. |
| Report.RiskTier | hallucination_detection/main.py:75-83 | Good exactly above 0.9. Low risk exactly on (0.6, 0.9]. High risk exactly at or below 0.6. |
| Report.TierBoundaries | hallucination_detection/main.py:78-83 | 0.9 is low risk and 0.6 is high risk. |
| Report.TierMonotone | hallucination_detection/main.py:75-83 | A higher score never gets a worse tier. |
| Report.StatementRecords | hallucination_detection/main.py:53-61 | A partition's loop fails exactly when some statement's check fails, and otherwise gives one record per statement. |
| Report.Records | hallucination_detection/main.py:50-61 | A normal run gives one record per extracted statement. |
| Report.StatementRecordsStep | hallucination_detection/main.py:53-61 | One more statement either appends its record, numbered after the others, or ends the loop with its check's failure. |
| Report.RecordsStep | hallucination_detection/main.py:50-61 | One more partition either appends its block of records or ends the run with its extraction's or a check's failure. |
| Report.StatementRecordsFailPrefix | hallucination_detection/main.py:53-61 | A failing check ends the partition's loop with that failure. |
| Report.RecordsFailPrefix | hallucination_detection/main.py:50-61 | A failing extraction or check ends the run with that failure. |
| Report.CheckPartition | hallucination_detection/main.py:53-61 | The inner loop's records are `StatementRecords` of the partition's statements. |
| Report.BuildRecords | hallucination_detection/main.py:50-61 | The nested loop's result is `Records` of the partitions. |
| Report.StatementRecordsShape | hallucination_detection/main.py:53-61 | There is one record per statement, numbered 1, 2, ... in order, each holding the aggregator's score and domain for its statement. |
| Report.RecordsShape | hallucination_detection/main.py:50-61 | There is one record per extracted statement, in strict partition-then-statement order. Each record is numbered from 1 and holds the aggregator's score and domain for its statement. |
| Report.RecordsInRange | hallucination_detection/main.py:54-60 | Every record of a normal run has a score in [0, 1] and one of the classifier's labels. |

## Left out

- The Cerebras SDK, Google Scholar, arXiv and NewsAPI calls, and all environment-variable reads, are fields of `Environment.Env`. The model assumes each service answers the same prompt the same way.
- Python's `float()` is an oracle `string -> Option<real>`. NaN, infinities and IEEE rounding are not modelled; in the source, NaN ends up as 1.0 through the clamp.
- CheckGeneral: the 0.5 score of a reply without content is stated under the hypothesis that `float()` rejects the client's error string, because `float()` is an oracle here; without it the contract gives the score of that string.
- CheckHistory: the same hypothesis on `float()` gives the 0.5 score of a reply without content.
- CheckMath: the same hypothesis on `float()` gives the 0.5 score of a reply without content.
- CheckLogic: the same hypothesis on `float()` gives the 0.5 score of a reply without content.
- CheckNews: the same hypothesis on `float()` gives the 0.5 score of a reply without content.
- Python's `str.format` is modelled as literal replacement of `{text}`. Escaped braces, and the exceptions a stray brace raises, are not modelled. `latest_news_check.py` formats its template (line 96) and `base_check.py` formats the result again (line 36), so a brace in a statement or headline can raise outside any `try`. `LatestNewsCheck.NewsPromptFormattedOnce` covers only brace-free input.
- The prompt wording is replaced by short stand-in templates. Only the position of the statement, the labels and the context is kept.
- The `\w` class and `lower()` are ASCII-only here. Python's Unicode letters and case mappings are not modelled, and neither are Unicode `\s` characters outside the `str.isspace` set.
- `datetime.now()` and the 7-day `from_param` window of the news query are not modelled. Neither are the `language`, `sort_by` and `page_size` arguments, which only shape the service's answer.
- The `isinstance(text, str)` guard in `_search_news` always holds for a `string`.
- An article without a `title` key, which raises a KeyError in the source, is not modelled; `Article` always has a title.
- A Cerebras reply whose content is `None` is not modelled. In the source it makes the first string method called on it raise.
- File reading, printing and the summary loop's output in `main.py` are left out. So is the unused container it builds on lines 20-24. Only the risk tiers and the record loop are modelled. The driver's parser settings, paragraph mode with 200 words, are arguments of `StatementParser.Partition`.
- `debug_logger.py` (console logging) and `check_structure.py` (file-existence checks) are not part of this model.
- Each call happens exactly once per statement by construction: the classifier, the chosen check and the extractor are each applied once in the functions. Call counts are not stated as a separate property.
- `HistoryCheck` replaces its inherited empty container with a new empty one. The model builds the resulting container directly, since the two are equal.
- The `GeneralCheck()` built as the default argument of the table lookup is created on every call. It has no effect beyond its own container, so the model uses the `General` check directly.
