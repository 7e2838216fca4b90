/** `CheckAggregator`: classify a statement once, pick the check its domain
    maps to (the general check when none does), and run that check once. */
module CheckAggregator {
  import opened Wrappers
  import opened Llm
  import opened Environment
  import opened DomainClassification
  import GeneralCheck
  import HistoryCheck
  import MathCheck
  import LogicCheck
  import PaperCheck
  import LatestNewsCheck

  /** The checks, one per domain. */
  datatype Check = History | Paper | Math | Logic | General | LatestNews | NoneCheck

  /** `check_map`: the domain table built by the constructor. */
  const CheckTable: map<string, Check> := map[
    "history" := History,
    "paper" := Paper,
    "math" := Math,
    "logic" := Logic,
    "general" := General,
    "latest_news" := LatestNews,
    "none" := NoneCheck]

  /** The table's domains are exactly the classifier's labels. */
  lemma TableCoversLabels()
    ensures CheckTable.Keys == set d | d in Labels
  {
    assert Labels == ["history", "paper", "math", "logic", "latest_news", "general", "none"];
  }

  /** Each domain is checked by the check of its own name. */
  lemma TableNamesChecks()
    ensures CheckTable["history"] == History && CheckTable["paper"] == Paper
    ensures CheckTable["math"] == Math && CheckTable["logic"] == Logic
    ensures CheckTable["general"] == General && CheckTable["latest_news"] == LatestNews
    ensures CheckTable["none"] == NoneCheck
  {
  }

  /** `check_fact` of each check. */
  function CheckFact(check: Check, text: string, env: Env): (r: Result<real, Failure>)
    ensures r.Ok? ==> 0.0 <= r.value <= 1.0
    ensures check.NoneCheck? || check.Paper? ==> r.Ok?
  {
    match check
    case History => HistoryCheck.CheckHistory(text, env)
    case Paper => Ok(PaperCheck.CheckPaper(text, env.scholar, env.arxiv))
    case Math => MathCheck.CheckMath(text, env)
    case Logic => LogicCheck.CheckLogic(text, env)
    case General => GeneralCheck.CheckGeneral(text, env)
    case LatestNews => LatestNewsCheck.CheckNews(text, env)
    case NoneCheck => Ok(GeneralCheck.CheckNone(text))
  }

  /** The check a domain is mapped to, the general one for an unknown domain. */
  function CheckFor(domain: string): (check: Check)
    ensures domain in CheckTable ==> check == CheckTable[domain]
    ensures domain !in CheckTable ==> check == General
  {
    if domain in CheckTable then CheckTable[domain] else General
  }

  /** `check_statement`: the score of the check the classified domain maps
      to, with that domain. A failure of either step propagates. */
  function CheckStatement(text: string, env: Env): (r: Result<(real, string), Failure>)
    ensures r.Ok? ==> 0.0 <= r.value.0 <= 1.0 && r.value.1 in Labels
    ensures r.Ok? ==> ClassifyText(text, env) == Ok(r.value.1)
    ensures r.Ok? ==> CheckFact(CheckFor(r.value.1), text, env) == Ok(r.value.0)
    ensures r.Err? <==> ClassifyText(text, env).Err? || CheckFact(CheckFor(ClassifyText(text, env).value), text, env).Err?
  {
    var domain :- ClassifyText(text, env);
    var score :- CheckFact(CheckFor(domain), text, env);
    Ok((score, domain))
  }

  /** The general fallback is never needed: every domain the classifier
      returns is in the table. */
  lemma ClassifiedDomainInTable(text: string, env: Env)
    requires ClassifyText(text, env).Ok?
    ensures ClassifyText(text, env).value in CheckTable
    ensures CheckFor(ClassifyText(text, env).value) == CheckTable[ClassifyText(text, env).value]
  {
    TableCoversLabels();
  }

  /** An opinion is trusted outright: a statement classified `none` scores 1. */
  lemma OpinionScoresOne(text: string, env: Env)
    requires ClassifyText(text, env) == Ok("none")
    ensures CheckStatement(text, env) == Ok((1.0, "none"))
  {
    assert CheckFor("none") == NoneCheck;
    assert CheckFact(NoneCheck, text, env) == Ok(1.0);
  }
}
