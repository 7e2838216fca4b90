/** The driver's core: every statement extracted from every partition is
    checked and recorded, numbered by partition and by position, and each
    record's score is read as a risk tier. */
module Report {
  import opened Wrappers
  import opened Llm
  import opened Environment
  import opened StatementParser
  import opened CheckAggregator
  import DomainClassification

  /** The risk tiers of the summary. */
  datatype Tier = Good | LowRisk | HighRisk

  /** The tier of a score: above 0.9 is good, above 0.6 low risk, anything
      else high risk. */
  function RiskTier(score: real): (tier: Tier)
    ensures tier == Good <==> score > 0.9
    ensures tier == LowRisk <==> 0.6 < score <= 0.9
    ensures tier == HighRisk <==> score <= 0.6
  {
    if score > 0.9 then Good
    else if score > 0.6 then LowRisk
    else HighRisk
  }

  /** How good a tier is: a larger rank is a better tier. */
  function Rank(tier: Tier): nat {
    match tier
    case HighRisk => 0
    case LowRisk => 1
    case Good => 2
  }

  /** The bounds belong to the tier below them. */
  lemma TierBoundaries()
    ensures RiskTier(0.9) == LowRisk
    ensures RiskTier(0.6) == HighRisk
  {
  }

  /** A higher score never gets a worse tier. */
  lemma TierMonotone(a: real, b: real)
    requires a <= b
    ensures Rank(RiskTier(a)) <= Rank(RiskTier(b))
  {
  }

  /** One entry of `all_statements`; both numbers count from 1. */
  datatype Record = Record(statement: string, score: real, domain: string, partition: nat, statementNum: nat)

  /** Statement extraction and statement checking, as the loop sees them. */
  type Extractor = string -> Result<seq<string>, Failure>
  type Checker = string -> Result<(real, string), Failure>

  /** The driver's parser and aggregator, in a given environment. */
  function Extract(env: Env): Extractor {
    partition => ExtractStatements(partition, env)
  }

  function Check(env: Env): Checker {
    statement => CheckStatement(statement, env)
  }

  /** The records of one partition's statements, in order, for partition
      number `partition`; the first failing check ends the run. */
  function StatementRecords(statements: seq<string>, partition: nat, check: Checker): (r: Result<seq<Record>, Failure>)
    ensures r.Ok? ==> |r.value| == |statements|
    ensures r.Err? <==> exists j | 0 <= j < |statements| :: check(statements[j]).Err?
  {
    if statements == [] then Ok([])
    else
      var n := |statements|;
      assert forall j | 0 <= j < n - 1 :: statements[..n - 1][j] == statements[j];
      var before :- StatementRecords(statements[..n - 1], partition, check);
      var checked :- check(statements[n - 1]);
      Ok(before + [Record(statements[n - 1], checked.0, checked.1, partition, n)])
  }

  /** The records of all partitions, in order; the first failing extraction
      or check ends the run. */
  function Records(partitions: seq<string>, extract: Extractor, check: Checker): (r: Result<seq<Record>, Failure>)
    ensures r.Ok? ==> |r.value| == ExtractedCount(partitions, extract)
  {
    if partitions == [] then Ok([])
    else
      var n := |partitions|;
      var before :- Records(partitions[..n - 1], extract, check);
      var statements :- extract(partitions[n - 1]);
      var block :- StatementRecords(statements, n, check);
      Ok(before + block)
  }

  /** A failure in a prefix of the statements is the failure of the whole. */
  lemma {:induction false} StatementRecordsFailPrefix(statements: seq<string>, j: nat, partition: nat, check: Checker)
    requires j <= |statements| && StatementRecords(statements[..j], partition, check).Err?
    ensures StatementRecords(statements, partition, check) == StatementRecords(statements[..j], partition, check)
    decreases |statements|
  {
    if j < |statements| {
      var n := |statements|;
      assert statements[..n - 1][..j] == statements[..j];
      StatementRecordsFailPrefix(statements[..n - 1], j, partition, check);
    } else {
      assert statements[..j] == statements;
    }
  }

  /** A failure in a prefix of the partitions is the failure of the whole. */
  lemma {:induction false} RecordsFailPrefix(partitions: seq<string>, i: nat, extract: Extractor, check: Checker)
    requires i <= |partitions| && Records(partitions[..i], extract, check).Err?
    ensures Records(partitions, extract, check) == Records(partitions[..i], extract, check)
    decreases |partitions|
  {
    if i < |partitions| {
      var n := |partitions|;
      assert partitions[..n - 1][..i] == partitions[..i];
      RecordsFailPrefix(partitions[..n - 1], i, extract, check);
    } else {
      assert partitions[..i] == partitions;
    }
  }

  /** One more statement: its check either adds its record or ends the run. */
  lemma StatementRecordsStep(statements: seq<string>, j: nat, partition: nat, check: Checker, block: seq<Record>)
    requires j < |statements| && StatementRecords(statements[..j], partition, check) == Ok(block)
    ensures StatementRecords(statements[..j + 1], partition, check)
         == match check(statements[j])
            case Ok(checked) => Ok(block + [Record(statements[j], checked.0, checked.1, partition, j + 1)])
            case Err(e) => Err(e)
  {
    assert statements[..j + 1][..j] == statements[..j];
  }

  /** The inner loop: check each statement of partition number
      `partition` and append its record; a failing check ends the loop. */
  method CheckPartition(statements: seq<string>, partition: nat, env: Env) returns (r: Result<seq<Record>, Failure>)
    ensures r == StatementRecords(statements, partition, Check(env))
  {
    var check := Check(env);
    var block: seq<Record> := [];
    for j := 0 to |statements|
      invariant StatementRecords(statements[..j], partition, check) == Ok(block)
    {
      var checked := CheckStatement(statements[j], env);
      assert checked == check(statements[j]);
      StatementRecordsStep(statements, j, partition, check, block);
      if checked.Err? {
        StatementRecordsFailPrefix(statements, j + 1, partition, check);
        return Err(checked.error);
      }
      block := block + [Record(statements[j], checked.value.0, checked.value.1, partition, j + 1)];
    }
    assert statements[..|statements|] == statements;
    return Ok(block);
  }

  /** One more partition: its extraction and checks either add its block of
      records or end the run. */
  lemma RecordsStep(partitions: seq<string>, i: nat, extract: Extractor, check: Checker, all: seq<Record>)
    requires i < |partitions| && Records(partitions[..i], extract, check) == Ok(all)
    ensures Records(partitions[..i + 1], extract, check)
         == match extract(partitions[i])
            case Ok(statements) =>
              (match StatementRecords(statements, i + 1, check)
               case Ok(block) => Ok(all + block)
               case Err(e) => Err(e))
            case Err(e) => Err(e)
  {
    assert partitions[..i + 1][..i] == partitions[..i];
  }

  /** The result-record loop: for each partition, extract its statements,
      then check each one and append its record. An exception of the
      services ends the loop and is the result. */
  method BuildRecords(partitions: seq<string>, env: Env) returns (r: Result<seq<Record>, Failure>)
    ensures r == Records(partitions, Extract(env), Check(env))
  {
    var extract, check := Extract(env), Check(env);
    var all: seq<Record> := [];
    for i := 0 to |partitions|
      invariant Records(partitions[..i], extract, check) == Ok(all)
    {
      var extracted := ExtractStatements(partitions[i], env);
      assert extracted == extract(partitions[i]);
      RecordsStep(partitions, i, extract, check, all);
      if extracted.Err? {
        RecordsFailPrefix(partitions, i + 1, extract, check);
        return Err(extracted.error);
      }
      var block := CheckPartition(extracted.value, i + 1, env);
      if block.Err? {
        RecordsFailPrefix(partitions, i + 1, extract, check);
        return Err(block.error);
      }
      all := all + block.value;
    }
    assert partitions[..|partitions|] == partitions;
    return Ok(all);
  }

  /** The number of statements extracted from the partitions. */
  function ExtractedCount(partitions: seq<string>, extract: Extractor): nat {
    if partitions == [] then 0
    else
      var n := |partitions|;
      ExtractedCount(partitions[..n - 1], extract)
        + match extract(partitions[n - 1])
          case Ok(statements) => |statements|
          case Err(_) => 0
  }

  /** Statement `j` of a partition (from 1) has the record the aggregator
      gives it. */
  predicate RecordOf(rec: Record, statements: seq<string>, partition: nat, check: Checker) {
    && rec.partition == partition
    && 1 <= rec.statementNum <= |statements|
    && rec.statement == statements[rec.statementNum - 1]
    && check(rec.statement) == Ok((rec.score, rec.domain))
  }

  /** One record per statement, numbered 1, 2, ... in order, each holding
      the aggregator's score and domain for its statement. */
  lemma {:induction false} StatementRecordsShape(statements: seq<string>, partition: nat, check: Checker)
    requires StatementRecords(statements, partition, check).Ok?
    ensures var recs := StatementRecords(statements, partition, check).value;
      && |recs| == |statements|
      && forall k | 0 <= k < |recs| :: recs[k].statementNum == k + 1 && RecordOf(recs[k], statements, partition, check)
    decreases |statements|
  {
    if statements != [] {
      var n := |statements|;
      StatementRecordsShape(statements[..n - 1], partition, check);
    }
  }

  /** Record `a` comes before record `b` in partition-then-statement order. */
  predicate Precedes(a: Record, b: Record) {
    a.partition < b.partition || (a.partition == b.partition && a.statementNum < b.statementNum)
  }

  /** The records of a run that ends normally: one per extracted statement,
      in partition-then-statement order, numbered from 1, each holding the
      aggregator's score and domain for its statement. */
  predicate ShapedRecords(partitions: seq<string>, extract: Extractor, check: Checker, recs: seq<Record>) {
    && |recs| == ExtractedCount(partitions, extract)
    && (forall k | 0 <= k < |recs| ::
          && 1 <= recs[k].partition <= |partitions|
          && extract(partitions[recs[k].partition - 1]).Ok?
          && RecordOf(recs[k], extract(partitions[recs[k].partition - 1]).value, recs[k].partition, check))
    && (forall k, l | 0 <= k < l < |recs| :: Precedes(recs[k], recs[l]))
  }

  /** Appending the block of the last partition to well-shaped records of
      the earlier ones keeps them well shaped. */
  lemma ShapedAppend(partitions: seq<string>, extract: Extractor, check: Checker,
                     before: seq<Record>, statements: seq<string>, block: seq<Record>)
    requires partitions != [] && extract(partitions[|partitions| - 1]) == Ok(statements)
    requires ShapedRecords(partitions[..|partitions| - 1], extract, check, before)
    requires |block| == |statements|
    requires forall k | 0 <= k < |block| :: block[k].statementNum == k + 1 && RecordOf(block[k], statements, |partitions|, check)
    ensures ShapedRecords(partitions, extract, check, before + block)
  {
    var n := |partitions|;
    var init := partitions[..n - 1];
    var recs := before + block;
    forall k | 0 <= k < |before|
      ensures recs[k] == before[k]
      ensures 1 <= recs[k].partition < n
      ensures partitions[recs[k].partition - 1] == init[recs[k].partition - 1]
    {
    }
    forall k | |before| <= k < |recs|
      ensures recs[k] == block[k - |before|] && recs[k].partition == n
    {
    }
  }

  /** A run that ends normally gives records of that shape. */
  lemma {:induction false} RecordsShape(partitions: seq<string>, extract: Extractor, check: Checker)
    requires Records(partitions, extract, check).Ok?
    ensures var recs := Records(partitions, extract, check).value;
      && |recs| == ExtractedCount(partitions, extract)
      && (forall k | 0 <= k < |recs| ::
            && 1 <= recs[k].partition <= |partitions|
            && extract(partitions[recs[k].partition - 1]).Ok?
            && RecordOf(recs[k], extract(partitions[recs[k].partition - 1]).value, recs[k].partition, check))
      && (forall k, l | 0 <= k < l < |recs| :: Precedes(recs[k], recs[l]))
    decreases |partitions|
  {
    if partitions != [] {
      var n := |partitions|;
      var init := partitions[..n - 1];
      RecordsShape(init, extract, check);
      var before := Records(init, extract, check).value;
      var statements := extract(partitions[n - 1]).value;
      StatementRecordsShape(statements, n, check);
      var block := StatementRecords(statements, n, check).value;
      assert Records(partitions, extract, check).value == before + block;
      ShapedAppend(partitions, extract, check, before, statements, block);
    }
  }

  /** Every record of a normal run has a score in [0, 1], hence a tier,
      and one of the classifier's domains. */
  lemma RecordsInRange(partitions: seq<string>, env: Env)
    requires Records(partitions, Extract(env), Check(env)).Ok?
    ensures var recs := Records(partitions, Extract(env), Check(env)).value;
      forall k | 0 <= k < |recs| :: 0.0 <= recs[k].score <= 1.0 && recs[k].domain in DomainClassification.Labels
  {
    RecordsShape(partitions, Extract(env), Check(env));
  }
}
