/** The benchmark's decision and bookkeeping: each trial compares the two
    systems' average lookup times, and a loop over the fixed number of trials
    counts how often each system won. */
module Benchmark {
  import opened KeyEncoder
  import opened Dataset

  /** Number of trials the benchmark runs. */
  const NumOfObservations: nat := 100

  /** The outcome of one trial: true when the first system (MySQL) was
      strictly faster on average. Each total is divided by the sample size;
      equal averages count as a win for the second system (PostgreSQL). */
  function MysqlFaster(mysqlTotal: real, postgresTotal: real): (won: bool)
    ensures won <==> mysqlTotal < postgresTotal
  {
    var n := NumOfTests as real;
    mysqlTotal / n < postgresTotal / n
  }

  /** Sum of the measured query times. */
  function Sum(times: seq<real>): real
  {
    if times == [] then 0.0 else Sum(times[..|times| - 1]) + times[|times| - 1]
  }

  /** One system's half of a trial. Sampled number `sample[k]` is encoded and
      looked up; `times[k]` is the time that query took (the clock is not
      modelled, so the readings are given). The source asserts that each
      result is the decimal form of the number and aborts otherwise: None
      here. On success the result is the total time, which the trial then
      divides by the sample size. */
  method TimedLookups(table: map<string, string>, sample: seq<int>, times: seq<real>)
    returns (total: Option<real>)
    requires |times| == |sample|
    requires forall k :: 0 <= k < |sample| ==> sample[k] >= 1
    ensures total.Some? <==> forall k :: 0 <= k < |sample| ==> LookupCheck(table, sample[k])
    ensures total.Some? ==> total.value == Sum(times)
  {
    var sum := 0.0;
    for i := 0 to |sample|
      invariant forall k :: 0 <= k < i ==> LookupCheck(table, sample[k])
      invariant sum == Sum(times[..i])
    {
      var currency := GenerateCrypto(sample[i]);
      var res := Lookup(table, currency);
      if res != Some(Decimal(sample[i])) {
        return None;
      }
      assert times[..i + 1][..i] == times[..i];
      sum := sum + times[i];
    }
    assert times[..|sample|] == times;
    return Some(sum);
  }

  /** One trial: MySQL's lookups, then PostgreSQL's, over the same sample,
      and the comparison of the two averages. None when a self-check fails. */
  method Observe(mysqlTable: map<string, string>, postgresTable: map<string, string>,
                 sample: seq<int>, mysqlTimes: seq<real>, postgresTimes: seq<real>)
    returns (res: Option<bool>)
    requires |mysqlTimes| == |sample| && |postgresTimes| == |sample|
    requires forall k :: 0 <= k < |sample| ==> sample[k] >= 1
    ensures res.Some? <==> forall k :: 0 <= k < |sample| ==>
      LookupCheck(mysqlTable, sample[k]) && LookupCheck(postgresTable, sample[k])
    ensures res.Some? ==> res.value == (Sum(mysqlTimes) < Sum(postgresTimes))
  {
    var mysqlTotal := TimedLookups(mysqlTable, sample, mysqlTimes);
    if mysqlTotal.None? {
      return None;
    }
    var postgresTotal := TimedLookups(postgresTable, sample, postgresTimes);
    if postgresTotal.None? {
      return None;
    }
    return Some(MysqlFaster(mysqlTotal.value, postgresTotal.value));
  }

  /** Number of true entries in a sequence of trial outcomes. */
  function CountTrue(s: seq<bool>): (c: nat)
    ensures c <= |s|
  {
    if s == [] then 0 else CountTrue(s[..|s| - 1]) + (if s[|s| - 1] then 1 else 0)
  }

  /** Number of false entries in a sequence of trial outcomes. */
  function CountFalse(s: seq<bool>): nat
  {
    if s == [] then 0 else CountFalse(s[..|s| - 1]) + (if s[|s| - 1] then 0 else 1)
  }

  /** Every outcome is either true or false, never both. */
  lemma {:induction false} CountTrueFalse(s: seq<bool>)
    ensures CountTrue(s) + CountFalse(s) == |s|
  {
    if s != [] {
      CountTrueFalse(s[..|s| - 1]);
    }
  }

  /** The tally loop: outcome `results[seed]` of trial `seed` adds one to
      exactly one of the two counters. */
  method Tally(results: seq<bool>) returns (mysqlWins: nat, postgresWins: nat)
    requires |results| == NumOfObservations
    ensures mysqlWins == CountTrue(results)
    ensures postgresWins == CountFalse(results)
    ensures mysqlWins + postgresWins == NumOfObservations
  {
    mysqlWins, postgresWins := 0, 0;
    for seed := 0 to NumOfObservations
      invariant mysqlWins == CountTrue(results[..seed])
      invariant postgresWins == CountFalse(results[..seed])
    {
      assert results[..seed + 1][..seed] == results[..seed];
      if results[seed] {
        mysqlWins := mysqlWins + 1;
      } else {
        postgresWins := postgresWins + 1;
      }
    }
    assert results[..NumOfObservations] == results;
    CountTrueFalse(results);
  }
}
