/** The metrics module: the shared fields, the calls that change them, and what a scrape shows. */
module Metrics {
  import opened Text
  import opened Sorting
  import opened Dict
  import opened Counters
  import opened Exposition
  import opened ExpositionProofs
  import opened Interleaving

  class Metrics {
    var requests: Dict<nat>
    var validations: Dict<nat>
    var latencySum: real
    var latencyCount: nat
    var version: string

    ghost function Value(): Counters
      reads this
    {
      Counters(requests, validations, latencySum, latencyCount)
    }

    constructor ()
      ensures Value() == ZERO && version == "unknown"
    {
      requests, validations, latencySum, latencyCount, version := [], [], 0.0, 0, "unknown";
    }

    method SetVersion(version: string)
      modifies this`version
      ensures this.version == version
    {
      this.version := version;
    }

    method RecordRequest(outcome: string, duration: real)
      modifies this`requests, this`latencySum, this`latencyCount
      ensures Value() == Effect(old(Value()), Op.RecordRequest(outcome, duration))
    {
      requests := Put<nat>(requests, outcome, GetOr(requests, outcome, 0) + 1);
      latencySum := latencySum + duration;
      latencyCount := latencyCount + 1;
    }

    method RecordValidation(ok: bool)
      modifies this`validations
      ensures Value() == Effect(old(Value()), Op.RecordValidation(ok))
    {
      var key := if ok then "true" else "false";
      validations := Put<nat>(validations, key, GetOr(validations, key, 0) + 1);
    }

    /** `show` is how the latency sum is printed. */
    method Render(show: real -> string) returns (text: string)
      ensures text == RenderText(Value(), version, show(latencySum))
    {
      hide SortStrings, EscapeLabel, Decimal, Get, Join, INFO, REQUESTS, VALIDATIONS, LATENCY, RequestLines,
        ValidationLines;
      var lines := [INFO_HELP, INFO_TYPE, INFO_PREFIX + EscapeLabel(version) + "\"} 1", REQUESTS_HELP, REQUESTS_TYPE];
      ghost var head := lines;
      var outcomes := SortStrings(Keys(requests));
      for i := 0 to |outcomes|
        invariant lines == head + RequestLines(requests, outcomes)[..i]
      {
        LinesNext(RequestLines(requests, outcomes), i);
        lines := lines + [REQUESTS_PREFIX + EscapeLabel(outcomes[i]) + "\"} "
          + Decimal(GetOr(requests, outcomes[i], 0))];
      }
      assert RequestLines(requests, outcomes)[..|outcomes|] == RequestLines(requests, outcomes);
      lines := lines + [VALIDATIONS_HELP, VALIDATIONS_TYPE];
      ghost var middle := lines;
      var verdicts := SortStrings(Keys(validations));
      for i := 0 to |verdicts|
        invariant lines == middle + ValidationLines(validations, verdicts)[..i]
      {
        LinesNext(ValidationLines(validations, verdicts), i);
        lines := lines + [VALIDATIONS_PREFIX + verdicts[i] + "\"} " + Decimal(GetOr(validations, verdicts[i], 0))];
      }
      assert ValidationLines(validations, verdicts)[..|verdicts|] == ValidationLines(validations, verdicts);
      lines := lines + [LATENCY_HELP, LATENCY_TYPE, SUM_PREFIX + show(latencySum), COUNT_PREFIX
        + Decimal(latencyCount)];
      text := Join(lines, "\n") + "\n";
    }
  }

  lemma LinesNext(lines: seq<string>, i: nat)
    requires i < |lines|
    ensures lines[..i + 1] == lines[..i] + [lines[i]]
  {
  }

  // ----- What a scrape shows -----------------------------------------------

  lemma {:induction false} TotalWithout(d: Dict<nat>, j: nat)
    requires j < |d|
    ensures Total(d) == d[j].1 + Total(d[..j] + d[j + 1..])
  {
    if j == 0 {
      assert d[..0] + d[1..] == d[1..];
    } else {
      TotalWithout(d[1..], j - 1);
      TailWithout(d, j);
    }
  }

  /** A total does not depend on the order of the entries. */
  lemma {:induction false} TotalPermuted(d: Dict<nat>, e: Dict<nat>)
    requires multiset(d) == multiset(e)
    ensures Total(d) == Total(e)
    decreases |d|
  {
    if d == [] {
      EmptyPermutation(d, e);
    } else {
      hide Total;
      var j := HeadInPermutation(d, e);
      TotalWithout(d, 0);
      TotalWithout(e, j);
      TotalPermuted(d[..0] + d[1..], e[..j] + e[j + 1..]);
    }
  }

  lemma {:induction false} SortedTotal(d: Dict<nat>)
    requires Unique(d)
    ensures Total(SortedCounts(d)) == Total(d)
  {
    hide LexLe, Get, Total, StableSort, EntriesOr;
    var ks := SortStrings(Keys(d));
    SortedDistinct(Keys(d));
    forall k ensures k in ks <==> Has(d, k) {
      SortMembers(LexLe, Keys(d), k);
      HasIsKey(d, k);
    }
    EntriesPermute(d, ks, 0);
    TotalPermuted(SortedCounts(d), d);
  }

  /** Counts that are not read leave a smaller total, as every count is positive. */
  lemma {:induction false} TotalKept(d: Dict<nat>, ks: seq<string>)
    requires forall i :: 0 <= i < |ks| ==> GetOr(d, ks[i], 0) > 0
    ensures Total(KeptCounts(d, ks)) <= Total(EntriesOr(d, ks, 0))
    ensures Total(KeptCounts(d, ks)) == Total(EntriesOr(d, ks, 0)) <==> forall i :: 0 <= i < |ks| ==> OneLine(ks[i])
  {
    hide OneLine, Get;
    if ks == [] {
    } else {
      TotalKept(d, ks[1..]);
      assert forall i :: 1 <= i < |ks| ==> ks[i] == ks[1..][i - 1];
      assert EntriesOr(d, ks, 0)[1..] == EntriesOr(d, ks[1..], 0);
      if OneLine(ks[0]) {
        assert KeptCounts(d, ks)[1..] == KeptCounts(d, ks[1..]);
      } else {
        assert [] + KeptCounts(d, ks[1..]) == KeptCounts(d, ks[1..]);
      }
    }
  }

  /** No recorded outcome contains a newline. */
  ghost predicate OneLineOutcomes(log: seq<Op>) {
    forall i :: 0 <= i < |log| && log[i].RecordRequest? ==> OneLine(log[i].outcome)
  }

  lemma {:induction false} KeysOfLog(log: seq<Op>)
    ensures var d := Replay(log).requests; var ks := SortStrings(Keys(d));
      && (OneLineOutcomes(log) <==> forall i :: 0 <= i < |ks| ==> OneLine(ks[i]))
      && forall i :: 0 <= i < |ks| ==> GetOr(d, ks[i], 0) > 0
  {
    hide Replay, OneLine, StableSort, Get;
    var d := Replay(log).requests;
    var ks := SortStrings(Keys(d));
    forall k ensures k in ks <==> Recorded(log, k)
      ensures k in ks ==> GetOr(d, k, 0) > 0
    {
      SortMembers(LexLe, Keys(d), k);
      HasIsKey(d, k);
      ReplayOutcomes(log, k);
    }
    if OneLineOutcomes(log) {
      forall i | 0 <= i < |ks| ensures OneLine(ks[i]) {
        assert ks[i] in ks;
        var j :| 0 <= j < |log| && IsOutcome(ks[i])(log[j]);
      }
    }
    forall i | 0 <= i < |log| && log[i].RecordRequest? ensures log[i].outcome in ks {
      assert IsOutcome(log[i].outcome)(log[i]);
    }
  }

  /**
   * When a scrape adds up: in any run of any number of threads, the request counts a reader finds in the text of a
   * `render` call sum to the one latency count it finds there if and only if no outcome recorded before contains a
   * newline and the version has no line that reads as a latency count.
   */
  lemma {:induction false} ScrapeAddsUp(threads: nat, moves: seq<Move>, i: nat, show: real -> string)
    requires IsRun(threads, moves) && i < |After(threads, moves).snapshots|
    requires OneLine(show(After(threads, moves).snapshots[i].copy.latencySum))
    ensures var s := After(threads, moves); var snap := s.snapshots[i];
      var text := RenderText(snap.copy, snap.version, show(snap.copy.latencySum));
      && snap.at <= |s.log|
      && (ReadLatencyCounts(text) == [Total(ReadMetric(REQUESTS_PREFIX, text))]
          <==> OneLineOutcomes(s.log[..snap.at]) && !Forges(snap.version))
  {
    hide After, Replay, OneLineOutcomes, Total, RenderText, KeptCounts, EntriesOr, REQUESTS, Count, OneLine, Grown,
      Split, Collect, StableSort, Forges, Forged;
    ConsistentSnapshots(threads, moves, i);
    var snap := After(threads, moves).snapshots[i];
    var log := After(threads, moves).log[..snap.at];
    var c, ks := snap.copy, SortStrings(Keys(snap.copy.requests));
    var sum := show(c.latencySum);
    TidyVerdicts(c);
    RequestsRecovered(c, snap.version, sum);
    LatencyRecovered(c, snap.version, sum);
    SortedTotal(c.requests);
    KeysOfLog(log);
    TotalKept(c.requests, ks);
    ForgesNothing(snap.version);
    if OneLineOutcomes(log) {
      OneLineForgesNone(ks);
    }
    AddsUpWhen(ForgedIn(snap.version), Forged(ks), c.latencyCount, Total(KeptCounts(c.requests, ks)));
  }

  lemma AddsUpWhen(a: seq<nat>, b: seq<nat>, counted: nat, kept: nat)
    ensures a + b + [counted] == [kept] <==> a == [] && b == [] && counted == kept
  {
    if a + b + [counted] == [kept] {
      assert |a| + |b| + 1 == 1;
      assert (a + b + [counted])[0] == kept;
    }
  }

  lemma {:induction false} OneLineForgesNone(ks: seq<string>)
    requires forall i :: 0 <= i < |ks| ==> OneLine(ks[i])
    ensures Forged(ks) == []
  {
    hide OneLine, Forges, Forged;
    forall i | 0 <= i < |ks| ensures !Forges(ks[i]) {
      OneLineForgesNothing(ks[i]);
    }
    NothingForged(ks);
  }

  lemma TidyVerdicts(c: Counters)
    requires Tidy(c)
    ensures Verdicts(Keys(c.validations))
  {
  }
}
