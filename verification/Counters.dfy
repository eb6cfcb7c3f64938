/** The metrics counters as a value, and what each call does to them. */
module Counters {
  import opened Dict

  datatype Counters = Counters(requests: Dict<nat>, validations: Dict<nat>, latencySum: real, latencyCount: nat)

  const ZERO := Counters([], [], 0.0, 0)

  /** The calls other threads may make; durations are what the clock gives, in any amount. */
  datatype Op = RecordRequest(outcome: string, duration: real) | RecordValidation(ok: bool) | Render

  /** `d[k] = d.get(k, 0) + 1`. */
  function Increment(d: Dict<nat>, k: string): Dict<nat> {
    Put(d, k, GetOr(d, k, 0) + 1)
  }

  /** `"true" if ok else "false"`. */
  function OkKey(ok: bool): string {
    if ok then "true" else "false"
  }

  /** What one whole call does. */
  function Effect(c: Counters, op: Op): Counters {
    match op
    case RecordRequest(outcome, duration) =>
      c.(requests := Increment(c.requests, outcome), latencySum := c.latencySum
        + duration, latencyCount := c.latencyCount + 1)
    case RecordValidation(ok) => c.(validations := Increment(c.validations, OkKey(ok)))
    case Render => c
  }

  /** The counters after these calls, one after the other. */
  function Replay(log: seq<Op>): Counters {
    if log == [] then ZERO else Effect(Replay(log[..|log| - 1]), log[|log| - 1])
  }

  lemma {:induction false} ReplayOneMore(log: seq<Op>, op: Op)
    ensures Replay(log + [op]) == Effect(Replay(log), op)
  {
    assert (log + [op])[..|log|] == log;
  }

  // ----- What the calls add up to ------------------------------------------

  function Total(d: Dict<nat>): nat {
    if d == [] then 0 else d[0].1 + Total(d[1..])
  }

  function Count(log: seq<Op>, counted: Op -> bool): nat {
    if log == [] then 0 else Count(log[..|log| - 1], counted) + (if counted(log[|log| - 1]) then 1 else 0)
  }

  function Durations(log: seq<Op>): real {
    if log == [] then 0.0
    else Durations(log[..|log| - 1]) + (if log[|log| - 1].RecordRequest? then log[|log| - 1].duration else 0.0)
  }

  predicate IsRequest(op: Op) { op.RecordRequest? }

  function IsOutcome(outcome: string): Op -> bool {
    (op: Op) => op.RecordRequest? && op.outcome == outcome
  }

  predicate IsValidation(op: Op) { op.RecordValidation? }

  function IsVerdict(key: string): Op -> bool {
    (op: Op) => op.RecordValidation? && OkKey(op.ok) == key
  }

  lemma {:induction false} TotalIncrement(d: Dict<nat>, k: string)
    ensures Total(Increment(d, k)) == Total(d) + 1
  {
    if d == [] {
      assert Increment(d, k)[1..] == [];
    } else if d[0].0 == k {
      assert Increment(d, k)[1..] == d[1..];
    } else {
      TotalIncrement(d[1..], k);
      assert Increment(d, k)[1..] == Increment(d[1..], k);
    }
  }

  /** Every counter is the number of the calls it counts; nothing is lost and nothing is counted twice. */
  lemma {:induction false} ReplayCounts(log: seq<Op>, key: string)
    ensures var c := Replay(log);
      && GetOr(c.requests, key, 0) == Count(log, IsOutcome(key))
      && GetOr(c.validations, key, 0) == Count(log, IsVerdict(key))
      && Total(c.requests) == c.latencyCount == Count(log, IsRequest)
      && Total(c.validations) == Count(log, IsValidation)
      && c.latencySum == Durations(log)
  {
    hide Get, Put, Total;
    if log == [] {
      EmptyCounters(key);
    } else {
      var before, op := log[..|log| - 1], log[|log| - 1];
      ReplayCounts(before, key);
      var c := Replay(before);
      match op {
        case RecordRequest(outcome, _) =>
          TotalIncrement(c.requests, outcome);
          GetPut(c.requests, outcome, GetOr(c.requests, outcome, 0) + 1, key);
        case RecordValidation(ok) =>
          TotalIncrement(c.validations, OkKey(ok));
          GetPut(c.validations, OkKey(ok), GetOr(c.validations, OkKey(ok), 0) + 1, key);
        case Render =>
      }
    }
  }

  lemma EmptyCounters(key: string)
    ensures GetOr<nat>([], key, 0) == 0 && !Has<nat>([], key) && Total([]) == 0
  {
  }

  /** The calls record a request with this outcome. */
  ghost predicate Recorded(log: seq<Op>, outcome: string) {
    exists i :: 0 <= i < |log| && IsOutcome(outcome)(log[i])
  }

  /** The outcomes that have a counter are those recorded, and no counter stands at zero. */
  lemma {:induction false} ReplayOutcomes(log: seq<Op>, k: string)
    ensures Has(Replay(log).requests, k) <==> Recorded(log, k)
    ensures Has(Replay(log).requests, k) ==> Value(Replay(log).requests, k) > 0
  {
    hide Get, Put;
    if log == [] {
      EmptyCounters(k);
    } else {
      var before, op := log[..|log| - 1], log[|log| - 1];
      ReplayOutcomes(before, k);
      var c := Replay(before);
      assert Recorded(log, k) <==> Recorded(before, k) || IsOutcome(k)(op) by { RecordedNext(before, op, k); }
      if op.RecordRequest? {
        GetPut(c.requests, op.outcome, GetOr(c.requests, op.outcome, 0) + 1, k);
      }
    }
  }

  lemma RecordedNext(log: seq<Op>, op: Op, k: string)
    ensures Recorded(log + [op], k) <==> Recorded(log, k) || IsOutcome(k)(op)
  {
    var all := log + [op];
    assert all[|log|] == op;
    if i :| 0 <= i < |log| && IsOutcome(k)(log[i]) {
      assert IsOutcome(k)(all[i]);
    }
  }

  /** Two dicts of counts, the second at least the first everywhere. */
  ghost predicate NoSmaller(d: Dict<nat>, e: Dict<nat>) {
    forall k :: GetOr(d, k, 0) <= GetOr(e, k, 0) && (Has(d, k) ==> Has(e, k))
  }

  ghost predicate Grown(c: Counters, c': Counters) {
    NoSmaller(c.requests, c'.requests) && NoSmaller(c.validations, c'.validations) && c.latencyCount <= c'.latencyCount
  }

  lemma IncrementGrows(d: Dict<nat>, e: Dict<nat>, k: string)
    requires NoSmaller(d, e)
    ensures NoSmaller(d, Increment(e, k))
  {
    forall q ensures GetOr(d, q, 0) <= GetOr(Increment(e, k), q, 0) && (Has(d, q) ==> Has(Increment(e, k), q)) {
      GetPut(e, k, GetOr(e, k, 0) + 1, q);
    }
  }

  /** Further calls make no counter smaller. */
  lemma {:induction false} ReplayGrows(log: seq<Op>, i: nat, j: nat)
    requires i <= j <= |log|
    ensures Grown(Replay(log[..i]), Replay(log[..j]))
  {
    hide NoSmaller, Get;
    if i == j {
      SelfGrown(Replay(log[..i]));
    } else {
      ReplayGrows(log, i, j - 1);
      var c := Replay(log[..j - 1]);
      assert log[..j] == log[..j - 1] + [log[j - 1]];
      ReplayOneMore(log[..j - 1], log[j - 1]);
      match log[j - 1] {
        case RecordRequest(outcome, _) => IncrementGrows(Replay(log[..i]).requests, c.requests, outcome);
        case RecordValidation(ok) => IncrementGrows(Replay(log[..i]).validations, c.validations, OkKey(ok));
        case Render =>
      }
    }
  }

  lemma SelfGrown(c: Counters)
    ensures Grown(c, c)
  {
  }

  /** Which keys the counters have: each once, and only two kinds of verdict. */
  ghost predicate Tidy(c: Counters) {
    Unique(c.requests) && Unique(c.validations)
    && forall i :: 0 <= i < |c.validations| ==> c.validations[i].0 == "true" || c.validations[i].0 == "false"
  }

  lemma IncrementTidy(d: Dict<nat>, k: string)
    requires Unique(d)
    ensures Unique(Increment(d, k))
    ensures forall i :: 0 <= i < |Increment(d, k)| ==>
      Increment(d, k)[i].0 == k || exists j :: 0 <= j < |d| && Increment(d, k)[i].0 == d[j].0
  {
    hide Get, Put;
    PutUnique(d, k, GetOr(d, k, 0) + 1);
    KeysPut(d, k, GetOr(d, k, 0) + 1);
    var e := Increment(d, k);
    forall i | 0 <= i < |e| ensures e[i].0 == k || exists j :: 0 <= j < |d| && e[i].0 == d[j].0 {
      assert e[i].0 == Keys(e)[i];
      if i < |d| {
        assert Keys(e)[i] == Keys(d)[i];
        assert e[i].0 == d[i].0;
      }
    }
  }

  lemma {:induction false} ReplayTidy(log: seq<Op>)
    ensures Tidy(Replay(log))
  {
    hide Unique, Increment;
    if log == [] {
      NoKeys();
    } else {
      ReplayTidy(log[..|log| - 1]);
      var c := Replay(log[..|log| - 1]);
      match log[|log| - 1] {
        case RecordRequest(outcome, _) => IncrementTidy(c.requests, outcome);
        case RecordValidation(ok) => IncrementTidy(c.validations, OkKey(ok));
        case Render =>
      }
    }
  }

  lemma NoKeys()
    ensures Unique<nat>([])
  {
  }
}
