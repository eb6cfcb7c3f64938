/** The Prometheus text the metrics are rendered to, and a reader of its sample lines. */
module Exposition {
  import opened Text
  import opened Sorting
  import opened Dict
  import opened Counters

  // ----- Numbers -----------------------------------------------------------

  function DigitChar(d: nat): char
    requires d < 10
  {
    ('0' as int + d) as char
  }

  /** `str(n)`. */
  function Decimal(n: nat): (s: string)
    ensures s != "" && IsDigits(s)
  {
    if n < 10 then [DigitChar(n)] else Decimal(n / 10) + [DigitChar(n % 10)]
  }

  /** A number reads back as itself, and has no leading zero. */
  lemma {:induction false} DecimalReads(n: nat)
    ensures ReadDecimal(Decimal(n)) == n
    ensures |Decimal(n)| > 1 ==> Decimal(n)[0] != '0'
  {
    if n < 10 {
      assert [DigitChar(n)][..0] == "";
    } else {
      DecimalReads(n / 10);
      assert (Decimal(n / 10) + [DigitChar(n % 10)])[..|Decimal(n / 10)|] == Decimal(n / 10);
    }
  }

  // ----- Label values ------------------------------------------------------

  /** `_escape_label_value(value)`: two replacements, one after the other. */
  function EscapeLabel(value: string): string {
    Replace(Replace(value, "\\", "\\\\"), "\"", "\\\"")
  }

  function EscapeChar(c: char): string {
    if c == '\\' then "\\\\" else if c == '"' then "\\\"" else [c]
  }

  /** Escaping in one pass, each character by itself. */
  function EscapeOnce(value: string): string {
    if value == "" then "" else EscapeChar(value[0]) + EscapeOnce(value[1..])
  }

  lemma {:induction false} ReplaceOneHere(c: char, rest: string, new': string)
    ensures Replace([c] + rest, [c], new') == new' + Replace(rest, [c], new')
  {
    ReplaceHere(rest, [c], new');
  }

  /**
   * The two passes are the one pass: the second adds no work for the first, and the first makes none for the second.
   */
  lemma {:induction false} EscapeIsOnePass(value: string)
    ensures EscapeLabel(value) == EscapeOnce(value)
  {
    hide Replace;
    if value == "" {
      assert EscapeLabel("") == "" by { NothingToReplace(); }
    } else {
      var c, rest := value[0], value[1..];
      EscapeIsOnePass(rest);
      assert value == [c] + rest;
      var inner := Replace(rest, "\\", "\\\\");
      if c == '\\' {
        ReplaceOneHere('\\', rest, "\\\\");
        ReplaceSkips("\\\\", inner, "\"", "\\\"");
      } else {
        ReplaceSkips([c], rest, "\\", "\\\\");
        if c == '"' {
          ReplaceOneHere('"', inner, "\\\"");
        } else {
          ReplaceSkips([c], inner, "\"", "\\\"");
        }
      }
    }
  }

  lemma NothingToReplace()
    ensures EscapeLabel("") == ""
  {
  }

  datatype Label = Label(text: string, rest: string)

  /** Reads an escaped label up to its closing quote; `None` when there is none, or an escape is malformed. */
  function ReadLabel(s: string): Option<Label> {
    if s == "" then None
    else if s[0] == '"' then Some(Label("", s[1..]))
    else if s[0] == '\\' then
      if |s| >= 2 && (s[1] == '\\' || s[1] == '"') then
        match ReadLabel(s[2..]) case Some(Label(name, rest)) => Some(Label([s[1]] + name, rest)) case None => None
      else None
    else
      match ReadLabel(s[1..]) case Some(Label(name, rest)) => Some(Label([s[0]] + name, rest)) case None => None
  }

  lemma {:induction false} EscapedCharReads(c: char, rest: string)
    ensures ReadLabel(EscapeChar(c) + rest) ==
      match ReadLabel(rest) case Some(Label(name, after)) => Some(Label([c] + name, after)) case None => None
  {
    var s := EscapeChar(c) + rest;
    if c == '\\' || c == '"' {
      assert s[2..] == rest;
    } else {
      assert s[1..] == rest;
    }
  }

  /** Reading undoes escaping, whatever the label. */
  lemma {:induction false} EscapeReads(value: string, rest: string)
    ensures ReadLabel(EscapeOnce(value) + ("\"" + rest)) == Some(Label(value, rest))
  {
    var tail := "\"" + rest;
    if value == "" {
      assert "" + tail == tail && tail[1..] == rest;
    } else {
      hide ReadLabel, EscapeChar;
      EscapeReads(value[1..], rest);
      Concat3(EscapeChar(value[0]), EscapeOnce(value[1..]), tail);
      EscapedCharReads(value[0], EscapeOnce(value[1..]) + tail);
      assert value == [value[0]] + value[1..];
    }
  }

  lemma {:induction false} EscapeKeepsLines(value: string)
    requires '\n' !in value
    ensures '\n' !in EscapeOnce(value)
  {
    if value == "" {
    } else {
      EscapeKeepsLines(value[1..]);
    }
  }

  /** A label that is read has only characters of the text it is read from. */
  lemma {:induction false} LabelChars(s: string, c: char)
    requires c !in s && ReadLabel(s).Some?
    ensures c !in ReadLabel(s).value.text
  {
    if s[0] == '"' {
    } else if s[0] == '\\' {
      LabelChars(s[2..], c);
    } else {
      LabelChars(s[1..], c);
    }
  }

  // ----- The text ----------------------------------------------------------

  const INFO := "gs1_resolver_build_info"
  const REQUESTS := "gs1_resolver_requests_total"
  const VALIDATIONS := "gs1_resolver_validations_total"
  const LATENCY := "gs1_resolver_resolve_duration_seconds"

  const INFO_HELP := "# HELP " + INFO + " Resolver build information."
  const INFO_TYPE := "# TYPE " + INFO + " gauge"
  const INFO_PREFIX := INFO + "{version=\""
  const REQUESTS_HELP := "# HELP " + REQUESTS + " Total resolve requests by outcome."
  const REQUESTS_TYPE := "# TYPE " + REQUESTS + " counter"
  const REQUESTS_PREFIX := REQUESTS + "{outcome=\""
  const VALIDATIONS_HELP := "# HELP " + VALIDATIONS + " Validator outcomes (excludes no-op)."
  const VALIDATIONS_TYPE := "# TYPE " + VALIDATIONS + " counter"
  const VALIDATIONS_PREFIX := VALIDATIONS + "{ok=\""
  const LATENCY_HELP := "# HELP " + LATENCY + " Resolve latency summary."
  const LATENCY_TYPE := "# TYPE " + LATENCY + " summary"
  const SUM_PREFIX := LATENCY + "_sum "
  const COUNT_PREFIX := LATENCY + "_count "

  /** A sample line: the label, already escaped, and the count. */
  function SampleLine(prefix: string, name: string, n: nat): string {
    prefix + name + "\"} " + Decimal(n)
  }

  function RequestLines(requests: Dict<nat>, keys: seq<string>): (lines: seq<string>)
    ensures |lines| == |keys|
    ensures forall i :: 0 <= i < |keys| ==>
      lines[i] == SampleLine(REQUESTS_PREFIX, EscapeLabel(keys[i]), GetOr(requests, keys[i], 0))
  {
    if keys == [] then []
    else
      [SampleLine(REQUESTS_PREFIX, EscapeLabel(keys[0]), GetOr(requests, keys[0], 0))]
      + RequestLines(requests, keys[1..])
  }

  /** The verdicts are written as they are, without escaping. */
  function ValidationLines(validations: Dict<nat>, keys: seq<string>): (lines: seq<string>)
    ensures |lines| == |keys|
    ensures forall i :: 0 <= i < |keys| ==>
      lines[i] == SampleLine(VALIDATIONS_PREFIX, keys[i], GetOr(validations, keys[i], 0))
  {
    if keys == [] then []
    else
      [SampleLine(VALIDATIONS_PREFIX, keys[0], GetOr(validations, keys[0], 0))]
      + ValidationLines(validations, keys[1..])
  }

  function InfoLines(version: string): seq<string> {
    [INFO_HELP, INFO_TYPE, INFO_PREFIX + EscapeLabel(version) + "\"} 1", REQUESTS_HELP, REQUESTS_TYPE]
  }

  function LatencyLines(c: Counters, sum: string): seq<string> {
    [LATENCY_HELP, LATENCY_TYPE, SUM_PREFIX + sum, COUNT_PREFIX + Decimal(c.latencyCount)]
  }

  /** The lines of `render()`; `sum` is how the latency sum is printed. */
  function Lines(c: Counters, version: string, sum: string): seq<string> {
    InfoLines(version)
    + RequestLines(c.requests, SortStrings(Keys(c.requests)))
    + [VALIDATIONS_HELP, VALIDATIONS_TYPE]
    + ValidationLines(c.validations, SortStrings(Keys(c.validations)))
    + LatencyLines(c, sum)
  }

  function RenderText(c: Counters, version: string, sum: string): string {
    Join(Lines(c, version, sum), "\n") + "\n"
  }

  // ----- Reading it back ---------------------------------------------------

  function ReadNumber(s: string): Option<nat> {
    if s != "" && IsDigits(s) then Some(ReadDecimal(s)) else None
  }

  /** A line of the metric with this prefix: its label and its count. */
  function ReadSample(prefix: string, line: string): Option<(string, nat)> {
    if !(prefix <= line) then None
    else match ReadLabel(line[|prefix|..])
      case None => None
      case Some(Label(name, rest)) =>
        if !("} " <= rest) then None
        else match ReadNumber(rest[2..]) case None => None case Some(n) => Some((name, n))
  }

  /** What a reader makes of each line it can read, in order. */
  function Collect<T>(read: string -> Option<T>, lines: seq<string>): seq<T> {
    if lines == [] then []
    else (match read(lines[0]) case Some(x) => [x] case None => []) + Collect(read, lines[1..])
  }

  function SampleReader(prefix: string): string -> Option<(string, nat)> {
    line => ReadSample(prefix, line)
  }

  /** The labelled counts of one metric in a rendered text, in the order of its lines. */
  function ReadMetric(prefix: string, text: string): Dict<nat> {
    Collect(SampleReader(prefix), Split(text, '\n'))
  }

  function ReadCountLine(line: string): Option<nat> {
    if COUNT_PREFIX <= line then ReadNumber(line[|COUNT_PREFIX|..]) else None
  }

  /** The latency counts in a rendered text. */
  function ReadLatencyCounts(text: string): seq<nat> {
    Collect(ReadCountLine, Split(text, '\n'))
  }

  // ----- What a text that is read can say ------------------------------------

  predicate OneLine(s: string) {
    '\n' !in s
  }

  ghost predicate OneLineKeys(d: Dict<nat>) {
    forall i :: 0 <= i < |d| ==> OneLine(d[i].0)
  }

  ghost predicate Verdicts(ks: seq<string>) {
    forall i :: 0 <= i < |ks| ==> ks[i] == "true" || ks[i] == "false"
  }

  /** What the text is rendered from: verdict keys as the code makes them, and a sum that fits on a line. */
  ghost predicate Renderable(c: Counters, sum: string) {
    Verdicts(Keys(c.validations)) && OneLine(sum)
  }

  /** The counts of a dict, by increasing key. */
  function SortedCounts(d: Dict<nat>): Dict<nat> {
    EntriesOr(d, SortStrings(Keys(d)), 0)
  }

  /** The counts of the keys that fit on a line. */
  function KeptCounts(d: Dict<nat>, ks: seq<string>): Dict<nat> {
    if ks == [] then []
    else (if OneLine(ks[0]) then [(ks[0], GetOr(d, ks[0], 0))] else []) + KeptCounts(d, ks[1..])
  }

  /** The parts of a label that get a line of the text to themselves. */
  function InnerLines(text: string): seq<string> {
    var parts := Split(text, '\n');
    if |parts| < 2 then [] else parts[1..|parts| - 1]
  }

  /** The counts that a reader takes for latency counts though they are parts of a label. */
  function ForgedIn(text: string): seq<nat> {
    Collect(ReadCountLine, InnerLines(text))
  }

  function Forged(ks: seq<string>): seq<nat> {
    if ks == [] then [] else ForgedIn(ks[0]) + Forged(ks[1..])
  }

  /** A label that has a latency count line among its inner lines. */
  ghost predicate Forges(text: string) {
    exists i :: 0 <= i < |InnerLines(text)| && ReadCountLine(InnerLines(text)[i]).Some?
  }
}
