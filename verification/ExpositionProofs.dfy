/** What a reader recovers from the Prometheus text, and exactly when that is all. */
module ExpositionProofs {
  import opened Text
  import opened Sorting
  import opened Dict
  import opened Counters
  import opened Exposition

  // ----- The lines of a text -----------------------------------------------

  /** The lines a reader sees where some of the written lines contain newlines. */
  function Pieces(lines: seq<string>): seq<string> {
    if lines == [] then [] else Split(lines[0], '\n') + Pieces(lines[1..])
  }

  lemma {:induction false} TextPieces(lines: seq<string>)
    requires lines != []
    ensures Split(Join(lines, "\n") + "\n", '\n') == Pieces(lines) + [""]
  {
    assert Split("", '\n') == [""];
    if |lines| == 1 {
      assert Pieces(lines[1..]) == [];
      SplitAppend(lines[0], "", '\n');
      assert lines[0] + "\n" + "" == lines[0] + "\n";
    } else {
      TextPieces(lines[1..]);
      var rest := Join(lines[1..], "\n") + "\n";
      Concat3(lines[0] + "\n", Join(lines[1..], "\n"), "\n");
      SplitAppend(lines[0], rest, '\n');
      Concat3(Split(lines[0], '\n'), Pieces(lines[1..]), [""]);
    }
  }

  lemma {:induction false} PiecesAppend(a: seq<string>, b: seq<string>)
    ensures Pieces(a + b) == Pieces(a) + Pieces(b)
  {
    hide Split;
    if a == [] {
      assert a + b == b;
    } else {
      assert (a + b)[1..] == a[1..] + b;
      PiecesAppend(a[1..], b);
      Concat3(Split(a[0], '\n'), Pieces(a[1..]), Pieces(b));
    }
  }

  lemma {:induction false} CollectAppend<T>(read: string -> Option<T>, a: seq<string>, b: seq<string>)
    ensures Collect(read, a + b) == Collect(read, a) + Collect(read, b)
  {
    if a == [] {
      assert a + b == b;
    } else {
      assert (a + b)[1..] == a[1..] + b;
      CollectAppend(read, a[1..], b);
      var head := match read(a[0]) case Some(x) => [x] case None => [];
      Concat3(head, Collect(read, a[1..]), Collect(read, b));
    }
  }

  /** Nothing is read exactly when no line can be read. */
  lemma {:induction false} CollectNone<T>(read: string -> Option<T>, lines: seq<string>)
    ensures Collect(read, lines) == [] <==> forall i :: 0 <= i < |lines| ==> read(lines[i]).None?
  {
    if lines == [] {
    } else {
      CollectNone(read, lines[1..]);
      assert forall i :: 1 <= i < |lines| ==> lines[i] == lines[1..][i - 1];
    }
  }

  lemma CollectOne<T>(read: string -> Option<T>, line: string)
    ensures Collect(read, [line]) == match read(line) case Some(x) => [x] case None => []
  {
    assert [line][1..] == [];
  }

  /** What a reader sees of some of the written lines. */
  function Seen<T>(read: string -> Option<T>, lines: seq<string>): seq<T> {
    Collect(read, Pieces(lines))
  }

  lemma SeenAppend<T>(read: string -> Option<T>, a: seq<string>, b: seq<string>)
    ensures Seen(read, a + b) == Seen(read, a) + Seen(read, b)
  {
    PiecesAppend(a, b);
    CollectAppend(read, Pieces(a), Pieces(b));
  }

  lemma {:induction false} SeenOne<T>(read: string -> Option<T>, line: string)
    ensures Seen(read, [line]) == Collect(read, Split(line, '\n'))
  {
    hide Split, Collect;
    assert [line][1..] == [];
    assert Pieces([line]) == Split(line, '\n') + Pieces([line][1..]);
    assert Split(line, '\n') + [] == Split(line, '\n');
  }

  lemma SeenUnmarked<T>(read: string -> Option<T>, line: string)
    requires OneLine(line)
    ensures Seen(read, [line]) == match read(line) case Some(x) => [x] case None => []
  {
    hide Split, Collect;
    SeenOne(read, line);
    SplitUnmarked(line, '\n');
    CollectOne(read, line);
  }

  // ----- The lines of a sample ---------------------------------------------

  function EscapeAll(parts: seq<string>): (r: seq<string>)
    ensures |r| == |parts|
    ensures forall i :: 0 <= i < |parts| ==> r[i] == EscapeOnce(parts[i])
  {
    if parts == [] then [] else [EscapeOnce(parts[0])] + EscapeAll(parts[1..])
  }

  /** Escaping leaves newlines where they are: the lines of an escaped label are its lines, escaped. */
  lemma {:induction false} EscapeSplit(s: string)
    ensures Split(EscapeOnce(s), '\n') == EscapeAll(Split(s, '\n'))
  {
    if s == "" {
      assert EscapeOnce("") == "";
    } else {
      var rest := Split(s[1..], '\n');
      EscapeSplit(s[1..]);
      if s[0] == '\n' {
        assert (EscapeChar(s[0]) + EscapeOnce(s[1..]))[1..] == EscapeOnce(s[1..]);
      } else {
        SplitPrefix(EscapeChar(s[0]), EscapeOnce(s[1..]), '\n');
        EscapeCons(s[0], rest[0]);
      }
    }
  }

  lemma {:induction false} EscapeCons(c: char, s: string)
    ensures EscapeOnce([c] + s) == EscapeChar(c) + EscapeOnce(s)
  {
    assert ([c] + s)[1..] == s;
  }

  /** What follows the label on a sample line. */
  function SampleTail(n: nat): string {
    "\"} " + Decimal(n)
  }

  lemma TailOneLine(n: nat)
    ensures SampleTail(n) != "" && OneLine(SampleTail(n)) && SampleTail(n)[0] == '"' && '"' !in SampleTail(n)[1..]
  {
    hide Decimal;
    assert SampleTail(n)[1..] == "} " + Decimal(n);
  }

  /** The lines of a sample: the prefix stays with the first line of the label, the count with the last. */
  lemma {:induction false} SampleLines(own: string, name: string, n: nat)
    requires OneLine(own)
    ensures var parts := EscapeAll(Split(name, '\n')); var last := |parts| - 1;
      Split(SampleLine(own, EscapeOnce(name), n), '\n') ==
        if last == 0 then [own + parts[0] + SampleTail(n)]
        else [own + parts[0]] + parts[1..last] + [parts[last] + SampleTail(n)]
  {
    hide Split, EscapeOnce, Decimal;
    var parts := EscapeAll(Split(name, '\n'));
    var last := |parts| - 1;
    EscapeSplit(name);
    TailOneLine(n);
    SplitPrefix(own, EscapeOnce(name), '\n');
    SplitSuffix(own + EscapeOnce(name), SampleTail(n), '\n');
    Concat3(own + EscapeOnce(name), "\"} ", Decimal(n));
    var whole := [own + parts[0]] + parts[1..];
    assert whole[last] == if last == 0 then own + parts[0] else parts[last];
    assert last > 0 ==> whole[..last] == [own + parts[0]] + parts[1..last];
  }

  // ----- Lines that are not read -------------------------------------------

  /** The metrics with labels, and those of them that are read back. */
  predicate Labelled(prefix: string) {
    prefix == INFO_PREFIX || Sampled(prefix)
  }

  predicate Sampled(prefix: string) {
    prefix == REQUESTS_PREFIX || prefix == VALIDATIONS_PREFIX
  }

  /** Two texts that differ at a position both have: a line with one does not begin with the other. */
  lemma OtherPrefix(prefix: string, other: string, rest: string, i: nat)
    requires i < |prefix| && i < |other| && prefix[i] != other[i]
    ensures !(prefix <= other + rest)
  {
    if |prefix| <= |other + rest| {
      assert (other + rest)[..|prefix|][i] == other[i];
    }
  }

  lemma LabelledDiffer(prefix: string, own: string) returns (i: nat)
    requires Labelled(prefix) && Labelled(own) && prefix != own
    ensures i < |prefix| && i < |own| && prefix[i] != own[i]
  {
    i := 13;
  }

  lemma CountDiffers(own: string) returns (i: nat)
    requires Labelled(own)
    ensures i < |COUNT_PREFIX| && i < |own| && COUNT_PREFIX[i] != own[i]
  {
    i := if own[13] != 'r' then 13 else 15;
    assert COUNT_PREFIX[13] == 'r' && COUNT_PREFIX[15] == 's';
  }

  /** A labelled prefix ends with the quote that opens the label, after an equals sign, and has no other quote. */
  lemma PrefixShape(prefix: string) returns (stem: string)
    requires Sampled(prefix)
    ensures prefix == stem + "=\"" && '"' !in stem
  {
    if prefix == REQUESTS_PREFIX {
      stem := REQUESTS + "{outcome";
      assert '"' !in REQUESTS && '"' !in "{outcome";
      assert "{outcome" + "=\"" == "{outcome=\"";
      hide REQUESTS;
      Concat3(REQUESTS, "{outcome", "=\"");
    } else {
      stem := VALIDATIONS + "{ok";
      assert '"' !in VALIDATIONS && '"' !in "{ok";
      assert "{ok" + "=\"" == "{ok=\"";
      hide VALIDATIONS;
      Concat3(VALIDATIONS, "{ok", "=\"");
    }
  }

  /** Every quote of an escaped text comes after a backslash. */
  lemma {:induction false} QuotesEscaped(s: string, i: nat)
    requires i < |EscapeOnce(s)| && EscapeOnce(s)[i] == '"'
    ensures i > 0 && EscapeOnce(s)[i - 1] == '\\'
  {
    var n := |EscapeChar(s[0])|;
    if i >= n {
      QuotesEscaped(s[1..], i - n);
    }
  }

  /** So an escaped text never begins with a labelled prefix. */
  lemma {:induction false} EscapedNoPrefix(prefix: string, s: string)
    requires Sampled(prefix)
    ensures !(prefix <= EscapeOnce(s))
  {
    hide Sampled, EscapeOnce;
    var stem := PrefixShape(prefix);
    var e, q := EscapeOnce(s), |prefix| - 1;
    if |prefix| <= |e| && e[q] == '"' {
      QuotesEscaped(s, q);
      assert prefix[q - 1] == '=' && e[..|prefix|][q - 1] == e[q - 1];
    } else if |prefix| <= |e| {
      assert prefix[q] == '"' && e[..|prefix|][q] == e[q];
    }
  }

  /** A label without its closing quote is not read. */
  lemma {:induction false} UnclosedLabel(s: string)
    ensures ReadLabel(EscapeOnce(s)).None?
  {
    if s == "" {
      assert EscapeOnce("") == "";
    } else {
      UnclosedLabel(s[1..]);
      EscapedCharReads(s[0], EscapeOnce(s[1..]));
    }
  }

  lemma {:induction false} NoQuoteNoLabel(s: string)
    requires '"' !in s
    ensures ReadLabel(s).None?
  {
    if s == "" {
    } else if s[0] == '\\' {
      if |s| >= 2 {
        NoQuoteNoLabel(s[2..]);
      }
    } else {
      NoQuoteNoLabel(s[1..]);
    }
  }

  /** The first of several lines: it is another metric's, or its label is not closed. */
  lemma {:induction false} FirstUnread(prefix: string, own: string, s: string)
    requires Sampled(prefix) && Labelled(own)
    ensures ReadSample(prefix, own + EscapeOnce(s)).None?
  {
    hide EscapeOnce, ReadNumber;
    if prefix == own {
      assert (own + EscapeOnce(s))[|prefix|..] == EscapeOnce(s);
      UnclosedLabel(s);
    } else {
      var i := LabelledDiffer(prefix, own);
      OtherPrefix(prefix, own, EscapeOnce(s), i);
    }
  }

  /**
   * The last of several lines: if it begins with the prefix, the quote that closes the label opens one that is not
   * closed.
   */
  lemma {:induction false} LastUnread(prefix: string, s: string, n: nat)
    requires Sampled(prefix)
    ensures ReadSample(prefix, EscapeOnce(s) + SampleTail(n)).None?
  {
    TailOneLine(n);
    hide Sampled, EscapeOnce, ReadNumber, Decimal, SampleTail;
    var stem := PrefixShape(prefix);
    var e, tail := EscapeOnce(s), SampleTail(n);
    var line, q := e + tail, |prefix| - 1;
    QuoteIsLast(stem);
    assert line[|e|] == '"' && tail[1..] == line[|e| + 1..];
    if prefix <= line {
      assert forall j :: 0 <= j < |prefix| ==> line[j] == prefix[j];
      if q < |e| {
        assert e[q] == line[q] == '"' && e[q - 1] == line[q - 1] == '=';
        QuotesEscaped(s, q);
      } else {
        NoQuoteNoLabel(tail[1..]);
      }
    }
  }

  lemma QuoteIsLast(stem: string)
    requires '"' !in stem
    ensures var p := stem + "=\""; p[|p| - 1] == '"' && p[|p| - 2] == '=' && forall i :: 0 <= i < |p| - 1 ==>
      p[i] != '"'
  {
  }

  // ----- The fixed lines -----------------------------------------------------

  lemma OneLineAppend(s: string, t: string)
    requires OneLine(s) && OneLine(t)
    ensures OneLine(s + t)
  {
  }

  lemma NamesOneLine()
    ensures OneLine("# HELP ") && OneLine("# TYPE ")
    ensures OneLine(INFO) && OneLine(REQUESTS) && OneLine(VALIDATIONS) && OneLine(LATENCY)
  {
  }

  lemma OneLine3(a: string, b: string, c: string)
    requires OneLine(a) && OneLine(b) && OneLine(c)
    ensures OneLine(a + b + c) && OneLine(b + c)
  {
    OneLineAppend(a, b);
  }

  lemma FixedLines()
    ensures OneLine(INFO_HELP) && OneLine(INFO_TYPE) && OneLine(INFO_PREFIX)
    ensures OneLine(REQUESTS_HELP) && OneLine(REQUESTS_TYPE) && OneLine(REQUESTS_PREFIX)
    ensures OneLine(VALIDATIONS_HELP) && OneLine(VALIDATIONS_TYPE) && OneLine(VALIDATIONS_PREFIX)
    ensures OneLine(LATENCY_HELP) && OneLine(LATENCY_TYPE) && OneLine(SUM_PREFIX) && OneLine(COUNT_PREFIX)
  {
    NamesOneLine();
    TailsOneLine();
    RequestTailsOneLine();
    MoreTailsOneLine();
    hide INFO, REQUESTS, VALIDATIONS, LATENCY, OneLine;
    OneLine3("# HELP ", INFO, " Resolver build information.");
    OneLine3("# TYPE ", INFO, " gauge");
    OneLineAppend(INFO, "{version=\"");
    OneLine3("# HELP ", REQUESTS, " Total resolve requests by outcome.");
    OneLine3("# TYPE ", REQUESTS, " counter");
    OneLineAppend(REQUESTS, "{outcome=\"");
    OneLine3("# HELP ", VALIDATIONS, " Validator outcomes (excludes no-op).");
    OneLine3("# TYPE ", VALIDATIONS, " counter");
    OneLineAppend(VALIDATIONS, "{ok=\"");
    OneLine3("# HELP ", LATENCY, " Resolve latency summary.");
    OneLine3("# TYPE ", LATENCY, " summary");
    OneLineAppend(LATENCY, "_sum ");
    OneLineAppend(LATENCY, "_count ");
  }

  lemma TailsOneLine()
    ensures OneLine(" Resolver build information.") && OneLine(" gauge") && OneLine("{version=\"")
  {
  }

  lemma RequestTailsOneLine()
    ensures OneLine(" Total resolve requests by outcome.") && OneLine(" counter") && OneLine("{outcome=\"")
  {
  }

  lemma MoreTailsOneLine()
    ensures OneLine(" Validator outcomes (excludes no-op).") && OneLine("{ok=\"")
    ensures OneLine(" Resolve latency summary.") && OneLine(" summary") && OneLine("_sum ") && OneLine("_count ")
  {
  }

  // ----- What is seen of a sample ------------------------------------------

  lemma {:induction false} SampleReads(prefix: string, name: string, n: nat)
    ensures ReadSample(prefix, SampleLine(prefix, EscapeOnce(name), n)) == Some((name, n))
  {
    hide Decimal, ReadDecimal, ReadLabel;
    var rest := "} " + Decimal(n);
    var line := SampleLine(prefix, EscapeOnce(name), n);
    assert line == prefix + (EscapeOnce(name) + ("\"" + rest));
    assert line[|prefix|..] == EscapeOnce(name) + ("\"" + rest);
    EscapeReads(name, rest);
    assert rest[2..] == Decimal(n);
    DecimalReads(n);
  }

  lemma {:induction false} OneLineParts(s: string)
    ensures OneLine(s) <==> |Split(s, '\n')| == 1
    ensures OneLine(s) ==> Split(s, '\n') == [s]
  {
    hide Split;
    if OneLine(s) {
      SplitUnmarked(s, '\n');
    }
    JoinSplit(s, '\n');
  }

  lemma LabelledOneLine(own: string)
    requires Labelled(own)
    ensures OneLine(own)
  {
    FixedLines();
    hide OneLine, INFO, REQUESTS, VALIDATIONS;
  }

  lemma {:induction false} SampleApart(prefix: string, own: string, name: string, n: nat)
    requires Sampled(prefix) && Labelled(own) && prefix != own
    ensures ReadSample(prefix, own + EscapeOnce(name) + SampleTail(n)).None?
  {
    hide Labelled, EscapeOnce, SampleTail, ReadLabel, ReadNumber;
    assert Labelled(prefix) by { SampledLabelled(prefix); }
    var i := LabelledDiffer(prefix, own);
    OtherPrefix(prefix, own, EscapeOnce(name) + SampleTail(n), i);
    Concat3(own, EscapeOnce(name), SampleTail(n));
  }

  lemma SampledLabelled(prefix: string)
    requires Sampled(prefix)
    ensures Labelled(prefix)
  {
  }

  /** A reader of one metric sees a sample exactly when it is of that metric and its label fits on a line. */
  lemma {:induction false} SampleSeen(prefix: string, own: string, name: string, n: nat)
    requires Sampled(prefix) && Labelled(own)
    ensures Seen(SampleReader(prefix), [SampleLine(own, EscapeOnce(name), n)])
         == if prefix == own && OneLine(name) then [(name, n)] else []
  {
    hide Sampled, Labelled, OneLine, Split, EscapeOnce, Decimal, ReadSample, Collect;
    var line := SampleLine(own, EscapeOnce(name), n);
    var parts := EscapeAll(Split(name, '\n'));
    var last := |parts| - 1;
    LabelledOneLine(own);
    OneLineParts(name);
    SampleLines(own, name, n);
    SeenOne(SampleReader(prefix), line);
    if last == 0 {
      Concat3(own + EscapeOnce(name), "\"} ", Decimal(n));
      CollectOne(SampleReader(prefix), line);
      if prefix == own {
        SampleReads(prefix, name, n);
      } else {
        SampleApart(prefix, own, name, n);
      }
    } else {
      forall i | 0 <= i < |Split(line, '\n')| ensures SampleReader(prefix)(Split(line, '\n')[i]).None? {
        FirstUnread(prefix, own, Split(name, '\n')[0]);
        LastUnread(prefix, Split(name, '\n')[last], n);
        if 0 < i < last {
          InnerUnread(prefix, Split(name, '\n')[i]);
        }
      }
      CollectNone(SampleReader(prefix), Split(line, '\n'));
    }
  }

  lemma {:induction false} InnerUnread(prefix: string, s: string)
    requires Sampled(prefix)
    ensures ReadSample(prefix, EscapeOnce(s)).None?
  {
    hide EscapeOnce, ReadLabel, ReadNumber, Sampled;
    EscapedNoPrefix(prefix, s);
  }

  // ----- What is seen of the latency count ---------------------------------

  /** A count line has no character but those of its prefix and digits. */
  lemma CountLinePlain(line: string)
    requires ReadCountLine(line).Some?
    ensures '\\' !in line && '"' !in line
  {
    assert '\\' !in COUNT_PREFIX && '"' !in COUNT_PREFIX;
    hide LATENCY, ReadDecimal;
    var rest := line[|COUNT_PREFIX|..];
    assert line == COUNT_PREFIX + rest;
    assert forall i :: 0 <= i < |rest| ==> IsDigit(rest[i]);
  }

  lemma {:induction false} PlainEscape(s: string)
    ensures '\\' !in s && '"' !in s ==> EscapeOnce(s) == s
    ensures '\\' in s || '"' in s ==> '\\' in EscapeOnce(s)
  {
    if s == "" {
    } else {
      PlainEscape(s[1..]);
      assert s == [s[0]] + s[1..];
      assert EscapeOnce(s) == EscapeChar(s[0]) + EscapeOnce(s[1..]);
      assert s[0] == '\\' || s[0] == '"' ==> EscapeChar(s[0])[0] == '\\';
    }
  }

  /** An inner line of a label reads as a count exactly when it does so before it is escaped. */
  lemma {:induction false} InnerCount(s: string)
    ensures ReadCountLine(EscapeOnce(s)) == ReadCountLine(s)
  {
    hide EscapeOnce, ReadCountLine;
    PlainEscape(s);
    if ReadCountLine(s).Some? {
      CountLinePlain(s);
    }
    if ReadCountLine(EscapeOnce(s)).Some? {
      CountLinePlain(EscapeOnce(s));
    }
  }

  lemma FirstNoCount(own: string, rest: string)
    requires Labelled(own)
    ensures ReadCountLine(own + rest).None?
  {
    var i := CountDiffers(own);
    hide Labelled, LATENCY;
    OtherPrefix(COUNT_PREFIX, own, rest, i);
  }

  lemma LastNoCount(s: string, n: nat)
    ensures ReadCountLine(s + SampleTail(n)).None?
  {
    TailOneLine(n);
    hide ReadCountLine, SampleTail;
    assert (s + SampleTail(n))[|s|] == '"';
    if ReadCountLine(s + SampleTail(n)).Some? {
      CountLinePlain(s + SampleTail(n));
    }
  }

  lemma {:induction false} InnerCounts(parts: seq<string>)
    ensures Collect(ReadCountLine, EscapeAll(parts)) == Collect(ReadCountLine, parts)
  {
    hide ReadCountLine, EscapeOnce;
    if parts == [] {
    } else {
      InnerCount(parts[0]);
      InnerCounts(parts[1..]);
      assert EscapeAll(parts)[1..] == EscapeAll(parts[1..]);
    }
  }

  /** Of a sample, a reader of latency counts sees what the inner lines of its label forge. */
  lemma {:induction false} CountSeen(own: string, name: string, n: nat)
    requires Labelled(own)
    ensures Seen(ReadCountLine, [SampleLine(own, EscapeOnce(name), n)]) == ForgedIn(name)
  {
    hide Labelled, Split, EscapeOnce, Decimal, ReadCountLine, Collect, SampleTail;
    var line := SampleLine(own, EscapeOnce(name), n);
    var parts := EscapeAll(Split(name, '\n'));
    var last := |parts| - 1;
    LabelledOneLine(own);
    SampleLines(own, name, n);
    SeenOne(ReadCountLine, line);
    if last == 0 {
      Concat3(own, parts[0], SampleTail(n));
      FirstNoCount(own, parts[0] + SampleTail(n));
      CollectOne(ReadCountLine, own + parts[0] + SampleTail(n));
      CollectNone(ReadCountLine, []);
    } else {
      var first, inner, final := [own + parts[0]], parts[1..last], [parts[last] + SampleTail(n)];
      FirstNoCount(own, parts[0]);
      LastNoCount(parts[last], n);
      CollectOne(ReadCountLine, first[0]);
      CollectOne(ReadCountLine, final[0]);
      CollectAppend(ReadCountLine, first + inner, final);
      CollectAppend(ReadCountLine, first, inner);
      assert inner == EscapeAll(InnerLines(name)) by { EscapeSlice(Split(name, '\n'), 1, last); }
      InnerCounts(InnerLines(name));
    }
  }

  lemma {:induction false} EscapeSlice(parts: seq<string>, i: nat, j: nat)
    requires i <= j <= |parts|
    ensures EscapeAll(parts)[i..j] == EscapeAll(parts[i..j])
  {
    hide EscapeOnce;
  }

  // ----- The whole text ----------------------------------------------------

  lemma {:induction false} RequestsSeen(prefix: string, d: Dict<nat>, ks: seq<string>)
    requires Sampled(prefix)
    ensures Seen(SampleReader(prefix), RequestLines(d, ks)) == if prefix == REQUESTS_PREFIX then KeptCounts(d, ks)
      else []
  {
    hide Sampled, OneLine, Split, EscapeOnce, EscapeLabel, SampleLine, ReadSample, Collect, Get, REQUESTS, Seen;
    var read := SampleReader(prefix);
    if ks == [] {
      SeenNothing(read);
    } else {
      var line := SampleLine(REQUESTS_PREFIX, EscapeLabel(ks[0]), GetOr(d, ks[0], 0));
      RequestsSeen(prefix, d, ks[1..]);
      EscapeIsOnePass(ks[0]);
      RequestsLabelled();
      SampleSeen(prefix, REQUESTS_PREFIX, ks[0], GetOr(d, ks[0], 0));
      assert RequestLines(d, ks) == [line] + RequestLines(d, ks[1..]);
      SeenAppend(read, [line], RequestLines(d, ks[1..]));
    }
  }

  lemma SeenNothing<T>(read: string -> Option<T>)
    ensures Seen(read, []) == []
  {
  }

  lemma RequestsLabelled()
    ensures Labelled(INFO_PREFIX) && Sampled(REQUESTS_PREFIX) && Labelled(REQUESTS_PREFIX)
    ensures Sampled(VALIDATIONS_PREFIX) && Labelled(VALIDATIONS_PREFIX)
    ensures REQUESTS_PREFIX != VALIDATIONS_PREFIX && INFO_PREFIX != REQUESTS_PREFIX && INFO_PREFIX != VALIDATIONS_PREFIX
  {
    assert REQUESTS_PREFIX[13] == 'r' && VALIDATIONS_PREFIX[13] == 'v' && INFO_PREFIX[13] == 'b';
  }

  lemma {:induction false} VerdictPlain(k: string)
    requires k == "true" || k == "false"
    ensures EscapeOnce(k) == k && OneLine(k)
  {
    assert '\\' !in "true" && '"' !in "true" && '\\' !in "false" && '"' !in "false";
    hide EscapeOnce;
    PlainEscape(k);
  }

  lemma {:induction false} ValidationsSeen(prefix: string, d: Dict<nat>, ks: seq<string>)
    requires Sampled(prefix) && Verdicts(ks)
    ensures Seen(SampleReader(prefix), ValidationLines(d, ks)) == if prefix
      == VALIDATIONS_PREFIX then EntriesOr(d, ks, 0) else []
  {
    hide Sampled, OneLine, Split, EscapeOnce, SampleLine, ReadSample, Collect, Get, VALIDATIONS, Seen;
    var read := SampleReader(prefix);
    if ks == [] {
      SeenNothing(read);
    } else {
      var line := SampleLine(VALIDATIONS_PREFIX, ks[0], GetOr(d, ks[0], 0));
      ValidationsSeen(prefix, d, ks[1..]);
      VerdictPlain(ks[0]);
      RequestsLabelled();
      SampleSeen(prefix, VALIDATIONS_PREFIX, ks[0], GetOr(d, ks[0], 0));
      assert ValidationLines(d, ks) == [line] + ValidationLines(d, ks[1..]);
      SeenAppend(read, [line], ValidationLines(d, ks[1..]));
    }
  }

  lemma {:induction false} RequestsForged(d: Dict<nat>, ks: seq<string>)
    ensures Seen(ReadCountLine, RequestLines(d, ks)) == Forged(ks)
  {
    hide Split, EscapeOnce, EscapeLabel, SampleLine, ReadCountLine, Collect, Get, REQUESTS, Seen, ForgedIn;
    if ks == [] {
      SeenNothing(ReadCountLine);
    } else {
      var line := SampleLine(REQUESTS_PREFIX, EscapeLabel(ks[0]), GetOr(d, ks[0], 0));
      RequestsForged(d, ks[1..]);
      EscapeIsOnePass(ks[0]);
      RequestsLabelled();
      CountSeen(REQUESTS_PREFIX, ks[0], GetOr(d, ks[0], 0));
      assert RequestLines(d, ks) == [line] + RequestLines(d, ks[1..]);
      SeenAppend(ReadCountLine, [line], RequestLines(d, ks[1..]));
    }
  }

  lemma {:induction false} VerdictsForgeNothing(d: Dict<nat>, ks: seq<string>)
    requires Verdicts(ks)
    ensures Seen(ReadCountLine, ValidationLines(d, ks)) == []
  {
    hide Split, EscapeOnce, SampleLine, ReadCountLine, Collect, Get, VALIDATIONS, Seen, ForgedIn;
    if ks == [] {
      SeenNothing(ReadCountLine);
    } else {
      var line := SampleLine(VALIDATIONS_PREFIX, ks[0], GetOr(d, ks[0], 0));
      VerdictsForgeNothing(d, ks[1..]);
      VerdictPlain(ks[0]);
      OneLineForgesNothing(ks[0]);
      RequestsLabelled();
      CountSeen(VALIDATIONS_PREFIX, ks[0], GetOr(d, ks[0], 0));
      assert ValidationLines(d, ks) == [line] + ValidationLines(d, ks[1..]);
      SeenAppend(ReadCountLine, [line], ValidationLines(d, ks[1..]));
    }
  }

  lemma OneLineForgesNothing(text: string)
    requires OneLine(text)
    ensures ForgedIn(text) == [] && !Forges(text)
  {
    hide Split, ReadCountLine;
    OneLineParts(text);
  }

  /** Comments: one line each, and no metric's. */
  lemma CommentUnseen(name: string, tail: string, prefix: string)
    requires OneLine(name) && OneLine(tail) && Sampled(prefix)
    ensures Seen(SampleReader(prefix), ["# HELP " + name + tail])
      == Seen(SampleReader(prefix), ["# TYPE " + name + tail]) == []
    ensures Seen(ReadCountLine, ["# HELP " + name + tail]) == Seen(ReadCountLine, ["# TYPE " + name + tail]) == []
  {
    PrefixesStart(prefix);
    hide Sampled, Seen, OneLine, LATENCY, ReadSample, ReadCountLine, COUNT_PREFIX;
    HashesOneLine();
    OneLine3("# HELP ", name, tail);
    OneLine3("# TYPE ", name, tail);
    CommentForeign(name, tail, prefix);
    CommentForeign(name, tail, COUNT_PREFIX);
    UnreadLine("# HELP " + name + tail, prefix);
    UnreadLine("# TYPE " + name + tail, prefix);
  }

  lemma PrefixesStart(prefix: string)
    requires Sampled(prefix)
    ensures prefix != "" && prefix[0] == 'g' && COUNT_PREFIX != "" && COUNT_PREFIX[0] == 'g'
  {
  }

  lemma HashesOneLine()
    ensures OneLine("# HELP ") && OneLine("# TYPE ")
  {
  }

  /** A line of another kind is not read. */
  lemma UnreadLine(line: string, prefix: string)
    requires OneLine(line) && !(prefix <= line) && !(COUNT_PREFIX <= line)
    ensures Seen(SampleReader(prefix), [line]) == [] && Seen(ReadCountLine, [line]) == []
  {
    hide OneLine, Seen, LATENCY, ReadLabel, ReadNumber;
    SeenUnmarked(SampleReader(prefix), line);
    SeenUnmarked(ReadCountLine, line);
  }

  lemma CommentForeign(name: string, tail: string, prefix: string)
    requires prefix != "" && prefix[0] == 'g'
    ensures !(prefix <= "# HELP " + name + tail) && !(prefix <= "# TYPE " + name + tail)
  {
    OtherPrefix(prefix, "# HELP ", name + tail, 0);
    OtherPrefix(prefix, "# TYPE ", name + tail, 0);
    Concat3("# HELP ", name, tail);
    Concat3("# TYPE ", name, tail);
  }

  lemma SeenTwo<T>(read: string -> Option<T>, a: string, b: string)
    ensures Seen(read, [a, b]) == Seen(read, [a]) + Seen(read, [b])
  {
    assert [a, b] == [a] + [b];
    SeenAppend(read, [a], [b]);
  }

  lemma {:induction false} InfoText(version: string)
    ensures INFO_PREFIX + EscapeLabel(version) + "\"} 1" == SampleLine(INFO_PREFIX, EscapeOnce(version), 1)
  {
    assert Decimal(1) == "1";
    hide INFO;
    EscapeIsOnePass(version);
    assert INFO_PREFIX + EscapeOnce(version) + "\"} 1" == INFO_PREFIX + EscapeOnce(version) + "\"} " + "1";
  }

  lemma SampledNotInfo(prefix: string)
    requires Sampled(prefix)
    ensures prefix != INFO_PREFIX
  {
    assert prefix[13] != INFO_PREFIX[13];
  }

  lemma InfoCommentsUnseen(prefix: string)
    requires Sampled(prefix)
    ensures Seen(SampleReader(prefix), [INFO_HELP]) == Seen(SampleReader(prefix), [INFO_TYPE]) == []
    ensures Seen(SampleReader(prefix), [REQUESTS_HELP]) == Seen(SampleReader(prefix), [REQUESTS_TYPE]) == []
    ensures Seen(ReadCountLine, [INFO_HELP]) == Seen(ReadCountLine, [INFO_TYPE]) == []
    ensures Seen(ReadCountLine, [REQUESTS_HELP]) == Seen(ReadCountLine, [REQUESTS_TYPE]) == []
  {
    TailsOneLine();
    RequestTailsOneLine();
    NamesOneLine();
    hide Sampled, Seen, OneLine, INFO, REQUESTS, ReadCountLine, ReadSample;
    CommentUnseen(INFO, " Resolver build information.", prefix);
    CommentUnseen(INFO, " gauge", prefix);
    CommentUnseen(REQUESTS, " Total resolve requests by outcome.", prefix);
    CommentUnseen(REQUESTS, " counter", prefix);
  }

  lemma InfoSeen(prefix: string, version: string)
    requires Sampled(prefix)
    ensures Seen(SampleReader(prefix), InfoLines(version)) == []
    ensures Seen(ReadCountLine, InfoLines(version)) == ForgedIn(version)
  {
    RequestsLabelled();
    SampledNotInfo(prefix);
    InfoCommentsUnseen(prefix);
    hide Sampled, Labelled, Seen, OneLine, EscapeOnce, EscapeLabel, ReadCountLine, ReadSample, ForgedIn, SampleLine,
      INFO_PREFIX,
      INFO_HELP, INFO_TYPE, REQUESTS_HELP, REQUESTS_TYPE;
    InfoText(version);
    SampleSeen(prefix, INFO_PREFIX, version, 1);
    CountSeen(INFO_PREFIX, version, 1);
    var sample := SampleLine(INFO_PREFIX, EscapeOnce(version), 1);
    assert InfoLines(version) == [INFO_HELP, INFO_TYPE] + [sample] + [REQUESTS_HELP, REQUESTS_TYPE];
    SeenFive(SampleReader(prefix), INFO_HELP, INFO_TYPE, sample, REQUESTS_HELP, REQUESTS_TYPE);
    SeenFive(ReadCountLine, INFO_HELP, INFO_TYPE, sample, REQUESTS_HELP, REQUESTS_TYPE);
  }

  lemma SeenFive<T>(read: string -> Option<T>, a: string, b: string, line: string, c: string, d: string)
    requires Seen(read, [a]) == Seen(read, [b]) == Seen(read, [c]) == Seen(read, [d]) == []
    ensures Seen(read, [a, b] + [line] + [c, d]) == Seen(read, [line])
  {
    hide Seen;
    SeenTwo(read, a, b);
    SeenTwo(read, c, d);
    SeenAppend(read, [a, b], [line]);
    SeenAppend(read, [a, b] + [line], [c, d]);
  }

  lemma ValidationHeadSeen(prefix: string)
    requires Sampled(prefix)
    ensures Seen(SampleReader(prefix), [VALIDATIONS_HELP, VALIDATIONS_TYPE]) == []
    ensures Seen(ReadCountLine, [VALIDATIONS_HELP, VALIDATIONS_TYPE]) == []
  {
    RequestTailsOneLine();
    MoreTailsOneLine();
    NamesOneLine();
    hide Sampled, Seen, OneLine, VALIDATIONS, ReadCountLine, ReadSample;
    CommentUnseen(VALIDATIONS, " Validator outcomes (excludes no-op).", prefix);
    CommentUnseen(VALIDATIONS, " counter", prefix);
    SeenTwo(SampleReader(prefix), VALIDATIONS_HELP, VALIDATIONS_TYPE);
    SeenTwo(ReadCountLine, VALIDATIONS_HELP, VALIDATIONS_TYPE);
  }

  lemma SumForeign(sum: string, prefix: string)
    requires Sampled(prefix)
    ensures !(prefix <= SUM_PREFIX + sum) && !(COUNT_PREFIX <= SUM_PREFIX + sum)
  {
    assert prefix[13] != SUM_PREFIX[13] || prefix[15] != SUM_PREFIX[15];
    assert COUNT_PREFIX[38] != SUM_PREFIX[38];
    var i := if prefix[13] != SUM_PREFIX[13] then 13 else 15;
    hide Sampled, LATENCY;
    OtherPrefix(prefix, SUM_PREFIX, sum, i);
    OtherPrefix(COUNT_PREFIX, SUM_PREFIX, sum, 38);
  }

  lemma CountForeign(rest: string, prefix: string)
    requires Sampled(prefix)
    ensures !(prefix <= COUNT_PREFIX + rest)
  {
    SampledLabelled(prefix);
    hide Sampled, Labelled;
    var i := CountDiffers(prefix);
    hide LATENCY;
    OtherPrefix(prefix, COUNT_PREFIX, rest, i);
  }

  lemma {:induction false} CountLineReads(n: nat)
    ensures ReadCountLine(COUNT_PREFIX + Decimal(n)) == Some(n)
  {
    hide LATENCY, Decimal, ReadDecimal;
    DecimalReads(n);
    assert (COUNT_PREFIX + Decimal(n))[|COUNT_PREFIX|..] == Decimal(n);
  }

  lemma SumSeen(sum: string, prefix: string)
    requires Sampled(prefix) && OneLine(sum)
    ensures Seen(SampleReader(prefix), [SUM_PREFIX + sum]) == [] && Seen(ReadCountLine, [SUM_PREFIX + sum]) == []
  {
    FixedLines();
    SumForeign(sum, prefix);
    hide Sampled, Seen, OneLine, LATENCY, ReadLabel, ReadNumber;
    OneLineAppend(SUM_PREFIX, sum);
    SeenUnmarked(SampleReader(prefix), SUM_PREFIX + sum);
    SeenUnmarked(ReadCountLine, SUM_PREFIX + sum);
  }

  lemma {:induction false} DecimalOneLine(n: nat)
    ensures OneLine(Decimal(n))
  {
    hide Decimal;
    assert forall i :: 0 <= i < |Decimal(n)| ==> IsDigit(Decimal(n)[i]);
  }

  lemma {:induction false} CountLineSeen(n: nat, prefix: string)
    requires Sampled(prefix)
    ensures Seen(SampleReader(prefix), [COUNT_PREFIX + Decimal(n)]) == []
    ensures Seen(ReadCountLine, [COUNT_PREFIX + Decimal(n)]) == [n]
  {
    FixedLines();
    hide Sampled, Seen, OneLine, LATENCY, ReadLabel, ReadCountLine, Decimal;
    CountForeign(Decimal(n), prefix);
    CountLineReads(n);
    DecimalOneLine(n);
    OneLineAppend(COUNT_PREFIX, Decimal(n));
    SeenUnmarked(SampleReader(prefix), COUNT_PREFIX + Decimal(n));
    SeenUnmarked(ReadCountLine, COUNT_PREFIX + Decimal(n));
  }

  lemma LatencySeen(prefix: string, c: Counters, sum: string)
    requires Sampled(prefix) && OneLine(sum)
    ensures Seen(SampleReader(prefix), LatencyLines(c, sum)) == []
    ensures Seen(ReadCountLine, LatencyLines(c, sum)) == [c.latencyCount]
  {
    MoreTailsOneLine();
    NamesOneLine();
    hide Sampled, Seen, OneLine, LATENCY, ReadCountLine, ReadSample, Decimal;
    CommentUnseen(LATENCY, " Resolve latency summary.", prefix);
    CommentUnseen(LATENCY, " summary", prefix);
    SumSeen(sum, prefix);
    CountLineSeen(c.latencyCount, prefix);
    var total, count := SUM_PREFIX + sum, COUNT_PREFIX + Decimal(c.latencyCount);
    assert LatencyLines(c, sum) == [LATENCY_HELP, LATENCY_TYPE] + [total, count];
    SeenFour(SampleReader(prefix), LATENCY_HELP, LATENCY_TYPE, total, count);
    SeenFour(ReadCountLine, LATENCY_HELP, LATENCY_TYPE, total, count);
  }

  lemma SeenFour<T>(read: string -> Option<T>, a: string, b: string, c: string, d: string)
    requires Seen(read, [a]) == Seen(read, [b]) == Seen(read, [c]) == []
    ensures Seen(read, [a, b] + [c, d]) == Seen(read, [d])
  {
    hide Seen;
    SeenTwo(read, a, b);
    SeenTwo(read, c, d);
    SeenAppend(read, [a, b], [c, d]);
  }

  /** What a reader sees of the text is what it sees of each block of lines. */
  lemma TextSeen<T>(read: string -> Option<T>, c: Counters, version: string, sum: string)
    requires read("").None?
    requires Seen(read, [VALIDATIONS_HELP, VALIDATIONS_TYPE]) == []
    ensures Collect(read, Split(RenderText(c, version, sum), '\n')) ==
      Seen(read, InfoLines(version))
      + Seen(read, RequestLines(c.requests, SortStrings(Keys(c.requests))))
      + Seen(read, ValidationLines(c.validations, SortStrings(Keys(c.validations))))
      + Seen(read, LatencyLines(c, sum))
  {
    hide SortStrings, RequestLines, ValidationLines, LatencyLines, InfoLines, VALIDATIONS, Collect, Split, Join, Pieces;
    var info, rs := InfoLines(version), RequestLines(c.requests, SortStrings(Keys(c.requests)));
    var middle := [VALIDATIONS_HELP, VALIDATIONS_TYPE];
    var vs, last := ValidationLines(c.validations, SortStrings(Keys(c.validations))), LatencyLines(c, sum);
    assert Lines(c, version, sum) == info + rs + middle + vs + last;
    assert Lines(c, version, sum) != [];
    TextPieces(Lines(c, version, sum));
    CollectAppend(read, Pieces(Lines(c, version, sum)), [""]);
    CollectOne(read, "");
    SeenAppend(read, info + rs + middle + vs, last);
    SeenAppend(read, info + rs + middle, vs);
    SeenAppend(read, info + rs, middle);
    SeenAppend(read, info, rs);
  }

  lemma {:induction false} SortedVerdicts(d: Dict<nat>)
    requires Verdicts(Keys(d))
    ensures Verdicts(SortStrings(Keys(d)))
  {
    var ks := SortStrings(Keys(d));
    forall i | 0 <= i < |ks| ensures ks[i] == "true" || ks[i] == "false" {
      SortMembers(LexLe, Keys(d), ks[i]);
      assert ks[i] in Keys(d);
    }
  }

  lemma EmptyUnread(prefix: string)
    requires Sampled(prefix)
    ensures SampleReader(prefix)("").None? && ReadCountLine("").None?
  {
  }

  // ----- The whole text ----------------------------------------------------

  /** Lines, each ended by a newline. */
  function Ended(lines: seq<string>): string {
    if lines == [] then "" else lines[0] + "\n" + Ended(lines[1..])
  }

  lemma {:induction false} JoinEnds(lines: seq<string>)
    requires lines != []
    ensures Join(lines, "\n") + "\n" == Ended(lines)
  {
    if |lines| == 1 {
      assert lines[1..] == [] && lines[0] + "\n" + "" == lines[0] + "\n";
    } else {
      JoinEnds(lines[1..]);
      Concat3(lines[0] + "\n", Join(lines[1..], "\n"), "\n");
    }
  }

  /** The sample of an outcome as it is written. */
  function RequestSample(outcome: string, n: nat): string {
    "gs1_resolver_requests_total" + "{outcome=\"" + EscapeOnce(outcome) + "\"} " + Decimal(n)
  }

  /** The sample of a verdict as it is written. */
  function ValidationSample(verdict: string, n: nat): string {
    "gs1_resolver_validations_total" + "{ok=\"" + verdict + "\"} " + Decimal(n)
  }

  /** What says of a metric that it is there: its help and its type. */
  function Described(name: string, help: string, kind: string): seq<string> {
    ["# HELP " + name + help, "# TYPE " + name + kind]
  }

  lemma {:induction false} RequestLinesAre(d: Dict<nat>, ks: seq<string>, i: nat)
    requires i < |ks|
    ensures RequestLines(d, ks)[i] == RequestSample(ks[i], GetOr(d, ks[i], 0))
  {
    hide Get, Decimal;
    EscapeIsOnePass(ks[i]);
  }

  /**
   * The whole text, block by block: the version, a sample for each outcome and each verdict by increasing label, and
   * the sum and the count of the latencies, each metric after its help and its type, each line ended.
   */
  lemma {:induction false} TextLayout(c: Counters, version: string, sum: string)
    ensures var outcomes, verdicts := SortStrings(Keys(c.requests)), SortStrings(Keys(c.validations));
      && |RequestLines(c.requests, outcomes)| == |outcomes|
      && (forall i :: 0 <= i < |outcomes| ==>
            RequestLines(c.requests, outcomes)[i] == RequestSample(outcomes[i], GetOr(c.requests, outcomes[i], 0)))
      && |ValidationLines(c.validations, verdicts)| == |verdicts|
      && (forall i :: 0 <= i < |verdicts| ==>
            ValidationLines(c.validations, verdicts)[i]
              == ValidationSample(verdicts[i], GetOr(c.validations, verdicts[i], 0)))
      && RenderText(c, version, sum) == Ended(
           Described("gs1_resolver_build_info", " Resolver build information.", " gauge")
           + ["gs1_resolver_build_info" + "{version=\"" + EscapeOnce(version) + "\"} 1"]
           + Described("gs1_resolver_requests_total", " Total resolve requests by outcome.", " counter")
           + RequestLines(c.requests, outcomes)
           + Described("gs1_resolver_validations_total", " Validator outcomes (excludes no-op).", " counter")
           + ValidationLines(c.validations, verdicts)
           + Described("gs1_resolver_resolve_duration_seconds", " Resolve latency summary.", " summary")
           + ["gs1_resolver_resolve_duration_seconds" + "_sum " + sum]
           + ["gs1_resolver_resolve_duration_seconds" + "_count " + Decimal(c.latencyCount)])
  {
    hide SortStrings, Get, Decimal, EscapeLabel, EscapeOnce, RequestLines, ValidationLines;
    EscapeIsOnePass(version);
    var outcomes := SortStrings(Keys(c.requests));
    forall i | 0 <= i < |outcomes|
      ensures RequestLines(c.requests, outcomes)[i] == RequestSample(outcomes[i], GetOr(c.requests, outcomes[i], 0))
    {
      RequestLinesAre(c.requests, outcomes, i);
    }
    JoinEnds(Lines(c, version, sum));
    LayoutIs(c, version, sum, RequestLines(c.requests, outcomes),
      ValidationLines(c.validations, SortStrings(Keys(c.validations))));
  }

  lemma {:induction false} LayoutIs(c: Counters, version: string, sum: string, rs: seq<string>, vs: seq<string>)
    requires rs == RequestLines(c.requests, SortStrings(Keys(c.requests)))
    requires vs == ValidationLines(c.validations, SortStrings(Keys(c.validations)))
    ensures Lines(c, version, sum) ==
      Described("gs1_resolver_build_info", " Resolver build information.", " gauge")
      + ["gs1_resolver_build_info" + "{version=\"" + EscapeLabel(version) + "\"} 1"]
      + Described("gs1_resolver_requests_total", " Total resolve requests by outcome.", " counter")
      + rs
      + Described("gs1_resolver_validations_total", " Validator outcomes (excludes no-op).", " counter")
      + vs
      + Described("gs1_resolver_resolve_duration_seconds", " Resolve latency summary.", " summary")
      + ["gs1_resolver_resolve_duration_seconds" + "_sum " + sum]
      + ["gs1_resolver_resolve_duration_seconds" + "_count " + Decimal(c.latencyCount)]
  {
    hide SortStrings, Decimal, EscapeLabel, RequestLines, ValidationLines;
    var info := Described("gs1_resolver_build_info", " Resolver build information.", " gauge");
    var requests := Described("gs1_resolver_requests_total", " Total resolve requests by outcome.", " counter");
    var head := "gs1_resolver_build_info" + "{version=\"" + EscapeLabel(version) + "\"} 1";
    var latency := Described("gs1_resolver_resolve_duration_seconds", " Resolve latency summary.", " summary");
    var total := "gs1_resolver_resolve_duration_seconds" + "_sum " + sum;
    var count := "gs1_resolver_resolve_duration_seconds" + "_count " + Decimal(c.latencyCount);
    assert InfoLines(version) == info + [head] + requests;
    assert LatencyLines(c, sum) == latency + [total] + [count];
    var before := InfoLines(version) + rs + [VALIDATIONS_HELP, VALIDATIONS_TYPE] + vs;
    assert before + (latency + [total] + [count]) == before + latency + [total] + [count];
  }

  // ----- What a reader recovers --------------------------------------------

  /** The request counts that are read are those of the outcomes that fit on a line. */
  lemma RequestsRecovered(c: Counters, version: string, sum: string)
    requires Renderable(c, sum)
    ensures ReadMetric(REQUESTS_PREFIX, RenderText(c, version, sum))
      == KeptCounts(c.requests, SortStrings(Keys(c.requests)))
  {
    RequestsLabelled();
    hide SortStrings, RenderText, RequestLines, ValidationLines, LatencyLines, InfoLines, Collect, Split, Seen,
      Sampled, Labelled,
      REQUESTS, VALIDATIONS, KeptCounts, Verdicts, OneLine, SampleReader, EntriesOr;
    var prefix := REQUESTS_PREFIX;
    SortedVerdicts(c.validations);
    EmptyUnread(prefix);
    InfoSeen(prefix, version);
    RequestsSeen(prefix, c.requests, SortStrings(Keys(c.requests)));
    ValidationHeadSeen(prefix);
    ValidationsSeen(prefix, c.validations, SortStrings(Keys(c.validations)));
    LatencySeen(prefix, c, sum);
    TextSeen(SampleReader(prefix), c, version, sum);
  }

  /** The sorted counts are the dict itself, as a map. */
  lemma SortedCountsSame(d: Dict<nat>)
    ensures SameMap(SortedCounts(d), d)
  {
    hide StableSort, Get;
    forall k ensures Get(SortedCounts(d), k) == Get(d, k) {
      GetEntries(d, SortStrings(Keys(d)), 0, k);
      SortMembers(LexLe, Keys(d), k);
      HasIsKey(d, k);
      assert Get(d, k).Some? ==> Get(d, k) == Some(Get(d, k).value);
    }
  }

  /** Every count is kept exactly when every key fits on a line. */
  lemma {:induction false} AllKept(d: Dict<nat>, ks: seq<string>)
    ensures KeptCounts(d, ks) == EntriesOr(d, ks, 0) <==> forall i :: 0 <= i < |ks| ==> OneLine(ks[i])
    ensures |KeptCounts(d, ks)| <= |ks|
  {
    hide OneLine, Get;
    if ks == [] {
    } else {
      AllKept(d, ks[1..]);
      assert forall i :: 1 <= i < |ks| ==> ks[i] == ks[1..][i - 1];
      if OneLine(ks[0]) {
        assert KeptCounts(d, ks)[1..] == KeptCounts(d, ks[1..]);
        assert EntriesOr(d, ks, 0)[1..] == EntriesOr(d, ks[1..], 0);
        assert KeptCounts(d, ks) == [(ks[0], GetOr(d, ks[0], 0))] + KeptCounts(d, ks[1..]);
      } else {
        assert |KeptCounts(d, ks)| < |ks|;
      }
    }
  }

  lemma {:induction false} SortedOneLine(d: Dict<nat>)
    ensures OneLineKeys(d) <==> forall i :: 0 <= i < |SortStrings(Keys(d))| ==> OneLine(SortStrings(Keys(d))[i])
  {
    hide StableSort, OneLine;
    var ks := SortStrings(Keys(d));
    forall k ensures k in ks <==> k in Keys(d) {
      SortMembers(LexLe, Keys(d), k);
    }
    assert forall i :: 0 <= i < |ks| ==> ks[i] in Keys(d);
    assert forall i :: 0 <= i < |d| ==> Keys(d)[i] == d[i].0 && Keys(d)[i] in ks;
    if OneLineKeys(d) {
      forall i | 0 <= i < |ks| ensures OneLine(ks[i]) {
        var j :| 0 <= j < |Keys(d)| && Keys(d)[j] == ks[i];
      }
    }
    if forall i :: 0 <= i < |ks| ==> OneLine(ks[i]) {
      forall i | 0 <= i < |d| ensures OneLine(d[i].0) {
        var j :| 0 <= j < |ks| && ks[j] == d[i].0;
      }
    }
  }

  /**
   * The request counts read back from the text are exactly those it was made from, as a map and in sorted
   * order, if and only if no outcome contains a newline, the one character that is not escaped.
   */
  lemma RequestsRoundTrip(c: Counters, version: string, sum: string)
    requires Renderable(c, sum)
    ensures ReadMetric(REQUESTS_PREFIX, RenderText(c, version, sum)) == SortedCounts(c.requests)
      <==> OneLineKeys(c.requests)
    ensures SameMap(SortedCounts(c.requests), c.requests)
  {
    hide RenderText, Renderable, OneLineKeys, SameMap, Collect, Split, REQUESTS, SampleReader, SortStrings,
      KeptCounts, EntriesOr;
    RequestsRecovered(c, version, sum);
    SortedCountsSame(c.requests);
    SortedOneLine(c.requests);
    AllKept(c.requests, SortStrings(Keys(c.requests)));
  }

  /** The validation counts are read back exactly, whatever the outcomes are. */
  lemma ValidationsRoundTrip(c: Counters, version: string, sum: string)
    requires Renderable(c, sum)
    ensures ReadMetric(VALIDATIONS_PREFIX, RenderText(c, version, sum)) == SortedCounts(c.validations)
    ensures SameMap(SortedCounts(c.validations), c.validations)
  {
    RequestsLabelled();
    hide SortStrings, RenderText, RequestLines, ValidationLines, LatencyLines, InfoLines, Collect, Split, Seen,
      Sampled, Labelled,
      REQUESTS, VALIDATIONS, KeptCounts, Verdicts, OneLine, SampleReader, EntriesOr, SameMap;
    var prefix := VALIDATIONS_PREFIX;
    SortedCountsSame(c.validations);
    SortedVerdicts(c.validations);
    EmptyUnread(prefix);
    InfoSeen(prefix, version);
    RequestsSeen(prefix, c.requests, SortStrings(Keys(c.requests)));
    ValidationHeadSeen(prefix);
    ValidationsSeen(prefix, c.validations, SortStrings(Keys(c.validations)));
    LatencySeen(prefix, c, sum);
    TextSeen(SampleReader(prefix), c, version, sum);
  }

  lemma {:induction false} NothingForged(ks: seq<string>)
    ensures Forged(ks) == [] <==> forall i :: 0 <= i < |ks| ==> !Forges(ks[i])
  {
    hide ReadCountLine, InnerLines;
    if ks == [] {
    } else {
      NothingForged(ks[1..]);
      CollectNone(ReadCountLine, InnerLines(ks[0]));
      assert forall i :: 1 <= i < |ks| ==> ks[i] == ks[1..][i - 1];
    }
  }

  /**
   * The latency counts that are read: those forged by the version and the outcomes, in that order, and the real one.
   */
  lemma LatencyRecovered(c: Counters, version: string, sum: string)
    requires Renderable(c, sum)
    ensures ReadLatencyCounts(RenderText(c, version, sum))
         == ForgedIn(version) + Forged(SortStrings(Keys(c.requests))) + [c.latencyCount]
  {
    RequestsLabelled();
    hide SortStrings, RenderText, RequestLines, ValidationLines, LatencyLines, InfoLines, Collect, Split, Seen,
      Sampled, Labelled,
      REQUESTS, Verdicts, OneLine, ReadCountLine, Forged, ForgedIn;
    SortedVerdicts(c.validations);
    EmptyUnread(REQUESTS_PREFIX);
    InfoSeen(REQUESTS_PREFIX, version);
    RequestsForged(c.requests, SortStrings(Keys(c.requests)));
    ValidationHeadSeen(REQUESTS_PREFIX);
    VerdictsForgeNothing(c.validations, SortStrings(Keys(c.validations)));
    LatencySeen(REQUESTS_PREFIX, c, sum);
    TextSeen(ReadCountLine, c, version, sum);
  }

  /**
   * The latency count is the one count read back if and only if neither the version nor an outcome has a line
   * of its own that reads as a latency count.
   */
  lemma LatencyRoundTrip(c: Counters, version: string, sum: string)
    requires Renderable(c, sum)
    ensures ReadLatencyCounts(RenderText(c, version, sum)) == [c.latencyCount]
      <==> !Forges(version) && forall k :: Has(c.requests, k) ==> !Forges(k)
  {
    hide RenderText, Renderable, Collect, Split, ReadCountLine, StableSort, Get, Forges, InnerLines, Forged;
    var ks := SortStrings(Keys(c.requests));
    LatencyRecovered(c, version, sum);
    NothingForged(ks);
    ForgesNothing(version);
    forall k ensures k in ks <==> Has(c.requests, k) {
      SortMembers(LexLe, Keys(c.requests), k);
      HasIsKey(c.requests, k);
    }
    assert forall i :: 0 <= i < |ks| ==> ks[i] in ks;
    var forged := ForgedIn(version) + Forged(ks);
    assert forged + [c.latencyCount] == [c.latencyCount] <==> |forged| == 0;
  }

  lemma ForgesNothing(text: string)
    ensures ForgedIn(text) == [] <==> !Forges(text)
  {
    hide ReadCountLine, InnerLines;
    CollectNone(ReadCountLine, InnerLines(text));
  }

  // ----- Outcomes with newlines --------------------------------------------

  /** A request counted under an outcome with a newline is not found again. */
  lemma NewlineLosesCount(version: string, duration: real, sum: string)
    requires OneLine(sum)
    ensures var c := Replay([RecordRequest("a\nb", duration)]);
      && Get(c.requests, "a\nb") == Some(1)
      && ReadMetric(REQUESTS_PREFIX, RenderText(c, version, sum)) == []
  {
    var outcome := "a\nb";
    var c := Replay([RecordRequest(outcome, duration)]);
    OneRequest(outcome, duration);
    assert outcome[1] == '\n';
    hide RenderText, Collect, Split, REQUESTS, SampleReader, OneLine;
    RequestsRecovered(c, version, sum);
    assert KeptCounts(c.requests, [outcome]) == [] + KeptCounts(c.requests, [outcome][1..])
      by { MarkedNotKept(outcome); }
  }

  lemma MarkedNotKept(s: string)
    requires '\n' in s
    ensures !OneLine(s)
  {
  }

  lemma OneRequest(outcome: string, duration: real)
    ensures var c := Replay([RecordRequest(outcome, duration)]);
      c.requests == [(outcome, 1)] && Keys(c.requests) == [outcome] && SortStrings(Keys(c.requests)) == [outcome]
      && c.validations == [] && c.latencyCount == 1
  {
    var log := [RecordRequest(outcome, duration)];
    assert log[..0] == [];
    assert Replay(log) == Effect(Replay([]), log[0]);
    assert Keys([(outcome, 1)]) == [outcome] + Keys<nat>([]);
    assert StableSort(LexLe, [outcome][1..]) == [];
  }

  /** An outcome can hold a line that reads as a latency count. */
  lemma NewlineForgesCount(duration: real, sum: string)
    requires OneLine(sum)
    ensures var c := Replay([RecordRequest(FORGING, duration)]);
      ReadLatencyCounts(RenderText(c, "1.0.0", sum)) == [7, 1]
  {
    var c := Replay([RecordRequest(FORGING, duration)]);
    OneRequest(FORGING, duration);
    ForgingForges();
    hide RenderText, ReadCountLine, OneLine, FORGING, ForgedIn;
    VersionForgesNothing();
    LatencyRecovered(c, "1.0.0", sum);
    assert Forged([FORGING]) == ForgedIn(FORGING) + Forged([FORGING][1..]);
  }

  const FORGING := "a" + ['\n'] + (COUNT_PREFIX + "7" + ['\n'] + "b")

  lemma VersionForgesNothing()
    ensures ForgedIn("1.0.0") == []
  {
    assert OneLine("1.0.0");
    hide OneLine, ReadCountLine;
    OneLineForgesNothing("1.0.0");
  }

  lemma ForgingForges()
    ensures ForgedIn(FORGING) == [7]
  {
    var line := COUNT_PREFIX + "7";
    assert Decimal(7) == "7";
    CountLineReads(7);
    FixedLines();
    assert OneLine("a") && OneLine("b") && OneLine("7");
    hide LATENCY, ReadCountLine, OneLine, Decimal, InnerLines;
    OneLineAppend(COUNT_PREFIX, "7");
    InnerOfThree("a", line, "b");
    CollectOne(ReadCountLine, line);
  }

  lemma InnerOfThree(a: string, line: string, b: string)
    requires OneLine(a) && OneLine(line) && OneLine(b)
    ensures InnerLines(a + ['\n'] + (line + ['\n'] + b)) == [line]
  {
    hide Split;
    SplitAppend(a, line + ['\n'] + b, '\n');
    SplitAppend(line, b, '\n');
    SplitUnmarked(a, '\n');
    SplitUnmarked(line, '\n');
    SplitUnmarked(b, '\n');
  }
}
