/** The segment scanner: `re.findall(r"/(\d{2,4})/([^/?#]+)", path)`. */
module Scanner {
  import opened Text

  /** A path segment: an AI and its value. */
  type Segment = (string, string)

  /** What `\d{2,4}` matches. */
  predicate AiShaped(ai: string) {
    2 <= |ai| <= 4 && IsDigits(ai)
  }

  predicate ValueChar(c: char) {
    c != '/' && c != '?' && c != '#'
  }

  /** What `[^/?#]+` matches. */
  predicate ValueShaped(v: string) {
    v != "" && forall i :: 0 <= i < |v| ==> ValueChar(v[i])
  }

  predicate SegmentShaped(seg: Segment) {
    AiShaped(seg.0) && ValueShaped(seg.1)
  }

  /** A segment's AI has 2 to 4 decimal digits, and its value is not empty and has no `/`, `?` or `#`. */
  lemma {:induction false} ShapeIs(seg: Segment)
    ensures SegmentShaped(seg) <==>
      && 2 <= |seg.0| <= 4 && (forall i :: 0 <= i < |seg.0| ==> '0' <= seg.0[i] <= '9')
      && seg.1 != "" && '/' !in seg.1 && '?' !in seg.1 && '#' !in seg.1
  {
  }

  /** How many digits `s` starts with, counting no further than `max`. */
  function DigitRun(s: string, max: nat): (n: nat)
    ensures n <= |s| && n <= max && IsDigits(s[..n])
    ensures n < max && n < |s| ==> !IsDigit(s[n])
  {
    if max == 0 || s == "" || !IsDigit(s[0]) then 0 else 1 + DigitRun(s[1..], max - 1)
  }

  /** How many value characters `s` starts with. */
  function ValueRun(s: string): (n: nat)
    ensures n <= |s| && forall i :: 0 <= i < n ==> ValueChar(s[i])
    ensures n < |s| ==> !ValueChar(s[n])
  {
    if s == "" || !ValueChar(s[0]) then 0 else 1 + ValueRun(s[1..])
  }

  /** The greedy match at the start of `s`. */
  function MatchHere(s: string): (m: Option<Segment>)
    ensures m.Some? ==> SegmentShaped(m.value) && Written(m.value) <= s
  {
    if s == "" || s[0] != '/' then None
    else
      var d := DigitRun(s[1..], 4);
      if d < 2 || |s| <= 1 + d || s[1 + d] != '/' then None
      else
        var v := ValueRun(s[2 + d..]);
        if v == 0 then None
        else
          assert s[1..][..d] == s[1..1 + d] && s[2 + d..][..v] == s[2 + d..2 + d + v];
          assert s == "/" + s[1..1 + d] + "/" + s[2 + d..2 + d + v] + s[2 + d + v..];
          Some((s[1..1 + d], s[2 + d..2 + d + v]))
  }

  /** A segment as it is written in a path. */
  function Written(seg: Segment): string {
    "/" + seg.0 + "/" + seg.1
  }

  /** All matches, from left to right, the search going on after each match. */
  function FindAll(s: string): seq<Segment>
    decreases |s|
  {
    if s == "" then []
    else match MatchHere(s)
      case Some(seg) => [seg] + FindAll(s[|Written(seg)|..])
      case None => FindAll(s[1..])
  }

  // ----- The scanner against the meaning of the expression ------------------

  /** The regular expression matches `seg` at position `i`. */
  ghost predicate MatchesAt(s: string, i: nat, seg: Segment) {
    i <= |s| && SegmentShaped(seg) && Written(seg) <= s[i..]
  }

  /** No match starts in `[lo, hi)`. */
  ghost predicate NoMatch(s: string, lo: nat, hi: nat) {
    forall i, seg :: lo <= i < hi ==> !MatchesAt(s, i, seg)
  }

  /** `seg` is the longest match at `i`. */
  ghost predicate LongestAt(s: string, i: nat, seg: Segment) {
    MatchesAt(s, i, seg) && forall other :: MatchesAt(s, i, other) ==> |Written(other)| <= |Written(seg)|
  }

  /**
   * `starts` and `segs` are the leftmost-longest matches from `from` on: each is the longest
   * match where it starts, none overlap, and no match starts between two of them.
   */
  ghost predicate LeftmostLongest(s: string, from: nat, starts: seq<nat>, segs: seq<Segment>)
    decreases |segs|
  {
    if segs == [] then starts == [] && NoMatch(s, from, |s| + 1)
    else
      && |starts| == |segs|
      && from <= starts[0]
      && NoMatch(s, from, starts[0])
      && LongestAt(s, starts[0], segs[0])
      && LeftmostLongest(s, starts[0] + |Written(segs[0])|, starts[1..], segs[1..])
  }

  lemma WrittenChars(s: string, seg: Segment)
    requires Written(seg) <= s
    ensures 2 + |seg.0| + |seg.1| <= |s|
    ensures s[0] == '/' && s[1 + |seg.0|] == '/'
    ensures forall j :: 1 <= j < 1 + |seg.0| ==> s[j] == seg.0[j - 1]
    ensures forall j :: 2 + |seg.0| <= j < 2 + |seg.0| + |seg.1| ==> s[j] == seg.1[j - 2 - |seg.0|]
  {
    var w := Written(seg);
    assert s[..|w|] == w;
    assert forall j :: 0 <= j < |w| ==> s[j] == w[j];
  }

  /** Two matches at one place have the same AI. */
  lemma SameAi(s: string, a: Segment, b: Segment)
    requires SegmentShaped(a) && SegmentShaped(b) && Written(a) <= s && Written(b) <= s
    ensures a.0 == b.0
  {
    WrittenChars(s, a);
    WrittenChars(s, b);
    assert |a.0| == |b.0| by {
      assert s[1 + |a.0|] == '/' && s[1 + |b.0|] == '/';
    }
    forall k | 0 <= k < |a.0| ensures a.0[k] == b.0[k] {
      assert s[k + 1] == a.0[k + 1 - 1] && s[k + 1] == b.0[k + 1 - 1];
    }
  }

  /** Of two matches at one place, the value of the shorter is a prefix of the other's. */
  lemma ValuePrefix(s: string, a: Segment, b: Segment)
    requires SegmentShaped(a) && SegmentShaped(b) && Written(a) <= s && Written(b) <= s
    requires |a.1| <= |b.1|
    ensures a.1 <= b.1 && (|a.1| == |b.1| ==> a == b)
  {
    SameAi(s, a, b);
    WrittenChars(s, a);
    WrittenChars(s, b);
    forall k | 0 <= k < |a.1| ensures a.1[k] == b.1[k] {
      assert s[2 + |a.0| + k] == a.1[2 + |a.0| + k - 2 - |a.0|] == b.1[2 + |a.0| + k - 2 - |a.0|];
    }
    assert a.1 == b.1[..|a.1|];
    assert |a.1| == |b.1| ==> a.1 == b.1;
  }

  /** The greedy match is the longest one, and there is one whenever there is any. */
  lemma GreedyIsLongest(s: string, seg: Segment)
    requires SegmentShaped(seg) && Written(seg) <= s
    ensures MatchHere(s).Some? && MatchHere(s).value.0 == seg.0 && |seg.1| <= |MatchHere(s).value.1|
  {
    WrittenChars(s, seg);
    var n := |seg.0|;
    var t := s[1..];
    var d := DigitRun(t, 4);
    assert forall k :: 0 <= k < n ==> t[k] == s[1 + k];
    assert d == n by {
      assert t[n] == '/' && forall k :: 0 <= k < d ==> IsDigit(t[..d][k]);
    }
    var u := s[2 + n..];
    assert forall k :: 0 <= k < |seg.1| ==> u[k] == s[2 + n + k];
    assert ValueRun(u) >= |seg.1|;
    SameAi(s, seg, MatchHere(s).value);
  }

  /** The scanner returns exactly the leftmost-longest matches. */
  lemma {:induction false} ScannerIsLeftmostLongest(s: string, from: nat) returns (starts: seq<nat>)
    requires from <= |s|
    ensures LeftmostLongest(s, from, starts, FindAll(s[from..]))
    decreases |s| - from
  {
    var t := s[from..];
    MatchDecided(s, from);
    hide MatchHere, MatchesAt, LongestAt, SegmentShaped;
    if MatchHere(t).Some? {
      var seg := MatchHere(t).value;
      var next := from + |Written(seg)|;
      assert t[|Written(seg)|..] == s[next..];
      var rest := ScannerIsLeftmostLongest(s, next);
      starts := [from] + rest;
      StepOver(s, from, seg, rest, FindAll(s[next..]));
    } else if t == "" {
      starts := [];
      assert NoMatch(s, from, |s| + 1) by {
        forall i, seg | from <= i < |s| + 1 ensures !MatchesAt(s, i, seg) { assert i == from; }
      }
    } else {
      assert t[1..] == s[from + 1..];
      starts := ScannerIsLeftmostLongest(s, from + 1);
      SkipOne(s, from, starts, FindAll(t[1..]));
    }
  }

  lemma MatchDecided(s: string, i: nat)
    requires i <= |s|
    ensures match MatchHere(s[i..])
      case Some(seg) => LongestAt(s, i, seg)
      case None => forall seg :: !MatchesAt(s, i, seg)
  {
    forall seg | MatchesAt(s, i, seg)
      ensures MatchHere(s[i..]).Some? && |Written(seg)| <= |Written(MatchHere(s[i..]).value)|
    {
      GreedyIsLongest(s[i..], seg);
    }
  }

  lemma {:induction false} StepOver(s: string, from: nat, seg: Segment, starts: seq<nat>, segs: seq<Segment>)
    requires LongestAt(s, from, seg)
    requires LeftmostLongest(s, from + |Written(seg)|, starts, segs)
    ensures LeftmostLongest(s, from, [from] + starts, [seg] + segs)
  {
    assert ([from] + starts)[1..] == starts && ([seg] + segs)[1..] == segs;
  }

  lemma SkipOne(s: string, from: nat, starts: seq<nat>, segs: seq<Segment>)
    requires LeftmostLongest(s, from + 1, starts, segs)
    requires forall seg :: !MatchesAt(s, from, seg)
    ensures LeftmostLongest(s, from, starts, segs)
  {
  }

  /** Only one list of matches is leftmost-longest, so the description leaves the scanner no choice. */
  lemma {:induction false} LeftmostLongestUnique(
    s: string, from: nat, starts: seq<nat>, segs: seq<Segment>, starts': seq<nat>, segs': seq<Segment>)
    requires LeftmostLongest(s, from, starts, segs) && LeftmostLongest(s, from, starts', segs')
    ensures starts == starts' && segs == segs'
    decreases |segs|
  {
    SameStart(s, from, starts, segs, starts', segs');
    if segs == [] {
    } else {
      LeftmostLongestUnique(s, starts[0] + |Written(segs[0])|, starts[1..], segs[1..], starts'[1..], segs'[1..]);
      assert starts == [starts[0]] + starts[1..] && starts' == [starts'[0]] + starts'[1..];
      assert segs == [segs[0]] + segs[1..] && segs' == [segs'[0]] + segs'[1..];
    }
  }

  lemma {:induction false} SameStart(
    s: string, from: nat, starts: seq<nat>, segs: seq<Segment>, starts': seq<nat>, segs': seq<Segment>)
    requires LeftmostLongest(s, from, starts, segs) && LeftmostLongest(s, from, starts', segs')
    ensures segs == [] <==> segs' == []
    ensures segs != [] ==> starts[0] == starts'[0] && segs[0] == segs'[0]
  {
    assert segs == [] || MatchesAt(s, starts[0], segs[0]);
    assert segs' == [] || MatchesAt(s, starts'[0], segs'[0]);
    if segs != [] && segs' != [] {
      var t := s[starts[0]..];
      SameAi(t, segs[0], segs'[0]);
      ValuePrefix(t, segs[0], segs'[0]);
    }
  }

  // ----- Paths made of segments --------------------------------------------

  function Render(segs: seq<Segment>): string {
    if segs == [] then "" else Written(segs[0]) + Render(segs[1..])
  }

  ghost predicate AllShaped(segs: seq<Segment>) {
    forall i :: 0 <= i < |segs| ==> SegmentShaped(segs[i])
  }

  lemma MatchWritten(seg: Segment, rest: string)
    requires SegmentShaped(seg)
    requires rest == "" || rest[0] == '/'
    ensures MatchHere(Written(seg) + rest) == Some(seg)
  {
    var s := Written(seg) + rest;
    GreedyIsLongest(s, seg);
    var m := MatchHere(s).value;
    WrittenChars(s, m);
    assert |m.1| == |seg.1| by {
      assert rest != "" ==> s[|Written(seg)|] == '/';
      assert |Written(seg)| == 2 + |m.0| + |seg.1|;
    }
    ValuePrefix(s, seg, m);
  }

  /** On a path made of segments the scanner returns exactly those segments. */
  lemma {:induction false} FindAllRender(segs: seq<Segment>)
    requires AllShaped(segs)
    ensures FindAll(Render(segs)) == segs
  {
    if segs == [] {
    } else {
      var rest := Render(segs[1..]);
      MatchWritten(segs[0], rest);
      var s := Written(segs[0]) + rest;
      assert s[|Written(segs[0])|..] == rest;
      FindAllRender(segs[1..]);
      assert segs == [segs[0]] + segs[1..];
    }
  }

  /** Whatever the path, every segment the scanner returns is well shaped. */
  lemma {:induction false} FindAllShaped(s: string)
    ensures AllShaped(FindAll(s))
    decreases |s|
  {
    if s == "" {
    } else {
      match MatchHere(s)
      case Some(seg) => FindAllShaped(s[|Written(seg)|..]);
      case None => FindAllShaped(s[1..]);
    }
  }
}
