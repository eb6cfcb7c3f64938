/** URIs made of path segments: what they parse to, and that their order does not show. */
module Paths {
  import opened Text
  import opened Sorting
  import opened AiTable
  import opened AiTableFacts
  import opened Dict
  import opened Scanner
  import opened Url
  import opened Parser
  import opened ParserProofs

  // ----- What a path of segments parses to ---------------------------------

  /** A segment a path may have: a 2-4 digit AI, known or not, and a value that stays in its segment. */
  predicate PathSegment(seg: Segment) {
    SegmentShaped(seg) && InSegment(seg.1)
  }

  lemma AiInSegment(ai: string)
    requires AiShaped(ai)
    ensures ai != "" && InSegment(ai)
  {
  }

  lemma NumericStays(seg: Segment)
    requires PathSegment(seg)
    ensures AlphaToken(seg.0) == seg.0 && seg.0 != "" && InSegment(seg.0)
  {
    hide AiOfName;
    LowerKeeps(seg.0);
    NotAName(seg.0);
    AiInSegment(seg.0);
  }

  /** What the URI of a list of segments, some of them primary, parses to. */
  function Placed(segs: seq<Segment>, query: string): ParseResult
    requires FirstPrimary(segs) < |segs|
  {
    var key := segs[FirstPrimary(segs)];
    WithSegments(Blank(query).(primaryAi := key.0, primaryValue := key.1), Others(segs))
  }

  lemma {:induction false} FirstPrimaryIs(segs: seq<Segment>)
    ensures forall i :: 0 <= i < FirstPrimary(segs) ==> !IsPrimary(segs[i].0)
    ensures FirstPrimary(segs) < |segs| <==> exists i :: 0 <= i < |segs| && IsPrimary(segs[i].0)
  {
    hide IsPrimary;
    if segs == [] || IsPrimary(segs[0].0) {
    } else {
      FirstPrimaryIs(segs[1..]);
      assert forall i :: 1 <= i < |segs| ==> segs[i] == segs[1..][i - 1];
      if i :| 0 <= i < |segs[1..]| && IsPrimary(segs[1..][i].0) {
        assert IsPrimary(segs[i + 1].0);
      }
    }
  }

  /**
   * When parsing succeeds and when it fails: a URI of more than 2048 characters is too long; else its rewritten path
   * has no segments, or none of them is primary, or the URI parses to its first primary segment and the others.
   */
  lemma ParseExactly(uri: string)
    ensures var path := NormaliseAlpha(PathOf(uri)); var segs := FindAll(path);
      && (Parse(uri) == Refused(TooLong) <==> |uri| > 2048)
      && (Parse(uri) == Refused(NoIdentifiers(path)) <==> |uri| <= 2048 && segs == [])
      && (Parse(uri) == Refused(NoPrimaryKey(path)) <==>
            |uri| <= 2048 && segs != [] && forall i :: 0 <= i < |segs| ==> !IsPrimary(segs[i].0))
      && (Parse(uri).Parsed? ==>
            FirstPrimary(segs) < |segs| && Parse(uri) == Parsed(Placed(segs, UrlSplit(uri).query)))
  {
    hide NormaliseAlpha, PathOf, FindAll, UrlSplit, IsPrimary, ParseQs, WithSegments, Others, FirstPrimary;
    var segs := FindAll(NormaliseAlpha(PathOf(uri)));
    ClassifyMeaning(Blank(UrlSplit(uri).query), segs);
    FirstPrimaryIs(segs);
  }

  /** Query and link type of any URI that parses. */
  lemma {:induction false} QueryOfUri(uri: string, name: string)
    ensures Parse(uri).Parsed? ==>
      var r := Parse(uri).result; var values := ValuesOf(ParseQsl(UrlSplit(uri).query), name);
      && GetOr(r.queryParams, name, []) == values && (Has(r.queryParams, name) <==> values != [])
      && (name == "linkType" ==> r.linkType == if values == [] then None else Some(values[0]))
  {
    hide NormaliseAlpha, PathOf, FindAll, UrlSplit, ParseQsl, Get, Parse, FirstPrimary, Others, PutAll, OfKind, Blank;
    ParseExactly(uri);
    BlankMeaning(UrlSplit(uri).query, name);
  }

  /** The query of a URI of segments is that of its suffix. */
  lemma QueryOfPathUri(host: Option<string>, segs: seq<Segment>, suffix: string)
    requires IsPathUri(host, segs, suffix)
    ensures UrlSplit(PathUri(host, segs, suffix)).query == SuffixQuery(suffix)
  {
    hide PathSegment, InSegment, Origin, Render, UrlSplit, SuffixQuery;
    NumericPath(segs);
    RenderFree(segs);
    SplitPath(host, Render(segs), suffix);
  }

  /** The URI of a list of segments, with or without an origin, a query and a fragment. */
  function PathUri(host: Option<string>, segs: seq<Segment>, suffix: string): string {
    Origin(host) + (Render(segs) + suffix)
  }

  /** Such a URI can be read: each part stays in its place, and the whole is not too long. */
  predicate IsPathUri(host: Option<string>, segs: seq<Segment>, suffix: string) {
    && (host.Some? ==> FreeOf(host.value, "/?#"))
    && (suffix == "" || suffix[0] in "?#")
    && (forall i :: 0 <= i < |segs| ==> PathSegment(segs[i]))
    && |PathUri(host, segs, suffix)| <= MAX_URI_LENGTH
  }

  /** Segments with numeric AIs are well shaped, stay where they are, and need no rewriting. */
  lemma {:induction false} NumericPath(segs: seq<Segment>)
    requires forall i :: 0 <= i < |segs| ==> PathSegment(segs[i])
    ensures forall i :: 0 <= i < |segs| ==> segs[i].0 != "" && InSegment(segs[i].0) && InSegment(segs[i].1)
    ensures AllShaped(segs) && AlphaSegments(segs) == segs
  {
    hide SegmentShaped, InSegment, AlphaToken;
    forall i | 0 <= i < |segs|
      ensures SegmentShaped(segs[i]) && AlphaToken(segs[i].0) == segs[i].0
      ensures segs[i].0 != "" && InSegment(segs[i].0) && InSegment(segs[i].1)
    {
      NumericStays(segs[i]);
    }
    AlphaIs(segs, segs);
  }

  lemma {:induction false} ParsePlaced(host: Option<string>, segs: seq<Segment>, suffix: string)
    requires IsPathUri(host, segs, suffix) && FirstPrimary(segs) < |segs|
    ensures Parse(PathUri(host, segs, suffix)) == Parsed(Placed(segs, SuffixQuery(suffix)))
  {
    hide IsPrimary, PathSegment, InSegment, Parse, FreeOf, Render, WithSegments, Others, Origin, SuffixQuery, ParseQs,
      FindAll, FirstPrimary, AllShaped, AlphaSegments;
    NumericPath(segs);
    ParseRendered(host, segs, suffix);
    FindAllRender(segs);
    ClassifyMeaning(Blank(SuffixQuery(suffix)), segs);
  }

  lemma {:induction false} KeyPlaced(segs: seq<Segment>, query: string)
    requires FirstPrimary(segs) < |segs|
    ensures (Placed(segs, query).primaryAi, Placed(segs, query).primaryValue) == segs[FirstPrimary(segs)]
  {
    hide FirstPrimary, PutAll, OfKind, Others, ParseQs;
  }

  /** The same for a plain path. */
  lemma {:induction false} ParsePath(segs: seq<Segment>)
    requires FirstPrimary(segs) < |segs| && forall i :: 0 <= i < |segs| ==> PathSegment(segs[i])
    requires |Render(segs)| <= MAX_URI_LENGTH
    ensures Parse(Render(segs)) == Parsed(Placed(segs, ""))
  {
    hide Parse, Render, IsPrimary, PathSegment, Placed, FirstPrimary;
    assert PathUri(None, segs, "") == Render(segs);
    assert SuffixQuery("") == "";
    ParsePlaced(None, segs, "");
  }

  // ----- Repeated AIs ------------------------------------------------------

  /** The value of the last segment with this AI. */
  function LastValue(segs: seq<Segment>, ai: string): Option<string> {
    if segs == [] then None
    else if segs[|segs| - 1].0 == ai then Some(segs[|segs| - 1].1)
    else LastValue(segs[..|segs| - 1], ai)
  }

  lemma {:induction false} NothingInEmpty(k: string)
    ensures Get<string>([], k) == None
  {
  }

  /** Writing segments one after the other leaves, under each AI, the value written last. */
  lemma {:induction false} GetPutAll(d: Dict<string>, segs: seq<Segment>, k: string)
    ensures Get(PutAll(d, segs), k) == if LastValue(segs, k).Some? then LastValue(segs, k) else Get(d, k)
  {
    hide Get;
    if segs == [] {
    } else {
      var before, last := segs[..|segs| - 1], segs[|segs| - 1];
      hide PutAll;
      GetPutAll(d, before, k);
      assert segs == before + [last];
      PutAllAppend(d, before, [last]);
      PutAllOne(PutAll(d, before), last);
      GetPut(PutAll(d, before), last.0, last.1, k);
    }
  }

  lemma {:induction false} LastOfAppend(a: seq<Segment>, b: seq<Segment>, k: string)
    ensures LastValue(a + b, k) == if LastValue(b, k).Some? then LastValue(b, k) else LastValue(a, k)
  {
    if b == [] {
      assert a + b == a;
    } else {
      assert (a + b)[..|a + b| - 1] == a + b[..|b| - 1];
      LastOfAppend(a, b[..|b| - 1], k);
    }
  }

  lemma {:induction false} LastOfAbsent(segs: seq<Segment>, k: string)
    requires forall i :: 0 <= i < |segs| ==> segs[i].0 != k
    ensures LastValue(segs, k) == None
  {
    if segs == [] {
    } else {
      LastOfAbsent(segs[..|segs| - 1], k);
    }
  }

  /** The other segments with the AI of the key come after the key. */
  lemma {:induction false} LastWithKeyAi(segs: seq<Segment>)
    requires FirstPrimary(segs) < |segs|
    ensures var p := FirstPrimary(segs); LastValue(Others(segs), segs[p].0) == LastValue(segs[p + 1..], segs[p].0)
  {
    hide IsPrimary, FirstPrimary, LastValue;
    var p := FirstPrimary(segs);
    FirstPrimaryIs(segs);
    LastOfAppend(segs[..p], segs[p + 1..], segs[p].0);
    LastOfAbsent(segs[..p], segs[p].0);
  }

  lemma {:induction false} LastOfKind(segs: seq<Segment>, kind: Kind, k: string)
    ensures LastValue(OfKind(segs, kind), k) == if KindOf(k) == kind then LastValue(segs, k) else None
  {
    hide KindOf;
    if segs == [] {
    } else {
      var before, last := segs[..|segs| - 1], segs[|segs| - 1];
      LastOfKind(before, kind, k);
      assert segs == before + [last];
      hide OfKind;
      OfKindAppend(before, [last], kind);
      OfKindOne(last, kind);
      var xs := OfKind(before, kind);
      assert (xs + [last])[..|xs|] == xs && xs + [] == xs;
    }
  }

  /**
   * What a URI of segments parses to, AI by AI: under each known AI the value of the last segment that has it, the
   * primary key set aside; earlier values are gone. Segments with an unknown AI are all kept.
   */
  lemma {:induction false} PlacedValues(segs: seq<Segment>, query: string, k: string)
    requires FirstPrimary(segs) < |segs|
    ensures var r := Placed(segs, query); var value := LastValue(Others(segs), k);
      && Get(r.qualifiers, k) == (if KindOf(k) == QualifierKind then value else None)
      && Get(r.attributes, k) == (if KindOf(k) == AttributeKind then value else None)
      && r.unknownAis == OfKind(Others(segs), UnknownKind)
  {
    hide KindOf, Get, Others, FirstPrimary, PutAll, OfKind, LastValue;
    NothingInEmpty(k);
    GetPutAll([], OfKind(Others(segs), QualifierKind), k);
    GetPutAll([], OfKind(Others(segs), AttributeKind), k);
    LastOfKind(Others(segs), QualifierKind, k);
    LastOfKind(Others(segs), AttributeKind, k);
  }

  // ----- Paths that mean the same ------------------------------------------

  /**
   * Two results that differ in the order of their dicts at most: same key and value, same qualifiers and attributes
   * as maps, same query.
   */
  ghost predicate SameIdentity(a: ParseResult, b: ParseResult) {
    && a.primaryAi == b.primaryAi && a.primaryValue == b.primaryValue
    && SameMap(a.qualifiers, b.qualifiers) && SameMap(a.attributes, b.attributes)
    && a.queryParams == b.queryParams
  }

  /** Two paths have, primary keys set aside, the same last value for every known AI. */
  ghost predicate SameLastValues(segs: seq<Segment>, segs': seq<Segment>) {
    forall ai :: IsKnown(ai) ==> LastValue(Others(segs), ai) == LastValue(Others(segs'), ai)
  }

  lemma {:induction false} SameMapsOfPlaced(segs: seq<Segment>, segs': seq<Segment>, query: string, query': string)
    requires FirstPrimary(segs) < |segs| && FirstPrimary(segs') < |segs'|
    ensures var a, b := Placed(segs, query), Placed(segs', query');
      SameMap(a.qualifiers, b.qualifiers) && SameMap(a.attributes, b.attributes) <==> SameLastValues(segs, segs')
  {
    hide IsKnown, IsQualifier, Get, Others, FirstPrimary, LastValue, Placed;
    var a, b := Placed(segs, query), Placed(segs', query');
    forall k
      ensures Get(a.qualifiers, k) == Get(b.qualifiers, k) && Get(a.attributes, k) == Get(b.attributes, k)
        <==> (IsKnown(k) ==> LastValue(Others(segs), k) == LastValue(Others(segs'), k))
    {
      PlacedValues(segs, query, k);
      PlacedValues(segs', query', k);
    }
  }

  /** Two paths with the same query parse alike exactly when their keys and their last values are the same. */
  lemma {:induction false} SamePlaced(segs: seq<Segment>, segs': seq<Segment>, query: string)
    requires FirstPrimary(segs) < |segs| && FirstPrimary(segs') < |segs'|
    ensures SameIdentity(Placed(segs, query), Placed(segs', query))
      <==> segs[FirstPrimary(segs)] == segs'[FirstPrimary(segs')] && SameLastValues(segs, segs')
    ensures Placed(segs, query).linkType == Placed(segs', query).linkType
  {
    SameMapsOfPlaced(segs, segs', query, query);
    hide IsPrimary, OfKind, Others, ParseQs, SameMap, PutAll, FirstPrimary, SameLastValues;
  }

  // ----- Permuted paths ----------------------------------------------------

  /** The AIs of a path, pairwise distinct. */
  ghost predicate DistinctAis(segs: seq<Segment>) {
    forall i, j :: 0 <= i < j < |segs| ==> segs[i].0 != segs[j].0
  }

  /** Exactly one segment is a primary key. */
  ghost predicate OnePrimary(segs: seq<Segment>) {
    FirstPrimary(segs) < |segs| && forall i :: 0 <= i < |segs| && i != FirstPrimary(segs) ==> !IsPrimary(segs[i].0)
  }

  /** Where no AI is repeated, the last value is the only one. */
  lemma {:induction false} LastOfDistinct(segs: seq<Segment>, k: string)
    requires DistinctAis(segs)
    ensures forall v :: (LastValue(segs, k) == Some(v) <==> (k, v) in segs)
  {
    if segs == [] {
    } else {
      var before, last := segs[..|segs| - 1], segs[|segs| - 1];
      LastOfDistinct(before, k);
      assert segs == before + [last];
    }
  }

  lemma {:induction false} OfKindMembers(segs: seq<Segment>, kind: Kind)
    ensures forall x :: x in OfKind(segs, kind) <==> x in segs && KindOf(x.0) == kind
  {
    hide KindOf;
    if segs == [] {
    } else {
      OfKindMembers(segs[1..], kind);
      assert segs == [segs[0]] + segs[1..];
    }
  }

  lemma {:induction false} OthersAt(segs: seq<Segment>)
    requires FirstPrimary(segs) < |segs|
    ensures |Others(segs)| == |segs| - 1
    ensures forall i :: 0 <= i < |Others(segs)| ==> Others(segs)[i] == segs[if i < FirstPrimary(segs) then i else i + 1]
  {
    hide IsPrimary, FirstPrimary;
    WithoutOne(segs, FirstPrimary(segs));
  }

  lemma WithoutOne<T>(s: seq<T>, p: nat)
    requires p < |s|
    ensures var t := s[..p] + s[p + 1..];
      |t| == |s| - 1 && forall i :: 0 <= i < |t| ==> t[i] == s[if i < p then i else i + 1]
  {
  }

  lemma OthersMembers(segs: seq<Segment>)
    requires OnePrimary(segs) && DistinctAis(segs)
    ensures forall x :: x in Others(segs) <==> x in segs && !IsPrimary(x.0)
    ensures DistinctAis(Others(segs))
  {
    hide IsPrimary, Others;
    OthersAt(segs);
    var p := FirstPrimary(segs);
    forall x | x in segs && !IsPrimary(x.0) ensures x in Others(segs) {
      var i :| 0 <= i < |segs| && segs[i] == x;
      assert x == Others(segs)[if i < p then i else i - 1];
    }
  }

  lemma SameOption(a: Option<string>, b: Option<string>)
    requires forall v :: a == Some(v) <==> b == Some(v)
    ensures a == b
  {
    assert a.Some? ==> b == Some(a.value);
    assert b.Some? ==> a == Some(b.value);
  }

  /** The same segments, each once, in any order: the same key and the same last values. */
  lemma {:induction false} SameSegments(segs: seq<Segment>, segs': seq<Segment>)
    requires OnePrimary(segs) && DistinctAis(segs) && OnePrimary(segs') && DistinctAis(segs')
    requires forall x :: x in segs <==> x in segs'
    ensures segs[FirstPrimary(segs)] == segs'[FirstPrimary(segs')] && SameLastValues(segs, segs')
  {
    hide IsPrimary, IsKnown, LastValue, Others;
    var key := segs[FirstPrimary(segs)];
    assert key in segs && key in segs';
    var j :| 0 <= j < |segs'| && segs'[j] == key;
    assert j == FirstPrimary(segs');
    OthersMembers(segs);
    OthersMembers(segs');
    hide DistinctAis, OnePrimary;
    forall k ensures LastValue(Others(segs), k) == LastValue(Others(segs'), k) {
      LastOfDistinct(Others(segs), k);
      LastOfDistinct(Others(segs'), k);
      SameOption(LastValue(Others(segs), k), LastValue(Others(segs'), k));
    }
  }

  /** A permutation of the segments has distinct AIs and one primary key too. */
  lemma PermutedSegments(segs: seq<Segment>, segs': seq<Segment>)
    requires multiset(segs) == multiset(segs') && DistinctAis(segs) && OnePrimary(segs)
    ensures DistinctAis(segs') && OnePrimary(segs')
    ensures forall x :: x in segs <==> x in segs'
  {
    hide IsPrimary;
    DistinctIsSet(segs);
    DistinctIsSet(segs');
    forall x ensures x in segs <==> x in segs' {
      assert x in multiset(segs) <==> x in multiset(segs');
    }
    forall i, j | 0 <= i < j < |segs'| ensures segs'[i].0 != segs'[j].0 {
      assert segs'[i] in segs && segs'[j] in segs && segs'[i] != segs'[j];
    }
    OnlyPrimary(segs);
    var key := segs[FirstPrimary(segs)];
    assert key in segs';
    FirstPrimaryFound(segs', key);
    forall i | 0 <= i < |segs'| && i != FirstPrimary(segs') ensures !IsPrimary(segs'[i].0) {
      assert segs'[i] in segs && segs'[FirstPrimary(segs')] in segs;
    }
  }

  lemma {:induction false} OnlyPrimary(segs: seq<Segment>)
    requires OnePrimary(segs)
    ensures forall x :: x in segs && IsPrimary(x.0) ==> x == segs[FirstPrimary(segs)]
  {
    hide IsPrimary;
  }

  lemma {:induction false} FirstPrimaryFound(segs: seq<Segment>, key: Segment)
    requires key in segs && IsPrimary(key.0)
    ensures FirstPrimary(segs) < |segs|
  {
    hide IsPrimary;
    if !IsPrimary(segs[0].0) {
      assert segs == [segs[0]] + segs[1..];
      FirstPrimaryFound(segs[1..], key);
    }
  }

  lemma {:induction false} RenderWithout(segs: seq<Segment>, j: nat)
    requires j < |segs|
    ensures |Render(segs)| == |Written(segs[j])| + |Render(segs[..j] + segs[j + 1..])|
  {
    hide Written;
    if j == 0 {
      assert segs[..0] + segs[1..] == segs[1..];
    } else {
      RenderWithout(segs[1..], j - 1);
      TailWithout(segs, j);
    }
  }

  /** Permuted paths are equally long. */
  lemma {:induction false} RenderLength(segs: seq<Segment>, segs': seq<Segment>)
    requires multiset(segs) == multiset(segs')
    ensures |Render(segs)| == |Render(segs')|
    decreases |segs|
  {
    if segs == [] {
      EmptyPermutation(segs, segs');
    } else {
      hide Render, Written;
      var j := HeadInPermutation(segs, segs');
      RenderWithout(segs, 0);
      RenderWithout(segs', j);
      RenderLength(segs[..0] + segs[1..], segs'[..j] + segs'[j + 1..]);
    }
  }

  lemma PermutedUri(host: Option<string>, segs: seq<Segment>, segs': seq<Segment>, suffix: string)
    requires IsPathUri(host, segs, suffix) && multiset(segs) == multiset(segs')
    ensures IsPathUri(host, segs', suffix)
  {
    hide PathSegment, FreeOf, Render, Origin;
    RenderLength(segs, segs');
    forall i | 0 <= i < |segs'| ensures PathSegment(segs'[i]) {
      assert segs'[i] in multiset(segs');
      assert segs'[i] in segs;
    }
  }

  /** Two URIs whose segments are permutations of each other, with distinct AIs and one primary key, parse alike. */
  lemma {:induction false} PermutedParse(host: Option<string>, segs: seq<Segment>, segs': seq<Segment>, suffix: string)
    requires IsPathUri(host, segs, suffix)
    requires multiset(segs) == multiset(segs') && DistinctAis(segs) && OnePrimary(segs)
    ensures IsPathUri(host, segs', suffix) && OnePrimary(segs')
    ensures segs[FirstPrimary(segs)] == segs'[FirstPrimary(segs')] && SameLastValues(segs, segs')
    ensures Parse(PathUri(host, segs, suffix)) == Parsed(Placed(segs, SuffixQuery(suffix)))
    ensures Parse(PathUri(host, segs', suffix)) == Parsed(Placed(segs', SuffixQuery(suffix)))
    ensures var a, b := Placed(segs, SuffixQuery(suffix)), Placed(segs', SuffixQuery(suffix));
      SameIdentity(a, b) && a.linkType == b.linkType
  {
    hide IsPrimary, IsPathUri, Parse, PathUri, SuffixQuery, Placed, SameIdentity, FirstPrimary, DistinctAis,
      SameLastValues;
    PermutedSegments(segs, segs');
    PermutedUri(host, segs, segs', suffix);
    ParsePlaced(host, segs, suffix);
    ParsePlaced(host, segs', suffix);
    SameSegments(segs, segs');
    SamePlaced(segs, segs', SuffixQuery(suffix));
  }
}
