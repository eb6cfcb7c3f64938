/** What the parser's passes do: the alpha rewriter, and where each segment ends up. */
module ParserProofs {
  import opened Text
  import opened AiTable
  import opened AiTableFacts
  import opened Dict
  import opened Scanner
  import opened Url
  import opened Parser

  // ----- The alpha rewriter ------------------------------------------------

  /** Rewriting a token twice is rewriting it once, and never makes a `/`. */
  lemma AlphaTokenStable(token: string)
    ensures AlphaToken(AlphaToken(token)) == AlphaToken(token)
    ensures '/' !in token ==> '/' !in AlphaToken(token)
  {
    hide AiOfName, IsKnown, NameOf, NameShaped;
    if AiOfName(Lower(token)).Some? {
      KnownName(Lower(token));
      var ai := AiOfName(Lower(token)).value;
      KnownAi(ai);
      LowerKeeps(ai);
      NotAName(ai);
    }
  }

  lemma {:induction false} TokensJoin(path: string)
    ensures NormaliseAlpha(path) == Join(NormaliseTokens(Split(path, '/'), 0), "/")
  {
    hide AiOfName;
    if path == "" {
      assert Split(path, '/') == [""];
    } else if path == "/" {
      assert Split("", '/') == [""];
      assert Split(path, '/') == ["", ""];
      assert Lower("") == "";
      NotAName("");
      assert NormaliseTokens(["", ""], 0) == [""] + NormaliseTokens([""], 1);
      assert NormaliseTokens([""], 1) == [""];
    }
  }

  /** The tokens of a normalised path are the rewritten tokens of the path. */
  lemma {:induction false} SplitNormal(path: string)
    ensures Split(NormaliseAlpha(path), '/') == NormaliseTokens(Split(path, '/'), 0)
  {
    hide AlphaToken;
    TokensJoin(path);
    var parts := NormaliseTokens(Split(path, '/'), 0);
    forall k | 0 <= k < |parts| ensures '/' !in parts[k] {
      NormaliseTokensAt(Split(path, '/'), 0, k);
      AlphaTokenStable(Split(path, '/')[k]);
    }
    SplitJoin(parts, '/');
  }

  /** The rewriter is idempotent, and leaves every token at value position as it was. */
  lemma {:induction false} NormaliseAlphaIdempotent(path: string)
    ensures NormaliseAlpha(NormaliseAlpha(path)) == NormaliseAlpha(path)
    ensures |Split(NormaliseAlpha(path), '/')| == |Split(path, '/')|
    ensures forall k :: 0 <= k < |Split(path, '/')| && k % 2 == 0 ==>
      Split(NormaliseAlpha(path), '/')[k] == Split(path, '/')[k]
  {
    hide AlphaToken, NormaliseAlpha, Split, Join, NormaliseTokens;
    SplitNormal(path);
    var parts, once := Split(path, '/'), NormaliseTokens(Split(path, '/'), 0);
    var twice := NormaliseTokens(once, 0);
    forall k | 0 <= k < |parts| ensures twice[k] == once[k] && (k % 2 == 0 ==> once[k] == parts[k]) {
      NormaliseTokensAt(parts, 0, k);
      NormaliseTokensAt(once, 0, k);
      AlphaTokenStable(parts[k]);
    }
    assert twice == once;
    TokensJoin(NormaliseAlpha(path));
    TokensJoin(path);
  }

  /**
   * The rewriter, token by token: at AI position a name of the table, in any letter case, becomes its AI and anything
   * else stays; at value position everything stays.
   */
  lemma {:induction false} NormaliseMeaning(path: string, k: nat)
    requires k < |Split(path, '/')|
    ensures |Split(NormaliseAlpha(path), '/')| == |Split(path, '/')|
    ensures var token, new' := Split(path, '/')[k], Split(NormaliseAlpha(path), '/')[k];
      && (forall ai :: k % 2 == 1 && IsKnown(ai) && NameOf(ai) == Lower(token) ==> new' == ai)
      && (k % 2 == 0 || (forall ai :: IsKnown(ai) ==> NameOf(ai) != Lower(token)) ==> new' == token)
  {
    hide Split, NormaliseAlpha, AiOfName, NameOf, IsKnown, Lower;
    SplitNormal(path);
    var token := Split(path, '/')[k];
    NormaliseTokensAt(Split(path, '/'), 0, k);
    if AiOfName(Lower(token)).Some? {
      KnownName(Lower(token));
    }
    forall ai | IsKnown(ai) && NameOf(ai) == Lower(token) ensures AiOfName(Lower(token)) == Some(ai) {
      KnownAi(ai);
    }
  }

  /** The parsed path is that of the URL, parameters cut off its last segment where the scheme has them. */
  lemma PathOfMeaning(uri: string) returns (dir: string, kept: string, params: string)
    ensures UrlSplit(uri).path == dir + (kept + params) && PathOf(uri) == dir + kept
    ensures UrlSplit(uri).scheme !in USES_PARAMS ==> params == ""
    ensures UrlSplit(uri).scheme in USES_PARAMS ==>
      && (dir == "" || dir[|dir| - 1] == '/') && FreeOf(kept, "/;")
      && '/' !in params && (params == "" || params[0] == ';')
  {
    hide UrlSplit, DropParams, USES_PARAMS;
    var p := UrlSplit(uri);
    if p.scheme in USES_PARAMS {
      dir, kept, params := ParamsCut(p.path);
      if params != "" {
        SemicolonIn(dir, kept, params);
      }
    } else {
      dir, kept, params := "", p.path, "";
    }
  }

  /** What the query gives: each name its values, in order, and the link type the first value of `linkType`. */
  lemma {:induction false} BlankMeaning(query: string, name: string)
    ensures var r := Blank(query); var values := ValuesOf(ParseQsl(query), name);
      && GetOr(r.queryParams, name, []) == values && (Has(r.queryParams, name) <==> values != [])
      && (name == "linkType" ==> r.linkType == if values == [] then None else Some(values[0]))
  {
    hide ParseQsl, Get;
    GroupValues(ParseQsl(query), name);
  }

  function Tokens(segs: seq<Segment>): seq<string> {
    if segs == [] then [] else [segs[0].0, segs[0].1] + Tokens(segs[1..])
  }

  function AlphaSegments(segs: seq<Segment>): (r: seq<Segment>)
    ensures |r| == |segs|
  {
    if segs == [] then [] else [(AlphaToken(segs[0].0), segs[0].1)] + AlphaSegments(segs[1..])
  }

  lemma {:induction false} RenderJoin(segs: seq<Segment>, first: string)
    ensures Join([first] + Tokens(segs), "/") == first + Render(segs)
  {
    if segs != [] {
      var ai, v := segs[0].0, segs[0].1;
      var rest := Tokens(segs[1..]);
      RenderJoin(segs[1..], v);
      assert ([first] + Tokens(segs))[1..] == [ai] + ([v] + rest);
      assert ([ai] + ([v] + rest))[1..] == [v] + rest;
      assert Join([ai] + ([v] + rest), "/") == ai + "/" + Join([v] + rest, "/");
      Concat3(ai + "/", v, Render(segs[1..]));
      Concat3(first, "/", ai + "/" + v + Render(segs[1..]));
    } else {
      assert [first] + Tokens(segs) == [first];
    }
  }

  lemma {:induction false} NormaliseSegments(segs: seq<Segment>, i: nat)
    requires i % 2 == 1
    ensures NormaliseTokens(Tokens(segs), i) == Tokens(AlphaSegments(segs))
  {
    hide AlphaToken;
    if segs == [] {
    } else {
      var rest := Tokens(segs[1..]);
      NormaliseSegments(segs[1..], i + 2);
      assert Tokens(segs)[1..] == [segs[0].1] + rest;
      assert ([segs[0].1] + rest)[1..] == rest;
    }
  }

  /** On a path of segments the rewriter changes the AIs and nothing else. */
  lemma {:induction false} NormaliseRender(segs: seq<Segment>)
    requires forall i :: 0 <= i < |segs| ==> '/' !in segs[i].0 && '/' !in segs[i].1
    ensures NormaliseAlpha(Render(segs)) == Render(AlphaSegments(segs))
  {
    hide AlphaToken, Join, Split, Render, NormaliseAlpha, AlphaSegments;
    var parts := [""] + Tokens(segs);
    RenderJoin(segs, "");
    assert "" + Render(segs) == Render(segs);
    TokensUnmarked(segs);
    SplitJoin(parts, '/');
    TokensJoin(Render(segs));
    NormaliseSegments(segs, 1);
    assert parts[1..] == Tokens(segs);
    RenderJoin(AlphaSegments(segs), "");
    assert "" + Render(AlphaSegments(segs)) == Render(AlphaSegments(segs));
  }

  lemma {:induction false} TokensUnmarked(segs: seq<Segment>)
    requires forall i :: 0 <= i < |segs| ==> '/' !in segs[i].0 && '/' !in segs[i].1
    ensures forall i :: 0 <= i < |Tokens(segs)| ==> '/' !in Tokens(segs)[i]
  {
    if segs == [] {
    } else {
      TokensUnmarked(segs[1..]);
    }
  }

  lemma {:induction false} AlphaSegmentsAt(segs: seq<Segment>, k: nat)
    requires k < |segs|
    ensures AlphaSegments(segs)[k] == (AlphaToken(segs[k].0), segs[k].1)
  {
    hide AlphaToken;
    if k > 0 {
      AlphaSegmentsAt(segs[1..], k - 1);
    }
  }

  // ----- Where each segment ends up ----------------------------------------

  datatype Kind = QualifierKind | AttributeKind | UnknownKind

  /** The place a segment that is not the primary key goes to: a primary AI seen late is an attribute. */
  function KindOf(ai: string): Kind {
    if !IsKnown(ai) then UnknownKind else if IsQualifier(ai) then QualifierKind else AttributeKind
  }

  /** AIs that are not in the table are unknown, six are qualifiers, and all others are attributes. */
  lemma KindMeaning(ai: string)
    ensures KindOf(ai) == UnknownKind <==> forall i :: 0 <= i < |ALL_AIS| ==> ALL_AIS[i].ai != ai
    ensures KindOf(ai) == QualifierKind <==> ai in QUALIFIER_AIS
  {
    hide IsKnown, IsQualifier, ALL_AIS;
    Lookup(ai);
    QualifierKnown(ai);
  }

  lemma QualifierKnown(ai: string)
    ensures IsQualifier(ai) ==> IsKnown(ai)
  {
  }

  function OfKind(segs: seq<Segment>, kind: Kind): seq<Segment> {
    if segs == [] then []
    else (if KindOf(segs[0].0) == kind then [segs[0]] else []) + OfKind(segs[1..], kind)
  }

  function PutAll(d: Dict<string>, segs: seq<Segment>): Dict<string>
    decreases segs
  {
    if segs == [] then d else PutAll(Put(d, segs[0].0, segs[0].1), segs[1..])
  }

  /** The position of the first primary AI, or the length. */
  function FirstPrimary(segs: seq<Segment>): (i: nat)
    ensures i <= |segs|
    ensures i < |segs| ==> IsPrimary(segs[i].0)
  {
    if segs == [] || IsPrimary(segs[0].0) then 0 else 1 + FirstPrimary(segs[1..])
  }

  /** The segments other than the primary key. */
  function Others(segs: seq<Segment>): seq<Segment> {
    var p := FirstPrimary(segs);
    if p < |segs| then segs[..p] + segs[p + 1..] else segs
  }

  /** A result with further segments, none of them the primary key, put into their places. */
  function WithSegments(r: ParseResult, segs: seq<Segment>): ParseResult {
    r.(qualifiers := PutAll(r.qualifiers, OfKind(segs, QualifierKind)),
       attributes := PutAll(r.attributes, OfKind(segs, AttributeKind)),
       unknownAis := r.unknownAis + OfKind(segs, UnknownKind))
  }

  lemma {:induction false} OfKindOne(seg: Segment, kind: Kind)
    ensures OfKind([seg], kind) == if KindOf(seg.0) == kind then [seg] else []
  {
    assert [seg][1..] == [];
  }

  lemma {:induction false} OfKindCons(seg: Segment, rest: seq<Segment>, kind: Kind)
    ensures OfKind([seg] + rest, kind) == OfKind([seg], kind) + OfKind(rest, kind)
  {
    OfKindOne(seg, kind);
    assert ([seg] + rest)[1..] == rest;
  }

  lemma {:induction false} OfKindAppend(a: seq<Segment>, b: seq<Segment>, kind: Kind)
    ensures OfKind(a + b, kind) == OfKind(a, kind) + OfKind(b, kind)
  {
    hide KindOf;
    if a == [] {
      assert a + b == b;
      assert OfKind([], kind) == [];
    } else {
      OfKindAppend(a[1..], b, kind);
      hide OfKind;
      Concat3([a[0]], a[1..], b);
      assert a == [a[0]] + a[1..];
      OfKindCons(a[0], a[1..], kind);
      OfKindCons(a[0], a[1..] + b, kind);
      Concat3(OfKind([a[0]], kind), OfKind(a[1..], kind), OfKind(b, kind));
    }
  }

  lemma {:induction false} PutAllOne(d: Dict<string>, seg: Segment)
    ensures PutAll(d, [seg]) == Put(d, seg.0, seg.1)
  {
    assert PutAll(Put(d, seg.0, seg.1), []) == Put(d, seg.0, seg.1);
    assert [seg][1..] == [];
  }

  lemma {:induction false} PutAllAppend(d: Dict<string>, a: seq<Segment>, b: seq<Segment>)
    ensures PutAll(d, a + b) == PutAll(PutAll(d, a), b)
    decreases a
  {
    if a == [] {
      assert a + b == b;
    } else {
      assert (a + b)[1..] == a[1..] + b;
      PutAllAppend(Put(d, a[0].0, a[0].1), a[1..], b);
    }
  }

  lemma WithSegmentsCons(r: ParseResult, seg: Segment, rest: seq<Segment>)
    ensures WithSegments(WithSegments(r, [seg]), rest) == WithSegments(r, [seg] + rest)
  {
    hide KindOf, OfKind, PutAll;
    OfKindCons(seg, rest, QualifierKind);
    OfKindCons(seg, rest, AttributeKind);
    OfKindCons(seg, rest, UnknownKind);
    PutAllAppend(r.qualifiers, OfKind([seg], QualifierKind), OfKind(rest, QualifierKind));
    PutAllAppend(r.attributes, OfKind([seg], AttributeKind), OfKind(rest, AttributeKind));
    Concat3(r.unknownAis, OfKind([seg], UnknownKind), OfKind(rest, UnknownKind));
  }

  lemma ClassifyOne(primarySet: bool, r: ParseResult, seg: Segment)
    requires primarySet || !IsPrimary(seg.0)
    ensures Classify(primarySet, r, seg) == (primarySet, WithSegments(r, [seg]))
  {
    hide IsKnown, IsPrimary, IsQualifier, OfKind;
    OfKindOne(seg, QualifierKind);
    OfKindOne(seg, AttributeKind);
    OfKindOne(seg, UnknownKind);
    PutAllOne(r.qualifiers, seg);
    PutAllOne(r.attributes, seg);
    assert PutAll(r.qualifiers, []) == r.qualifiers && PutAll(r.attributes, []) == r.attributes;
    assert r.unknownAis + [] == r.unknownAis;
  }

  lemma {:induction false} ClassifyRest(primarySet: bool, r: ParseResult, segs: seq<Segment>)
    requires primarySet || forall i :: 0 <= i < |segs| ==> !IsPrimary(segs[i].0)
    ensures ClassifyAll(primarySet, r, segs) == (primarySet, WithSegments(r, segs))
    decreases segs
  {
    hide IsPrimary, KindOf;
    if segs == [] {
      assert r.unknownAis + OfKind([], UnknownKind) == r.unknownAis;
    } else {
      hide WithSegments, Classify;
      ClassifyOne(primarySet, r, segs[0]);
      ClassifyRest(primarySet, WithSegments(r, [segs[0]]), segs[1..]);
      WithSegmentsCons(r, segs[0], segs[1..]);
      assert [segs[0]] + segs[1..] == segs;
    }
  }

  /**
   * What the classification loop computes: the first primary AI is the key; every other segment, a later
   * primary AI included, is written to the place its kind says, over what an earlier one with the same AI wrote.
   */
  lemma {:induction false} ClassifyMeaning(r: ParseResult, segs: seq<Segment>)
    ensures var p := FirstPrimary(segs);
      ClassifyAll(false, r, segs) ==
        if p < |segs| then (true, WithSegments(r.(primaryAi := segs[p].0, primaryValue := segs[p].1), Others(segs)))
        else (false, WithSegments(r, segs))
    decreases segs
  {
    hide IsPrimary, KindOf, WithSegments;
    if segs == [] {
      ClassifyRest(false, r, segs);
    } else if IsPrimary(segs[0].0) {
      ClassifyRest(true, r.(primaryAi := segs[0].0, primaryValue := segs[0].1), segs[1..]);
      assert Others(segs) == segs[1..];
    } else {
      ClassifyOne(false, r, segs[0]);
      ClassifyMeaning(WithSegments(r, [segs[0]]), segs[1..]);
      OthersCons(segs);
      var p := FirstPrimary(segs[1..]);
      if p < |segs[1..]| {
        var key := segs[1..][p];
        var r' := r.(primaryAi := key.0, primaryValue := key.1);
        WithSegmentsKey(r, [segs[0]], key);
        WithSegmentsCons(r', segs[0], Others(segs[1..]));
      } else {
        WithSegmentsCons(r, segs[0], segs[1..]);
        assert [segs[0]] + segs[1..] == segs;
      }
    }
  }

  lemma WithSegmentsKey(r: ParseResult, segs: seq<Segment>, key: Segment)
    ensures WithSegments(r, segs).(primaryAi := key.0, primaryValue := key.1)
      == WithSegments(r.(primaryAi := key.0, primaryValue := key.1), segs)
  {
    hide OfKind, PutAll;
  }

  lemma {:induction false} OthersCons(segs: seq<Segment>)
    requires segs != [] && !IsPrimary(segs[0].0)
    ensures FirstPrimary(segs) == 1 + FirstPrimary(segs[1..])
    ensures Others(segs) == [segs[0]] + Others(segs[1..])
  {
    hide IsPrimary;
    var p := FirstPrimary(segs[1..]);
    if p < |segs[1..]| {
      assert segs[..p + 1] == [segs[0]] + segs[1..][..p];
      assert segs[p + 2..] == segs[1..][p + 1..];
      Concat3([segs[0]], segs[1..][..p], segs[p + 2..]);
    } else {
      assert [segs[0]] + segs[1..] == segs;
    }
  }

  // ----- Alpha and numeric spellings ---------------------------------------

  /** A token spells an AI: by its number, or by its short name in any letter case. */
  predicate Spells(token: string, ai: string) {
    token == ai || Lower(token) == NameOf(ai)
  }

  function Respell(segs: seq<Segment>, tokens: seq<string>): (r: seq<Segment>)
    requires |tokens| == |segs|
    ensures |r| == |segs|
    ensures forall i :: 0 <= i < |segs| ==> r[i] == (tokens[i], segs[i].1)
  {
    if segs == [] then [] else [(tokens[0], segs[0].1)] + Respell(segs[1..], tokens[1..])
  }

  /** Text that stays inside its path segment when the URI is split. */
  predicate InSegment(s: string) {
    FreeOf(s, "/?#;")
  }

  lemma SpelledToken(token: string, ai: string)
    requires IsKnown(ai) && Spells(token, ai)
    ensures AlphaToken(token) == ai
    ensures token != "" && InSegment(token)
  {
    hide IsKnown, NameOf, AiOfName;
    KnownAi(ai);
    if token == ai {
      LowerKeeps(ai);
      NotAName(ai);
      assert InSegment(ai);
    } else {
      forall i | 0 <= i < |token| ensures token[i] !in "/?#;" {
        assert Lower(token)[i] == LowerChar(token[i]);
      }
    }
  }

  lemma {:induction false} RenderFree(segs: seq<Segment>)
    requires forall i :: 0 <= i < |segs| ==> segs[i].0 != "" && InSegment(segs[i].0) && InSegment(segs[i].1)
    ensures FreeOf(Render(segs), "?#") && ';' !in Render(segs)
    ensures Render(segs) == "" || (Render(segs)[0] == '/' && !("//" <= Render(segs)))
  {
    if segs == [] {
    } else {
      RenderFree(segs[1..]);
      WrittenFree(segs[0]);
    }
  }

  lemma WrittenFree(seg: Segment)
    requires seg.0 != "" && InSegment(seg.0) && InSegment(seg.1)
    ensures FreeOf(Written(seg), "?#") && ';' !in Written(seg)
    ensures 2 <= |Written(seg)| && Written(seg)[0] == '/' && Written(seg)[1] != '/'
  {
    FreeOfEach(seg.0);
    FreeOfEach(seg.1);
  }

  lemma FreeOfEach(s: string)
    requires InSegment(s)
    ensures forall i :: 0 <= i < |s| ==> s[i] != '/' && s[i] != '?' && s[i] != '#' && s[i] != ';'
  {
    forall i | 0 <= i < |s| ensures s[i] != '/' && s[i] != '?' && s[i] != '#' && s[i] != ';' {
      assert s[i] !in "/?#;";
    }
  }

  /** Parsing a URI made of segments: origin and query are split off, and the rest is read back as it was written. */
  lemma {:induction false} ParseRendered(host: Option<string>, segs: seq<Segment>, suffix: string)
    requires host.Some? ==> FreeOf(host.value, "/?#")
    requires suffix == "" || suffix[0] in "?#"
    requires forall i :: 0 <= i < |segs| ==> segs[i].0 != "" && InSegment(segs[i].0) && InSegment(segs[i].1)
    requires |Origin(host) + (Render(segs) + suffix)| <= MAX_URI_LENGTH
    ensures Parse(Origin(host) + (Render(segs) + suffix))
      == ParseSegments(Render(AlphaSegments(segs)), SuffixQuery(suffix))
  {
    hide UrlSplit, ParseSegments, AlphaSegments;
    RenderFree(segs);
    SplitPath(host, Render(segs), suffix);
    forall i | 0 <= i < |segs| ensures '/' !in segs[i].0 && '/' !in segs[i].1 {
      FreeOfEach(segs[i].0);
      FreeOfEach(segs[i].1);
    }
    NormaliseRender(segs);
  }

  /**
   * The alpha-coded form of a URI, names in any letter case, and its numeric form mean the same,
   * even where a value spells a name.
   */
  lemma {:induction false} AlphaMeansNumeric(
    host: Option<string>, segs: seq<Segment>, tokens: seq<string>, suffix: string)
    requires host.Some? ==> FreeOf(host.value, "/?#")
    requires suffix == "" || suffix[0] in "?#"
    requires |tokens| == |segs|
    requires forall i :: 0 <= i < |segs| ==> IsKnown(segs[i].0) && Spells(tokens[i], segs[i].0) && InSegment(segs[i].1)
    requires |Origin(host) + (Render(segs) + suffix)| <= MAX_URI_LENGTH
    requires |Origin(host) + (Render(Respell(segs, tokens)) + suffix)| <= MAX_URI_LENGTH
    ensures Parse(Origin(host) + (Render(Respell(segs, tokens)) + suffix))
      == Parse(Origin(host) + (Render(segs) + suffix))
  {
    hide IsKnown, Spells, AlphaToken, InSegment, Parse, ParseSegments, Render, FreeOf;
    var spelled := Respell(segs, tokens);
    forall i | 0 <= i < |segs|
      ensures AlphaToken(tokens[i]) == segs[i].0 && tokens[i] != "" && InSegment(tokens[i])
      ensures AlphaToken(segs[i].0) == segs[i].0 && segs[i].0 != "" && InSegment(segs[i].0)
    {
      SpelledToken(tokens[i], segs[i].0);
      assert Spells(segs[i].0, segs[i].0) by { SpellsItself(segs[i].0); }
      SpelledToken(segs[i].0, segs[i].0);
    }
    AlphaIs(spelled, segs);
    AlphaIs(segs, segs);
    ParseRendered(host, spelled, suffix);
    ParseRendered(host, segs, suffix);
  }

  lemma SpellsItself(ai: string)
    ensures Spells(ai, ai)
  {
  }

  lemma {:induction false} AlphaIs(spelled: seq<Segment>, segs: seq<Segment>)
    requires |spelled| == |segs|
    requires forall i :: 0 <= i < |segs| ==> AlphaToken(spelled[i].0) == segs[i].0 && spelled[i].1 == segs[i].1
    ensures AlphaSegments(spelled) == segs
  {
    hide AlphaToken;
    forall i | 0 <= i < |segs| ensures AlphaSegments(spelled)[i] == segs[i] {
      AlphaSegmentsAt(spelled, i);
    }
  }
}
