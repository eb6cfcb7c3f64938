/** The Digital Link parser: URI text to a classified identifier. */
module Parser {
  import opened Text
  import opened AiTable
  import opened Dict
  import opened Scanner
  import opened Url

  datatype ParseResult = ParseResult(
    primaryAi: string,
    primaryValue: string,
    qualifiers: Dict<string>,
    attributes: Dict<string>,
    queryParams: Dict<seq<string>>,
    linkType: Option<string>,
    unknownAis: seq<Segment>)

  /** The three ways `parse` raises `ValueError`; the last two name the normalised path. */
  datatype ParseError = TooLong | NoIdentifiers(path: string) | NoPrimaryKey(path: string)

  datatype Outcome = Parsed(result: ParseResult) | Refused(error: ParseError)

  const MAX_URI_LENGTH: nat := 2048

  // ----- Alpha-coded segments ----------------------------------------------

  /** A token at AI position: a known short name becomes its AI, in any letter case. */
  function AlphaToken(token: string): string {
    match AiOfName(Lower(token)) case Some(ai) => ai case None => token
  }

  /** The tokens from position `i` on; AI positions are the odd ones. */
  function NormaliseTokens(parts: seq<string>, i: nat): (out: seq<string>)
    ensures |out| == |parts|
  {
    if parts == [] then []
    else [if i % 2 == 1 then AlphaToken(parts[0]) else parts[0]] + NormaliseTokens(parts[1..], i + 1)
  }

  lemma {:induction false} NormaliseTokensAt(parts: seq<string>, i: nat, k: nat)
    requires k < |parts|
    ensures NormaliseTokens(parts, i)[k] == if (i + k) % 2 == 1 then AlphaToken(parts[k]) else parts[k]
  {
    hide AlphaToken;
    if k > 0 {
      NormaliseTokensAt(parts[1..], i + 1, k - 1);
    }
  }

  /** `_normalise_alpha(path)`. */
  function NormaliseAlpha(path: string): string {
    if path == "" || path == "/" then path
    else Join(NormaliseTokens(Split(path, '/'), 0), "/")
  }

  method Normalise(path: string) returns (normal: string)
    ensures normal == NormaliseAlpha(path)
  {
    hide AiOfName, Lower, Join, Split;
    if path == "" || path == "/" {
      return path;
    }
    var parts := Split(path, '/');
    var out := [parts[0]];
    for i := 1 to |parts|
      invariant |out| == i
      invariant forall k :: 0 <= k < i ==> out[k] == if k % 2 == 1 then AlphaToken(parts[k]) else parts[k]
    {
      if i % 2 == 1 {
        var ai := AiOfName(Lower(parts[i]));
        out := out + [if ai.Some? then ai.value else parts[i]];
      } else {
        out := out + [parts[i]];
      }
    }
    forall k | 0 <= k < |parts| ensures out[k] == NormaliseTokens(parts, 0)[k] {
      NormaliseTokensAt(parts, 0, k);
    }
    assert out == NormaliseTokens(parts, 0);
    normal := Join(out, "/");
  }

  // ----- Classification ----------------------------------------------------

  /** One turn of the classification loop. */
  function Classify(primarySet: bool, r: ParseResult, seg: Segment): (bool, ParseResult) {
    if IsPrimary(seg.0) && !primarySet then
      (true, r.(primaryAi := seg.0, primaryValue := seg.1))
    else if !IsKnown(seg.0) then
      (primarySet, r.(unknownAis := r.unknownAis + [seg]))
    else if IsQualifier(seg.0) then
      (primarySet, r.(qualifiers := Put(r.qualifiers, seg.0, seg.1)))
    else
      (primarySet, r.(attributes := Put(r.attributes, seg.0, seg.1)))
  }

  function ClassifyAll(primarySet: bool, r: ParseResult, segs: seq<Segment>): (bool, ParseResult)
    decreases segs
  {
    if segs == [] then (primarySet, r)
    else
      var (set', r') := Classify(primarySet, r, segs[0]);
      ClassifyAll(set', r', segs[1..])
  }

  /** The result before any segment is seen: only the query is filled in. */
  function Blank(query: string): ParseResult {
    var params := ParseQs(query);
    var link := match Get(params, "linkType") case Some(vs) => (if vs == [] then None
      else Some(vs[0])) case None => None;
    ParseResult("", "", [], [], params, link, [])
  }

  /** The path `urlparse` gives. */
  function PathOf(uri: string): string {
    var p := UrlSplit(uri);
    if p.scheme in USES_PARAMS && ';' in p.path then DropParams(p.path) else p.path
  }

  /** `parse` after normalisation: the segments of the path, classified. */
  function ParseSegments(normal: string, query: string): Outcome {
    var segs := FindAll(normal);
    if segs == [] then Refused(NoIdentifiers(normal))
    else
      var (primarySet, r) := ClassifyAll(false, Blank(query), segs);
      if primarySet then Parsed(r) else Refused(NoPrimaryKey(normal))
  }

  /** `parse(uri)`. */
  function Parse(uri: string): Outcome {
    if |uri| > MAX_URI_LENGTH then Refused(TooLong)
    else ParseSegments(NormaliseAlpha(PathOf(uri)), UrlSplit(uri).query)
  }

  method ParseUri(uri: string) returns (outcome: Outcome)
    ensures outcome == Parse(uri)
  {
    if |uri| > MAX_URI_LENGTH {
      return Refused(TooLong);
    }
    var result := Blank(UrlSplit(uri).query);
    var path := Normalise(PathOf(uri));
    var segments := FindAll(path);
    if segments == [] {
      return Refused(NoIdentifiers(path));
    }
    var primarySet := false;
    ghost var whole := ClassifyAll(false, result, segments);
    for i := 0 to |segments|
      invariant ClassifyAll(primarySet, result, segments[i..]) == whole
    {
      var (ai, value) := segments[i];
      assert segments[i..][1..] == segments[i + 1..];
      if IsPrimary(ai) && !primarySet {
        result := result.(primaryAi := ai, primaryValue := value);
        primarySet := true;
      } else if !IsKnown(ai) {
        result := result.(unknownAis := result.unknownAis + [(ai, value)]);
      } else if IsQualifier(ai) {
        result := result.(qualifiers := Put(result.qualifiers, ai, value));
      } else {
        result := result.(attributes := Put(result.attributes, ai, value));
      }
    }
    if !primarySet {
      return Refused(NoPrimaryKey(path));
    }
    outcome := Parsed(result);
  }
}
