/** The primary keys the resolver's description file publishes, derived from the routes. */
module WellKnown {
  import opened Text
  import opened Sorting
  import opened AiTable
  import opened AiTableFacts
  import opened Scanner
  import opened Parser
  import opened ParserProofs
  import opened CanonicalProofs
  import opened Router
  import opened Paths

  const SUPPORTED_PRIMARY_KEYS: seq<string> := [
    "all", "00", "01", "253", "255", "401", "402", "410", "411", "412", "413", "414", "415", "417",
    "8003", "8004", "8006", "8010", "8013", "8017", "8018"
  ]

  /** The keys one route pins: its `primary_ai` clause, and AI 01 where a clause reads the value as a GTIN. */
  function Pins(m: Match): set<string> {
    match m
    case Everything => {}
    case Clauses(primaryAi, gtinPrefix, gtinRegex, _, _) =>
      (if primaryAi.Scalar? then {primaryAi.text} else {})
      + (if !gtinPrefix.Missing? || gtinRegex.Some? then {"01"} else {})
  }

  function AllPins(routes: seq<Route>): set<string> {
    if routes == [] then {} else AllPins(routes[..|routes| - 1]) + Pins(routes[|routes| - 1].match_)
  }

  /** `sorted(keys)`, for a set of keys all of which are in `ks`. */
  function SortedSet(ks: seq<string>, keys: set<string>): seq<string> {
    SortStrings(Among(ks, keys))
  }

  /** `[k for k in ks if k in keys]`. */
  function Among(ks: seq<string>, keys: set<string>): seq<string> {
    if ks == [] then [] else (if ks[0] in keys then [ks[0]] else []) + Among(ks[1..], keys)
  }

  /** `derive_primary_keys(routes)`. */
  function DerivePrimaryKeys(routes: seq<Route>): seq<string> {
    var keys := set k | k in AllPins(routes) && k in SUPPORTED_PRIMARY_KEYS;
    if keys == {} then ["01"] else SortedSet(SUPPORTED_PRIMARY_KEYS, keys)
  }

  method Derive(routes: seq<Route>) returns (published: seq<string>)
    ensures published == DerivePrimaryKeys(routes)
  {
    hide SortStrings, SUPPORTED_PRIMARY_KEYS;
    var keys: set<string> := {};
    for i := 0 to |routes|
      invariant keys == AllPins(routes[..i])
    {
      var m := routes[i].match_;
      assert routes[..i + 1][..i] == routes[..i];
      if m.Everything? {
        continue;
      }
      if m.primaryAi.Scalar? {
        keys := keys + {m.primaryAi.text};
      }
      if !m.gtinPrefix.Missing? || m.gtinRegex.Some? {
        keys := keys + {"01"};
      }
    }
    assert routes[..|routes|] == routes;
    keys := set k | k in keys && k in SUPPORTED_PRIMARY_KEYS;
    published := if keys == {} then ["01"] else SortedSet(SUPPORTED_PRIMARY_KEYS, keys);
  }

  // ----- What is published -------------------------------------------------

  lemma {:induction false} AmongIs(ks: seq<string>, keys: set<string>)
    ensures forall k :: k in Among(ks, keys) <==> k in ks && k in keys
    ensures Distinct(ks) ==> Distinct(Among(ks, keys))
  {
    if ks == [] {
    } else {
      AmongIs(ks[1..], keys);
      assert ks == [ks[0]] + ks[1..];
      if Distinct(ks) && ks[0] in keys {
        assert Among(ks, keys) == [ks[0]] + Among(ks[1..], keys);
        assert ks[0] !in ks[1..];
      }
    }
  }

  /**
   * The place of a permitted key, from the key read as a decimal number after a leading 1 (`all` comes out as 6560).
   */
  function KeyPlace(number: int): int {
    match number
    case 6560 => 0 case 100 => 1 case 101 => 2 case 1253 => 3 case 1255 => 4
    case 1401 => 5 case 1402 => 6 case 1410 => 7 case 1411 => 8 case 1412 => 9
    case 1413 => 10 case 1414 => 11 case 1415 => 12 case 1417 => 13 case 18003 => 14
    case 18004 => 15 case 18006 => 16 case 18010 => 17 case 18013 => 18 case 18017 => 19
    case 18018 => 20
    case _ => -1
  }

  ghost predicate InPlace(i: nat)
    requires i < |SUPPORTED_PRIMARY_KEYS|
  {
    2 <= |SUPPORTED_PRIMARY_KEYS[i]| <= 4 && KeyPlace(AiKey(SUPPORTED_PRIMARY_KEYS[i])) == i
  }

  lemma KeysInPlace0()
    ensures forall i :: 0 <= i < 7 ==> InPlace(i)
  {
  }

  lemma KeysInPlace1()
    ensures forall i :: 7 <= i < 14 ==> InPlace(i)
  {
  }

  lemma KeysInPlace2()
    ensures forall i :: 14 <= i < 21 ==> InPlace(i)
  {
  }

  lemma KeysDistinct()
    ensures Distinct(SUPPORTED_PRIMARY_KEYS)
  {
    KeysInPlace0();
    KeysInPlace1();
    KeysInPlace2();
    assert |SUPPORTED_PRIMARY_KEYS| == 21;
    hide SUPPORTED_PRIMARY_KEYS, KeyPlace, AiKey;
    forall i, j | 0 <= i < j < 21 ensures SUPPORTED_PRIMARY_KEYS[i] != SUPPORTED_PRIMARY_KEYS[j] {
      assert InPlace(i) && InPlace(j);
    }
  }

  /** Every primary AI of the table is a permitted key. */
  lemma PrimarySupported(ai: string)
    requires IsPrimary(ai)
    ensures ai in SUPPORTED_PRIMARY_KEYS
  {
    PrimaryPlaces();
    hide PRIMARIES, SUPPORTED_PRIMARY_KEYS, RowOfAi;
    RowOfAiFound(PRIMARIES, ai);
    var k :| 0 <= k < |PRIMARIES| && PRIMARIES[k].ai == ai;
    assert SUPPORTED_PRIMARY_KEYS[PlaceOf(k)] == ai;
  }

  function PlaceOf(k: nat): nat {
    if k < 6 then k + 1 else if k == 6 then 11 else k + 6
  }

  lemma PrimaryPlaces()
    ensures |PRIMARIES| == 15 && |SUPPORTED_PRIMARY_KEYS| == 21
    ensures forall k :: 0 <= k < 15 ==> SUPPORTED_PRIMARY_KEYS[PlaceOf(k)] == PRIMARIES[k].ai
  {
  }

  /** Some route pins this key. */
  ghost predicate Pinned(routes: seq<Route>, k: string) {
    exists i :: 0 <= i < |routes| && k in Pins(routes[i].match_)
  }

  lemma {:induction false} AllPinsIs(routes: seq<Route>, k: string)
    ensures k in AllPins(routes) <==> Pinned(routes, k)
  {
    hide Pins;
    if routes == [] {
    } else {
      var last := |routes| - 1;
      AllPinsIs(routes[..last], k);
      if Pinned(routes, k) && k !in Pins(routes[last].match_) {
        var i :| 0 <= i < |routes| && k in Pins(routes[i].match_);
        assert routes[..last][i] == routes[i];
      }
      if Pinned(routes[..last], k) {
        var i :| 0 <= i < last && k in Pins(routes[..last][i].match_);
        assert routes[i] == routes[..last][i];
      }
    }
  }

  /** The published list: which keys are in it, that it has one, and that it is strictly increasing as strings. */
  lemma DerivedKeys(routes: seq<Route>, k: string)
    ensures k in DerivePrimaryKeys(routes) <==>
      (k in SUPPORTED_PRIMARY_KEYS && Pinned(routes, k))
      || (k == "01" && forall q :: q in SUPPORTED_PRIMARY_KEYS ==> !Pinned(routes, q))
    ensures DerivePrimaryKeys(routes) != [] && StrictlyIncreasing(DerivePrimaryKeys(routes))
  {
    hide SUPPORTED_PRIMARY_KEYS, Pinned, StableSort, LexLe;
    var keys := set q | q in AllPins(routes) && q in SUPPORTED_PRIMARY_KEYS;
    forall q ensures q in AllPins(routes) <==> Pinned(routes, q) {
      AllPinsIs(routes, q);
    }
    KeysDistinct();
    var among := Among(SUPPORTED_PRIMARY_KEYS, keys);
    AmongIs(SUPPORTED_PRIMARY_KEYS, keys);
    SortedDistinct(among);
    SortMembers(LexLe, among, k);
    if keys != {} {
      var q :| q in keys;
      assert q in among;
      SortMembers(LexLe, among, q);
      assert q in DerivePrimaryKeys(routes);
    } else {
      assert forall q :: q in SUPPORTED_PRIMARY_KEYS ==> q !in keys;
    }
  }

  /** A route asks for this key: by its `primary_ai` clause, or for 01 by a clause that reads the value as a GTIN. */
  ghost predicate AsksForKey(m: Match, k: string) {
    m.Clauses? && (m.primaryAi == Scalar(k) || (k == "01" && (m.gtinPrefix != Missing || m.gtinRegex != None)))
  }

  lemma {:induction false} PinsAre(m: Match, k: string)
    ensures k in Pins(m) <==> AsksForKey(m, k)
  {
  }

  lemma {:induction false} PinnedIs(routes: seq<Route>, k: string)
    ensures Pinned(routes, k) <==> exists i :: 0 <= i < |routes| && AsksForKey(routes[i].match_, k)
  {
    hide Pins, AsksForKey;
    if i :| 0 <= i < |routes| && k in Pins(routes[i].match_) {
      PinsAre(routes[i].match_, k);
    }
    if i :| 0 <= i < |routes| && AsksForKey(routes[i].match_, k) {
      PinsAre(routes[i].match_, k);
    }
  }

  /** Which keys are published, said of the routes: those asked for and permitted, or 01 alone where there is none. */
  lemma {:induction false} PublishedMeaning(routes: seq<Route>, k: string)
    ensures k in DerivePrimaryKeys(routes) <==>
      || (k in SUPPORTED_PRIMARY_KEYS && exists i :: 0 <= i < |routes| && AsksForKey(routes[i].match_, k))
      || (k == "01" && forall q, i :: q in SUPPORTED_PRIMARY_KEYS && 0 <= i < |routes| ==>
            !AsksForKey(routes[i].match_, q))
  {
    hide SUPPORTED_PRIMARY_KEYS, DerivePrimaryKeys, AsksForKey, Pinned;
    DerivedKeys(routes, k);
    PinnedIs(routes, k);
    forall q ensures Pinned(routes, q) <==> exists i :: 0 <= i < |routes| && AsksForKey(routes[i].match_, q) {
      PinnedIs(routes, q);
    }
  }

  /** The order in which routes are configured does not show in what is published. */
  lemma OrderDoesNotShow(routes: seq<Route>, routes': seq<Route>)
    requires multiset(routes) == multiset(routes')
    ensures DerivePrimaryKeys(routes) == DerivePrimaryKeys(routes')
  {
    hide DerivePrimaryKeys, Pins, SUPPORTED_PRIMARY_KEYS, LexLe;
    forall k ensures Pinned(routes, k) <==> Pinned(routes', k) {
      SamePins(routes, routes', k);
      SamePins(routes', routes, k);
    }
    DerivedKeys(routes, "");
    DerivedKeys(routes', "");
    forall k ensures k in DerivePrimaryKeys(routes) <==> k in DerivePrimaryKeys(routes') {
      DerivedKeys(routes, k);
      DerivedKeys(routes', k);
    }
    IncreasingUnique(DerivePrimaryKeys(routes), DerivePrimaryKeys(routes'));
  }

  lemma SamePins(routes: seq<Route>, routes': seq<Route>, k: string)
    requires multiset(routes) == multiset(routes')
    ensures Pinned(routes, k) ==> Pinned(routes', k)
  {
    hide Pins;
    if Pinned(routes, k) {
      var i :| 0 <= i < |routes| && k in Pins(routes[i].match_);
      assert routes[i] in multiset(routes');
      var j :| 0 <= j < |routes'| && routes'[j] == routes[i];
    }
  }

  /**
   * When the key of a parsed URI is published: exactly when a route pins it, or it is 01 and no route pins a
   * permitted key.
   */
  lemma PublishedExactly(uri: string, routes: seq<Route>)
    ensures match Parse(uri)
      case Refused(_) => true
      case Parsed(r) =>
        r.primaryAi in DerivePrimaryKeys(routes) <==>
          Pinned(routes, r.primaryAi)
            || (r.primaryAi == "01" && forall q :: q in SUPPORTED_PRIMARY_KEYS ==> !Pinned(routes, q))
  {
    hide Parse, SUPPORTED_PRIMARY_KEYS, DerivePrimaryKeys, IsPrimary, Pinned, GoodPlaces;
    if Parse(uri).Parsed? {
      ParseWellFormed(uri);
      PrimarySupported(Parse(uri).result.primaryAi);
      DerivedKeys(routes, Parse(uri).result.primaryAi);
    }
  }

  /** A route that matches a parse and has a `primary_ai` clause. */
  predicate MatchesByKey(route: Route, r: ParseResult, full: FullMatch) {
    Matches(route.match_, r, full) && route.match_.Clauses? && !route.match_.primaryAi.Missing?
  }

  /** Published keys cover the routes that name one: whatever such a route matches has a published key. */
  lemma PublishedKeysCover(uri: string, routes: seq<Route>, i: nat, full: FullMatch)
    requires i < |routes|
    ensures match Parse(uri)
      case Refused(_) => true
      case Parsed(r) => MatchesByKey(routes[i], r, full) ==> r.primaryAi in DerivePrimaryKeys(routes)
  {
    hide Parse, SUPPORTED_PRIMARY_KEYS, DerivePrimaryKeys, GoodPlaces;
    if Parse(uri).Parsed? && MatchesByKey(routes[i], Parse(uri).result, full) {
      var r := Parse(uri).result;
      ParseWellFormed(uri);
      NoneIsNoAi();
      assert r.primaryAi in Pins(routes[i].match_);
      PublishedExactly(uri, routes);
    }
  }

  lemma NoneIsNoAi()
    ensures !IsPrimary("None")
  {
    hide IsPrimary, IsKnown, NameOf;
    assert !IsDigit("None"[0]);
    if IsPrimary("None") {
      PrimaryAi("None");
      KnownAi("None");
    }
  }

  lemma SsccIsPrimary()
    ensures IsPrimary("00")
  {
    hide RowOfAi;
    RowOfAiFound(PRIMARIES, "00");
    assert PRIMARIES[0].ai == "00";
  }

  /** A URI with an SSCC and nothing else. */
  lemma ParseSscc()
    ensures Parse("/00/0").Parsed? && Parse("/00/0").result.primaryAi == "00"
      && Parse("/00/0").result.primaryValue == "0"
  {
    var seg: Segment := ("00", "0");
    SsccPath(seg);
    hide Parse, Render, IsPrimary, PathSegment, Placed, FirstPrimary;
    ParsePath([seg]);
    KeyPlaced([seg], "");
  }

  lemma SsccPath(seg: Segment)
    requires seg == ("00", "0")
    ensures PathSegment(seg) && Render([seg]) == "/00/0"
    ensures FirstPrimary([seg]) == 0 && OnePrimary([seg])
  {
    SsccIsPrimary();
    hide IsPrimary;
    assert [seg][1..] == [];
    assert Written(seg) == "/00/0";
    assert Render([seg]) == Written(seg) + Render([seg][1..]);
  }

  /**
   * A `gtin_prefix` clause does not ask for AI 01: this URI has an SSCC, the only route matches it, and its key
   * is not published.
   */
  lemma PrefixMatchesOtherKeys(full: FullMatch)
    ensures var route := Route(Clauses(Missing, Scalar("0"), None, Missing, None), "t", [], []);
      && Parse("/00/0").Parsed? && Matches(route.match_, Parse("/00/0").result, full)
      && Parse("/00/0").result.primaryAi == "00" && "00" !in DerivePrimaryKeys([route])
  {
    var route := Route(Clauses(Missing, Scalar("0"), None, Missing, None), "t", [], []);
    ParseSscc();
    hide Parse, SUPPORTED_PRIMARY_KEYS, DerivePrimaryKeys;
    assert [route][0] == route;
    PublishedExactly("/00/0", [route]);
    assert "00"[1] != "01"[1];
  }
}
