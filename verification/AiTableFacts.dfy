/** What the AI table guarantees, checked row by row: no AI and no name occurs twice, and all are well shaped. */
module AiTableFacts {
  import opened Text
  import opened AiTable
  import opened Scanner
  import opened Sorting

  /** The shape of a short name: lower-case letters and underscores, a letter first. */
  predicate NameShaped(name: string) {
    && 2 <= |name|
    && 'a' <= name[0] <= 'z'
    && forall i :: 0 <= i < |name| ==> 'a' <= name[i] <= 'z' || name[i] == '_'
  }

  predicate RowShaped(row: AISpec) {
    AiShaped(row.ai) && NameShaped(row.name) && (|row.ai| > 2 ==> row.ai[0] != '0')
  }

  // ----- One row per AI and per name ---------------------------------------

  /** An AI read as a decimal number after a leading 1. */
  function AiKey(ai: string): int
    requires |ai| >= 2
  {
    if |ai| == 2 then 100 + 10 * Digit(ai, 0) + Digit(ai, 1)
    else if |ai| == 3 then 1000 + 100 * Digit(ai, 0) + 10 * Digit(ai, 1) + Digit(ai, 2)
    else 10000 + 1000 * Digit(ai, 0) + 100 * Digit(ai, 1) + 10 * Digit(ai, 2) + Digit(ai, 3)
  }

  function Digit(ai: string, i: nat): int
    requires i < |ai|
  {
    ai[i] as int - 48
  }

  /** A hash of a short name; no two names of the table share it. */
  function NameKey(name: string): int
    requires |name| >= 2
  {
    2 * |name| + 2 * (name[0] as int) + 9 * (name[1] as int) + 3 * (name[|name| - 2] as int)
  }

  /** The row whose AI has this number, or -1. */
  function AiSlot(key: int): int {
    match key
    case 100 => 0 case 101 => 1 case 110 => 16 case 111 => 22 case 112 => 23
    case 113 => 24 case 115 => 25 case 116 => 26 case 117 => 21 case 121 => 17
    case 122 => 15 case 190 => 58 case 1235 => 18 case 1240 => 27 case 1241 => 28
    case 1242 => 29 case 1243 => 30 case 1250 => 31 case 1251 => 32 case 1253 => 2
    case 1254 => 19 case 1255 => 3 case 1400 => 33 case 1401 => 4 case 1402 => 5
    case 1403 => 34 case 1414 => 6 case 1417 => 7 case 1710 => 37 case 1711 => 38
    case 1712 => 39 case 1713 => 40 case 1714 => 41 case 1715 => 42 case 1723 => 43
    case 14300 => 35 case 14321 => 36 case 17003 => 44 case 17020 => 45 case 17021 => 46
    case 17022 => 47 case 17040 => 48 case 18001 => 49 case 18002 => 50 case 18003 => 8
    case 18004 => 9 case 18005 => 51 case 18006 => 10 case 18007 => 52 case 18008 => 53
    case 18010 => 11 case 18011 => 20 case 18013 => 12 case 18017 => 13 case 18018 => 14
    case 18019 => 54 case 18020 => 55 case 18110 => 56 case 18200 => 57
    case _ => -1
  }

  /** The row whose name has this hash, or -1. */
  function NameSlot(key: int): int {
    match key
    case 1391 => 52 case 1400 => 3 case 1401 => 36 case 1409 => 24 case 1417 => 25
    case 1418 => 30 case 1419 => 27 case 1424 => 43 case 1446 => 55 case 1448 => 17
    case 1450 => 9 case 1451 => 26 case 1455 => 7 case 1462 => 2 case 1464 => 40
    case 1466 => 31 case 1470 => 37 case 1473 => 39 case 1476 => 38 case 1477 => 32
    case 1482 => 47 case 1488 => 45 case 1489 => 4 case 1502 => 50 case 1506 => 41
    case 1507 => 58 case 1508 => 6 case 1515 => 35 case 1516 => 19 case 1520 => 12
    case 1521 => 42 case 1529 => 11 case 1531 => 8 case 1548 => 15 case 1553 => 48
    case 1554 => 16 case 1557 => 51 case 1559 => 20 case 1560 => 22 case 1561 => 49
    case 1563 => 23 case 1564 => 5 case 1570 => 0 case 1571 => 34 case 1573 => 1
    case 1574 => 56 case 1577 => 10 case 1579 => 54 case 1581 => 13 case 1582 => 18
    case 1589 => 28 case 1591 => 14 case 1592 => 33 case 1593 => 53 case 1602 => 29
    case 1604 => 46 case 1612 => 57 case 1626 => 44 case 1648 => 21
    case _ => -1
  }

  /** Row `i` of the table is found again from its AI and from its name. */
  ghost predicate Indexed(row: AISpec, i: int) {
    AiIndexed(row, i) && NameIndexed(row, i)
  }

  ghost predicate AiIndexed(row: AISpec, i: int) {
    2 <= |row.ai| <= 4 && AiSlot(AiKey(row.ai)) == i
  }

  ghost predicate NameIndexed(row: AISpec, i: int) {
    2 <= |row.name| && NameSlot(NameKey(row.name)) == i
  }

  lemma PrimaryRows()
    ensures forall i :: 0 <= i < 15 ==> RowShaped(PRIMARIES[i])
  {
  }

  lemma PrimariesIndexed0()
    ensures forall i :: 0 <= i < 8 ==> Indexed(PRIMARIES[i], i)
  {
  }

  lemma PrimariesIndexed1()
    ensures forall i :: 8 <= i < 12 ==> Indexed(PRIMARIES[i], i)
  {
  }

  lemma PrimariesIndexed2()
    ensures forall i :: 12 <= i < 15 ==> Indexed(PRIMARIES[i], i)
  {
  }

  lemma QualifierRows()
    ensures forall i :: 0 <= i < 6 ==> RowShaped(QUALIFIERS[i])
  {
  }

  lemma QualifiersIndexed()
    ensures forall i :: 0 <= i < 6 ==> Indexed(QUALIFIERS[i], i + 15)
  {
  }

  lemma AttributeRows0()
    ensures forall i :: 0 <= i < 8 ==> RowShaped(ATTRIBUTES[i])
  {
  }

  lemma AttributeRows1()
    ensures forall i :: 8 <= i < 16 ==> RowShaped(ATTRIBUTES[i])
  {
  }

  lemma AttributeRows2()
    ensures forall i :: 16 <= i < 24 ==> RowShaped(ATTRIBUTES[i])
  {
  }

  lemma AttributeRows3()
    ensures forall i :: 24 <= i < 31 ==> RowShaped(ATTRIBUTES[i])
  {
  }

  lemma AttributeRows4()
    ensures forall i :: 31 <= i < 38 ==> RowShaped(ATTRIBUTES[i])
  {
  }

  lemma AttributeAis0()
    ensures forall i :: 0 <= i < 10 ==> AiIndexed(ATTRIBUTES[i], i + 21)
  {
  }

  lemma AttributeAis1()
    ensures forall i :: 10 <= i < 20 ==> AiIndexed(ATTRIBUTES[i], i + 21)
  {
  }

  lemma AttributeAis2()
    ensures forall i :: 20 <= i < 29 ==> AiIndexed(ATTRIBUTES[i], i + 21)
  {
  }

  lemma AttributeAis3()
    ensures forall i :: 29 <= i < 38 ==> AiIndexed(ATTRIBUTES[i], i + 21)
  {
  }

  lemma AttributeNames0()
    ensures forall i :: 0 <= i < 5 ==> NameIndexed(ATTRIBUTES[i], i + 21)
  {
  }

  lemma AttributeNames1()
    ensures forall i :: 5 <= i < 10 ==> NameIndexed(ATTRIBUTES[i], i + 21)
  {
  }

  lemma AttributeNames2()
    ensures forall i :: 10 <= i < 14 ==> NameIndexed(ATTRIBUTES[i], i + 21)
  {
  }

  lemma AttributeNames3()
    ensures forall i :: 14 <= i < 18 ==> NameIndexed(ATTRIBUTES[i], i + 21)
  {
  }

  lemma AttributeNames4()
    ensures forall i :: 18 <= i < 23 ==> NameIndexed(ATTRIBUTES[i], i + 21)
  {
  }

  lemma AttributeNames5()
    ensures forall i :: 23 <= i < 28 ==> NameIndexed(ATTRIBUTES[i], i + 21)
  {
  }

  lemma AttributeNames6()
    ensures forall i :: 28 <= i < 33 ==> NameIndexed(ATTRIBUTES[i], i + 21)
  {
  }

  lemma AttributeNames7()
    ensures forall i :: 33 <= i < 38 ==> NameIndexed(ATTRIBUTES[i], i + 21)
  {
  }

  lemma TableRow(i: nat)
    requires i < |ALL_AIS|
    ensures RowShaped(ALL_AIS[i]) && Indexed(ALL_AIS[i], i)
    ensures |ALL_AIS| == 59
    ensures i < 15 ==> ALL_AIS[i] == PRIMARIES[i] && ALL_AIS[i].category == Primary
    ensures i >= 15 ==> ALL_AIS[i].category != Primary
  {
    hide RowShaped, AiIndexed, NameIndexed;
    assert |PRIMARIES| == 15 && |QUALIFIERS| == 6 && |ATTRIBUTES| == 38;
    if i < 15 {
      PrimaryRows();
      PrimariesIndexed0();
      PrimariesIndexed1();
      PrimariesIndexed2();
    } else if i < 21 {
      assert ALL_AIS[i] == QUALIFIERS[i - 15];
      QualifierRows();
      QualifiersIndexed();
    } else {
      assert ALL_AIS[i] == ATTRIBUTES[i - 21];
      AttributeRows0(); AttributeRows1(); AttributeRows2(); AttributeRows3(); AttributeRows4();
      AttributeAis0(); AttributeAis1(); AttributeAis2(); AttributeAis3();
      AttributeNames0(); AttributeNames1(); AttributeNames2(); AttributeNames3();
      AttributeNames4(); AttributeNames5(); AttributeNames6(); AttributeNames7();
    }
  }

  lemma Categories()
    ensures forall i :: 0 <= i < 15 ==> PRIMARIES[i].category == Primary
    ensures forall i :: 0 <= i < 6 ==> QUALIFIERS[i].category == Qualifier
  {
  }

  lemma AttributeCategories()
    ensures forall i :: 0 <= i < 38 ==> ATTRIBUTES[i].category == Attribute
  {
  }

  lemma RowCategory(i: nat)
    requires i < |ALL_AIS|
    ensures i < 15 ==> ALL_AIS[i].category == Primary
    ensures 15 <= i < 21 ==> ALL_AIS[i] == QUALIFIERS[i - 15] && ALL_AIS[i].category == Qualifier
    ensures 21 <= i ==> ALL_AIS[i].category == Attribute
  {
    assert |PRIMARIES| == 15 && |QUALIFIERS| == 6 && |ATTRIBUTES| == 38;
    Categories();
    AttributeCategories();
    hide PRIMARIES, QUALIFIERS, ATTRIBUTES;
    assert i < 15 ==> ALL_AIS[i] == PRIMARIES[i];
    assert 21 <= i ==> ALL_AIS[i] == ATTRIBUTES[i - 21];
  }

  /** No AI and no name occurs in two rows. */
  lemma RowsApart(i: nat, j: nat)
    requires i < |ALL_AIS| && j < |ALL_AIS|
    requires ALL_AIS[i].ai == ALL_AIS[j].ai || ALL_AIS[i].name == ALL_AIS[j].name
    ensures i == j
  {
    hide AiSlot, NameSlot, AiKey, NameKey, RowShaped;
    TableRow(i);
    TableRow(j);
  }

  lemma {:induction false} RowOfAiFound(rows: seq<AISpec>, ai: string)
    ensures RowOfAi(rows, ai).Some?
      ==> exists i :: 0 <= i < |rows| && rows[i] == RowOfAi(rows, ai).value && rows[i].ai == ai
    ensures RowOfAi(rows, ai).None? ==> forall i :: 0 <= i < |rows| ==> rows[i].ai != ai
  {
    if rows == [] {
    } else {
      RowOfAiFound(rows[..|rows| - 1], ai);
    }
  }

  lemma {:induction false} RowOfNameFound(rows: seq<AISpec>, name: string)
    ensures RowOfName(rows, name).Some?
      ==> exists i :: 0 <= i < |rows| && rows[i] == RowOfName(rows, name).value && rows[i].name == name
    ensures RowOfName(rows, name).None? ==> forall i :: 0 <= i < |rows| ==> rows[i].name != name
  {
    if rows == [] {
    } else {
      RowOfNameFound(rows[..|rows| - 1], name);
    }
  }

  // ----- The indexes agree -------------------------------------------------

  /** A known AI is well shaped, and its name leads back to it. */
  lemma KnownAi(ai: string)
    requires IsKnown(ai)
    ensures AiShaped(ai) && NameShaped(NameOf(ai)) && (|ai| > 2 ==> ai[0] != '0')
    ensures AiOfName(NameOf(ai)) == Some(ai)
  {
    hide ALL_AIS, RowOfAi, RowOfName, AiShaped, NameShaped;
    RowOfAiFound(ALL_AIS, ai);
    var i :| 0 <= i < |ALL_AIS| && ALL_AIS[i] == RowOfAi(ALL_AIS, ai).value && ALL_AIS[i].ai == ai;
    TableRow(i);
    RowOfNameFound(ALL_AIS, ALL_AIS[i].name);
    var j :| 0 <= j < |ALL_AIS| && ALL_AIS[j] == RowOfName(ALL_AIS, ALL_AIS[i].name).value
      && ALL_AIS[j].name == ALL_AIS[i].name;
    RowsApart(i, j);
  }

  /** What the table says of the AI of one of its rows. */
  lemma SpecOfRow(i: nat)
    requires i < |ALL_AIS|
    ensures SpecOf(ALL_AIS[i].ai) == Some(ALL_AIS[i])
  {
    hide ALL_AIS, RowOfAi;
    RowOfAiFound(ALL_AIS, ALL_AIS[i].ai);
    var j :| 0 <= j < |ALL_AIS| && ALL_AIS[j] == RowOfAi(ALL_AIS, ALL_AIS[i].ai).value
      && ALL_AIS[j].ai == ALL_AIS[i].ai;
    RowsApart(i, j);
  }

  /** The AIs the GS1 standard calls qualifiers. */
  const QUALIFIER_AIS: seq<string> := ["22", "10", "21", "235", "254", "8011"]

  lemma QualifierAis()
    ensures forall i :: 0 <= i < 6 ==> QUALIFIERS[i].ai in QUALIFIER_AIS
  {
  }

  /** The qualifiers. */
  lemma QualifierIs(ai: string)
    requires IsQualifier(ai)
    ensures ai in QUALIFIER_AIS
  {
    assert |ALL_AIS| == 59 && |QUALIFIERS| == 6;
    QualifierAis();
    hide RowOfAi, ALL_AIS, QUALIFIERS;
    RowOfAiFound(ALL_AIS, ai);
    var i :| 0 <= i < |ALL_AIS| && ALL_AIS[i] == RowOfAi(ALL_AIS, ai).value && ALL_AIS[i].ai == ai;
    RowCategory(i);
  }

  lemma QualifierFound(ai: string)
    requires ai in QUALIFIER_AIS
    ensures IsQualifier(ai)
  {
    assert |ALL_AIS| == 59 && |QUALIFIERS| == 6;
    assert exists i :: 0 <= i < 6 && QUALIFIERS[i].ai == ai by { QualifierPlaces(); }
    hide RowOfAi, ALL_AIS, QUALIFIERS;
    var i :| 0 <= i < 6 && QUALIFIERS[i].ai == ai;
    RowCategory(i + 15);
    SpecOfRow(i + 15);
  }

  lemma QualifierPlaces()
    ensures QUALIFIERS[0].ai == "22" && QUALIFIERS[1].ai == "10" && QUALIFIERS[2].ai == "21"
    ensures QUALIFIERS[3].ai == "235" && QUALIFIERS[4].ai == "254" && QUALIFIERS[5].ai == "8011"
  {
  }

  /** The table says which AIs are known and which are primary; six are qualifiers. */
  lemma Lookup(ai: string)
    ensures IsKnown(ai) <==> exists i :: 0 <= i < |ALL_AIS| && ALL_AIS[i].ai == ai
    ensures IsPrimary(ai) <==> exists i :: 0 <= i < |PRIMARIES| && PRIMARIES[i].ai == ai
    ensures IsQualifier(ai) <==> ai in QUALIFIER_AIS
    ensures forall i :: 0 <= i < |ALL_AIS| && ALL_AIS[i].ai == ai ==> NameOf(ai) == ALL_AIS[i].name
  {
    if ai in QUALIFIER_AIS {
      QualifierFound(ai);
    }
    hide RowOfAi, ALL_AIS, PRIMARIES;
    if IsQualifier(ai) {
      QualifierIs(ai);
    }
    RowOfAiFound(ALL_AIS, ai);
    RowOfAiFound(PRIMARIES, ai);
    forall i | 0 <= i < |ALL_AIS| && ALL_AIS[i].ai == ai ensures NameOf(ai) == ALL_AIS[i].name {
      SpecOfRow(i);
    }
  }

  /** A few rows that examples use. */
  lemma SomeRows()
    ensures SpecOf("01") == Some(AISpec("01", "gtin", Primary))
    ensures SpecOf("10") == Some(AISpec("10", "lot", Qualifier)) && SpecOf("21") == Some(AISpec("21", "ser", Qualifier))
    ensures SpecOf("240") == Some(AISpec("240", "addid", Attribute))
    ensures SpecOf("90") == Some(AISpec("90", "internal", Attribute))
  {
    PlacesOfRows();
    hide ALL_AIS, RowOfAi;
    SpecOfRow(1);
    SpecOfRow(16);
    SpecOfRow(17);
    SpecOfRow(27);
    SpecOfRow(58);
  }

  lemma PlacesOfRows()
    ensures |ALL_AIS| == 59 && ALL_AIS[1] == AISpec("01", "gtin", Primary)
    ensures ALL_AIS[16] == AISpec("10", "lot", Qualifier) && ALL_AIS[17] == AISpec("21", "ser", Qualifier)
    ensures ALL_AIS[27] == AISpec("240", "addid", Attribute) && ALL_AIS[58] == AISpec("90", "internal", Attribute)
  {
    assert ALL_AIS[1] == PRIMARIES[1] && ALL_AIS[16] == QUALIFIERS[1] && ALL_AIS[17] == QUALIFIERS[2];
    assert ALL_AIS[27] == ATTRIBUTES[6] && ALL_AIS[58] == ATTRIBUTES[37];
  }

  lemma SomePrimaries()
    ensures IsPrimary("01") && !IsPrimary("10") && !IsPrimary("21") && !IsPrimary("240") && !IsPrimary("90")
  {
    SomeRows();
    assert PRIMARIES[1].ai == "01";
    hide RowOfAi, ALL_AIS, PRIMARIES, IsPrimary, SpecOf;
    PrimaryRow(1);
    NotPrimary("10");
    NotPrimary("21");
    NotPrimary("240");
    NotPrimary("90");
  }

  lemma PrimaryRow(i: nat)
    requires i < |PRIMARIES|
    ensures IsPrimary(PRIMARIES[i].ai)
  {
    hide RowOfAi, PRIMARIES;
    RowOfAiFound(PRIMARIES, PRIMARIES[i].ai);
  }

  lemma NotPrimary(ai: string)
    requires SpecOf(ai).Some? && SpecOf(ai).value.category != Primary
    ensures !IsPrimary(ai)
  {
    hide RowOfAi, ALL_AIS, PRIMARIES, AiIndexed, NameIndexed, RowShaped;
    if IsPrimary(ai) {
      RowOfAiFound(PRIMARIES, ai);
      var k :| 0 <= k < |PRIMARIES| && PRIMARIES[k].ai == ai;
      PrimaryPrefix(k);
      TableRow(k);
      SpecOfRow(k);
    }
  }

  /** A name in the table leads to a known AI of that name. */
  lemma KnownName(name: string)
    requires AiOfName(name).Some?
    ensures IsKnown(AiOfName(name).value) && NameOf(AiOfName(name).value) == name
  {
    hide ALL_AIS, RowOfAi, RowOfName, AiShaped, NameShaped;
    RowOfNameFound(ALL_AIS, name);
    var i :| 0 <= i < |ALL_AIS| && ALL_AIS[i] == RowOfName(ALL_AIS, name).value && ALL_AIS[i].name == name;
    RowOfAiFound(ALL_AIS, ALL_AIS[i].ai);
    var j :| 0 <= j < |ALL_AIS| && ALL_AIS[j] == RowOfAi(ALL_AIS, ALL_AIS[i].ai).value
      && ALL_AIS[j].ai == ALL_AIS[i].ai;
    RowsApart(i, j);
  }

  /** Names start with a letter, so no AI is a name. */
  lemma NotAName(s: string)
    requires s == "" || !('a' <= s[0] <= 'z')
    ensures AiOfName(s).None?
  {
    if AiOfName(s).Some? {
      KnownName(s);
      KnownAi(AiOfName(s).value);
    }
  }

  /** The primary keys are known, and none is a qualifier: the categories do not overlap. */
  lemma PrimaryAi(ai: string)
    requires IsPrimary(ai)
    ensures IsKnown(ai) && !IsQualifier(ai)
  {
    hide ALL_AIS, PRIMARIES, RowOfAi, RowShaped, Indexed;
    RowOfAiFound(PRIMARIES, ai);
    var k :| 0 <= k < |PRIMARIES| && PRIMARIES[k] == RowOfAi(PRIMARIES, ai).value && PRIMARIES[k].ai == ai;
    PrimaryPrefix(k);
    RowOfAiFound(ALL_AIS, ai);
    var i :| 0 <= i < |ALL_AIS| && ALL_AIS[i] == RowOfAi(ALL_AIS, ai).value && ALL_AIS[i].ai == ai;
    RowsApart(i, k);
    TableRow(k);
  }

  lemma PrimaryPrefix(k: nat)
    requires k < |PRIMARIES|
    ensures k < |ALL_AIS| && ALL_AIS[k] == PRIMARIES[k] && k < 15
  {
  }

  /** The convenience names of templates are neither short names nor AIs. */
  lemma AliasesApart()
    ensures AiOfName("serial").None? && AiOfName("batch").None? && AiOfName("expiry").None?
    ensures !IsKnown("serial") && !IsKnown("batch") && !IsKnown("expiry")
  {
    NotInTable("serial");
    NotInTable("batch");
    NotInTable("expiry");
  }

  lemma NotInTable(s: string)
    requires |s| >= 2 && !IsDigit(s[0]) && NameSlot(NameKey(s)) == -1
    ensures AiOfName(s).None? && !IsKnown(s)
  {
    hide ALL_AIS, RowOfAi, RowOfName, NameSlot, NameKey, NameShaped, NameOf;
    if IsKnown(s) {
      KnownAi(s);
    }
    if AiOfName(s).Some? {
      RowOfNameFound(ALL_AIS, s);
      var i :| 0 <= i < |ALL_AIS| && ALL_AIS[i] == RowOfName(ALL_AIS, s).value && ALL_AIS[i].name == s;
      TableRow(i);
    }
  }

  /** No qualifier is listed twice in an order. */
  lemma OrderDistinct(primary: string)
    ensures Distinct(QualifierOrder(primary))
  {
  }
}
