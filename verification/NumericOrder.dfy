/** When canonical URIs list AIs in numeric order: the code sorts them as text. */
module NumericOrder {
  import opened Text
  import opened AiTable
  import opened AiTableFacts
  import opened Dict
  import opened Parser
  import opened ParserProofs
  import opened Canonical
  import opened CanonicalProofs

  // ----- Digits as text and as numbers -------------------------------------

  lemma {:induction false} LexSnoc(a: string, b: string, x: char, y: char)
    requires |a| == |b|
    ensures LexLe(a + [x], b + [y]) <==> LexLt(a, b) || (a == b && x <= y)
  {
    var s, t := a + [x], b + [y];
    if a == "" {
      assert s[1..] == "" && t[1..] == "" && s[0] == x && t[0] == y;
    } else {
      assert s[1..] == a[1..] + [x] && t[1..] == b[1..] + [y] && s[0] == a[0] && t[0] == b[0];
      LexSnoc(a[1..], b[1..], x, y);
      assert a == [a[0]] + a[1..] && b == [b[0]] + b[1..];
    }
  }

  lemma LexLtSnoc(a: string, b: string, x: char, y: char)
    requires |a| == |b|
    ensures LexLt(a + [x], b + [y]) <==> LexLt(a, b) || (a == b && x < y)
    ensures a + [x] == b + [y] <==> a == b && x == y
  {
    hide LexLe;
    LexSnoc(a, b, x, y);
    assert (a + [x])[..|a|] == a && (b + [y])[..|a|] == b;
    assert (a + [x])[|a|] == x && (b + [y])[|a|] == y;
  }

  lemma {:induction false} ReadSnoc(a: string, x: char)
    requires IsDigits(a) && IsDigit(x)
    ensures IsDigits(a + [x]) && ReadDecimal(a + [x]) == 10 * ReadDecimal(a) + (x as int - '0' as int)
  {
    assert (a + [x])[..|a|] == a;
  }

  /** Digits of one length sort alike as text and as numbers. */
  lemma {:induction false} SameLengthNumeric(a: string, b: string)
    requires |a| == |b| && IsDigits(a) && IsDigits(b)
    ensures LexLt(a, b) <==> ReadDecimal(a) < ReadDecimal(b)
    ensures a == b <==> ReadDecimal(a) == ReadDecimal(b)
  {
    if a == "" {
    } else {
      hide LexLe, ReadDecimal;
      var n := |a| - 1;
      var p, q, x, y := a[..n], b[..n], a[n], b[n];
      assert a == p + [x] && b == q + [y] && IsDigit(x) && IsDigit(y);
      SameLengthNumeric(p, q);
      ReadSnoc(p, x);
      ReadSnoc(q, y);
      LexLtSnoc(p, q, x, y);
    }
  }

  function Pow10(n: nat): nat {
    if n == 0 then 1 else 10 * Pow10(n - 1)
  }

  lemma {:induction false} DigitsBelow(s: string)
    requires IsDigits(s)
    ensures ReadDecimal(s) < Pow10(|s|)
    ensures s != "" && s[0] != '0' ==> Pow10(|s| - 1) <= ReadDecimal(s)
  {
    if s == "" {
    } else {
      var p := s[..|s| - 1];
      assert IsDigit(s[|s| - 1]) && IsDigit(s[0]);
      DigitsBelow(p);
    }
  }

  lemma {:induction false} Pow10Grows(m: nat, n: nat)
    requires m <= n
    ensures Pow10(m) <= Pow10(n)
  {
    if m == n {
    } else {
      Pow10Grows(m, n - 1);
    }
  }

  /** More digits, the first of them not zero, make a larger number. */
  lemma {:induction false} LongerIsGreater(a: string, b: string)
    requires |a| < |b| && IsDigits(a) && IsDigits(b) && b[0] != '0'
    ensures ReadDecimal(a) < ReadDecimal(b)
  {
    DigitsBelow(a);
    DigitsBelow(b);
    Pow10Grows(|a|, |b| - 1);
  }

  /** An AI as a number. */
  function AiNumber(ai: string): nat {
    if IsDigits(ai) then ReadDecimal(ai) else 0
  }

  /** The numeric order of known AIs: shorter first, and those of one length as text. */
  lemma NumericIsShortLex(a: string, b: string)
    requires IsKnown(a) && IsKnown(b)
    ensures AiNumber(a) < AiNumber(b) <==> |a| < |b| || (|a| == |b| && LexLt(a, b))
  {
    hide IsKnown, NameOf, LexLe, ReadDecimal;
    KnownAi(a);
    KnownAi(b);
    if |a| < |b| {
      LongerIsGreater(a, b);
    } else if |b| < |a| {
      LongerIsGreater(b, a);
    } else {
      SameLengthNumeric(a, b);
    }
  }

  /** Of two known AIs in string order, the first is the smaller number unless it is longer. */
  lemma TextThenNumber(a: string, b: string)
    requires IsKnown(a) && IsKnown(b) && LexLt(a, b)
    ensures AiNumber(a) < AiNumber(b) <==> |a| <= |b|
  {
    hide IsKnown, LexLe, AiNumber;
    NumericIsShortLex(a, b);
  }

  // ----- Attributes --------------------------------------------------------

  /** The printed attributes increase as numbers. */
  ghost predicate AttributesNumeric(r: ParseResult) {
    var segs := CanonicalSegments(r);
    forall i, j :: 1 + |r.qualifiers| <= i < j < |segs| ==> AiNumber(segs[i].0) < AiNumber(segs[j].0)
  }

  /** Of any two attributes of different length the shorter comes first as text. */
  ghost predicate ShorterSortsFirst(r: ParseResult) {
    forall a, b :: Has(r.attributes, a) && Has(r.attributes, b) && |a| < |b| ==> LexLt(a, b)
  }

  lemma PrintedAttribute(r: ParseResult, i: nat)
    requires WellFormed(r) && 1 + |r.qualifiers| <= i < |CanonicalSegments(r)|
    ensures Has(r.attributes, CanonicalSegments(r)[i].0) && IsKnown(CanonicalSegments(r)[i].0)
  {
    hide LexLe, QualifierKeys, Get, PaddedPrimary, IsPrimary, KindOf;
    QualifierKeysPartition(r);
    AsManyKeys(r.qualifiers, QualifierKeys(r));
    AttributeKeysSorted(r);
    var k := AttributeKeys(r)[i - 1 - |r.qualifiers|];
    assert CanonicalSegments(r)[i].0 == k && k in AttributeKeys(r);
    GoodValue(r.attributes, AttributeKind, k);
    KindKnown(k);
  }

  lemma AttributePrinted(r: ParseResult, k: string) returns (i: nat)
    requires WellFormed(r) && Has(r.attributes, k)
    ensures 1 + |r.qualifiers| <= i < |CanonicalSegments(r)| && CanonicalSegments(r)[i].0 == k
  {
    hide LexLe, QualifierKeys, Get, PaddedPrimary, IsPrimary, KindOf;
    QualifierKeysPartition(r);
    AsManyKeys(r.qualifiers, QualifierKeys(r));
    AttributeKeysSorted(r);
    var j :| 0 <= j < |AttributeKeys(r)| && AttributeKeys(r)[j] == k;
    i := 1 + |r.qualifiers| + j;
  }

  lemma NumericWhenShorterFirst(r: ParseResult, i: nat, j: nat)
    requires WellFormed(r) && 1 + |r.qualifiers| <= i < j < |CanonicalSegments(r)|
    ensures ShorterSortsFirst(r) ==> AiNumber(CanonicalSegments(r)[i].0) < AiNumber(CanonicalSegments(r)[j].0)
  {
    hide LexLe, CanonicalSegments, Get, WellFormed, IsKnown, AiNumber, Unique;
    PlacesUnique(r);
    EmissionOrders(r);
    var a, b := CanonicalSegments(r)[i].0, CanonicalSegments(r)[j].0;
    PrintedAttribute(r, i);
    PrintedAttribute(r, j);
    TextThenNumber(a, b);
    LexOneWay(a, b);
  }

  lemma ShorterFirstWhenNumeric(r: ParseResult, a: string, b: string)
    requires WellFormed(r) && AttributesNumeric(r) && Has(r.attributes, a) && Has(r.attributes, b) && |a| < |b|
    ensures LexLt(a, b)
  {
    hide LexLe, CanonicalSegments, Get, WellFormed, IsKnown, AiNumber, Unique;
    PlacesUnique(r);
    EmissionOrders(r);
    var i := AttributePrinted(r, a);
    var j := AttributePrinted(r, b);
    PrintedAttribute(r, i);
    PrintedAttribute(r, j);
    NumericIsShortLex(a, b);
  }

  /**
   * The documentation promises attributes in numeric order; the code sorts them as text. The printed order is
   * numeric if and only if, of any two attributes of different length, the shorter comes first as text too.
   */
  lemma AttributesNumericExactly(r: ParseResult)
    requires WellFormed(r)
    ensures AttributesNumeric(r) <==> ShorterSortsFirst(r)
  {
    hide LexLe, CanonicalSegments, Get, WellFormed, AiNumber;
    if ShorterSortsFirst(r) {
      forall i, j | 1 + |r.qualifiers| <= i < j < |CanonicalSegments(r)|
        ensures AiNumber(CanonicalSegments(r)[i].0) < AiNumber(CanonicalSegments(r)[j].0)
      {
        NumericWhenShorterFirst(r, i, j);
      }
    }
    if AttributesNumeric(r) {
      forall a, b | Has(r.attributes, a) && Has(r.attributes, b) && |a| < |b| ensures LexLt(a, b) {
        ShorterFirstWhenNumeric(r, a, b);
      }
    }
  }

  lemma PlacesUnique(r: ParseResult)
    requires WellFormed(r)
    ensures Unique(r.qualifiers) && Unique(r.attributes)
  {
  }

  lemma LexOneWay(a: string, b: string)
    requires LexLt(a, b)
    ensures !LexLt(b, a)
  {
    if LexLe(b, a) {
      LexAntisymmetric(a, b);
    }
  }

  // ----- Qualifiers --------------------------------------------------------

  /** Any two qualifiers sort alike as text and as numbers. */
  lemma QualifiersNumeric(a: string, b: string)
    requires IsQualifier(a) && IsQualifier(b)
    ensures LexLt(a, b) <==> AiNumber(a) < AiNumber(b)
  {
    hide IsQualifier, AiNumber, LexLe;
    QualifierKnown(a);
    QualifierKnown(b);
    NumericIsShortLex(a, b);
    if |a| < |b| {
      ShorterQualifierFirst(a, b);
    } else if |b| < |a| {
      ShorterQualifierFirst(b, a);
      LexOneWay(b, a);
    }
  }

  lemma QualifierKnown(ai: string)
    requires IsQualifier(ai)
    ensures IsKnown(ai)
  {
  }

  lemma ShorterQualifierFirst(a: string, b: string)
    requires IsQualifier(a) && IsQualifier(b) && |a| < |b|
    ensures LexLt(a, b)
  {
    QualifierIs(a);
    QualifierIs(b);
    hide IsQualifier;
    assert a[0] <= b[0] && (a[0] == b[0] ==> a[1] < b[1]);
    assert LexLe(a[1..], b[1..]) || a[0] < b[0] by { assert a[1..] != "" && b[1..] != ""; }
  }

  /** The qualifiers printed after the listed ones always increase as numbers. */
  lemma LeftoversNumeric(r: ParseResult, i: nat, j: nat)
    requires WellFormed(r) && 1 <= i < j <= |QualifierKeys(r)|
    requires CanonicalSegments(r)[i].0 !in QualifierOrder(r.primaryAi)
    requires CanonicalSegments(r)[j].0 !in QualifierOrder(r.primaryAi)
    ensures AiNumber(CanonicalSegments(r)[i].0) < AiNumber(CanonicalSegments(r)[j].0)
  {
    hide LexLe, CanonicalSegments, WellFormed, IsQualifier, AiNumber, QualifierOrder, Unique, QualifierKeys, Get;
    PlacesUnique(r);
    QualifierKeysPartition(r);
    AsManyKeys(r.qualifiers, QualifierKeys(r));
    EmissionOrders(r);
    PrintedQualifier(r, i);
    PrintedQualifier(r, j);
    QualifiersNumeric(CanonicalSegments(r)[i].0, CanonicalSegments(r)[j].0);
  }

  lemma PrintedQualifier(r: ParseResult, i: nat)
    requires WellFormed(r) && 1 <= i <= |r.qualifiers|
    ensures i < |CanonicalSegments(r)| && IsQualifier(CanonicalSegments(r)[i].0)
  {
    hide LexLe, QualifierKeys, Get, PaddedPrimary, IsPrimary, IsKnown, IsQualifier, QualifierOrder;
    QualifierKeysPartition(r);
    AsManyKeys(r.qualifiers, QualifierKeys(r));
    var k := QualifierKeys(r)[i - 1];
    assert CanonicalSegments(r)[i].0 == k && k in QualifierKeys(r);
    GoodValue(r.qualifiers, QualifierKind, k);
  }
}
