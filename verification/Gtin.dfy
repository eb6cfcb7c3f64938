/** The GTIN check digit and padding: `validate_gtin14` and `pad_gtin_to_14`. */
module Gtin {
  import opened Text

  type Digit = d: int | 0 <= d < 10

  /** `[int(d) for d in s]`. */
  function DigitsOf(s: string): (ds: seq<Digit>)
    requires IsDigits(s)
    ensures |ds| == |s| && forall i :: 0 <= i < |s| ==> ds[i] == s[i] as int - 48
  {
    if s == "" then [] else [s[0] as int - 48] + DigitsOf(s[1..])
  }

  /** `d * (3 if three else 1)`. */
  function Times(d: int, three: bool): int {
    if three then 3 * d else d
  }

  /** `sum(d * (3 if i % 2 == 0 else 1) for i, d in enumerate(ds))`, counting from `i`. */
  function WeightedFrom(ds: seq<Digit>, i: nat): int {
    if ds == [] then 0 else Times(ds[0], i % 2 == 0) + WeightedFrom(ds[1..], i + 1)
  }

  /** `validate_gtin14(s)`. */
  predicate ValidateGtin14(s: string) {
    |s| == 14 && IsDigits(s) &&
    var ds := DigitsOf(s);
    (10 - WeightedFrom(ds[..13], 0) % 10) % 10 == ds[13]
  }

  function Zeros(n: nat): (z: string)
    ensures |z| == n && forall i :: 0 <= i < n ==> z[i] == '0'
  {
    if n == 0 then "" else "0" + Zeros(n - 1)
  }

  /** `s.isdigit()`. */
  predicate IsDigitString(s: string) {
    s != "" && IsDigits(s)
  }

  /** `pad_gtin_to_14(s)`. */
  function PadGtin(s: string): string {
    if IsDigitString(s) && |s| in {8, 12, 13, 14} then Zeros(14 - |s|) + s else s
  }

  /** Padding writes zeros in front of 8, 12 or 13 digits, up to 14 in all, and leaves any other text alone. */
  lemma {:induction false} PadMeaning(s: string)
    ensures s != "" && IsDigits(s) && (|s| == 8 || |s| == 12 || |s| == 13) ==>
      |PadGtin(s)| == 14 && PadGtin(s)[14 - |s|..] == s && forall i :: 0 <= i < 14 - |s| ==> PadGtin(s)[i] == '0'
    ensures !(IsDigits(s) && (|s| == 8 || |s| == 12 || |s| == 13)) ==> PadGtin(s) == s
  {
    assert |s| == 14 ==> Zeros(0) + s == s;
  }

  // ----- The rule of the GS1 General Specifications, section 7.9 -----------

  /** Weights alternate between 3 and 1 from the right; `three` says which one the last digit has. */
  function RightSum(ds: seq<Digit>, three: bool): int {
    if ds == [] then 0 else Times(ds[|ds| - 1], three) + RightSum(ds[..|ds| - 1], !three)
  }

  /** A number of any length passes when its right-aligned sum, check digit included, is a multiple of ten. */
  predicate Passes(ds: seq<Digit>) {
    RightSum(ds, false) % 10 == 0
  }

  /** Right-aligned sums ignore leading zeros. */
  lemma {:induction false} LeadingZero(ds: seq<Digit>, three: bool)
    ensures RightSum([0] + ds, three) == RightSum(ds, three)
  {
    var zs: seq<Digit> := [0] + ds;
    if ds == [] {
      assert zs[..0] == [];
    } else {
      assert zs[..|zs| - 1] == [0] + ds[..|ds| - 1];
      LeadingZero(ds[..|ds| - 1], !three);
    }
  }

  lemma {:induction false} LeadingZeros(zs: seq<Digit>, ds: seq<Digit>, three: bool)
    requires forall i :: 0 <= i < |zs| ==> zs[i] == 0
    ensures RightSum(zs + ds, three) == RightSum(ds, three)
  {
    if zs == [] {
      assert zs + ds == ds;
    } else {
      LeadingZeros(zs[1..], ds, three);
      assert zs + ds == [0] + (zs[1..] + ds);
      LeadingZero(zs[1..] + ds, three);
    }
  }

  lemma {:induction false} WeightedSnoc(ds: seq<Digit>, i: nat)
    requires ds != []
    ensures WeightedFrom(ds, i) == WeightedFrom(ds[..|ds| - 1], i) + Times(ds[|ds| - 1], (i + |ds| - 1) % 2 == 0)
  {
    if |ds| == 1 {
      assert ds[1..] == [] && ds[..0] == [];
    } else {
      WeightedSnoc(ds[1..], i + 1);
      assert ds[..|ds| - 1][1..] == ds[1..][..|ds| - 2];
    }
  }

  /** Counting weights from the left agrees with counting them from the right. */
  lemma {:induction false} LeftIsRight(ds: seq<Digit>)
    ensures WeightedFrom(ds, 0) == RightSum(ds, |ds| % 2 == 1)
  {
    if ds == [] {
    } else {
      WeightedSnoc(ds, 0);
      LeftIsRight(ds[..|ds| - 1]);
    }
  }

  /** The code's comparison with the computed check digit is the multiple-of-ten rule. */
  lemma {:induction false} ValidateIsPasses(s: string)
    requires |s| == 14 && IsDigits(s)
    ensures ValidateGtin14(s) <==> Passes(DigitsOf(s))
  {
    var ds := DigitsOf(s);
    LeftIsRight(ds[..13]);
    assert RightSum(ds, false) == Times(ds[13], false) + RightSum(ds[..13], true);
    hide RightSum, WeightedFrom, DigitsOf;
    CompletesTen(WeightedFrom(ds[..13], 0), ds[13]);
  }

  lemma {:induction false} CompletesTen(sum: int, d: Digit)
    ensures (10 - sum % 10) % 10 == d <==> (d + sum) % 10 == 0
  {
  }

  lemma {:induction false} DigitsAppend(s: string, t: string)
    requires IsDigits(s) && IsDigits(t)
    ensures IsDigits(s + t) && DigitsOf(s + t) == DigitsOf(s) + DigitsOf(t)
  {
    hide DigitsOf;
    var both := s + t;
    forall i | 0 <= i < |both| ensures IsDigit(both[i]) && both[i] as int - 48 == (DigitsOf(s) + DigitsOf(t))[i] {
    }
  }

  /**
   * Padding a GTIN-8, -12, -13 or -14 gives a valid GTIN-14 exactly when the number passes the rule at its own
   * length.
   */
  lemma {:induction false} PaddingPreservesCheck(s: string)
    requires IsDigitString(s) && |s| in {8, 12, 13, 14}
    ensures ValidateGtin14(PadGtin(s)) <==> Passes(DigitsOf(s))
    ensures |PadGtin(s)| == 14 && IsDigits(PadGtin(s))
  {
    hide ValidateGtin14, DigitsOf, RightSum, Zeros;
    var z := Zeros(14 - |s|);
    DigitsAppend(z, s);
    LeadingZeros(DigitsOf(z), DigitsOf(s), false);
    ValidateIsPasses(z + s);
  }

  lemma PadIdempotent(s: string)
    ensures PadGtin(PadGtin(s)) == PadGtin(s)
    ensures s != "" ==> PadGtin(s) != ""
  {
    hide ValidateGtin14, DigitsOf, RightSum, Passes;
    if IsDigitString(s) && |s| in {8, 12, 13, 14} {
      PaddingPreservesCheck(s);
      assert Zeros(0) + PadGtin(s) == PadGtin(s);
    }
  }

  // ----- What the check digit detects --------------------------------------

  /** Every number without its check digit has exactly one completing digit. */
  lemma {:induction false} UniqueCheckDigit(body: seq<Digit>, d: Digit)
    ensures Passes(body + [d]) <==> d == (10 - RightSum(body, true) % 10) % 10
  {
    assert (body + [d])[..|body|] == body;
  }

  /** The digit that completes a GTIN-14 of which 13 digits are given. */
  function CheckChar(body: string): (c: char)
    requires IsDigits(body)
    ensures IsDigit(c)
  {
    ((10 - RightSum(DigitsOf(body), true) % 10) % 10 + 48) as char
  }

  /** On GTIN-14 text: thirteen digits are completed by that digit and by no other. */
  lemma OneDigitCompletes(body: string, c: char)
    requires |body| == 13 && IsDigits(body) && IsDigit(c)
    ensures ValidateGtin14(body + [c]) <==> c == CheckChar(body)
  {
    hide ValidateGtin14, RightSum;
    DigitsAppend(body, [c]);
    ValidateIsPasses(body + [c]);
    assert DigitsOf([c]) == [c as int - 48];
    UniqueCheckDigit(DigitsOf(body), c as int - 48);
  }

  /** Changing one digit moves the sum by the change times its weight. */
  lemma {:induction false} ChangeDigit(ds: seq<Digit>, k: nat, d: Digit, three: bool)
    requires k < |ds|
    ensures RightSum(ds[k := d], three)
         == RightSum(ds, three) + Times(d as int - ds[k] as int, if (|ds| - 1 - k) % 2 == 0 then three else !three)
  {
    var last := |ds| - 1;
    if k == last {
      assert ds[k := d][..last] == ds[..last];
    } else {
      assert ds[k := d][..last] == ds[..last][k := d];
      ChangeDigit(ds[..last], k, d, !three);
    }
  }

  /** Any single wrong digit is detected, in a number of any length. */
  lemma SingleErrorDetected(ds: seq<Digit>, k: nat, d: Digit)
    requires k < |ds| && Passes(ds) && d != ds[k]
    ensures !Passes(ds[k := d])
  {
    ChangeDigit(ds, k, d, false);
  }

  /** Swapping two different neighbours goes undetected exactly when they differ by five, in a number of any length. */
  lemma SwapDetected(ds: seq<Digit>, k: nat)
    requires k + 1 < |ds| && Passes(ds) && ds[k] != ds[k + 1]
    ensures Passes(ds[k := ds[k + 1]][k + 1 := ds[k]]) <==> Apart5(ds[k], ds[k + 1])
  {
    hide RightSum;
    var once := ds[k := ds[k + 1]];
    ChangeDigit(ds, k, ds[k + 1], false);
    ChangeDigit(once, k + 1, ds[k], false);
    SwapMoves(RightSum(ds, false), ds[k], ds[k + 1], (|ds| - 1 - k) % 2 == 0);
  }

  /** What a swap adds to the sum: twice the difference of the digits, one way or the other. */
  lemma {:induction false} SwapMoves(sum: int, x: Digit, y: Digit, three: bool)
    requires sum % 10 == 0 && x != y
    ensures var moved := sum + Times(y - x, !three) + Times(x - y, three);
      moved % 10 == 0 <==> Apart5(x, y)
  {
    var d := if three then x - y else y - x;
    assert sum + Times(y - x, !three) + Times(x - y, three) == sum + 2 * d;
    assert -9 <= d <= 9 && d != 0;
  }

  predicate Apart5(x: int, y: int) {
    x - y == 5 || y - x == 5
  }

  lemma DigitsUpdate(s: string, k: nat, c: char)
    requires IsDigits(s) && k < |s| && IsDigit(c)
    ensures IsDigits(s[k := c]) && DigitsOf(s[k := c]) == DigitsOf(s)[k := c as int - 48]
  {
    hide DigitsOf;
  }

  /** On GTIN-14 text: one wrong digit is always refused. */
  lemma WrongDigitRefused(s: string, k: nat, c: char)
    requires ValidateGtin14(s) && k < 14 && IsDigit(c) && c != s[k]
    ensures !ValidateGtin14(s[k := c])
  {
    ValidateIsPasses(s);
    hide ValidateGtin14, DigitsOf, Passes;
    DigitsUpdate(s, k, c);
    SingleErrorDetected(DigitsOf(s), k, c as int - 48);
    ValidateIsPasses(s[k := c]);
  }

  lemma {:induction false} SwapText(s: string, k: nat)
    requires IsDigits(s) && k + 1 < |s|
    ensures var t, ds := s[k := s[k + 1]][k + 1 := s[k]], DigitsOf(s);
      IsDigits(t) && DigitsOf(t) == ds[k := ds[k + 1]][k + 1 := ds[k]]
  {
    hide DigitsOf;
    DigitsUpdate(s, k, s[k + 1]);
    DigitsUpdate(s[k := s[k + 1]], k + 1, s[k]);
  }

  lemma {:induction false} ApartAsDigits(s: string, k: nat)
    requires IsDigits(s) && k + 1 < |s|
    ensures Apart5(DigitsOf(s)[k], DigitsOf(s)[k + 1]) <==> Apart5(s[k] as int, s[k + 1] as int)
    ensures DigitsOf(s)[k] == DigitsOf(s)[k + 1] <==> s[k] == s[k + 1]
  {
    hide DigitsOf;
  }

  /** On GTIN-14 text: swapping two different neighbours is accepted exactly when they differ by five. */
  lemma SwappedDigits(s: string, k: nat)
    requires ValidateGtin14(s) && k < 13 && s[k] != s[k + 1]
    ensures ValidateGtin14(s[k := s[k + 1]][k + 1 := s[k]]) <==> Apart5(s[k] as int, s[k + 1] as int)
  {
    assert |s| == 14 && IsDigits(s);
    hide ValidateGtin14, Passes, DigitsOf, IsDigits, Apart5;
    ValidateIsPasses(s);
    SwapText(s, k);
    ApartAsDigits(s, k);
    SwapDetected(DigitsOf(s), k);
    ValidateIsPasses(s[k := s[k + 1]][k + 1 := s[k]]);
  }
}
