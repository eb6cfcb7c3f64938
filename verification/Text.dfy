/** Strings as sequences of characters: the pieces of Python's `str` the resolver uses. */
module Text {

  datatype Option<+T> = None | Some(value: T) {
    function GetOr(default: T): T {
      match this case Some(v) => v case None => default
    }
  }

  /** Concatenation is associative; stated once, so that no proof has to find it. */
  lemma Concat3<T>(a: seq<T>, b: seq<T>, c: seq<T>)
    ensures (a + b) + c == a + (b + c)
  {
  }

  /** `all(c not in s for c in cs)`: no character of `cs` occurs in `s`. */
  predicate FreeOf(s: string, cs: string) {
    forall i :: 0 <= i < |s| ==> s[i] !in cs
  }

  /** The first position at which a character of `cs` occurs in `s`, or `|s|`. */
  function FindAny(s: string, cs: string): (i: nat)
    ensures i <= |s| && FreeOf(s[..i], cs)
    ensures i < |s| ==> s[i] in cs
  {
    if s == "" || s[0] in cs then 0 else 1 + FindAny(s[1..], cs)
  }

  /** Searching skips a prefix that has none of the characters looked for. */
  lemma {:induction false} FindAnySkips(p: string, s: string, cs: string)
    requires FreeOf(p, cs)
    ensures FindAny(p + s, cs) == |p| + FindAny(s, cs)
  {
    if p == "" {
      assert p + s == s;
    } else {
      assert p[0] !in cs;
      assert (p + s)[1..] == p[1..] + s;
      FindAnySkips(p[1..], s, cs);
    }
  }

  /** The cut `s.split(c, 1)` makes: after a prefix free of `cs`, the search stops at a mark. */
  lemma {:induction false} FindAnyStops(p: string, s: string, cs: string)
    requires FreeOf(p, cs)
    requires s == "" || s[0] in cs
    ensures FindAny(p + s, cs) == |p|
    ensures (p + s)[..|p|] == p && (p + s)[|p|..] == s
  {
    FindAnySkips(p, s, cs);
  }

  /** `s.split(sep)`. */
  function Split(s: string, sep: char): (parts: seq<string>)
    ensures |parts| > 0
    ensures forall i :: 0 <= i < |parts| ==> sep !in parts[i]
  {
    if s == "" then [""]
    else
      var rest := Split(s[1..], sep);
      if s[0] == sep then [""] + rest else [[s[0]] + rest[0]] + rest[1..]
  }

  /** `sep.join(parts)`. */
  function Join(parts: seq<string>, sep: string): string {
    if parts == [] then ""
    else if |parts| == 1 then parts[0]
    else parts[0] + sep + Join(parts[1..], sep)
  }

  lemma {:induction false} JoinSplit(s: string, sep: char)
    ensures Join(Split(s, sep), [sep]) == s
  {
    if s == "" {
    } else {
      JoinSplit(s[1..], sep);
      var rest := Split(s[1..], sep);
      if s[0] == sep {
        assert ([""] + rest)[1..] == rest;
      } else {
        var parts := [[s[0]] + rest[0]] + rest[1..];
        assert parts[1..] == rest[1..];
      }
    }
  }

  lemma {:induction false} SplitAtFirst(p: string, s: string, sep: char)
    requires sep !in p
    ensures Split(p + [sep] + s, sep) == [p] + Split(s, sep)
  {
    if p == "" {
      assert (p + [sep] + s)[1..] == s;
    } else {
      assert (p + [sep] + s)[1..] == p[1..] + [sep] + s;
      assert p[0] in p && p == [p[0]] + p[1..];
      SplitAtFirst(p[1..], s, sep);
    }
  }

  /** Splitting at a mark splits what comes before and what comes after it. */
  lemma {:induction false} SplitAppend(a: string, b: string, sep: char)
    ensures Split(a + [sep] + b, sep) == Split(a, sep) + Split(b, sep)
  {
    if a == "" {
      assert (a + [sep] + b)[1..] == b;
    } else {
      assert (a + [sep] + b)[1..] == a[1..] + [sep] + b;
      SplitAppend(a[1..], b, sep);
    }
  }

  /** An unmarked text in front stays with the first part. */
  lemma {:induction false} SplitPrefix(a: string, s: string, sep: char)
    requires sep !in a
    ensures Split(a + s, sep) == [a + Split(s, sep)[0]] + Split(s, sep)[1..]
  {
    if a == "" {
      assert a + s == s && a + Split(s, sep)[0] == Split(s, sep)[0];
    } else {
      assert (a + s)[1..] == a[1..] + s && a[0] in a;
      SplitPrefix(a[1..], s, sep);
      assert a == [a[0]] + a[1..];
      Concat3([a[0]], a[1..], Split(s, sep)[0]);
    }
  }

  /** An unmarked text behind stays with the last part. */
  lemma {:induction false} SplitSuffix(s: string, b: string, sep: char)
    requires sep !in b
    ensures var parts := Split(s, sep); var last := |parts| - 1;
      Split(s + b, sep) == parts[..last] + [parts[last] + b]
  {
    if s == "" {
      assert s + b == b;
      SplitUnmarked(b, sep);
    } else {
      var rest := Split(s[1..], sep);
      assert (s + b)[1..] == s[1..] + b;
      SplitSuffix(s[1..], b, sep);
      if s[0] != sep && |rest| == 1 {
        Concat3([s[0]], rest[0], b);
      }
    }
  }

  lemma {:induction false} SplitUnmarked(s: string, sep: char)
    requires sep !in s
    ensures Split(s, sep) == [s]
  {
    if s == "" {
    } else {
      assert s[0] in s && s == [s[0]] + s[1..];
      SplitUnmarked(s[1..], sep);
    }
  }

  lemma {:induction false} SplitJoin(parts: seq<string>, sep: char)
    requires parts != []
    requires forall i :: 0 <= i < |parts| ==> sep !in parts[i]
    ensures Split(Join(parts, [sep]), sep) == parts
  {
    hide Split;
    if |parts| == 1 {
      SplitUnmarked(parts[0], sep);
    } else {
      SplitJoin(parts[1..], sep);
      SplitAtFirst(parts[0], Join(parts[1..], [sep]), sep);
      assert parts == [parts[0]] + parts[1..];
    }
  }

  function LowerChar(c: char): char {
    if 'A' <= c <= 'Z' then (c as int + 32) as char else c
  }

  /** `s.lower()` on ASCII text. */
  function Lower(s: string): (r: string)
    ensures |r| == |s|
    ensures forall i :: 0 <= i < |s| ==> r[i] == LowerChar(s[i])
  {
    if s == "" then "" else [LowerChar(s[0])] + Lower(s[1..])
  }

  const CAPITALS := "ABCDEFGHIJKLMNOPQRSTUVWXYZ"
  const SMALL := "abcdefghijklmnopqrstuvwxyz"

  lemma LettersInOrder()
    ensures |CAPITALS| == |SMALL| == 26
    ensures forall i :: 0 <= i < 26 ==> CAPITALS[i] == (65 + i) as char && SMALL[i] == (97 + i) as char
  {
  }

  lemma LetterRanges(c: char)
    ensures c in CAPITALS <==> 'A' <= c <= 'Z'
    ensures c in SMALL <==> 'a' <= c <= 'z'
  {
    LettersInOrder();
    hide CAPITALS, SMALL;
    if 'A' <= c <= 'Z' {
      assert CAPITALS[c as int - 65] == c;
    }
    if 'a' <= c <= 'z' {
      assert SMALL[c as int - 97] == c;
    }
  }

  /** Lower-casing changes the 26 capital letters and no other character. */
  lemma LowerLetters(c: char)
    ensures |CAPITALS| == |SMALL| == 26
    ensures forall i :: 0 <= i < 26 ==> LowerChar(CAPITALS[i]) == SMALL[i]
    ensures c !in CAPITALS ==> LowerChar(c) == c
  {
    LettersInOrder();
    LetterRanges(c);
    hide CAPITALS, SMALL;
  }

  predicate IsDigit(c: char) { '0' <= c <= '9' }

  predicate IsDigits(s: string) {
    forall i :: 0 <= i < |s| ==> IsDigit(s[i])
  }

  /** The number that digits write. */
  function ReadDecimal(s: string): nat
    requires IsDigits(s)
  {
    if s == "" then 0 else 10 * ReadDecimal(s[..|s| - 1]) + (s[|s| - 1] as int - '0' as int)
  }

  lemma {:induction false} LowerKeeps(s: string)
    requires forall i :: 0 <= i < |s| ==> !('A' <= s[i] <= 'Z')
    ensures Lower(s) == s
  {
  }

  /** `s.startswith(p)`. */
  predicate StartsWith(s: string, p: string) {
    p <= s
  }

  /** `s.endswith(p)`. */
  predicate EndsWith(s: string, p: string) {
    |p| <= |s| && s[|s| - |p|..] == p
  }

  /** ASCII white space as `str.strip` sees it: space, tab to carriage return, and the four separators. */
  predicate IsSpace(c: char) {
    c == ' ' || '\t' <= c <= '\r' || 0x1c <= c as int <= 0x1f
  }

  /** The ten ASCII characters `str.isspace` accepts. */
  lemma {:induction false} SpacesAre(c: char)
    ensures IsSpace(c) <==> c as int in {9, 10, 11, 12, 13, 28, 29, 30, 31, 32}
  {
  }

  function LStrip(s: string): string {
    if s != "" && IsSpace(s[0]) then LStrip(s[1..]) else s
  }

  function RStrip(s: string): string {
    if s != "" && IsSpace(s[|s| - 1]) then RStrip(s[..|s| - 1]) else s
  }

  /** `s.strip()` on ASCII text. */
  function Strip(s: string): string {
    RStrip(LStrip(s))
  }

  lemma {:induction false} LStripMeaning(s: string) returns (i: nat)
    ensures i <= |s| && LStrip(s) == s[i..] && (forall k :: 0 <= k < i ==> IsSpace(s[k]))
    ensures i < |s| ==> !IsSpace(s[i])
  {
    i := 0;
    if s != "" && IsSpace(s[0]) {
      i := LStripMeaning(s[1..]);
      assert forall k :: 0 <= k < i ==> s[1..][k] == s[k + 1];
      i := i + 1;
    }
  }

  lemma {:induction false} RStripMeaning(s: string) returns (j: nat)
    ensures j <= |s| && RStrip(s) == s[..j] && (forall k :: j <= k < |s| ==> IsSpace(s[k]))
    ensures j > 0 ==> !IsSpace(s[j - 1])
  {
    j := |s|;
    if s != "" && IsSpace(s[|s| - 1]) {
      j := RStripMeaning(s[..|s| - 1]);
    } else {
      assert s[..|s|] == s;
    }
  }

  /** Stripping cuts the white space at both ends and nothing else. */
  lemma StripMeaning(s: string) returns (i: nat, j: nat)
    ensures i <= j <= |s| && Strip(s) == s[i..j]
    ensures forall k :: 0 <= k < i || j <= k < |s| ==> IsSpace(s[k])
    ensures i < j ==> !IsSpace(s[i]) && !IsSpace(s[j - 1])
  {
    hide LStrip, RStrip, IsSpace;
    i := LStripMeaning(s);
    j := RStripMeaning(s[i..]);
    assert s[i..][..j] == s[i..i + j];
    j := i + j;
    forall k | j <= k < |s| ensures IsSpace(s[k]) {
      assert s[k] == s[i..][k - i];
    }
    if i < j {
      assert s[j - 1] == s[i..][j - 1 - i];
    }
  }

  /** `s.replace(old, new)`: leftmost occurrences, not overlapping. */
  function Replace(s: string, old': string, new': string): string
    requires old' != ""
  {
    if |s| < |old'| then s
    else if s[..|old'|] == old' then new' + Replace(s[|old'|..], old', new')
    else [s[0]] + Replace(s[1..], old', new')
  }

  /** Where the text does not begin, replacement keeps one character. */
  lemma {:induction false} ReplaceStep(s: string, old': string, new': string)
    requires old' != "" && s != "" && !(old' <= s)
    ensures Replace(s, old', new') == [s[0]] + Replace(s[1..], old', new')
  {
    if |s| < |old'| {
      assert Replace(s[1..], old', new') == s[1..];
    }
  }

  /** Replacement passes over a prefix that cannot begin an occurrence. */
  lemma {:induction false} ReplaceSkips(p: string, s: string, old': string, new': string)
    requires old' != "" && old'[0] !in p
    ensures Replace(p + s, old', new') == p + Replace(s, old', new')
  {
    hide Replace;
    if p == "" {
      assert p + s == s;
    } else {
      assert (p + s)[0] == p[0] && (p + s)[1..] == p[1..] + s;
      assert p[0] in p;
      ReplaceSkips(p[1..], s, old', new');
      ReplaceStep(p + s, old', new');
      assert p == [p[0]] + p[1..];
      Concat3([p[0]], p[1..], Replace(s, old', new'));
    }
  }

  lemma {:induction false} ReplaceHere(s: string, old': string, new': string)
    requires old' != ""
    ensures Replace(old' + s, old', new') == new' + Replace(s, old', new')
  {
    assert (old' + s)[..|old'|] == old';
    assert (old' + s)[|old'|..] == s;
  }

  /** Python's order on `str`: by code point, a proper prefix first. */
  predicate LexLe(a: string, b: string) {
    a == "" || (b != "" && (a[0] < b[0] || (a[0] == b[0] && LexLe(a[1..], b[1..]))))
  }

  predicate LexLt(a: string, b: string) {
    LexLe(a, b) && a != b
  }

  lemma {:induction false} LexTotal(a: string, b: string)
    ensures LexLe(a, b) || LexLe(b, a)
  {
    if a != "" && b != "" {
      LexTotal(a[1..], b[1..]);
    }
  }

  lemma {:induction false} LexAntisymmetric(a: string, b: string)
    requires LexLe(a, b) && LexLe(b, a)
    ensures a == b
  {
    if a != "" && b != "" {
      LexAntisymmetric(a[1..], b[1..]);
      assert a == [a[0]] + a[1..] && b == [b[0]] + b[1..];
    }
  }

  lemma {:induction false} LexTransitive(a: string, b: string, c: string)
    requires LexLe(a, b) && LexLe(b, c)
    ensures LexLe(a, c)
  {
    if a != "" && b != "" && c != "" && a[0] == b[0] == c[0] {
      LexTransitive(a[1..], b[1..], c[1..]);
    }
  }
}
