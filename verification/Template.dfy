/** Template filling: `_fill`. */
module Template {
  import opened Text
  import opened Sorting
  import opened Dict

  type Context = Dict<string>

  // ----- The code: one global replacement per key --------------------------

  /** `f"{{{key}}}"`. */
  function Placeholder(key: string): string {
    "{" + key + "}"
  }

  predicate Longer(a: string, b: string) {
    |a| >= |b|
  }

  /** `sorted(ctx.keys(), key=len, reverse=True)`; keys of one length keep the order of the dict. */
  function FillOrder(ctx: Context): seq<string> {
    StableSort(Longer, Keys(ctx))
  }

  /** The replacements, one after the other. */
  function FillKeys(template: string, keys: seq<string>, ctx: Context): string
    decreases keys
  {
    if keys == [] then template
    else FillKeys(Replace(template, Placeholder(keys[0]), GetOr(ctx, keys[0], "")), keys[1..], ctx)
  }

  /** `_fill(template, ctx)`. */
  function Fill(template: string, ctx: Context): string {
    if template == "" then template else FillKeys(template, FillOrder(ctx), ctx)
  }

  method FillTemplate(template: string, ctx: Context) returns (filled: string)
    ensures filled == Fill(template, ctx)
  {
    filled := template;
    if template == "" {
      return;
    }
    var keys := FillOrder(ctx);
    for i := 0 to |keys|
      invariant FillKeys(filled, keys[i..], ctx) == Fill(template, ctx)
    {
      assert keys[i..][1..] == keys[i + 1..];
      filled := Replace(filled, Placeholder(keys[i]), GetOr(ctx, keys[i], ""));
    }
  }

  // ----- The meaning: simultaneous substitution ----------------------------

  datatype Token = Literal(text: string) | Hole(name: string)

  function Source(tokens: seq<Token>): string {
    if tokens == [] then ""
    else (match tokens[0] case Literal(t) => t case Hole(n) => Placeholder(n)) + Source(tokens[1..])
  }

  /** Each hole with a known name becomes its value, all at once; an unknown one stays as it is written. */
  function Substitute(tokens: seq<Token>, ctx: Context): string {
    if tokens == [] then ""
    else
      (match tokens[0]
       case Literal(t) => t
       case Hole(n) => match Get(ctx, n) case Some(v) => v case None => Placeholder(n))
      + Substitute(tokens[1..], ctx)
  }

  predicate BraceFree(s: string) {
    '{' !in s && '}' !in s
  }

  /** Literals do not open a brace, and hole names have none. */
  predicate WellBraced(tokens: seq<Token>) {
    forall i :: 0 <= i < |tokens| ==> match tokens[i] case Literal(t) => '{' !in t case Hole(n) => BraceFree(n)
  }

  /** Somewhere in `s` the text `p` begins, and goes on until it, or `s`, ends. */
  ghost predicate Meets(s: string, p: string) {
    exists i :: 0 <= i < |s| && (s[i..] <= p || p <= s[i..])
  }

  /**
   * Filling `q` leaves this text alone: it neither has nor can be continued to a placeholder of `q`, or that stands
   * for itself.
   */
  ghost predicate Calm(text: string, q: string, ctx: Context) {
    GetOr(ctx, q, "") == Placeholder(q) || !Meets(text, Placeholder(q))
  }

  /**
   * What sequential replacement needs of a context: keys without braces, and no value that makes work for another
   * key.
   */
  ghost predicate Settled(ctx: Context) {
    && (forall k :: Has(ctx, k) ==> BraceFree(k))
    && (forall k, q :: Has(ctx, k) && Has(ctx, q) && k != q ==> Calm(Value(ctx, k), q, ctx))
  }

  /** A simple case: no value opens a brace at all. */
  predicate Inert(ctx: Context) {
    forall i :: 0 <= i < |ctx| ==> BraceFree(ctx[i].0) && '{' !in ctx[i].1
  }

  /** The keys of a context in some order, each once. */
  ghost predicate IsOrder(keys: seq<string>, ctx: Context) {
    Distinct(keys) && forall k :: k in keys <==> Has(ctx, k)
  }

  function FillHole(tokens: seq<Token>, key: string, value: string): (r: seq<Token>)
    ensures |r| == |tokens|
    ensures forall i :: 0 <= i < |tokens| ==> r[i] == if tokens[i] == Hole(key) then Literal(value) else tokens[i]
  {
    if tokens == [] then []
    else [if tokens[0] == Hole(key) then Literal(value) else tokens[0]] + FillHole(tokens[1..], key, value)
  }

  /** A placeholder begins at an open brace only if that brace opens the same name. */
  lemma PlaceholderApart(key: string, name: string, rest: string)
    requires BraceFree(key) && BraceFree(name)
    requires Placeholder(key) <= Placeholder(name) + rest
    ensures key == name
  {
    var s := Placeholder(name) + rest;
    var p := Placeholder(key);
    assert forall j :: 0 <= j < |p| ==> s[j] == p[j];
    assert |key| == |name| by {
      assert s[1 + |key|] == '}' && s[1 + |name|] == '}';
    }
    forall k | 0 <= k < |key| ensures key[k] == name[k] {
      assert s[1 + k] == p[1 + k];
    }
  }

  /** Replacement passes over a text that the placeholder does not meet. */
  lemma {:induction false} ReplacePast(t: string, rest: string, p: string, value: string)
    requires p != "" && !Meets(t, p)
    ensures Replace(t + rest, p, value) == t + Replace(rest, p, value)
  {
    if t == "" {
      assert t + rest == rest;
    } else {
      var s := t + rest;
      assert s[1..] == t[1..] + rest && t[0..] == t;
      assert !Meets(t[1..], p) by { forall i | 0 <= i < |t[1..]| ensures t[1..][i..] == t[i + 1..] {} }
      ReplacePast(t[1..], rest, p, value);
      NotHere(t, rest, p);
      assert Replace(s, p, value) == [t[0]] + Replace(s[1..], p, value) by { ReplaceStep(s, p, value); }
      Concat3([t[0]], t[1..], Replace(rest, p, value));
    }
  }

  lemma NotHere(t: string, rest: string, p: string)
    requires t != "" && !(t <= p) && !(p <= t)
    ensures !(p <= t + rest)
  {
    if |p| <= |t + rest| {
      assert |p| <= |t| ==> (t + rest)[..|p|] == t[..|p|];
      assert |p| > |t| ==> (t + rest)[..|p|][..|t|] == t;
    }
  }

  lemma NoBraceNoMeeting(t: string, key: string)
    requires '{' !in t
    ensures !Meets(t, Placeholder(key))
  {
    forall i | 0 <= i < |t| ensures !(t[i..] <= Placeholder(key)) && !(Placeholder(key) <= t[i..]) {
      assert t[i..][0] == t[i] && Placeholder(key)[0] == '{';
    }
  }

  /** No literal meets the placeholder of this key, and hole names have no braces. */
  ghost predicate Ready(tokens: seq<Token>, key: string) {
    forall i :: 0 <= i < |tokens| ==>
      match tokens[i] case Literal(t) => !Meets(t, Placeholder(key)) case Hole(n) => BraceFree(n)
  }

  /** One global replacement fills exactly the holes of that name. */
  lemma {:induction false} ReplaceSource(tokens: seq<Token>, key: string, value: string)
    requires Ready(tokens, key) && BraceFree(key)
    ensures Replace(Source(tokens), Placeholder(key), value) == Source(FillHole(tokens, key, value))
  {
    hide Replace, Meets;
    var p := Placeholder(key);
    if tokens == [] {
      ReplaceEmpty(p, value);
    } else {
      var rest := Source(tokens[1..]);
      ReplaceSource(tokens[1..], key, value);
      assert FillHole(tokens, key, value)[1..] == FillHole(tokens[1..], key, value);
      match tokens[0] {
        case Literal(t) =>
          ReplacePast(t, rest, p, value);
        case Hole(n) =>
          if n == key {
            ReplaceHere(rest, p, value);
          } else {
            ReplaceElsewhere(n, rest, key, value);
          }
      }
    }
  }

  /** Replacing a text by itself changes nothing. */
  lemma {:induction false} ReplaceBySame(s: string, p: string)
    requires p != ""
    ensures Replace(s, p, p) == s
    decreases |s|
  {
    if |s| >= |p| {
      if s[..|p|] == p {
        ReplaceBySame(s[|p|..], p);
      } else {
        ReplaceBySame(s[1..], p);
      }
    }
  }

  lemma {:induction false} FillBySame(tokens: seq<Token>, key: string)
    ensures Source(FillHole(tokens, key, Placeholder(key))) == Source(tokens)
  {
    if tokens == [] {
    } else {
      FillBySame(tokens[1..], key);
      assert FillHole(tokens, key, Placeholder(key))[1..] == FillHole(tokens[1..], key, Placeholder(key));
    }
  }

  lemma {:induction false} ReplaceEmpty(p: string, value: string)
    requires p != ""
    ensures Replace("", p, value) == ""
  {
  }

  lemma {:induction false} ReplaceElsewhere(name: string, rest: string, key: string, value: string)
    requires BraceFree(name) && BraceFree(key) && name != key
    ensures Replace(Placeholder(name) + rest, Placeholder(key), value)
         == Placeholder(name) + Replace(rest, Placeholder(key), value)
  {
    var p, s := Placeholder(key), Placeholder(name) + rest;
    var tail := name + "}";
    assert s[1..] == tail + rest;
    if |s| >= |p| && s[..|p|] == p {
      PlaceholderApart(key, name, rest);
    }
    ReplaceSkips(tail, rest, p, value);
    if |s| < |p| {
      assert Replace(rest, p, value) == rest;
    } else {
      assert Replace(s, p, value) == [s[0]] + Replace(s[1..], p, value);
      Concat3("{", tail, Replace(rest, p, value));
    }
  }

  /** The holes a list of keys fills, all at once. */
  function FillHoles(tokens: seq<Token>, keys: seq<string>, ctx: Context): (r: seq<Token>)
    ensures |r| == |tokens|
    ensures forall i :: 0 <= i < |tokens| ==>
      r[i] == if tokens[i].Hole? && tokens[i].name in keys then Literal(GetOr(ctx, tokens[i].name, "")) else tokens[i]
  {
    if tokens == [] then []
    else
      [if tokens[0].Hole? && tokens[0].name in keys then Literal(GetOr(ctx, tokens[0].name, "")) else tokens[0]]
      + FillHoles(tokens[1..], keys, ctx)
  }

  /** Every literal is calm for every key still to come. */
  ghost predicate AllCalm(tokens: seq<Token>, keys: seq<string>, ctx: Context) {
    forall i :: 0 <= i < |tokens| ==>
      match tokens[i] case Literal(t) => (forall q :: q in keys ==> Calm(t, q, ctx)) case Hole(n) => BraceFree(n)
  }

  /** No key's value makes work for a later key. */
  ghost predicate QuietOrder(keys: seq<string>, ctx: Context) {
    forall i, j :: 0 <= i < j < |keys| ==> Calm(GetOr(ctx, keys[i], ""), keys[j], ctx)
  }

  lemma {:induction false} FillOne(tokens: seq<Token>, key: string, ctx: Context)
    requires BraceFree(key) && AllCalm(tokens, [key], ctx)
    ensures Replace(Source(tokens), Placeholder(key), GetOr(ctx, key, ""))
      == Source(FillHole(tokens, key, GetOr(ctx, key, "")))
  {
    hide Meets, Replace, Get;
    if GetOr(ctx, key, "") == Placeholder(key) {
      ReplaceBySame(Source(tokens), Placeholder(key));
      FillBySame(tokens, key);
    } else {
      assert key in [key];
      ReplaceSource(tokens, key, GetOr(ctx, key, ""));
    }
  }

  lemma {:induction false} FillHolesStep(tokens: seq<Token>, keys: seq<string>, ctx: Context)
    requires keys != []
    ensures FillHoles(FillHole(tokens, keys[0], GetOr(ctx, keys[0], "")), keys[1..], ctx)
         == FillHoles(tokens, keys, ctx)
  {
    hide Get;
    assert keys == [keys[0]] + keys[1..];
  }

  lemma {:induction false} CalmStep(tokens: seq<Token>, keys: seq<string>, ctx: Context)
    requires keys != [] && AllCalm(tokens, keys, ctx) && QuietOrder(keys, ctx)
    ensures QuietOrder(keys[1..], ctx) && AllCalm(tokens, [keys[0]], ctx)
    ensures AllCalm(FillHole(tokens, keys[0], GetOr(ctx, keys[0], "")), keys[1..], ctx)
  {
    hide Calm, Get, BraceFree;
    assert keys == [keys[0]] + keys[1..];
    assert forall j :: 0 <= j < |keys[1..]| ==> keys[1..][j] == keys[j + 1];
  }

  /** Replacing key after key fills the holes all at once: no replacement makes work for a later one. */
  lemma {:induction false} FillKeysSource(tokens: seq<Token>, keys: seq<string>, ctx: Context)
    requires AllCalm(tokens, keys, ctx) && QuietOrder(keys, ctx)
    requires forall i :: 0 <= i < |keys| ==> BraceFree(keys[i])
    ensures FillKeys(Source(tokens), keys, ctx) == Source(FillHoles(tokens, keys, ctx))
    decreases keys
  {
    hide Get, Replace, BraceFree, AllCalm, QuietOrder;
    if keys == [] {
      assert FillHoles(tokens, [], ctx) == tokens;
    } else {
      CalmStep(tokens, keys, ctx);
      FillOne(tokens, keys[0], ctx);
      FillKeysSource(FillHole(tokens, keys[0], GetOr(ctx, keys[0], "")), keys[1..], ctx);
      FillHolesStep(tokens, keys, ctx);
    }
  }

  lemma {:induction false} FillHolesSubstitute(tokens: seq<Token>, keys: seq<string>, ctx: Context)
    requires forall k :: k in keys <==> Has(ctx, k)
    ensures Source(FillHoles(tokens, keys, ctx)) == Substitute(tokens, ctx)
  {
    hide Get;
    if tokens == [] {
    } else {
      FillHolesSubstitute(tokens[1..], keys, ctx);
      assert FillHoles(tokens, keys, ctx)[1..] == FillHoles(tokens[1..], keys, ctx);
    }
  }

  /** In whatever order the keys are taken, sequential replacement in a settled context is simultaneous substitution. */
  lemma {:induction false} AnyOrderSubstitutes(tokens: seq<Token>, keys: seq<string>, ctx: Context)
    requires WellBraced(tokens) && Settled(ctx) && IsOrder(keys, ctx)
    ensures FillKeys(Source(tokens), keys, ctx) == Substitute(tokens, ctx)
  {
    hide Meets, Get, FillKeys, BraceFree, Calm;
    forall i | 0 <= i < |keys| ensures BraceFree(keys[i]) {
      assert keys[i] in keys;
    }
    forall i, j | 0 <= i < j < |keys| ensures Calm(GetOr(ctx, keys[i], ""), keys[j], ctx) {
      assert keys[i] in keys && keys[j] in keys;
    }
    forall i | 0 <= i < |tokens| && tokens[i].Literal? ensures forall q :: q in keys ==> Calm(tokens[i].text, q, ctx) {
      LiteralCalm(tokens[i].text, ctx);
    }
    FillKeysSource(tokens, keys, ctx);
    FillHolesSubstitute(tokens, keys, ctx);
  }

  lemma LiteralCalm(text: string, ctx: Context)
    requires '{' !in text
    ensures forall q :: Calm(text, q, ctx)
  {
    hide Meets, Get;
    forall q ensures Calm(text, q, ctx) {
      NoBraceNoMeeting(text, q);
    }
  }

  /** A context whose values open no brace is settled. */
  lemma InertSettled(ctx: Context)
    requires Inert(ctx)
    ensures Settled(ctx)
  {
    hide Calm, Get, BraceFree;
    forall k | Has(ctx, k) ensures BraceFree(k) && forall q :: Calm(Value(ctx, k), q, ctx) {
      FoundAt(ctx, k);
      var i :| 0 <= i < |ctx| && ctx[i] == (k, Value(ctx, k));
      LiteralCalm(Value(ctx, k), ctx);
    }
  }

  /** Being settled depends only on the map a context denotes. */
  lemma SettledSame(ctx: Context, ctx': Context)
    requires SameMap(ctx, ctx') && Settled(ctx)
    ensures Settled(ctx')
  {
    hide Get, Meets, BraceFree;
    forall k ensures Get(ctx', k) == Get(ctx, k) {
      assert Get(ctx, k) == Get(ctx', k);
    }
    forall k, q | Has(ctx', k) && Has(ctx', q) && k != q ensures Calm(Value(ctx', k), q, ctx') {
      assert Get(ctx, k) == Get(ctx', k) && Get(ctx, q) == Get(ctx', q);
      assert Has(ctx, k) && Has(ctx, q);
      assert Calm(Value(ctx, k), q, ctx);
    }
  }

  lemma FillOrderIsOrder(ctx: Context)
    requires Unique(ctx)
    ensures IsOrder(FillOrder(ctx), ctx)
  {
    hide StableSort, Get;
    forall k ensures k in FillOrder(ctx) <==> Has(ctx, k) {
      SortMembers(Longer, Keys(ctx), k);
      HasIsKey(ctx, k);
    }
    SortKeeps(Longer, Keys(ctx));
    DistinctIsSet(Keys(ctx));
    DistinctIsSet(FillOrder(ctx));
  }

  lemma {:induction false} LongerIsTotalPreorder()
    ensures TotalPreorder(Longer)
  {
  }

  function OfLength(n: nat): string -> bool {
    (key: string) => |key| == n
  }

  /** Longer keys are replaced first, and keys of one length in the order of the dict. */
  lemma {:induction false} LongestFirst(ctx: Context, n: nat)
    ensures multiset(FillOrder(ctx)) == multiset(Keys(ctx))
    ensures forall i, j :: 0 <= i < j < |FillOrder(ctx)| ==> |FillOrder(ctx)[i]| >= |FillOrder(ctx)[j]|
    ensures Filter(OfLength(n), FillOrder(ctx)) == Filter(OfLength(n), Keys(ctx))
  {
    hide StableSort, Filter;
    LongerIsTotalPreorder();
    SortKeeps(Longer, Keys(ctx));
    SortSorts(Longer, Keys(ctx));
    SortStable(Longer, OfLength(n), Keys(ctx));
  }

  /** `_fill` is simultaneous substitution. */
  lemma {:induction false} FillSubstitutes(tokens: seq<Token>, ctx: Context)
    requires WellBraced(tokens) && Unique(ctx) && Settled(ctx)
    ensures Fill(Source(tokens), ctx) == Substitute(tokens, ctx)
  {
    hide Settled, Get, Source, Substitute;
    FillOrderIsOrder(ctx);
    AnyOrderSubstitutes(tokens, FillOrder(ctx), ctx);
    FillKeysEmpty(FillOrder(ctx), ctx);
  }

  /** A template that is one hole shows the value of its key. */
  lemma FillHoleAlone(ctx: Context, k: string)
    requires Unique(ctx) && Settled(ctx) && Has(ctx, k)
    ensures Fill(Placeholder(k), ctx) == Value(ctx, k)
  {
    assert BraceFree(k);
    hide Settled, Get, BraceFree, Unique, Placeholder, Fill;
    var tokens := [Hole(k)];
    assert tokens[1..] == [];
    assert Source(tokens) == Placeholder(k) + Source([]) == Placeholder(k);
    assert Substitute(tokens, ctx) == Value(ctx, k) + Substitute([], ctx) == Value(ctx, k);
    FillSubstitutes(tokens, ctx);
  }

  lemma {:induction false} FillKeysEmpty(keys: seq<string>, ctx: Context)
    ensures FillKeys("", keys, ctx) == ""
    decreases keys
  {
    if keys == [] {
    } else {
      FillKeysEmpty(keys[1..], ctx);
    }
  }

  // ----- Templates as text -------------------------------------------------

  /** Reading a template: text up to the next open brace, then a name up to its close brace. */
  function Tokenise(template: string): Option<seq<Token>>
    decreases |template|
  {
    var i := FindAny(template, "{");
    if i == |template| then Some([Literal(template)])
    else
      var rest := template[i + 1..];
      var j := FindAny(rest, "{}");
      if j == |rest| || rest[j] == '{' then None
      else
        match Tokenise(rest[j + 1..])
        case None => None
        case Some(tokens) => Some([Literal(template[..i]), Hole(rest[..j])] + tokens)
  }

  /** A template has a reading exactly when every open brace is closed before the next one opens. */
  predicate Readable(template: string) {
    Tokenise(template).Some?
  }

  lemma {:induction false} TokeniseReads(template: string)
    requires Readable(template)
    ensures Source(Tokenise(template).value) == template && WellBraced(Tokenise(template).value)
    decreases |template|
  {
    hide Source, WellBraced, FindAny;
    var i := FindAny(template, "{");
    if i == |template| {
      assert template[..i] == template;
      LiteralReads(template);
    } else {
      var rest := template[i + 1..];
      var j := FindAny(rest, "{}");
      var tokens := Tokenise(rest[j + 1..]).value;
      TokeniseReads(rest[j + 1..]);
      SourceTwo(template[..i], rest[..j], tokens);
      SplitAtBraces(template, i, j);
    }
  }

  lemma LiteralReads(text: string)
    requires FreeOf(text, "{")
    ensures Source([Literal(text)]) == text && WellBraced([Literal(text)])
  {
    assert [Literal(text)][1..] == [];
    assert Source([Literal(text)]) == text + "";
  }

  lemma SplitAtBraces(s: string, i: nat, j: nat)
    requires i < |s| && s[i] == '{' && j < |s[i + 1..]| && s[i + 1..][j] == '}'
    ensures s == s[..i] + (Placeholder(s[i + 1..][..j]) + s[i + 1..][j + 1..])
  {
    var rest := s[i + 1..];
    assert rest == rest[..j] + ("}" + rest[j + 1..]);
    Concat3(rest[..j], "}", rest[j + 1..]);
    Concat3("{", rest[..j] + "}", rest[j + 1..]);
    Concat3("{", rest[..j], "}");
    assert s == s[..i] + ("{" + rest);
  }

  lemma NameBraceFree(s: string)
    requires FreeOf(s, "{}")
    ensures BraceFree(s)
  {
    forall i | 0 <= i < |s| ensures s[i] != '{' && s[i] != '}' {
      assert s[i] !in "{}";
    }
  }

  lemma {:induction false} SourceTwo(text: string, name: string, tokens: seq<Token>)
    requires FreeOf(text, "{") && FreeOf(name, "{}") && WellBraced(tokens)
    ensures Source([Literal(text), Hole(name)] + tokens) == text + (Placeholder(name) + Source(tokens))
    ensures WellBraced([Literal(text), Hole(name)] + tokens)
  {
    NameBraceFree(name);
    var all := [Literal(text), Hole(name)] + tokens;
    assert all[1..] == [Hole(name)] + tokens;
    assert all[1..][1..] == tokens;
  }

  /** Filling depends only on the map a context denotes, not on the order of its keys. */
  lemma FillOrderIrrelevant(template: string, ctx: Context, ctx': Context)
    requires Readable(template) && Unique(ctx) && Unique(ctx') && Settled(ctx) && SameMap(ctx, ctx')
    ensures Fill(template, ctx) == Fill(template, ctx')
  {
    SettledSame(ctx, ctx');
    hide Settled, Unique, Get, Fill, Source, WellBraced, Tokenise;
    var tokens := Tokenise(template).value;
    TokeniseReads(template);
    FillSubstitutes(tokens, ctx);
    FillSubstitutes(tokens, ctx');
    SubstituteSame(tokens, ctx, ctx');
  }

  lemma {:induction false} SubstituteSame(tokens: seq<Token>, ctx: Context, ctx': Context)
    requires SameMap(ctx, ctx')
    ensures Substitute(tokens, ctx) == Substitute(tokens, ctx')
  {
    hide Get;
    if tokens == [] {
    } else {
      SubstituteSame(tokens[1..], ctx, ctx');
      if tokens[0].Hole? {
        assert Get(ctx, tokens[0].name) == Get(ctx', tokens[0].name);
      }
    }
  }

  // ----- Exactly when the order of keys does not matter ----------------------

  /** Whatever the template and the order, sequential replacement is simultaneous substitution. */
  ghost predicate Confluent(ctx: Context) {
    forall tokens, keys :: WellBraced(tokens) && IsOrder(keys, ctx) ==>
      FillKeys(Source(tokens), keys, ctx) == Substitute(tokens, ctx)
  }

  lemma {:induction false} ReplaceLength(s: string, p: string, value: string)
    requires p != ""
    ensures |value| >= |p| ==> |Replace(s, p, value)| >= |s|
    ensures |value| <= |p| ==> |Replace(s, p, value)| <= |s|
    decreases |s|
  {
    if |s| >= |p| {
      if s[..|p|] == p {
        ReplaceLength(s[|p|..], p, value);
      } else {
        ReplaceLength(s[1..], p, value);
      }
    }
  }

  /** Replacing a text that occurs by another one shows. */
  lemma {:induction false} ReplaceShows(s: string, p: string, value: string, i: nat)
    requires p != "" && value != p && i <= |s| && p <= s[i..]
    ensures Replace(s, p, value) != s
    decreases |s|
  {
    if p <= s {
      assert s[..|p|] == p;
      ReplaceLength(s[|p|..], p, value);
      var new' := value + Replace(s[|p|..], p, value);
      if |value| == |p| {
        assert new'[..|p|] == value;
      } else {
        assert |new'| != |s|;
      }
    } else {
      assert i > 0 by { assert s[0..] == s; }
      assert s[1..][i - 1..] == s[i..];
      ReplaceShows(s[1..], p, value, i - 1);
      ReplaceStep(s, p, value);
      assert s == [s[0]] + s[1..];
    }
  }

  lemma {:induction false} FillKeysAppend(template: string, a: seq<string>, b: seq<string>, ctx: Context)
    ensures FillKeys(template, a + b, ctx) == FillKeys(FillKeys(template, a, ctx), b, ctx)
    decreases a
  {
    hide Replace, Get;
    if a == [] {
      assert a + b == b;
    } else {
      assert (a + b)[1..] == a[1..] + b;
      FillKeysAppend(Replace(template, Placeholder(a[0]), GetOr(ctx, a[0], "")), a[1..], b, ctx);
    }
  }

  /** The keys other than two. */
  function Except(ks: seq<string>, k: string, q: string): seq<string> {
    if ks == [] then [] else (if ks[0] == k || ks[0] == q then [] else [ks[0]]) + Except(ks[1..], k, q)
  }

  lemma {:induction false} ExceptIs(ks: seq<string>, k: string, q: string)
    ensures forall x :: x in Except(ks, k, q) <==> x in ks && x != k && x != q
    ensures Distinct(ks) ==> Distinct(Except(ks, k, q))
  {
    if ks == [] {
    } else {
      ExceptIs(ks[1..], k, q);
      assert ks == [ks[0]] + ks[1..];
      if Distinct(ks) && ks[0] != k && ks[0] != q {
        assert Except(ks, k, q) == [ks[0]] + Except(ks[1..], k, q);
        assert ks[0] !in ks[1..];
      }
    }
  }

  /** An order in which two keys come last. */
  lemma {:induction false} TwoLast(ctx: Context, k: string, q: string)
    requires Unique(ctx) && Has(ctx, k) && Has(ctx, q) && k != q
    ensures IsOrder(Except(Keys(ctx), k, q) + [k, q], ctx)
  {
    hide Get;
    var others := Except(Keys(ctx), k, q);
    ExceptIs(Keys(ctx), k, q);
    forall x ensures x in others + [k, q] <==> Has(ctx, x) {
      HasIsKey(ctx, x);
    }
    HasIsKey(ctx, k);
    HasIsKey(ctx, q);
    TwoMore(others, k, q);
  }

  lemma {:induction false} TwoMore(others: seq<string>, k: string, q: string)
    requires Distinct(others) && k !in others && q !in others && k != q
    ensures Distinct(others + [k, q])
  {
    var order := others + [k, q];
    forall i, j | 0 <= i < j < |order| ensures order[i] != order[j] {
      assert order[i] == if i < |others| then others[i] else k;
      assert j < |others| ==> order[j] == others[j];
    }
  }

  /** Other keys pass over a template that has one hole. */
  lemma {:induction false} OthersPass(k: string, rest: string, keys: seq<string>, ctx: Context)
    requires BraceFree(k) && '{' !in rest && forall i :: 0 <= i < |keys| ==> keys[i] != k && BraceFree(keys[i])
    ensures FillKeys(Source([Hole(k), Literal(rest)]), keys, ctx) == Source([Hole(k), Literal(rest)])
    decreases keys
  {
    hide Replace, Get, Meets, Source, BraceFree;
    if keys == [] {
    } else {
      var tokens := [Hole(k), Literal(rest)];
      NoBraceNoMeeting(rest, keys[0]);
      ReplaceSource(tokens, keys[0], GetOr(ctx, keys[0], ""));
      assert FillHole(tokens, keys[0], GetOr(ctx, keys[0], "")) == tokens;
      OthersPass(k, rest, keys[1..], ctx);
    }
  }

  lemma {:induction false} SourceOfTwo(k: string, rest: string, ctx: Context)
    requires Has(ctx, k)
    ensures Substitute([Hole(k), Literal(rest)], ctx) == Value(ctx, k) + rest
    ensures Source([Literal(Value(ctx, k)), Literal(rest)]) == Value(ctx, k) + rest
  {
    hide Get;
    var tokens := [Hole(k), Literal(rest)];
    assert tokens[1..] == [Literal(rest)] && tokens[1..][1..] == [];
    assert Substitute([Literal(rest)], ctx) == rest + Substitute([], ctx);
    var filled := [Literal(Value(ctx, k)), Literal(rest)];
    assert filled[1..] == [Literal(rest)] && filled[1..][1..] == [];
    assert Source([Literal(rest)]) == rest + Source([]);
  }

  /** What completes a text that meets a placeholder, and where the placeholder then is. */
  lemma Completed(v: string, q: string) returns (rest: string, i: nat)
    requires Meets(v, Placeholder(q)) && BraceFree(q)
    ensures '{' !in rest && i <= |v + rest| && Placeholder(q) <= (v + rest)[i..]
  {
    var p := Placeholder(q);
    i :| 0 <= i < |v| && (v[i..] <= p || p <= v[i..]);
    if p <= v[i..] {
      rest := "";
      assert v + rest == v;
    } else {
      rest := p[|v[i..]|..];
      assert p == v[i..] + rest;
      assert (v + rest)[i..] == v[i..] + rest;
      assert forall j :: 1 <= j < |p| ==> p[j] != '{';
    }
  }

  /** A value that makes work for another key: a template and an order that show it. */
  lemma UnsettledShows(ctx: Context, k: string, q: string)
    requires Unique(ctx) && Has(ctx, k) && Has(ctx, q) && k != q
    requires forall x :: Has(ctx, x) ==> BraceFree(x)
    requires !Calm(Value(ctx, k), q, ctx)
    ensures !Confluent(ctx)
  {
    hide Replace, Get, Meets, BraceFree, Confluent, IsOrder;
    var v, p, others := Value(ctx, k), Placeholder(q), Except(Keys(ctx), k, q);
    var rest, i := Completed(v, q);
    var tokens := [Hole(k), Literal(rest)];
    TwoLast(ctx, k, q);
    OrderKeys(ctx, k, q);
    OthersPass(k, rest, others, ctx);
    FillKeysAppend(Source(tokens), others, [k, q], ctx);
    NoBraceNoMeeting(rest, k);
    ReplaceSource(tokens, k, v);
    assert FillHole(tokens, k, v) == [Literal(v), Literal(rest)];
    SourceOfTwo(k, rest, ctx);
    TwoKeys(Source(tokens), k, q, ctx);
    ReplaceShows(v + rest, p, Value(ctx, q), i);
    ShownBy(ctx, tokens, others + [k, q]);
  }

  lemma {:induction false} OrderKeys(ctx: Context, k: string, q: string)
    requires forall x :: Has(ctx, x) ==> BraceFree(x)
    ensures var others := Except(Keys(ctx), k, q);
      forall i :: 0 <= i < |others| ==> others[i] != k && BraceFree(others[i])
  {
    hide Get, BraceFree;
    var others := Except(Keys(ctx), k, q);
    ExceptIs(Keys(ctx), k, q);
    forall i | 0 <= i < |others| ensures others[i] != k && BraceFree(others[i]) {
      assert others[i] in others;
      HasIsKey(ctx, others[i]);
    }
  }

  lemma {:induction false} TwoKeys(template: string, k: string, q: string, ctx: Context)
    ensures FillKeys(template, [k, q], ctx)
         == Replace(Replace(template, Placeholder(k), GetOr(ctx, k, "")), Placeholder(q), GetOr(ctx, q, ""))
  {
    hide Replace, Get;
    assert [k, q][1..] == [q] && [q][1..] == [];
    var once := Replace(template, Placeholder(k), GetOr(ctx, k, ""));
    assert FillKeys(once, [q], ctx) == FillKeys(Replace(once, Placeholder(q), GetOr(ctx, q, "")), [], ctx);
  }

  lemma {:induction false} ShownBy(ctx: Context, tokens: seq<Token>, keys: seq<string>)
    requires WellBraced(tokens) && IsOrder(keys, ctx) && FillKeys(Source(tokens), keys, ctx) != Substitute(tokens, ctx)
    ensures !Confluent(ctx)
  {
  }

  /**
   * Exactly when replacing key after key is substituting all at once, for every template and every order of the
   * keys: when no value has, or can be continued to, the placeholder of another key (other than one whose value is
   * its own placeholder).
   */
  lemma ConfluentExactly(ctx: Context)
    requires Unique(ctx) && forall k :: Has(ctx, k) ==> BraceFree(k)
    ensures Confluent(ctx) <==> Settled(ctx)
  {
    hide Get, Meets, FillKeys, Source, Substitute, BraceFree, WellBraced, IsOrder, Calm;
    if Settled(ctx) {
      forall tokens, keys | WellBraced(tokens) && IsOrder(keys, ctx)
        ensures FillKeys(Source(tokens), keys, ctx) == Substitute(tokens, ctx)
      {
        AnyOrderSubstitutes(tokens, keys, ctx);
      }
    } else {
      var k, q :| Has(ctx, k) && Has(ctx, q) && k != q && !Calm(Value(ctx, k), q, ctx);
      UnsettledShows(ctx, k, q);
    }
  }

  // ----- A value that opens a brace ----------------------------------------

  lemma {:induction false} ReplaceWhole(s: string, v: string)
    requires s != ""
    ensures Replace(s, s, v) == v
  {
    ReplaceHere("", s, v);
    ReplaceEmpty(s, v);
    assert s + "" == s && v + "" == v;
  }

  lemma HoleAlone(k: string)
    ensures Source([Hole(k), Literal("")]) == Placeholder(k)
  {
    assert [Hole(k), Literal("")][1..] == [Literal("")] && [Literal("")][1..] == [];
    assert Source([Literal("")]) == "" + Source([]);
  }

  /** Keys pass over a text that opens no brace. */
  lemma {:induction false} KeysPass(text: string, keys: seq<string>, ctx: Context)
    requires '{' !in text
    ensures FillKeys(text, keys, ctx) == text
    decreases keys
  {
    hide Replace, Get;
    if keys == [] {
    } else {
      var p, v := Placeholder(keys[0]), GetOr(ctx, keys[0], "");
      ReplaceSkips(text, "", p, v);
      ReplaceEmpty(p, v);
      assert text + "" == text;
      KeysPass(text, keys[1..], ctx);
    }
  }

  /** A lone placeholder becomes the value of its key, when that opens no brace. */
  lemma {:induction false} FillLone(keys: seq<string>, ctx: Context, q: string, j: nat)
    requires Distinct(keys) && j < |keys| && keys[j] == q && forall i :: 0 <= i < |keys| ==> BraceFree(keys[i])
    requires '{' !in GetOr(ctx, q, "")
    ensures FillKeys(Placeholder(q), keys, ctx) == GetOr(ctx, q, "")
  {
    hide Replace, Get, BraceFree, Source;
    HoleAlone(q);
    OthersPass(q, "", keys[..j], ctx);
    ReplaceWhole(Placeholder(q), GetOr(ctx, q, ""));
    KeysPass(GetOr(ctx, q, ""), keys[j + 1..], ctx);
    FillInTwo(Placeholder(q), keys, j, ctx);
  }

  lemma {:induction false} FillInTwo(template: string, keys: seq<string>, i: nat, ctx: Context)
    requires i < |keys|
    ensures FillKeys(template, keys, ctx) ==
      FillKeys(Replace(FillKeys(template, keys[..i], ctx), Placeholder(keys[i]), GetOr(ctx, keys[i], "")),
        keys[i + 1..], ctx)
  {
    hide Replace, Get;
    assert keys == keys[..i] + keys[i..] && keys[i..][1..] == keys[i + 1..];
    FillKeysAppend(template, keys[..i], keys[i..], ctx);
  }

  /**
   * A value that is another key's placeholder is filled again exactly when its own key is taken before the other:
   * the order of the keys shows.
   */
  lemma {:induction false} OpenBraceRefilled(keys: seq<string>, ctx: Context, i: nat, j: nat)
    requires Distinct(keys) && i < |keys| && j < |keys| && i != j && forall m :: 0 <= m < |keys| ==> BraceFree(keys[m])
    requires GetOr(ctx, keys[i], "") == Placeholder(keys[j]) && '{' !in GetOr(ctx, keys[j], "")
    ensures FillKeys(Placeholder(keys[i]), keys, ctx) == if i < j then GetOr(ctx, keys[j], "") else Placeholder(keys[j])
  {
    hide Replace, Get, BraceFree, Source;
    var k, q, rest := keys[i], keys[j], keys[i + 1..];
    HoleAlone(k);
    OthersPass(k, "", keys[..i], ctx);
    ReplaceWhole(Placeholder(k), Placeholder(q));
    FillInTwo(Placeholder(k), keys, i, ctx);
    if i < j {
      FillLone(rest, ctx, q, j - i - 1);
    } else {
      HoleAlone(q);
      OthersPass(q, "", rest, ctx);
    }
  }

  /**
   * What longest first does: a value that is the placeholder of a shorter key is filled again, and the placeholder of
   * a longer key stays, in every context of the code's own order.
   */
  lemma {:induction false} LongerRefilled(ctx: Context, k: string, q: string)
    requires Unique(ctx) && Has(ctx, k) && Has(ctx, q) && |k| != |q| && forall x :: Has(ctx, x) ==> BraceFree(x)
    requires Value(ctx, k) == Placeholder(q) && '{' !in Value(ctx, q)
    ensures Fill(Placeholder(k), ctx) == if |q| < |k| then Value(ctx, q) else Placeholder(q)
  {
    hide Get, BraceFree, FillOrder, FillKeys, Unique;
    var keys := FillOrder(ctx);
    FillOrderIsOrder(ctx);
    LongestFirst(ctx, 0);
    assert k in keys && q in keys;
    var i :| 0 <= i < |keys| && keys[i] == k;
    var j :| 0 <= j < |keys| && keys[j] == q;
    assert forall m :: 0 <= m < |keys| ==> keys[m] in keys;
    OpenBraceRefilled(keys, ctx, i, j);
    assert Placeholder(k) != "";
  }
}
