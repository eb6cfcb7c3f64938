/** Python's `dict`: key order is insertion order, and assigning to a key already present keeps its place. */
module Dict {
  import opened Text
  import opened Sorting

  type Dict<V> = seq<(string, V)>

  /** `d.get(k)`. */
  function Get<V>(d: Dict<V>, k: string): Option<V> {
    if d == [] then None
    else if d[0].0 == k then Some(d[0].1)
    else Get(d[1..], k)
  }

  function GetOr<V>(d: Dict<V>, k: string, default: V): V {
    Get(d, k).GetOr(default)
  }

  /** `k in d`. */
  predicate Has<V>(d: Dict<V>, k: string) {
    Get(d, k).Some?
  }

  /** `d[k]`. */
  function Value<V>(d: Dict<V>, k: string): V
    requires Has(d, k)
  {
    Get(d, k).value
  }

  /** `d[k] = v`. */
  function Put<V>(d: Dict<V>, k: string, v: V): Dict<V> {
    if d == [] then [(k, v)]
    else if d[0].0 == k then [(k, v)] + d[1..]
    else [d[0]] + Put(d[1..], k, v)
  }

  /** `list(d)`. */
  function Keys<V>(d: Dict<V>): (ks: seq<string>)
    ensures |ks| == |d|
    ensures forall i :: 0 <= i < |d| ==> ks[i] == d[i].0
  {
    if d == [] then [] else [d[0].0] + Keys(d[1..])
  }

  /** What every dict satisfies: no key occurs twice. */
  ghost predicate Unique<V>(d: Dict<V>) {
    Distinct(Keys(d))
  }

  /** Two dicts that are equal in Python's sense: same keys, same values, any order. */
  ghost predicate SameMap<V(!new)>(d: Dict<V>, e: Dict<V>) {
    forall k :: Get(d, k) == Get(e, k)
  }

  lemma {:induction false} HasIsKey<V>(d: Dict<V>, k: string)
    ensures Has(d, k) <==> k in Keys(d)
  {
    if d == [] {
    } else {
      HasIsKey(d[1..], k);
      assert Keys(d) == [d[0].0] + Keys(d[1..]);
    }
  }

  lemma {:induction false} GetPut<V>(d: Dict<V>, k: string, v: V, q: string)
    ensures Get(Put(d, k, v), q) == if q == k then Some(v) else Get(d, q)
  {
    if d == [] {
    } else {
      GetPut(d[1..], k, v, q);
      assert ([d[0]] + Put(d[1..], k, v))[1..] == Put(d[1..], k, v);
      assert ([(k, v)] + d[1..])[1..] == d[1..];
    }
  }

  lemma {:induction false} GetOne<V>(key: string, v: V, k: string)
    ensures Get([(key, v)], k) == if k == key then Some(v) else None
  {
    assert [(key, v)][1..] == [];
  }

  lemma {:induction false} KeysPut<V>(d: Dict<V>, k: string, v: V)
    ensures Keys(Put(d, k, v)) == if Has(d, k) then Keys(d) else Keys(d) + [k]
  {
    if d == [] {
    } else {
      KeysPut(d[1..], k, v);
      assert ([d[0]] + Put(d[1..], k, v))[1..] == Put(d[1..], k, v);
      assert ([(k, v)] + d[1..])[1..] == d[1..];
    }
  }

  lemma {:induction false} PutUnique<V>(d: Dict<V>, k: string, v: V)
    requires Unique(d)
    ensures Unique(Put(d, k, v))
  {
    KeysPut(d, k, v);
    HasIsKey(d, k);
  }

  lemma {:induction false} PutNew<V>(d: Dict<V>, k: string, v: V)
    requires !Has(d, k)
    ensures Put(d, k, v) == d + [(k, v)]
  {
    if d == [] {
    } else {
      PutNew(d[1..], k, v);
      assert d + [(k, v)] == [d[0]] + (d[1..] + [(k, v)]);
    }
  }

  lemma {:induction false} GetAppend<V>(d: Dict<V>, e: Dict<V>, k: string)
    ensures Get(d + e, k) == if Has(d, k) then Get(d, k) else Get(e, k)
  {
    if d == [] {
      assert d + e == e;
    } else {
      assert (d + e)[1..] == d[1..] + e;
      GetAppend(d[1..], e, k);
    }
  }

  /** The entry at a position is what looking its key up gives. */
  lemma {:induction false} GetAt<V>(d: Dict<V>, i: nat)
    requires Unique(d) && i < |d|
    ensures Get(d, d[i].0) == Some(d[i].1)
  {
    if i > 0 {
      assert Keys(d)[0] != Keys(d)[i];
      assert Keys(d[1..]) == Keys(d)[1..];
      GetAt(d[1..], i - 1);
    }
  }

  /** `[(k, d.get(k, default)) for k in ks]`. */
  function EntriesOr<V>(d: Dict<V>, ks: seq<string>, default: V): (e: Dict<V>)
    ensures |e| == |ks|
    ensures forall i :: 0 <= i < |ks| ==> e[i] == (ks[i], GetOr(d, ks[i], default))
  {
    if ks == [] then [] else [(ks[0], GetOr(d, ks[0], default))] + EntriesOr(d, ks[1..], default)
  }

  /** `[(k, d[k]) for k in ks]` on texts; every caller passes keys of `d`, so the default is never taken. */
  function Entries(d: Dict<string>, ks: seq<string>): (e: Dict<string>)
    ensures |e| == |ks|
    ensures forall i :: 0 <= i < |ks| ==> e[i] == (ks[i], GetOr(d, ks[i], ""))
  {
    EntriesOr(d, ks, "")
  }

  /** A dict listed in another order of its keys is the same map. */
  lemma {:induction false} GetEntries<V>(d: Dict<V>, ks: seq<string>, default: V, k: string)
    ensures Get(EntriesOr(d, ks, default), k) == if k in ks then Some(GetOr(d, k, default)) else None
  {
    if ks == [] {
    } else {
      GetEntries(d, ks[1..], default, k);
      assert EntriesOr(d, ks, default)[1..] == EntriesOr(d, ks[1..], default);
    }
  }

  /** Listing a dict in another order of its keys keeps every entry, once. */
  lemma {:induction false} EntriesPermute<V>(d: Dict<V>, ks: seq<string>, default: V)
    requires Unique(d) && Distinct(ks)
    requires forall k :: k in ks <==> Has(d, k)
    ensures multiset(EntriesOr(d, ks, default)) == multiset(d)
  {
    hide Get;
    var e := EntriesOr(d, ks, default);
    assert Distinct(d) by { KeysTellApart(d); }
    forall x ensures x in e <==> x in d {
      if x in e {
        var i :| 0 <= i < |e| && e[i] == x;
        assert Has(d, ks[i]);
        FoundAt(d, ks[i]);
      }
      if x in d {
        var i :| 0 <= i < |d| && d[i] == x;
        GetAt(d, i);
        assert x.0 in ks;
        var j :| 0 <= j < |ks| && ks[j] == x.0;
        assert e[j] == x;
      }
    }
    SameMembers(e, d);
  }

  lemma KeysTellApart<V>(d: Dict<V>)
    requires Unique(d)
    ensures Distinct(d)
  {
    assert forall i :: 0 <= i < |d| ==> Keys(d)[i] == d[i].0;
  }

  lemma {:induction false} FoundAt<V>(d: Dict<V>, k: string)
    requires Has(d, k)
    ensures (k, Value(d, k)) in d
  {
    if d[0].0 == k {
      assert d[0] in d;
    } else {
      FoundAt(d[1..], k);
      assert d == [d[0]] + d[1..];
    }
  }

  /** Sorted keys depend only on the map a dict denotes. */
  lemma {:induction false} SameKeysSorted<V(!new)>(d: Dict<V>, e: Dict<V>)
    requires Unique(d) && Unique(e) && SameMap(d, e)
    ensures SortStrings(Keys(d)) == SortStrings(Keys(e))
  {
    forall x ensures x in Keys(d) <==> x in Keys(e) {
      HasIsKey(d, x);
      HasIsKey(e, x);
      assert Get(d, x) == Get(e, x);
    }
    SortedUnique(Keys(d), Keys(e));
  }

  // ----- Merging and grouping ----------------------------------------------

  /** `{**d, **e}`. */
  function Merge<V>(d: Dict<V>, e: Dict<V>): Dict<V>
    decreases e
  {
    if e == [] then d else Merge(Put(d, e[0].0, e[0].1), e[1..])
  }

  lemma HeadOnce<V>(d: Dict<V>)
    requires Unique(d) && d != []
    ensures !Has(d[1..], d[0].0) && Unique(d[1..])
  {
    HasIsKey(d[1..], d[0].0);
    assert Keys(d) == [d[0].0] + Keys(d[1..]);
  }

  /** A merged dict has the second's values where the second has the key. */
  lemma {:induction false} GetMerge<V>(d: Dict<V>, e: Dict<V>, k: string)
    requires Unique(e)
    ensures Get(Merge(d, e), k) == if Has(e, k) then Get(e, k) else Get(d, k)
    decreases e
  {
    if e == [] {
    } else {
      GetPut(d, e[0].0, e[0].1, k);
      HeadOnce(e);
      GetMerge(Put(d, e[0].0, e[0].1), e[1..], k);
    }
  }

  /** `for k, v in pairs: d.setdefault(k, []).append(v)`. */
  function Group<V>(pairs: seq<(string, V)>): Dict<seq<V>> {
    if pairs == [] then []
    else
      var last := |pairs| - 1;
      var d := Group(pairs[..last]);
      Put(d, pairs[last].0, GetOr(d, pairs[last].0, []) + [pairs[last].1])
  }

  /** The values the pairs give a name, in order. */
  function ValuesOf<V>(pairs: seq<(string, V)>, name: string): seq<V> {
    if pairs == [] then []
    else (if pairs[0].0 == name then [pairs[0].1] else []) + ValuesOf(pairs[1..], name)
  }

  lemma {:induction false} ValuesOfAppend<V>(p: seq<(string, V)>, q: seq<(string, V)>, name: string)
    ensures ValuesOf(p + q, name) == ValuesOf(p, name) + ValuesOf(q, name)
  {
    if p == [] {
      assert p + q == q;
    } else {
      assert (p + q)[1..] == p[1..] + q;
      ValuesOfAppend(p[1..], q, name);
      var head := if p[0].0 == name then [p[0].1] else [];
      Concat3(head, ValuesOf(p[1..], name), ValuesOf(q, name));
    }
  }

  /** Grouping keeps every value of every name, in order; a name without values is absent. */
  lemma {:induction false} GroupValues<V>(pairs: seq<(string, V)>, name: string)
    ensures GetOr(Group(pairs), name, []) == ValuesOf(pairs, name)
    ensures Has(Group(pairs), name) <==> ValuesOf(pairs, name) != []
  {
    if pairs == [] {
    } else {
      var last := |pairs| - 1;
      var d := Group(pairs[..last]);
      GroupValues(pairs[..last], name);
      GroupValues(pairs[..last], pairs[last].0);
      assert pairs == pairs[..last] + [pairs[last]];
      ValuesOfAppend(pairs[..last], [pairs[last]], name);
      GetPut(d, pairs[last].0, GetOr(d, pairs[last].0, []) + [pairs[last].1], name);
    }
  }

  lemma {:induction false} GroupUnique<V>(pairs: seq<(string, V)>)
    ensures Unique(Group(pairs))
  {
    if pairs == [] {
    } else {
      var last := |pairs| - 1;
      GroupUnique(pairs[..last]);
      PutUnique(Group(pairs[..last]), pairs[last].0, GetOr(Group(pairs[..last]), pairs[last].0, []) + [pairs[last].1]);
    }
  }

  function TotalLength<V>(d: Dict<seq<V>>): nat {
    if d == [] then 0 else |d[0].1| + TotalLength(d[1..])
  }

  lemma {:induction false} TotalLengthPut<V>(d: Dict<seq<V>>, k: string, v: V)
    ensures TotalLength(Put(d, k, GetOr(d, k, []) + [v])) == TotalLength(d) + 1
  {
    var e := Put(d, k, GetOr(d, k, []) + [v]);
    if d == [] {
      assert e[1..] == [];
    } else if d[0].0 == k {
      assert e[1..] == d[1..];
    } else {
      TotalLengthPut(d[1..], k, v);
      assert e[1..] == Put(d[1..], k, GetOr(d[1..], k, []) + [v]);
    }
  }

  /** Grouping neither loses nor doubles a pair. */
  lemma {:induction false} GroupTotal<V>(pairs: seq<(string, V)>)
    ensures TotalLength(Group(pairs)) == |pairs|
  {
    if pairs == [] {
    } else {
      var last := |pairs| - 1;
      GroupTotal(pairs[..last]);
      TotalLengthPut(Group(pairs[..last]), pairs[last].0, pairs[last].1);
    }
  }
}
