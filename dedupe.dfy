/** Case-insensitive de-duplication, in the two forms the pages use: a JavaScript
    `Map` built with `new Map(entries)` (a later entry overwrites the value of an
    earlier one with the same key, the key keeps its first position), and a `Map`
    filled only when the key is absent (the first entry wins). A `Map` is modelled as
    the sequence of its entries in insertion order. */
module Dedupe {
  import opened Wrappers

  predicate Distinct<K(==)>(s: seq<K>) {
    forall i, j :: 0 <= i < j < |s| ==> s[i] != s[j]
  }

  /** The distinct elements of `s`, each at the position of its first occurrence. */
  function FirstOccurrences<K(==)>(s: seq<K>): (r: seq<K>)
    ensures Distinct(r)
    ensures forall k :: k in r ==> k in s
    ensures forall k :: k in s ==> k in r
  {
    if s == [] then []
    else
      var init := FirstOccurrences(s[..|s| - 1]);
      if s[|s| - 1] in s[..|s| - 1] then init else init + [s[|s| - 1]]
  }

  function Keys<K, V>(m: seq<(K, V)>): (r: seq<K>)
    ensures |r| == |m| && forall i :: 0 <= i < |m| ==> r[i] == m[i].0
  {
    seq(|m|, i requires 0 <= i < |m| => m[i].0)
  }

  /** `Array.from(map.values())`. */
  function Values<K, V>(m: seq<(K, V)>): (r: seq<V>)
    ensures |r| == |m| && forall i :: 0 <= i < |m| ==> r[i] == m[i].1
  {
    seq(|m|, i requires 0 <= i < |m| => m[i].1)
  }

  lemma KeysPrefix<K, V>(m: seq<(K, V)>, n: nat)
    requires n <= |m|
    ensures Keys(m[..n]) == Keys(m)[..n]
  {
  }

  lemma KeysTail<K, V>(m: seq<(K, V)>)
    requires m != []
    ensures Keys(m) == [m[0].0] + Keys(m[1..])
  {
  }

  /** `map.get(k)`. */
  function Get<K(==), V>(m: seq<(K, V)>, k: K): (r: Option<V>)
    ensures r.None? <==> k !in Keys(m)
  {
    if m == [] then None
    else
      KeysTail(m);
      if m[0].0 == k then Some(m[0].1) else Get(m[1..], k)
  }

  /** In a map whose keys are distinct, `get` of an entry's key is that entry's value. */
  lemma {:induction false} GetEntry<K, V>(m: seq<(K, V)>, i: nat)
    requires Distinct(Keys(m)) && i < |m|
    ensures Get(m, m[i].0) == Some(m[i].1)
  {
    if i > 0 {
      KeysTail(m);
      assert m[0].0 != m[i].0 by { assert Keys(m)[0] != Keys(m)[i]; }
      assert Distinct(Keys(m[1..])) by {
        forall a, b | 0 <= a < b < |m[1..]|
          ensures Keys(m[1..])[a] != Keys(m[1..])[b]
        {
          assert Keys(m)[a + 1] != Keys(m)[b + 1];
        }
      }
      GetEntry(m[1..], i - 1);
    }
  }

  /** `r` is `m` after `map.set(k, v)`: an existing key keeps its position and takes
      the new value, a new key is appended, and every other key keeps its value. */
  ghost predicate SetsTo<K, V>(m: seq<(K, V)>, k: K, v: V, r: seq<(K, V)>) {
    && Keys(r) == (if k in Keys(m) then Keys(m) else Keys(m) + [k])
    && (k !in Keys(m) ==> r == m + [(k, v)])
    && Get(r, k) == Some(v)
    && (forall k' :: k' in Keys(m) && k' != k ==> Get(r, k') == Get(m, k'))
  }

  /** `map.set(k, v)`. */
  function MapSet<K(==), V>(m: seq<(K, V)>, k: K, v: V): (r: seq<(K, V)>)
    ensures Keys(r) == if k in Keys(m) then Keys(m) else Keys(m) + [k]
    ensures k !in Keys(m) ==> r == m + [(k, v)]
    ensures Get(r, k) == Some(v)
    ensures forall k' :: k' in Keys(m) && k' != k ==> Get(r, k') == Get(m, k')
  {
    if m == [] then
      SetEmpty(k, v);
      [(k, v)]
    else if m[0].0 == k then
      SetHead(m, v);
      [(k, v)] + m[1..]
    else
      var t := MapSet(m[1..], k, v);
      SetBehind(m, k, v, t);
      [m[0]] + t
  }

  lemma SetEmpty<K, V>(k: K, v: V)
    ensures SetsTo([], k, v, [(k, v)])
  {
    var r := [(k, v)];
    KeysTail(r);
    assert r[1..] == [];
  }

  /** Setting the key of the first entry replaces that entry. */
  lemma SetHead<K, V>(m: seq<(K, V)>, v: V)
    requires m != []
    ensures SetsTo(m, m[0].0, v, [(m[0].0, v)] + m[1..])
  {
    var k := m[0].0;
    var r := [(k, v)] + m[1..];
    KeysTail(m);
    KeysTail(r);
    assert r[1..] == m[1..];
    assert k in Keys(m);
  }

  /** Setting a key other than the first entry's sets it in the rest of the map. */
  lemma SetBehind<K, V>(m: seq<(K, V)>, k: K, v: V, t: seq<(K, V)>)
    requires m != [] && m[0].0 != k
    requires SetsTo(m[1..], k, v, t)
    ensures SetsTo(m, k, v, [m[0]] + t)
  {
    SetBehindKeys(m, k, v, t);
    SetBehindGet(m, k, v, t);
  }

  lemma SetBehindKeys<K, V>(m: seq<(K, V)>, k: K, v: V, t: seq<(K, V)>)
    requires m != [] && m[0].0 != k
    requires Keys(t) == (if k in Keys(m[1..]) then Keys(m[1..]) else Keys(m[1..]) + [k])
    requires k !in Keys(m[1..]) ==> t == m[1..] + [(k, v)]
    ensures Keys([m[0]] + t) == (if k in Keys(m) then Keys(m) else Keys(m) + [k])
    ensures k !in Keys(m) ==> [m[0]] + t == m + [(k, v)]
  {
    var rest := m[1..];
    var head := [m[0].0];
    assert m == [m[0]] + rest;
    KeysConcat([m[0]], rest);
    KeysConcat([m[0]], t);
    assert Keys([m[0]]) == head;
    assert Keys(m) == head + Keys(rest);
    assert Keys([m[0]] + t) == head + Keys(t);
    if k in Keys(rest) {
      assert k in Keys(m);
    } else {
      assert k !in Keys(m);
      assert head + (Keys(rest) + [k]) == head + Keys(rest) + [k];
      assert [m[0]] + (rest + [(k, v)]) == [m[0]] + rest + [(k, v)];
    }
  }

  lemma KeysConcat<K, V>(a: seq<(K, V)>, b: seq<(K, V)>)
    ensures Keys(a + b) == Keys(a) + Keys(b)
  {
  }

  lemma SetBehindGet<K, V>(m: seq<(K, V)>, k: K, v: V, t: seq<(K, V)>)
    requires m != [] && m[0].0 != k
    requires Get(t, k) == Some(v)
    requires forall k' :: k' in Keys(m[1..]) && k' != k ==> Get(t, k') == Get(m[1..], k')
    ensures Get([m[0]] + t, k) == Some(v)
    ensures forall k' :: k' in Keys(m) && k' != k ==> Get([m[0]] + t, k') == Get(m, k')
  {
    var r := [m[0]] + t;
    assert r[0] == m[0] && r[1..] == t;
    forall k' | k' in Keys(m) && k' != k
      ensures Get(r, k') == Get(m, k')
    {
      if k' != m[0].0 {
        KeysTail(m);
        assert k' in Keys(m[1..]);
      }
    }
  }

  /** `new Map(entries)`: the entries are `set` one after another. */
  function MapFromEntries<K(==), V>(es: seq<(K, V)>): (r: seq<(K, V)>)
    ensures |r| <= |es|
    ensures es != [] ==> Get(r, es[|es| - 1].0) == Some(es[|es| - 1].1)
  {
    if es == [] then []
    else MapSet(MapFromEntries(es[..|es| - 1]), es[|es| - 1].0, es[|es| - 1].1)
  }

  /** The value of the last entry with key `k`. */
  function LastValue<K(==), V>(es: seq<(K, V)>, k: K): V
    requires k in Keys(es)
  {
    var n := |es| - 1;
    if es[n].0 == k then es[n].1
    else
      KeysPrefix(es, n);
      assert Keys(es) == Keys(es[..n]) + [es[n].0];
      LastValue(es[..n], k)
  }

  /** The value of the first entry with key `k`. */
  function FirstValue<K(==), V>(es: seq<(K, V)>, k: K): V
    requires k in Keys(es)
  {
    KeysTail(es);
    if es[0].0 == k then es[0].1 else FirstValue(es[1..], k)
  }

  lemma {:induction false} FirstValueSnoc<K, V>(es: seq<(K, V)>, e: (K, V), k: K)
    requires k in Keys(es + [e])
    ensures FirstValue(es + [e], k) == if k in Keys(es) then FirstValue(es, k) else e.1
  {
    var all := es + [e];
    KeysTail(all);
    if es == [] {
      assert all == [e];
    } else {
      KeysTail(es);
      assert all[1..] == es[1..] + [e];
      if es[0].0 != k {
        FirstValueSnoc(es[1..], e, k);
      }
    }
  }

  /** The last value given for the key of an entry that no later entry shares is that
      entry's value. */
  lemma {:induction false} LastValueAt<K, V>(es: seq<(K, V)>, j: nat)
    requires j < |es| && forall i :: j < i < |es| ==> es[i].0 != es[j].0
    ensures es[j].0 in Keys(es) && LastValue(es, es[j].0) == es[j].1
  {
    assert Keys(es)[j] == es[j].0;
    var n := |es| - 1;
    if j < n {
      KeysPrefix(es, n);
      assert es[..n][j] == es[j];
      LastValueAt(es[..n], j);
    }
  }

  /** The first value given for the key of an entry that no earlier entry shares is
      that entry's value. */
  lemma {:induction false} FirstValueAt<K, V>(es: seq<(K, V)>, j: nat)
    requires j < |es| && forall i :: 0 <= i < j ==> es[i].0 != es[j].0
    ensures es[j].0 in Keys(es) && FirstValue(es, es[j].0) == es[j].1
  {
    assert Keys(es)[j] == es[j].0;
    if j > 0 {
      var tail := es[1..];
      forall i | 0 <= i < j - 1
        ensures tail[i].0 != tail[j - 1].0
      {
        assert tail[i] == es[i + 1];
      }
      FirstValueAt(tail, j - 1);
      assert tail[j - 1] == es[j];
    }
  }

  /** The keys of `new Map(entries)` are the distinct keys in first-seen order. */
  lemma {:induction false} LastWinsKeys<K, V>(es: seq<(K, V)>)
    ensures Keys(MapFromEntries(es)) == FirstOccurrences(Keys(es))
  {
    if es != [] {
      var n := |es| - 1;
      var init := es[..n];
      var m0 := MapFromEntries(init);
      var k := es[n].0;
      LastWinsKeys(init);
      assert FirstOccurrences(Keys(es)) == if k in Keys(init) then FirstOccurrences(Keys(init))
                                           else FirstOccurrences(Keys(init)) + [k] by {
        var ks := Keys(es);
        KeysPrefix(es, n);
        assert ks[..|ks| - 1] == Keys(init);
      }
      assert Keys(MapFromEntries(es)) == if k in Keys(m0) then Keys(m0) else Keys(m0) + [k] by {
        assert MapFromEntries(es) == MapSet(m0, k, es[n].1);
      }
      assert k in Keys(m0) <==> k in Keys(init);
    }
  }

  /** Each key of `new Map(entries)` holds the value of its LAST entry. */
  lemma {:induction false} LastWins<K, V>(es: seq<(K, V)>)
    ensures Keys(MapFromEntries(es)) == FirstOccurrences(Keys(es))
    ensures forall k :: k in Keys(es) ==> Get(MapFromEntries(es), k) == Some(LastValue(es, k))
  {
    LastWinsKeys(es);
    if es != [] {
      var n := |es| - 1;
      var init := es[..n];
      var e := es[n];
      var m0 := MapFromEntries(init);
      var m := MapSet(m0, e.0, e.1);
      LastWins(init);
      assert MapFromEntries(es) == m;
      assert LastValue(es, e.0) == e.1;
      forall k | k in Keys(es) && k != e.0
        ensures Get(m, k) == Some(LastValue(es, k))
      {
        LastValueEarlier(es, k);
      }
    }
  }

  /** A key other than the last entry's takes its last value from the earlier entries. */
  lemma LastValueEarlier<K, V>(es: seq<(K, V)>, k: K)
    requires k in Keys(es) && k != es[|es| - 1].0
    ensures k in Keys(es[..|es| - 1]) && LastValue(es, k) == LastValue(es[..|es| - 1], k)
  {
    var n := |es| - 1;
    KeysPrefix(es, n);
    assert Keys(es) == Keys(es[..n]) + [es[n].0];
  }

  /** Each entry of `new Map(entries)` holds the last value given for its key. */
  lemma LastWinsValues<K, V>(es: seq<(K, V)>)
    ensures forall i :: 0 <= i < |MapFromEntries(es)| ==>
      MapFromEntries(es)[i].0 in Keys(es) &&
      MapFromEntries(es)[i].1 == LastValue(es, MapFromEntries(es)[i].0)
  {
    var m := MapFromEntries(es);
    LastWins(es);
    forall i | 0 <= i < |m|
      ensures m[i].0 in Keys(es) && m[i].1 == LastValue(es, m[i].0)
    {
      assert Keys(m)[i] == m[i].0;
      GetEntry(m, i);
    }
  }

  /** A map filled by `if (!map.has(k)) map.set(k, v)` over `es`: the first entry of
      each key wins. */
  function FirstWins<K(==), V>(es: seq<(K, V)>): (r: seq<(K, V)>)
    ensures |r| <= |es|
    ensures forall i :: 0 <= i < |r| ==> r[i] in es
  {
    if es == [] then []
    else
      var n := |es| - 1;
      if es[n].0 in Keys(es[..n]) then FirstWins(es[..n]) else FirstWins(es[..n]) + [es[n]]
  }

  /** The keys of FirstWins are the distinct keys in first-seen order, and each entry
      holds the value of the FIRST entry with its key. */
  lemma {:induction false} FirstWinsSpec<K, V>(es: seq<(K, V)>)
    ensures Keys(FirstWins(es)) == FirstOccurrences(Keys(es))
    ensures forall i :: 0 <= i < |FirstWins(es)| ==>
      FirstWins(es)[i].0 in Keys(es) && FirstWins(es)[i].1 == FirstValue(es, FirstWins(es)[i].0)
  {
    if es != [] {
      var n := |es| - 1;
      var init := es[..n];
      assert es == init + [es[n]];
      FirstWinsSpec(init);
      KeysPrefix(es, n);
      assert Keys(es) == Keys(init) + [es[n].0];
      var r := FirstWins(es);
      forall i | 0 <= i < |r|
        ensures r[i].0 in Keys(es) && r[i].1 == FirstValue(es, r[i].0)
      {
        FirstValueSnoc(init, es[n], r[i].0);
        if i < |FirstWins(init)| {
          assert r[i] == FirstWins(init)[i];
          assert Keys(FirstWins(init))[i] == r[i].0;
        }
      }
    }
  }
}
