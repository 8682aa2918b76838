/** Case-insensitive lists of distinct values, as the galleries build them for their
    filter buttons: every value is keyed by its lower-case form. */
module Collate {
  import opened Text
  import opened Dedupe

  function LowerAll(vs: seq<string>): (r: seq<string>)
    ensures |r| == |vs| && forall i :: 0 <= i < |vs| ==> r[i] == Lower(vs[i])
  {
    seq(|vs|, i requires 0 <= i < |vs| => Lower(vs[i]))
  }

  /** `vs.map(v => [v.toLowerCase(), v])`. */
  function CaseEntries(vs: seq<string>): (r: seq<(string, string)>)
    ensures |r| == |vs| && forall i :: 0 <= i < |vs| ==> r[i] == (Lower(vs[i]), vs[i])
  {
    seq(|vs|, i requires 0 <= i < |vs| => (Lower(vs[i]), vs[i]))
  }

  lemma CaseEntriesParts(vs: seq<string>)
    ensures Keys(CaseEntries(vs)) == LowerAll(vs)
    ensures Values(CaseEntries(vs)) == vs
  {
  }

  /** `Array.from(new Map(vs.map(v => [v.toLowerCase(), v])).values())`. */
  function Uniq(vs: seq<string>): (r: seq<string>)
    ensures |r| <= |vs|
  {
    Values(MapFromEntries(CaseEntries(vs)))
  }

  /** `locMap` filled by `if (!locMap.has(key)) locMap.set(key, v)`, then its values. */
  function FirstSeen(vs: seq<string>): (r: seq<string>)
    ensures |r| <= |vs|
    ensures forall i :: 0 <= i < |r| ==> r[i] in vs
  {
    Values(FirstWins(CaseEntries(vs)))
  }

  /** In a list of case entries, the last value given for a key is one of the values
      and has that key. */
  lemma {:induction false} LastValueCase(es: seq<(string, string)>, k: string)
    requires forall i :: 0 <= i < |es| ==> es[i].0 == Lower(es[i].1)
    requires k in Keys(es)
    ensures Lower(LastValue(es, k)) == k && LastValue(es, k) in Values(es)
  {
    var n := |es| - 1;
    if es[n].0 != k {
      KeysPrefix(es, n);
      assert Keys(es) == Keys(es[..n]) + [es[n].0];
      LastValueCase(es[..n], k);
      assert Values(es[..n]) == Values(es)[..n];
    }
  }

  /** In a list of case entries, the first value given for a key is one of the values
      and has that key. */
  lemma {:induction false} FirstValueCase(es: seq<(string, string)>, k: string)
    requires forall i :: 0 <= i < |es| ==> es[i].0 == Lower(es[i].1)
    requires k in Keys(es)
    ensures Lower(FirstValue(es, k)) == k && FirstValue(es, k) in Values(es)
  {
    KeysTail(es);
    if es[0].0 != k {
      FirstValueCase(es[1..], k);
      assert Values(es[1..]) == Values(es)[1..];
    }
  }

  /** `uniq` holds one value per lower-case key, the keys in the order of their first
      occurrence; the value shown for a key is its LAST occurrence, because a later
      entry of `new Map(entries)` overwrites an earlier one. */
  lemma UniqSpec(vs: seq<string>)
    ensures LowerAll(Uniq(vs)) == FirstOccurrences(LowerAll(vs))
    ensures forall v :: v in vs ==> Lower(v) in LowerAll(Uniq(vs))
    ensures forall i :: 0 <= i < |Uniq(vs)| ==>
      Uniq(vs)[i] in vs && Uniq(vs)[i] == LastValue(CaseEntries(vs), Lower(Uniq(vs)[i]))
  {
    var es := CaseEntries(vs);
    var m := MapFromEntries(es);
    CaseEntriesParts(vs);
    LastWinsKeys(es);
    LastWinsValues(es);
    forall i | 0 <= i < |m|
      ensures Lower(m[i].1) == m[i].0 && m[i].1 in vs
    {
      LastValueCase(es, m[i].0);
    }
    assert LowerAll(Values(m)) == Keys(m);
    forall v | v in vs
      ensures Lower(v) in LowerAll(Uniq(vs))
    {
      var i :| 0 <= i < |vs| && vs[i] == v;
      assert LowerAll(vs)[i] == Lower(v);
    }
  }

  /** The first-wins list holds one value per lower-case key, the keys in the order of
      their first occurrence, and the value shown for a key is its FIRST occurrence. */
  lemma FirstSeenSpec(vs: seq<string>)
    ensures LowerAll(FirstSeen(vs)) == FirstOccurrences(LowerAll(vs))
    ensures forall v :: v in vs ==> Lower(v) in LowerAll(FirstSeen(vs))
    ensures forall i :: 0 <= i < |FirstSeen(vs)| ==>
      FirstSeen(vs)[i] in vs && FirstSeen(vs)[i] == FirstValue(CaseEntries(vs), Lower(FirstSeen(vs)[i]))
  {
    var es := CaseEntries(vs);
    var m := FirstWins(es);
    CaseEntriesParts(vs);
    FirstWinsSpec(es);
    forall i | 0 <= i < |m|
      ensures Lower(m[i].1) == m[i].0 && m[i].1 in vs
    {
      FirstValueCase(es, m[i].0);
    }
    assert LowerAll(Values(m)) == Keys(m);
    forall v | v in vs
      ensures Lower(v) in LowerAll(FirstSeen(vs))
    {
      var i :| 0 <= i < |vs| && vs[i] == v;
      assert LowerAll(vs)[i] == Lower(v);
    }
  }

  /** The `dataset` keys of a row of filter buttons: the "All" button carries '' and
      each value's button its lower-case form, in list order. */
  method ButtonKeys(values: seq<string>) returns (keys: seq<string>)
    ensures keys == [""] + LowerAll(values)
  {
    keys := [""];
    for i := 0 to |values|
      invariant keys == [""] + LowerAll(values[..i])
    {
      assert LowerAll(values[..i + 1]) == LowerAll(values[..i]) + [Lower(values[i])];
      keys := keys + [Lower(values[i])];
    }
    assert values[..|values|] == values;
  }

  /** The value `uniq` shows for a key is the key's LAST occurrence: a value that no
      later value matches case-insensitively is in the list. */
  lemma UniqKeepsLast(vs: seq<string>, j: nat)
    requires j < |vs| && forall i :: j < i < |vs| ==> Lower(vs[i]) != Lower(vs[j])
    ensures vs[j] in Uniq(vs)
  {
    UniqSpec(vs);
    var es := CaseEntries(vs);
    LastValueAt(es, j);
    var k := Lower(vs[j]);
    assert k in LowerAll(Uniq(vs));
    var i :| 0 <= i < |Uniq(vs)| && LowerAll(Uniq(vs))[i] == k;
    assert Uniq(vs)[i] == LastValue(es, k);
  }

  /** The value `locMap` keeps for a key is the key's FIRST occurrence: a value that no
      earlier value matches case-insensitively is in the list. */
  lemma FirstSeenKeepsFirst(vs: seq<string>, j: nat)
    requires j < |vs| && forall i :: 0 <= i < j ==> Lower(vs[i]) != Lower(vs[j])
    ensures vs[j] in FirstSeen(vs)
  {
    FirstSeenSpec(vs);
    var es := CaseEntries(vs);
    FirstValueAt(es, j);
    var k := Lower(vs[j]);
    assert k in LowerAll(FirstSeen(vs));
    var i :| 0 <= i < |FirstSeen(vs)| && LowerAll(FirstSeen(vs))[i] == k;
    assert FirstSeen(vs)[i] == FirstValue(es, k);
  }

  /** No value of a case-insensitive list is blank, so no value's key is the "All"
      button's; the keys of the row are distinct. */
  lemma ButtonKeysDistinct(values: seq<string>)
    requires Distinct(LowerAll(values))
    requires forall i :: 0 <= i < |values| ==> values[i] != ""
    ensures Distinct([""] + LowerAll(values))
  {
    var keys := [""] + LowerAll(values);
    forall i, j | 0 <= i < j < |keys|
      ensures keys[i] != keys[j]
    {
      if i == 0 {
        assert |keys[j]| == |values[j - 1]|;
      } else {
        assert keys[i] == LowerAll(values)[i - 1] && keys[j] == LowerAll(values)[j - 1];
      }
    }
  }

  /** The two routines differ on "Remote" followed by "remote": `uniq` shows the
      later casing, `locMap` the earlier one. */
  lemma CasingExample(vs: seq<string>)
    requires vs == ["Remote", "remote"]
    ensures Uniq(vs) == ["remote"]
    ensures FirstSeen(vs) == ["Remote"]
  {
    assert Lower("Remote") == "remote";
    assert Lower("remote") == "remote";
    var es := CaseEntries(vs);
    assert es == [("remote", "Remote"), ("remote", "remote")];
    assert es[..1] == [("remote", "Remote")];
    assert es[..1][..0] == [];
    assert MapFromEntries(es[..1]) == [("remote", "Remote")];
    assert MapFromEntries(es) == [("remote", "remote")];
    assert FirstWins(es[..1]) == [("remote", "Remote")];
  }
}
