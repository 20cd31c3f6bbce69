/**
 * A JavaScript `Map`: a finite map whose iteration order is insertion
 * order. Setting an existing key keeps its position; deleting a key and
 * setting it again moves it to the end.
 */
module OrderedMap {
  import opened Wrappers

  datatype OMap<K(==,!new), V> = OMap(keys: seq<K>, m: map<K, V>) {
    /** Keys are distinct and are exactly the map's domain. */
    ghost predicate Valid() {
      && (forall i, j :: 0 <= i < j < |keys| ==> keys[i] != keys[j])
      && (forall k :: k in m <==> k in keys)
    }

    function Size(): nat {
      |keys|
    }

    function Get(k: K): Option<V> {
      if k in m then Some(m[k]) else None
    }

    /** `map.set(k, v)`. */
    function Set(k: K, v: V): (r: OMap<K, V>)
      requires Valid()
      ensures r.Valid()
      ensures r.Get(k) == Some(v)
      ensures forall k' :: k' != k ==> r.Get(k') == Get(k')
      ensures k in m ==> r.keys == keys
      ensures k !in m ==> r.keys == keys + [k]
    {
      if k in m then OMap(keys, m[k := v]) else OMap(keys + [k], m[k := v])
    }

    /** `map.delete(k)`. */
    function Delete(k: K): (r: OMap<K, V>)
      requires Valid()
      ensures r.Valid()
      ensures r.Get(k) == None
      ensures forall k' :: k' != k ==> r.Get(k') == Get(k')
      ensures r.keys == RemoveKey(keys, k)
    {
      RemoveKeyProps(keys, k);
      OMap(RemoveKey(keys, k), m - {k})
    }

    /** `Array.from(map.values())`. */
    function Values(): (vs: seq<V>)
      requires Valid()
      ensures |vs| == |keys|
      ensures forall i :: 0 <= i < |keys| ==> vs[i] == m[keys[i]]
    {
      seq(|keys|, i requires 0 <= i < |keys| => m[keys[i]])
    }
  }

  function Empty<K(==,!new), V>(): (r: OMap<K, V>)
    ensures r.Valid() && r.keys == []
  {
    OMap([], map[])
  }

  /** `keys` with `k` removed, the rest in order. */
  function RemoveKey<K(==,!new)>(keys: seq<K>, k: K): seq<K> {
    if keys == [] then []
    else (if keys[0] == k then [] else [keys[0]]) + RemoveKey(keys[1..], k)
  }

  lemma {:induction false} RemoveKeyProps<K(!new)>(keys: seq<K>, k: K)
    requires forall i, j :: 0 <= i < j < |keys| ==> keys[i] != keys[j]
    ensures forall x :: x in RemoveKey(keys, k) <==> x in keys && x != k
    ensures forall i, j :: 0 <= i < j < |RemoveKey(keys, k)| ==> RemoveKey(keys, k)[i] != RemoveKey(keys, k)[j]
    ensures k !in keys ==> RemoveKey(keys, k) == keys
  {
    if keys != [] {
      RemoveKeyProps(keys[1..], k);
      assert forall x :: x in keys[1..] ==> x != keys[0] by {
        forall x | x in keys[1..] ensures x != keys[0] {
          var j :| 0 <= j < |keys[1..]| && keys[1..][j] == x;
          assert keys[j + 1] == x;
        }
      }
      assert keys == [keys[0]] + keys[1..];
      var rest := RemoveKey(keys[1..], k);
      var r := RemoveKey(keys, k);
      if keys[0] != k {
        assert r == [keys[0]] + rest;
        forall i, j | 0 <= i < j < |r| ensures r[i] != r[j] {
          if i == 0 {
            assert r[j] == rest[j - 1] && rest[j - 1] in rest;
          } else {
            assert r[i] == rest[i - 1] && r[j] == rest[j - 1];
          }
        }
      }
    }
  }

  /** A map built by setting `entries` in order: `new Map(entries)`. */
  function FromEntries<K(==,!new), V>(entries: seq<(K, V)>): (r: OMap<K, V>)
    ensures r.Valid()
  {
    if entries == [] then Empty()
    else
      var last := entries[|entries| - 1];
      FromEntries(entries[..|entries| - 1]).Set(last.0, last.1)
  }

  function EntryKeys<K, V>(entries: seq<(K, V)>): (ks: seq<K>)
    ensures |ks| == |entries|
    ensures forall i :: 0 <= i < |entries| ==> ks[i] == entries[i].0
  {
    seq(|entries|, i requires 0 <= i < |entries| => entries[i].0)
  }

  function EntryValues<K, V>(entries: seq<(K, V)>): (vs: seq<V>)
    ensures |vs| == |entries|
    ensures forall i :: 0 <= i < |entries| ==> vs[i] == entries[i].1
  {
    seq(|entries|, i requires 0 <= i < |entries| => entries[i].1)
  }

  /** With distinct keys, a map built from entries has their keys in their order. */
  lemma {:induction false} FromEntriesKeys<K(!new), V>(entries: seq<(K, V)>)
    requires forall i, j :: 0 <= i < j < |entries| ==> entries[i].0 != entries[j].0
    ensures FromEntries(entries).keys == EntryKeys(entries)
  {
    if entries != [] {
      var n := |entries| - 1;
      var init := entries[..n];
      assert forall i :: 0 <= i < n ==> init[i] == entries[i];
      FromEntriesKeys(init);
      var last := entries[n];
      var prev := FromEntries(init);
      assert forall j :: 0 <= j < n ==> prev.keys[j] != last.0;
      assert last.0 !in prev.keys;
      assert EntryKeys(entries) == EntryKeys(init) + [last.0];
    }
  }

  /** With distinct keys, a map built from entries iterates their values in order. */
  lemma {:induction false} FromEntriesDistinct<K(!new), V>(entries: seq<(K, V)>)
    requires forall i, j :: 0 <= i < j < |entries| ==> entries[i].0 != entries[j].0
    ensures FromEntries(entries).keys == EntryKeys(entries)
    ensures FromEntries(entries).Values() == EntryValues(entries)
  {
    FromEntriesKeys(entries);
    var r := FromEntries(entries);
    forall i | 0 <= i < |entries|
      ensures r.Values()[i] == entries[i].1
    {
      FromEntriesGet(entries, entries[i].0);
      assert forall j :: i < j < |entries| ==> entries[j].0 != entries[i].0;
      assert r.keys[i] == entries[i].0;
    }
  }

  /** The entries of `map.get(k)` after building from entries: the value of the last entry for `k`. */
  lemma {:induction false} FromEntriesGet<K(!new), V>(entries: seq<(K, V)>, k: K)
    ensures FromEntries(entries).Get(k).Some? <==> exists i :: 0 <= i < |entries| && entries[i].0 == k
    ensures forall i :: 0 <= i < |entries| && entries[i].0 == k
              && (forall j :: i < j < |entries| ==> entries[j].0 != k)
              ==> FromEntries(entries).Get(k) == Some(entries[i].1)
  {
    FromEntriesLookup(entries, k);
    LookupMembers(entries, k);
  }

  /** `for (const k of ks) map.delete(k)`. */
  function DeleteAll<K(==,!new), V>(om: OMap<K, V>, ks: seq<K>): (r: OMap<K, V>)
    requires om.Valid()
    ensures r.Valid()
    ensures forall k :: r.Get(k) == if k in ks then None else om.Get(k)
  {
    if ks == [] then om else DeleteAll(om, ks[..|ks| - 1]).Delete(ks[|ks| - 1])
  }

  /** `for (const [k, v] of entries) map.set(k, v)`. */
  function SetAll<K(==,!new), V>(om: OMap<K, V>, entries: seq<(K, V)>): (r: OMap<K, V>)
    requires om.Valid()
    ensures r.Valid()
  {
    if entries == [] then om
    else
      var last := entries[|entries| - 1];
      SetAll(om, entries[..|entries| - 1]).Set(last.0, last.1)
  }

  /** The value of the last entry for `k`, if any. */
  function Lookup<K(==), V>(entries: seq<(K, V)>, k: K): Option<V> {
    if entries == [] then None
    else if entries[|entries| - 1].0 == k then Some(entries[|entries| - 1].1)
    else Lookup(entries[..|entries| - 1], k)
  }

  /** `Lookup` finds a key exactly when some entry has it, and with distinct keys finds that entry's value. */
  lemma {:induction false} LookupMembers<K(!new), V>(entries: seq<(K, V)>, k: K)
    ensures Lookup(entries, k).Some? <==> exists i :: 0 <= i < |entries| && entries[i].0 == k
    ensures forall i :: 0 <= i < |entries| && entries[i].0 == k
              && (forall j :: i < j < |entries| ==> entries[j].0 != k)
              ==> Lookup(entries, k) == Some(entries[i].1)
  {
    if entries != [] {
      var init := entries[..|entries| - 1];
      LookupMembers(init, k);
      assert forall i :: 0 <= i < |init| ==> init[i] == entries[i];
    }
  }

  /** Setting entries in order: the last entry for a key wins, other keys keep their values. */
  lemma {:induction false} SetAllGet<K(!new), V>(om: OMap<K, V>, entries: seq<(K, V)>, k: K)
    requires om.Valid()
    ensures SetAll(om, entries).Get(k) == if Lookup(entries, k).Some? then Lookup(entries, k) else om.Get(k)
  {
    if entries != [] {
      SetAllGet(om, entries[..|entries| - 1], k);
    }
  }

  /** Setting entries never drops a key: the keys of `om` stay in front, in their order. */
  lemma {:induction false} SetAllKeysPrefix<K(!new), V>(om: OMap<K, V>, entries: seq<(K, V)>)
    requires om.Valid()
    ensures om.keys <= SetAll(om, entries).keys
  {
    if entries != [] {
      SetAllKeysPrefix(om, entries[..|entries| - 1]);
    }
  }

  /** A map built from entries answers as `Lookup` does. */
  lemma {:induction false} FromEntriesLookup<K(!new), V>(entries: seq<(K, V)>, k: K)
    ensures FromEntries(entries).Get(k) == Lookup(entries, k)
  {
    if entries != [] {
      FromEntriesLookup(entries[..|entries| - 1], k);
    }
  }

  /** A value `Lookup` finds comes from an entry for that key. */
  lemma {:induction false} LookupFound<K(!new), V>(entries: seq<(K, V)>, k: K)
    requires Lookup(entries, k).Some?
    ensures exists i :: 0 <= i < |entries| && entries[i] == (k, Lookup(entries, k).value)
  {
    var n := |entries| - 1;
    if entries[n].0 != k {
      var init := entries[..n];
      LookupFound(init, k);
      var i :| 0 <= i < |init| && init[i] == (k, Lookup(init, k).value);
      assert entries[i] == init[i];
    }
  }
}
