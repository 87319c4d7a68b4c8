/** The fixed-size association table of kernel/usb/arraymap.hpp: `Put` neither looks for duplicates
    nor reports that the table is full. */
module ArrayMaps {
  import opened Options

  datatype Entry<K, V> = Free | Used(key: K, value: V)

  predicate Matches<K(==), V>(e: Entry<K, V>, key: K) { e.Used? && e.key == key }

  /** Index of the first entry from i on with this key, or the table size. */
  function Find<K(==), V>(t: seq<Entry<K, V>>, key: K, i: nat): (r: nat)
    requires i <= |t|
    ensures i <= r <= |t| && (r < |t| ==> Matches(t[r], key))
    ensures forall j | i <= j < r :: !Matches(t[j], key)
    decreases |t| - i
  {
    if i == |t| || Matches(t[i], key) then i else Find(t, key, i + 1)
  }

  /** Index of the first free entry from i on, or the table size. */
  function FindFree<K, V>(t: seq<Entry<K, V>>, i: nat): (r: nat)
    requires i <= |t|
    ensures i <= r <= |t| && (r < |t| ==> t[r].Free?)
    ensures forall j | i <= j < r :: !t[j].Free?
    decreases |t| - i
  {
    if i == |t| || t[i].Free? then i else FindFree(t, i + 1)
  }

  predicate Has<K(==), V>(t: seq<Entry<K, V>>, key: K) { Find(t, key, 0) < |t| }

  predicate Full<K, V>(t: seq<Entry<K, V>>) { FindFree(t, 0) == |t| }

  function Get<K(==), V>(t: seq<Entry<K, V>>, key: K): Option<V> {
    var i := Find(t, key, 0);
    if i < |t| then Some(t[i].value) else None
  }

  function Put<K, V>(t: seq<Entry<K, V>>, key: K, value: V): seq<Entry<K, V>> {
    var i := FindFree(t, 0);
    if i < |t| then t[i := Used(key, value)] else t
  }

  function Delete<K(==), V>(t: seq<Entry<K, V>>, key: K): seq<Entry<K, V>> {
    var i := Find(t, key, 0);
    if i < |t| then t[i := Free] else t
  }

  /** Number of entries in use. */
  function InUse<K, V>(t: seq<Entry<K, V>>): (n: nat)
    ensures n <= |t|
  {
    if t == [] then 0 else InUse(t[..|t| - 1]) + (if t[|t| - 1].Free? then 0 else 1)
  }

  lemma {:induction false} InUseUpdate<K, V>(t: seq<Entry<K, V>>, i: nat, e: Entry<K, V>)
    requires i < |t|
    ensures InUse(t[i := e]) == InUse(t) - (if t[i].Free? then 0 else 1) + (if e.Free? then 0 else 1)
    decreases |t|
  {
    var n := |t| - 1;
    if i < n {
      InUseUpdate(t[..n], i, e);
      assert t[i := e][..n] == t[..n][i := e];
    } else {
      assert t[i := e][..n] == t[..n];
    }
  }

  lemma {:induction false} FullExactly<K, V>(t: seq<Entry<K, V>>)
    ensures Full(t) <==> InUse(t) == |t|
    ensures Full(t) <==> forall i | 0 <= i < |t| :: t[i].Used?
    decreases |t|
  {
    assert Full(t) <==> forall i | 0 <= i < |t| :: t[i].Used?;
    if t != [] {
      var n := |t| - 1;
      FullExactly(t[..n]);
    }
  }

  lemma {:induction false} UnusedIsFree<K, V>(t: seq<Entry<K, V>>)
    requires InUse(t) == 0
    ensures forall i | 0 <= i < |t| :: t[i].Free?
    decreases |t|
  {
    if t != [] {
      UnusedIsFree(t[..|t| - 1]);
    }
  }

  /** After a `Put` the key is present exactly if the table had room or knew the key already: on a
      full table the entry is dropped without a trace. Other keys are not affected. */
  lemma PutThenGet<K, V>(t: seq<Entry<K, V>>, key: K, value: V, other: K)
    ensures Has(Put(t, key, value), key) <==> !Full(t) || Has(t, key)
    ensures !Full(t) && !Has(t, key) ==> Get(Put(t, key, value), key) == Some(value)
    ensures Full(t) ==> Put(t, key, value) == t
    ensures other != key ==> Get(Put(t, key, value), other) == Get(t, other)
    ensures InUse(Put(t, key, value)) == InUse(t) + (if Full(t) then 0 else 1)
  {
    var i := FindFree(t, 0);
    var u := Put(t, key, value);
    if i < |t| {
      assert Matches(u[i], key);
      InUseUpdate(t, i, Used(key, value));
      SameFind(t, u, other, i);
    }
  }

  /** Changing an entry that matches a key neither before nor after changes no search for it. */
  lemma SameFind<K, V>(t: seq<Entry<K, V>>, u: seq<Entry<K, V>>, key: K, i: nat)
    requires i < |t| == |u| && u == t[i := u[i]]
    ensures !Matches(t[i], key) && !Matches(u[i], key) ==> Find(u, key, 0) == Find(t, key, 0)
  {
    var a, b := Find(t, key, 0), Find(u, key, 0);
    if !Matches(t[i], key) && !Matches(u[i], key) {
      assert a < |t| ==> Matches(u[a], key);
      assert b < |t| ==> Matches(t[b], key);
    }
  }

  /** `Delete` frees one entry of its key and leaves every other key alone. */
  lemma DeleteThenGet<K, V>(t: seq<Entry<K, V>>, key: K, other: K)
    ensures other != key ==> Get(Delete(t, key), other) == Get(t, other)
    ensures InUse(Delete(t, key)) == InUse(t) - (if Has(t, key) then 1 else 0)
    ensures forall i | 0 <= i < |t| && Delete(t, key)[i].Used? :: Delete(t, key)[i] == t[i]
  {
    var i := Find(t, key, 0);
    if i < |t| {
      InUseUpdate(t, i, Free);
      SameFind(t, Delete(t, key), other, i);
    }
  }
}

/** The class itself: scanning loops over `table_`. */
module ArrayMapClass {
  import opened Options
  import T = ArrayMaps

  class ArrayMap<K(==), V> {
    const table: array<T.Entry<K, V>>

    constructor (n: nat)
      ensures fresh(table) && table.Length == n
      ensures forall i | 0 <= i < n :: table[i].Free?
    {
      table := new T.Entry<K, V>[n](_ => T.Free);
    }

    method Get(key: K) returns (r: Option<V>)
      ensures r == T.Get(table[..], key)
    {
      for i := 0 to table.Length
        invariant T.Find(table[..], key, i) == T.Find(table[..], key, 0)
      {
        if table[i].Used? && table[i].key == key {
          return Some(table[i].value);
        }
      }
      return None;
    }

    method Put(key: K, value: V)
      modifies table
      ensures table[..] == T.Put(old(table[..]), key, value)
    {
      for i := 0 to table.Length
        invariant table[..] == old(table[..])
        invariant T.FindFree(table[..], i) == T.FindFree(table[..], 0)
      {
        if table[i].Free? {
          table[i] := T.Used(key, value);
          break;
        }
      }
    }

    method Delete(key: K)
      modifies table
      ensures table[..] == T.Delete(old(table[..]), key)
    {
      for i := 0 to table.Length
        invariant table[..] == old(table[..])
        invariant T.Find(table[..], key, i) == T.Find(table[..], key, 0)
      {
        if table[i].Used? && table[i].key == key {
          table[i] := T.Free;
          break;
        }
      }
    }
  }
}
