/** Insertion-ordered dictionaries, as the bot's JSON documents and Python's
    `dict` behave: a sequence of (key, value) entries with distinct keys.
    Assigning to a present key replaces its value where it stands; assigning
    to an absent key appends it. */
module Dicts {

  datatype Option<+T> = None | Some(value: T)

  type Dict<K, V> = seq<(K, V)>

  /** The keys of `d`, in insertion order. */
  function Keys<K, V>(d: Dict<K, V>): seq<K>
  {
    seq(|d|, i requires 0 <= i < |d| => d[i].0)
  }

  ghost predicate Distinct<K>(ks: seq<K>)
  {
    forall i, j :: 0 <= i < j < |ks| ==> ks[i] != ks[j]
  }

  /** A well-formed dictionary: no key occurs twice. */
  ghost predicate ValidDict<K, V>(d: Dict<K, V>)
  {
    Distinct(Keys(d))
  }

  /** `d.get(k)`: the value of the first entry with key `k`. */
  function Get<K(==), V>(d: Dict<K, V>, k: K): Option<V>
  {
    if d == [] then None
    else if d[0].0 == k then Some(d[0].1)
    else Get(d[1..], k)
  }

  /** `d.get(k, default)`. */
  function GetOr<K(==), V>(d: Dict<K, V>, k: K, default: V): V
  {
    match Get(d, k)
    case Some(v) => v
    case None => default
  }

  /** `d[k] = v`. */
  function Put<K(==), V>(d: Dict<K, V>, k: K, v: V): Dict<K, V>
  {
    if d == [] then [(k, v)]
    else if d[0].0 == k then [(k, v)] + d[1..]
    else [d[0]] + Put(d[1..], k, v)
  }

  /** `sum(d.values())`. */
  function SumValues<K>(d: Dict<K, int>): int
  {
    if d == [] then 0 else d[0].1 + SumValues(d[1..])
  }

  /** A dictionary without its first entry keeps the keys that follow it. */
  lemma KeysTail<K, V>(d: Dict<K, V>)
    requires d != []
    ensures Keys(d) == [d[0].0] + Keys(d[1..])
  {
  }

  /** `Get` finds a key exactly when the key is present. */
  lemma {:induction false} GetFound<K, V>(d: Dict<K, V>, k: K)
    ensures Get(d, k).Some? <==> k in Keys(d)
  {
    if d != [] {
      KeysTail(d);
      GetFound(d[1..], k);
    }
  }

  /** Dropping the first entry keeps a dictionary well formed. */
  lemma TailValid<K, V>(d: Dict<K, V>)
    requires ValidDict(d) && d != []
    ensures ValidDict(d[1..])
  {
    forall a, b | 0 <= a < b < |d| - 1 ensures Keys(d[1..])[a] != Keys(d[1..])[b] {
      assert Keys(d)[a + 1] != Keys(d)[b + 1];
    }
  }

  /** Dropping entries at the end keeps a dictionary well formed. */
  lemma PrefixValid<K, V>(d: Dict<K, V>, n: nat)
    requires ValidDict(d) && n <= |d|
    ensures ValidDict(d[..n])
  {
    forall a, b | 0 <= a < b < n ensures Keys(d[..n])[a] != Keys(d[..n])[b] {
      assert Keys(d)[a] != Keys(d)[b];
    }
  }

  /** In a well-formed dictionary the entry at position `i` is the one `Get` finds. */
  lemma {:induction false} GetAt<K, V>(d: Dict<K, V>, i: nat)
    requires ValidDict(d) && i < |d|
    ensures Get(d, d[i].0) == Some(d[i].1)
  {
    if i > 0 {
      assert Keys(d)[0] != Keys(d)[i];
      TailValid(d);
      GetAt(d[1..], i - 1);
    }
  }

  /** A value found by `Get` stands at some position of the dictionary. */
  lemma {:induction false} GetSomeAt<K, V>(d: Dict<K, V>, k: K)
    requires Get(d, k).Some?
    ensures exists i :: 0 <= i < |d| && d[i] == (k, Get(d, k).value)
  {
    if d[0].0 != k {
      GetSomeAt(d[1..], k);
      var i :| 0 <= i < |d[1..]| && d[1..][i] == (k, Get(d, k).value);
      assert d[i + 1] == (k, Get(d, k).value);
    }
  }

  /** Looking a key up in a dictionary that grew by one entry at its end. */
  lemma {:induction false} GetAppend<K, V>(d: Dict<K, V>, k: K, v: V, j: K)
    ensures Get(d + [(k, v)], j) ==
      if j in Keys(d) then Get(d, j) else if j == k then Some(v) else None
  {
    if d != [] {
      KeysTail(d);
      assert (d + [(k, v)])[1..] == d[1..] + [(k, v)];
      GetAppend(d[1..], k, v, j);
    }
  }

  /** The last entry of a well-formed dictionary carries a key its prefix lacks. */
  lemma LastKeyFresh<K, V>(d: Dict<K, V>)
    requires ValidDict(d) && d != []
    ensures d[|d| - 1].0 !in Keys(d[..|d| - 1])
  {
    var n := |d| - 1;
    forall i | 0 <= i < n ensures Keys(d[..n])[i] != d[n].0 {
      assert Keys(d)[i] != Keys(d)[n];
    }
  }

  /** After `d[k] = v`, key `k` holds `v` and every other key what it held. */
  lemma {:induction false} PutGet<K, V>(d: Dict<K, V>, k: K, v: V, j: K)
    ensures Get(Put(d, k, v), j) == if j == k then Some(v) else Get(d, j)
  {
    if d != [] && d[0].0 != k {
      PutGet(d[1..], k, v, j);
    }
  }

  /** `d[k] = v` keeps the key order, appending `k` when it is new. */
  lemma {:induction false} PutKeys<K, V>(d: Dict<K, V>, k: K, v: V)
    ensures Keys(Put(d, k, v)) == if k in Keys(d) then Keys(d) else Keys(d) + [k]
  {
    if d != [] {
      KeysTail(d);
      KeysTail(Put(d, k, v));
      if d[0].0 != k {
        PutKeys(d[1..], k, v);
      }
    }
  }

  /** `Put` keeps a dictionary well formed. */
  lemma PutValid<K, V>(d: Dict<K, V>, k: K, v: V)
    requires ValidDict(d)
    ensures ValidDict(Put(d, k, v))
  {
    PutKeys(d, k, v);
    var ks := Keys(Put(d, k, v));
    if k !in Keys(d) {
      forall a, b | 0 <= a < b < |ks| ensures ks[a] != ks[b] {
        if b < |d| {
          assert Keys(d)[a] != Keys(d)[b];
        }
      }
    }
  }

  /** `Put` changes the sum of the values by exactly the change of the one
      value it replaces (an absent key counts as 0). */
  lemma {:induction false} SumPut<K>(d: Dict<K, int>, k: K, v: int)
    ensures SumValues(Put(d, k, v)) == SumValues(d) - GetOr(d, k, 0) + v
  {
    if d == [] {
    } else if d[0].0 == k {
      assert Put(d, k, v)[1..] == d[1..];
    } else {
      SumPut(d[1..], k, v);
      assert Put(d, k, v)[1..] == Put(d[1..], k, v);
    }
  }

  /** Every entry after `d[k] = v` is an entry of `d` or the new one. */
  lemma {:induction false} PutFrom<K, V>(d: Dict<K, V>, k: K, v: V)
    ensures forall x :: x in Put(d, k, v) ==> x in d || x == (k, v)
  {
    if d != [] && d[0].0 != k {
      PutFrom(d[1..], k, v);
      assert Put(d, k, v) == [d[0]] + Put(d[1..], k, v);
    }
  }

  /** Assigning a key twice is assigning it once, with the second value. */
  lemma {:induction false} PutPut<K, V>(d: Dict<K, V>, k: K, v1: V, v2: V)
    ensures Put(Put(d, k, v1), k, v2) == Put(d, k, v2)
  {
    if d != [] && d[0].0 != k {
      PutPut(d[1..], k, v1, v2);
    }
  }
}
