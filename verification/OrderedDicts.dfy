/** Dictionaries that remember insertion order. */
module OrderedDicts {
  import opened Options

  /** A dictionary in insertion order. */
  type Dict<V> = seq<(string, V)>

  ghost predicate DistinctKeys<V>(d: Dict<V>) {
    forall i, j :: 0 <= i < j < |d| ==> d[i].0 != d[j].0
  }

  function Lookup<V>(d: Dict<V>, key: string): Option<V> {
    if d == [] then None
    else if d[0].0 == key then Some(d[0].1)
    else Lookup(d[1..], key)
  }

  /** `d[key] = value`: an existing key keeps its place. */
  function Put<V>(d: Dict<V>, key: string, value: V): Dict<V> {
    if d == [] then [(key, value)]
    else if d[0].0 == key then [(key, value)] + d[1..]
    else [d[0]] + Put(d[1..], key, value)
  }

  lemma {:induction false} PutKeys<V>(d: Dict<V>, key: string, value: V)
    requires DistinctKeys(d)
    ensures DistinctKeys(Put(d, key, value))
    ensures forall i :: 0 <= i < |Put(d, key, value)| ==>
      Put(d, key, value)[i].0 == key || exists j :: 0 <= j < |d| && d[j].0 == Put(d, key, value)[i].0
  {
    if d != [] && d[0].0 != key {
      PutKeys(d[1..], key, value);
      var tail := Put(d[1..], key, value);
      var all := [d[0]] + tail;
      forall i | 0 <= i < |tail| ensures tail[i].0 != d[0].0 && (tail[i].0 == key || exists j :: 0 <= j < |d| && d[j].0 == tail[i].0) {
        if tail[i].0 != key {
          var j :| 0 <= j < |d[1..]| && d[1..][j].0 == tail[i].0;
          assert d[j + 1].0 == tail[i].0;
        }
      }
      assert forall i :: 1 <= i < |all| ==> all[i] == tail[i - 1];
    }
  }

  lemma {:induction false} LookupPut<V>(d: Dict<V>, key: string, value: V, other: string)
    ensures Lookup(Put(d, key, value), other) == if other == key then Some(value) else Lookup(d, other)
    decreases |d|
  {
    if d == [] {
      assert Put(d, key, value)[1..] == [];
    } else if d[0].0 == key {
      assert Put(d, key, value)[1..] == d[1..];
    } else {
      assert Put(d, key, value)[1..] == Put(d[1..], key, value);
      LookupPut(d[1..], key, value, other);
    }
  }

  lemma {:induction false} PutNew<V>(d: Dict<V>, key: string, value: V)
    requires forall i :: 0 <= i < |d| ==> d[i].0 != key
    ensures Put(d, key, value) == d + [(key, value)]
  {
    if d != [] {
      PutNew(d[1..], key, value);
      assert [d[0]] + (d[1..] + [(key, value)]) == d + [(key, value)];
    }
  }

  function KeysOf<V>(d: Dict<V>): (keys: seq<string>)
    ensures |keys| == |d| && forall i :: 0 <= i < |d| ==> keys[i] == d[i].0
  {
    seq(|d|, i requires 0 <= i < |d| => d[i].0)
  }

  /** A new key comes last. */
  lemma {:induction false} KeysOfPut<V>(d: Dict<V>, key: string, value: V)
    ensures KeysOf(Put(d, key, value)) == if key in KeysOf(d) then KeysOf(d) else KeysOf(d) + [key]
  {
    if d != [] && d[0].0 != key {
      KeysOfPut(d[1..], key, value);
      assert KeysOf(d) == [d[0].0] + KeysOf(d[1..]);
      assert KeysOf(Put(d, key, value)) == [d[0].0] + KeysOf(Put(d[1..], key, value));
    } else if d != [] {
      assert KeysOf(d)[0] == key;
    }
  }
}
