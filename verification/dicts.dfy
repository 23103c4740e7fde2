/** Python dictionaries as association lists in insertion order.

    A dict is the sequence of its items. Assigning to a present key keeps its
    position and replaces the value; assigning to a new key appends it.
    `dict(items)` and `d.update(e)` are successive assignments, so the last
    value given for a key wins while the key keeps its first position. */
module Dicts {
  import opened Wrappers

  /** Keys in the daemon's dicts are always strings. */
  type Dict<V> = seq<(string, V)>

  /** `k in d`. */
  predicate HasKey<V>(d: Dict<V>, k: string) {
    |d| > 0 && (d[0].0 == k || HasKey(d[1..], k))
  }

  /** Every key occurs once: the shape of a real dict. */
  predicate UniqueKeys<V>(d: Dict<V>) {
    |d| == 0 || (!HasKey(d[1..], d[0].0) && UniqueKeys(d[1..]))
  }

  /** `d.get(k)`: the value stored under `k`, if any. */
  function Get<V>(d: Dict<V>, k: string): (r: Option<V>)
    ensures r.Some? <==> HasKey(d, k)
    ensures r.Some? ==> (k, r.value) in d
  {
    if |d| == 0 then None
    else if d[0].0 == k then Some(d[0].1)
    else Get(d[1..], k)
  }

  /** The value given last for `k` in a list of items: the reference meaning of `dict(items)[k]`. */
  function LastValue<V>(items: seq<(string, V)>, k: string): Option<V> {
    if |items| == 0 then None
    else
      var later := LastValue(items[1..], k);
      if later.Some? then later
      else if items[0].0 == k then Some(items[0].1)
      else None
  }

  /** In a dict with unique keys, the last value given for a key is the one stored under it. */
  lemma {:induction false} LastValueOfDict<V>(d: Dict<V>, k: string)
    requires UniqueKeys(d)
    ensures LastValue(d, k) == Get(d, k)
  {
    if |d| > 0 {
      LastValueOfDict(d[1..], k);
      LastValueHasKey(d[1..], k);
    }
  }

  /** A key has a last value exactly when it occurs among the items. */
  lemma {:induction false} LastValueHasKey<V>(items: seq<(string, V)>, k: string)
    ensures LastValue(items, k).Some? <==> HasKey(items, k)
  {
    if |items| > 0 {
      LastValueHasKey(items[1..], k);
    }
  }

  /** The last value given for a key is one of the items given for it. */
  lemma {:induction false} LastValueIn<V>(items: seq<(string, V)>, k: string)
    ensures LastValue(items, k).Some? ==> (k, LastValue(items, k).value) in items
  {
    if |items| > 0 {
      LastValueIn(items[1..], k);
    }
  }

  /** Every item of `dict(items)` is one of the items. */
  lemma FromItemsSubset<V>(items: seq<(string, V)>)
    ensures forall i :: 0 <= i < |FromItems(items)| ==> FromItems(items)[i] in items
  {
    var d := FromItems(items);
    forall i | 0 <= i < |d| ensures d[i] in items {
      GetItem(d, i);
      LastValueIn(items, d[i].0);
    }
  }

  /** In a dict with unique keys, every item is what its key looks up. */
  lemma {:induction false} GetItem<V>(d: Dict<V>, i: nat)
    requires UniqueKeys(d)
    requires i < |d|
    ensures Get(d, d[i].0) == Some(d[i].1)
  {
    if i > 0 {
      assert d[1..][i - 1] == d[i];
      HasKeyIndex(d[1..], i - 1);
      GetItem(d[1..], i - 1);
    }
  }

  /** The key of every item is a key of the dict. */
  lemma {:induction false} HasKeyIndex<V>(d: Dict<V>, i: nat)
    requires i < |d|
    ensures HasKey(d, d[i].0)
  {
    if i > 0 {
      assert d[1..][i - 1] == d[i];
      HasKeyIndex(d[1..], i - 1);
    }
  }

  /** `d[k] = v`. */
  function Insert<V>(d: Dict<V>, k: string, v: V): (r: Dict<V>)
    ensures Get(r, k) == Some(v)
    ensures forall k' :: k' != k ==> Get(r, k') == Get(d, k')
  {
    if |d| == 0 then [(k, v)]
    else if d[0].0 == k then [(k, v)] + d[1..]
    else
      var r := [d[0]] + Insert(d[1..], k, v);
      assert r[1..] == Insert(d[1..], k, v);
      r
  }

  /** Assigning a new key appends it; assigning a present key keeps the dict's length. */
  lemma {:induction false} InsertShape<V>(d: Dict<V>, k: string, v: V)
    ensures !HasKey(d, k) ==> Insert(d, k, v) == d + [(k, v)]
    ensures HasKey(d, k) ==> |Insert(d, k, v)| == |d|
  {
    if |d| > 0 && d[0].0 != k {
      InsertShape(d[1..], k, v);
      assert [d[0]] + d[1..] == d;
    }
  }

  /** The keys of a dict after `d[k] = v` are its old keys plus `k`. */
  lemma {:induction false} InsertHasKey<V>(d: Dict<V>, k: string, v: V, k': string)
    ensures HasKey(Insert(d, k, v), k') <==> HasKey(d, k') || k' == k
  {
    if |d| > 0 && d[0].0 != k {
      InsertHasKey(d[1..], k, v, k');
    }
  }

  /** Assignment keeps a dict's keys unique. */
  lemma {:induction false} InsertUnique<V>(d: Dict<V>, k: string, v: V)
    requires UniqueKeys(d)
    ensures UniqueKeys(Insert(d, k, v))
  {
    if |d| > 0 && d[0].0 != k {
      InsertUnique(d[1..], k, v);
      InsertHasKey(d[1..], k, v, d[0].0);
    }
  }

  /** `d.update(e)`: the items of `e` assigned in order. */
  function Update<V>(d: Dict<V>, e: seq<(string, V)>): Dict<V>
    decreases |e|
  {
    if |e| == 0 then d else Update(Insert(d, e[0].0, e[0].1), e[1..])
  }

  /** After `d.update(e)`, a key of `e` holds the value `e` gave it last; any other key keeps its value in `d`. */
  lemma {:induction false} UpdateGet<V>(d: Dict<V>, e: seq<(string, V)>, k: string)
    ensures Get(Update(d, e), k) == (if HasKey(e, k) then LastValue(e, k) else Get(d, k))
    decreases |e|
  {
    if |e| > 0 {
      UpdateGet(Insert(d, e[0].0, e[0].1), e[1..], k);
      LastValueHasKey(e[1..], k);
    }
  }

  /** `d.update(e)` keeps a dict's keys unique. */
  lemma {:induction false} UpdateUnique<V>(d: Dict<V>, e: seq<(string, V)>)
    requires UniqueKeys(d)
    ensures UniqueKeys(Update(d, e))
    decreases |e|
  {
    if |e| > 0 {
      InsertUnique(d, e[0].0, e[0].1);
      UpdateUnique(Insert(d, e[0].0, e[0].1), e[1..]);
    }
  }

  /** `dict(items)`: unique keys, each holding the value given last for it, in the order in which
      the keys first occur among the items. */
  function FromItems<V>(items: seq<(string, V)>): (d: Dict<V>)
    ensures UniqueKeys(d)
    ensures forall k :: Get(d, k) == LastValue(items, k)
    ensures Keys(d) == FirstOccurrences([], Keys(items))
  {
    UpdateUnique([], items);
    UpdateKeys([], items);
    forall k ensures Get(Update([], items), k) == LastValue(items, k) {
      UpdateGet([], items, k);
      LastValueHasKey(items, k);
    }
    Update([], items)
  }

  /** The keys of a list of items, in order: what iterating over a dict visits. */
  function Keys<V>(items: seq<(string, V)>): seq<string> {
    if |items| == 0 then [] else [items[0].0] + Keys(items[1..])
  }

  /** The keys `ks` with those already `seen` and all repeats dropped, each kept at its first
      occurrence: the reference order of a dict built up key by key. */
  function FirstOccurrences(seen: seq<string>, ks: seq<string>): seq<string>
    decreases |ks|
  {
    if |ks| == 0 then []
    else if ks[0] in seen then FirstOccurrences(seen, ks[1..])
    else [ks[0]] + FirstOccurrences(seen + [ks[0]], ks[1..])
  }

  lemma {:induction false} HasKeyKeys<V>(d: Dict<V>, k: string)
    ensures HasKey(d, k) <==> k in Keys(d)
  {
    if |d| > 0 {
      HasKeyKeys(d[1..], k);
    }
  }

  /** Assignment keeps the key order and appends a new key at the end. */
  lemma {:induction false} InsertKeys<V>(d: Dict<V>, k: string, v: V)
    ensures Keys(Insert(d, k, v)) == if HasKey(d, k) then Keys(d) else Keys(d) + [k]
  {
    if |d| > 0 {
      if d[0].0 == k {
        assert ([(k, v)] + d[1..])[1..] == d[1..];
      } else {
        var rest := Insert(d[1..], k, v);
        assert ([d[0]] + rest)[1..] == rest;
        InsertKeys(d[1..], k, v);
        Associative([d[0].0], Keys(d[1..]), [k]);
      }
    }
  }

  /** `d.update(e)` keeps the order of `d` and appends the new keys of `e` in first-occurrence order. */
  lemma {:induction false} UpdateKeys<V>(d: Dict<V>, e: seq<(string, V)>)
    ensures Keys(Update(d, e)) == Keys(d) + FirstOccurrences(Keys(d), Keys(e))
    decreases |e|
  {
    if |e| == 0 {
      assert Keys(d) + [] == Keys(d);
    } else {
      var k := e[0].0;
      var ins := Insert(d, k, e[0].1);
      UpdateKeys(ins, e[1..]);
      InsertKeys(d, k, e[0].1);
      HasKeyKeys(d, k);
      assert Keys(e)[0] == k && Keys(e)[1..] == Keys(e[1..]);
      if !HasKey(d, k) {
        Associative(Keys(d), [k], FirstOccurrences(Keys(d) + [k], Keys(e[1..])));
      }
    }
  }

  lemma Associative<T>(a: seq<T>, b: seq<T>, c: seq<T>)
    ensures a + b + c == a + (b + c)
  {
  }

  /** `del d[k]` when the key is present; nothing happens otherwise. */
  function Delete<V>(d: Dict<V>, k: string): (r: Dict<V>)
    ensures Get(r, k) == None
    ensures forall k' :: k' != k ==> Get(r, k') == Get(d, k')
  {
    if |d| == 0 then []
    else if d[0].0 == k then Delete(d[1..], k)
    else
      var r := [d[0]] + Delete(d[1..], k);
      assert r[1..] == Delete(d[1..], k);
      r
  }

  /** Building a dict from the items of a dict changes nothing. */
  lemma FromItemsOfDict<V>(d: Dict<V>)
    requires UniqueKeys(d)
    ensures FromItems(d) == d
  {
    UpdateAppends([], d);
  }

  /** Assigning items whose keys are fresh and distinct appends them in order. */
  lemma {:induction false} UpdateAppends<V>(acc: Dict<V>, e: seq<(string, V)>)
    requires UniqueKeys(e)
    requires forall i :: 0 <= i < |e| ==> !HasKey(acc, e[i].0)
    ensures Update(acc, e) == acc + e
    decreases |e|
  {
    if |e| > 0 {
      var acc' := Insert(acc, e[0].0, e[0].1);
      FreshAfterInsert(acc, e);
      InsertShape(acc, e[0].0, e[0].1);
      UpdateAppends(acc', e[1..]);
      AppendFirst(acc, e);
    }
  }

  lemma AppendFirst<T>(acc: seq<T>, e: seq<T>)
    requires |e| > 0
    ensures acc + [e[0]] + e[1..] == acc + e
  {
    assert e == [e[0]] + e[1..];
  }

  /** The keys after the first of a unique item list stay fresh once the first is inserted. */
  lemma FreshAfterInsert<V>(acc: Dict<V>, e: seq<(string, V)>)
    requires |e| > 0 && UniqueKeys(e)
    requires forall i :: 0 <= i < |e| ==> !HasKey(acc, e[i].0)
    ensures forall i :: 0 <= i < |e| - 1 ==> !HasKey(Insert(acc, e[0].0, e[0].1), e[1..][i].0)
    ensures !HasKey(acc, e[0].0) && UniqueKeys(e[1..])
  {
    forall i | 0 <= i < |e| - 1 ensures !HasKey(Insert(acc, e[0].0, e[0].1), e[1..][i].0) {
      assert e[1..][i] == e[i + 1];
      HasKeyIndex(e[1..], i);
      InsertHasKey(acc, e[0].0, e[0].1, e[i + 1].0);
    }
  }
}
