/**
 * Python's insertion-ordered `dict` (and `OrderedDict`): a key sequence in
 * insertion order beside the key-to-value map. Assigning to an existing key
 * replaces its value and keeps its place; a new key goes to the end.
 */
module OrderedDicts {

  datatype Dict<K, V> = Dict(keys: seq<K>, items: map<K, V>) {

    /** Every key is listed once, and the listed keys are exactly the mapped ones. */
    ghost predicate Valid() {
      && (forall i, j :: 0 <= i < j < |keys| ==> keys[i] != keys[j])
      && items.Keys == set k | k in keys
    }
  }

  /** `{}` */
  function Empty<K, V>(): Dict<K, V> {
    Dict([], map[])
  }

  /** `d[k] = v` */
  function Set<K, V>(d: Dict<K, V>, k: K, v: V): (r: Dict<K, V>)
    requires d.Valid()
    ensures r.Valid()
    ensures r.items == d.items[k := v]
    ensures k in d.items ==> r.keys == d.keys
    ensures k !in d.items ==> r.keys == d.keys + [k]
  {
    if k in d.items then Dict(d.keys, d.items[k := v])
    else Dict(d.keys + [k], d.items[k := v])
  }

  /** The dictionary obtained by assigning the pairs of `ps` one after the other, starting from `{}`. */
  function FromPairs<K, V>(ps: seq<(K, V)>): (d: Dict<K, V>)
    ensures d.Valid()
    ensures |d.keys| <= |ps|
  {
    if ps == [] then Empty()
    else
      var last := ps[|ps| - 1];
      Set(FromPairs(ps[..|ps| - 1]), last.0, last.1)
  }

  /** The key column of `ps`. */
  function Firsts<K, V>(ps: seq<(K, V)>): (ks: seq<K>)
    ensures |ks| == |ps|
    ensures forall i :: 0 <= i < |ps| ==> ks[i] == ps[i].0
  {
    seq(|ps|, i requires 0 <= i < |ps| => ps[i].0)
  }

  /** The position of the first occurrence of `k` in `s`. */
  function FirstIndex<K(==)>(s: seq<K>, k: K): (i: nat)
    requires k in s
    ensures i < |s| && s[i] == k
    ensures k !in s[..i]
  {
    if s[0] == k then 0 else 1 + FirstIndex(s[1..], k)
  }

  lemma FromPairsSnoc<K, V>(ps: seq<(K, V)>, k: K, v: V)
    ensures FromPairs(ps + [(k, v)]) == Set(FromPairs(ps), k, v)
  {
    assert (ps + [(k, v)])[..|ps|] == ps;
  }

  /** A key is in the dictionary exactly when some pair carries it. */
  lemma {:induction false} FromPairsKeys<K, V>(ps: seq<(K, V)>, k: K)
    ensures k in FromPairs(ps).items <==> k in Firsts(ps)
    ensures k in FromPairs(ps).items <==> k in FromPairs(ps).keys
  {
    if ps != [] {
      var init := ps[..|ps| - 1];
      FromPairsKeys(init, k);
      assert Firsts(ps) == Firsts(init) + [ps[|ps| - 1].0];
    }
  }

  /** The pair assigned last for a key is the one whose value the dictionary keeps. */
  lemma {:induction false} FromPairsLastWins<K, V>(ps: seq<(K, V)>, i: nat)
    requires i < |ps|
    requires forall j :: i < j < |ps| ==> ps[j].0 != ps[i].0
    ensures ps[i].0 in FromPairs(ps).items
    ensures FromPairs(ps).items[ps[i].0] == ps[i].1
  {
    if i < |ps| - 1 {
      FromPairsLastWins(ps[..|ps| - 1], i);
    }
  }

  /** Every entry of the dictionary is the last pair assigned for its key: `i` is that pair's position. */
  lemma {:induction false} FromPairsValueOrigin<K, V>(ps: seq<(K, V)>, k: K) returns (i: nat)
    requires k in FromPairs(ps).items
    ensures i < |ps| && ps[i] == (k, FromPairs(ps).items[k])
    ensures forall j :: i < j < |ps| ==> ps[j].0 != k
  {
    var n := |ps| - 1;
    var init, last := ps[..n], ps[n];
    if last.0 == k {
      i := n;
    } else {
      assert k in FromPairs(init).items && FromPairs(ps).items[k] == FromPairs(init).items[k];
      i := FromPairsValueOrigin(init, k);
      assert ps[i] == init[i];
      NoLaterKey(ps, init, i, k);
    }
  }

  /** If no pair after `i` but before the last carries `k`, and the last does not either, no pair after `i` does. */
  lemma NoLaterKey<K, V>(ps: seq<(K, V)>, init: seq<(K, V)>, i: nat, k: K)
    requires ps != [] && init == ps[..|ps| - 1] && ps[|ps| - 1].0 != k
    requires forall j :: i < j < |init| ==> init[j].0 != k
    ensures forall j :: i < j < |ps| ==> ps[j].0 != k
  {
    forall j | i < j < |init|
      ensures ps[j].0 != k
    {
      assert init[j] == ps[j];
    }
  }

  /** No position before the first occurrence of `k` holds `k`. */
  lemma FirstIndexBefore<K>(s: seq<K>, k: K, j: nat)
    requires k in s && j < FirstIndex(s, k)
    ensures s[j] != k
  {
    assert s[..FirstIndex(s, k)][j] == s[j];
  }

  lemma {:induction false} FirstIndexPrefix<K>(s: seq<K>, t: seq<K>, k: K)
    requires k in s
    ensures FirstIndex(s + t, k) == FirstIndex(s, k)
  {
    if s[0] != k {
      assert (s + t)[1..] == s[1..] + t;
      FirstIndexPrefix(s[1..], t, k);
    }
  }

  /** The keys are listed in the order in which they first occur among the pairs. */
  lemma {:induction false} FromPairsOrder<K, V>(ps: seq<(K, V)>, a: nat, b: nat)
    requires a < b < |FromPairs(ps).keys|
    ensures FromPairs(ps).keys[a] in Firsts(ps) && FromPairs(ps).keys[b] in Firsts(ps)
    ensures FirstIndex(Firsts(ps), FromPairs(ps).keys[a]) < FirstIndex(Firsts(ps), FromPairs(ps).keys[b])
  {
    var init := ps[..|ps| - 1];
    var last := ps[|ps| - 1];
    var d0 := FromPairs(init);
    var keys := FromPairs(ps).keys;
    assert Firsts(ps) == Firsts(init) + [last.0];
    FromPairsKeys(init, keys[a]);
    FromPairsKeys(init, last.0);
    if b < |d0.keys| {
      assert keys[a] == d0.keys[a] && keys[b] == d0.keys[b];
      FromPairsOrder(init, a, b);
      FromPairsKeys(init, keys[b]);
      FirstIndexPrefix(Firsts(init), [last.0], keys[a]);
      FirstIndexPrefix(Firsts(init), [last.0], keys[b]);
    } else {
      assert last.0 !in d0.items && keys[b] == last.0;
      assert keys[a] == d0.keys[a];
      FirstIndexPrefix(Firsts(init), [last.0], keys[a]);
    }
  }

  /** Assigning at least one pair leaves a non-empty dictionary. */
  lemma FromPairsNonEmpty<K, V>(ps: seq<(K, V)>)
    requires ps != []
    ensures FromPairs(ps).keys != []
  {
    var last := ps[|ps| - 1];
    FromPairsKeys(ps, last.0);
    assert Firsts(ps)[|ps| - 1] == last.0;
  }
}
