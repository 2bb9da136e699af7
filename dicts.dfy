/** Python's insertion-ordered `dict` with string keys, as a value: the keys in
    insertion order beside the key-to-value map. */
module Dicts {

  /** The names listed in a sequence, as a set. */
  function Elems(s: seq<string>): (r: set<string>)
    ensures forall x :: x in r <==> x in s
  {
    set x | x in s
  }

  /** No name is listed twice. */
  ghost predicate Distinct(s: seq<string>) {
    forall i, j :: 0 <= i < j < |s| ==> s[i] != s[j]
  }

  /** Proof step: two lists of distinct names with no name in common join into
      one. */
  lemma DistinctConcat(a: seq<string>, b: seq<string>)
    requires Distinct(a) && Distinct(b) && Elems(a) !! Elems(b)
    ensures Distinct(a + b)
  {
    forall i, j | 0 <= i < j < |a + b| ensures (a + b)[i] != (a + b)[j] {
      if j < |a| {
      } else if i >= |a| {
        assert (a + b)[i] == b[i - |a|] && (a + b)[j] == b[j - |a|];
      } else {
        assert (a + b)[i] in Elems(a) && (a + b)[j] in Elems(b);
      }
    }
  }

  /** `s` with every occurrence of `k` taken out. */
  function Without(s: seq<string>, k: string): (r: seq<string>)
    ensures forall x :: x in r <==> x in s && x != k
    ensures Distinct(s) ==> Distinct(r)
  {
    if s == [] then []
    else if s[0] == k then Without(s[1..], k)
    else
      var rest := Without(s[1..], k);
      assert s[0] !in rest ==> Distinct(s[1..]) ==> Distinct([s[0]] + rest) by {
        if s[0] !in rest && Distinct(s[1..]) {
          DistinctConcat([s[0]], rest);
        }
      }
      [s[0]] + rest
  }

  /** `s` with every repeated name taken out after its first occurrence. */
  function FirstOccurrences(s: seq<string>): seq<string>
    decreases |s|
  {
    if s == [] then []
    else
      var n := |s| - 1;
      FirstOccurrences(s[..n]) + (if s[n] in s[..n] then [] else [s[n]])
  }

  datatype Dict<V> = Dict(keys: seq<string>, items: map<string, V>) {

    /** What every Python dict satisfies: each key listed once, and exactly the
        keys of the map listed. */
    ghost predicate Valid() {
      Distinct(keys) && forall k :: k in items <==> k in keys
    }

    /** `d[k] = v`: a new key goes to the end, an existing key keeps its place. */
    function Put(k: string, v: V): Dict<V> {
      Dict(if k in items then keys else keys + [k], items[k := v])
    }

    /** `d.get(k, default)`. */
    function Get(k: string, default: V): V {
      if k in items then items[k] else default
    }

    /** `d.pop(k)` without its result: the key is removed wherever it stands. */
    function Pop(k: string): Dict<V> {
      Dict(Without(keys, k), items - {k})
    }

    /** `d.update(src)`: the entries of `src`, in its order, each put into `d`. */
    function Update(src: Dict<V>): Dict<V> {
      UpdateKeys(src.keys, src.items)
    }

    function UpdateKeys(ks: seq<string>, src: map<string, V>): Dict<V>
      decreases |ks|
    {
      if ks == [] then this
      else (if ks[0] in src then Put(ks[0], src[ks[0]]) else this).UpdateKeys(ks[1..], src)
    }
  }

  function Empty<V>(): (d: Dict<V>)
    ensures d.Valid()
  {
    Dict([], map[])
  }

  /** Proof step: `d[k] = v` keeps a dict well-formed and appends `k` exactly
      when it is new. */
  lemma PutValid<V>(d: Dict<V>, k: string, v: V)
    requires d.Valid()
    ensures d.Put(k, v).Valid()
    ensures k in d.items ==> d.Put(k, v).keys == d.keys
    ensures k !in d.items ==> d.Put(k, v).keys == d.keys + [k]
  {
    if k !in d.items {
      DistinctConcat(d.keys, [k]);
    }
  }

  /** Proof step: `d.pop(k)` keeps a dict well-formed. */
  lemma PopValid<V>(d: Dict<V>, k: string)
    requires d.Valid()
    ensures d.Pop(k).Valid()
  {
  }

  /** After `d.update(src)`: every key of `src` holds `src`'s value, every other
      key of `d` keeps its value. */
  lemma {:induction false} UpdateKeysItems<V>(d: Dict<V>, ks: seq<string>, src: map<string, V>)
    ensures d.UpdateKeys(ks, src).items.Keys == d.items.Keys + (Elems(ks) * src.Keys)
    ensures forall k :: k in ks && k in src ==> d.UpdateKeys(ks, src).items[k] == src[k]
    ensures forall k :: k in d.items && !(k in ks && k in src) ==> d.UpdateKeys(ks, src).items[k] == d.items[k]
    decreases |ks|
  {
    if ks != [] {
      var next := if ks[0] in src then d.Put(ks[0], src[ks[0]]) else d;
      var r := d.UpdateKeys(ks, src);
      assert r == next.UpdateKeys(ks[1..], src);
      UpdateKeysItems(next, ks[1..], src);
      assert Elems(ks) == {ks[0]} + Elems(ks[1..]);
      forall k | k in ks && k in src ensures r.items[k] == src[k] {
        if k !in ks[1..] {
          assert k == ks[0];
        }
      }
    }
  }

  /** `d.update(src)` keeps the keys of `d` in their places, and keeps a dict valid. */
  lemma {:induction false} UpdateKeysOrder<V>(d: Dict<V>, ks: seq<string>, src: map<string, V>)
    ensures d.keys <= d.UpdateKeys(ks, src).keys
    ensures d.Valid() ==> d.UpdateKeys(ks, src).Valid()
    decreases |ks|
  {
    if ks != [] {
      var next := if ks[0] in src then d.Put(ks[0], src[ks[0]]) else d;
      assert d.UpdateKeys(ks, src) == next.UpdateKeys(ks[1..], src);
      UpdateKeysOrder(next, ks[1..], src);
      if d.Valid() && ks[0] in src {
        PutValid(d, ks[0], src[ks[0]]);
      }
      assert d.keys <= next.keys;
    }
  }
}
