/**
  Python dictionaries as the bridge uses them: an association list kept in
  insertion order. `Unique` is the invariant every Python dict satisfies (no key
  twice); the operations below are the dict operations the source performs:
  `d[k]` / `d.get(k)` (Lookup), `d[k] = v` (Set), `d.pop(k)` (Remove),
  `dict(pairs)` (FromPairs) and a comprehension that keeps allow-listed keys (Filter).
 */
module PyDict {
  import opened Wrappers

  type Dict<V> = seq<(string, V)>

  function Keys<V>(d: Dict<V>): (ks: seq<string>)
    ensures |ks| == |d|
    ensures forall i :: 0 <= i < |d| ==> ks[i] == d[i].0
  {
    if d == [] then [] else [d[0].0] + Keys(d[1..])
  }

  lemma KeysAppend<V>(d: Dict<V>, e: Dict<V>)
    ensures Keys(d + e) == Keys(d) + Keys(e)
  {
  }

  /** No key occurs twice. */
  predicate Unique<V>(d: Dict<V>)
  {
    forall i, j :: 0 <= i < j < |d| ==> d[i].0 != d[j].0
  }

  lemma KeysMember<V>(d: Dict<V>, k: string)
    ensures k in Keys(d) <==> exists i :: 0 <= i < |d| && d[i].0 == k
  {
    if k in Keys(d) {
      var i :| 0 <= i < |Keys(d)| && Keys(d)[i] == k;
      assert d[i].0 == k;
    }
  }

  lemma UniqueCons<V>(p: (string, V), d: Dict<V>)
    requires Unique(d)
    requires forall q :: q in d ==> q.0 != p.0
    ensures Unique([p] + d)
  {
    var r := [p] + d;
    forall i, j | 0 <= i < j < |r| ensures r[i].0 != r[j].0 {
      if i == 0 {
        assert r[j] == d[j - 1];
        assert d[j - 1] in d;
      } else {
        assert r[i] == d[i - 1] && r[j] == d[j - 1];
      }
    }
  }

  /** `d.get(k)`: the value stored under `k`, if any. */
  function Lookup<V>(d: Dict<V>, k: string): (r: Option<V>)
    ensures r.Some? <==> k in Keys(d)
    ensures r.Some? ==> (k, r.value) in d
  {
    if d == [] then None
    else if d[0].0 == k then Some(d[0].1)
    else
      assert Keys(d) == [d[0].0] + Keys(d[1..]);
      Lookup(d[1..], k)
  }

  /** In a dict, looking a key up and finding the pair are the same thing. */
  lemma LookupPair<V>(d: Dict<V>, k: string, v: V)
    requires Unique(d)
    ensures Lookup(d, k) == Some(v) <==> (k, v) in d
  {
    if (k, v) in d {
      var r := Lookup(d, k);
      var i :| 0 <= i < |d| && d[i] == (k, v);
      assert d[i].0 in Keys(d);
      var j :| 0 <= j < |d| && d[j] == (k, r.value);
      assert i == j;
    }
  }

  /** `d[k] = v`: replaces the value of an existing key in place, or appends a new key. */
  function Set<V(!new)>(d: Dict<V>, k: string, v: V): (r: Dict<V>)
    ensures Unique(d) ==> Unique(r)
    ensures forall p :: p in r <==> p == (k, v) || (p in d && p.0 != k)
    ensures k in Keys(d) ==> Keys(r) == Keys(d)
    ensures k !in Keys(d) ==> r == d + [(k, v)]
  {
    KeysMember(d, k);
    if k in Keys(d) then
      var r := seq(|d|, i requires 0 <= i < |d| => if d[i].0 == k then (k, v) else d[i]);
      assert Keys(r) == Keys(d);
      r
    else
      assert forall p :: p in d ==> p.0 != k by {
        forall p | p in d ensures p.0 != k { KeysMember(d, p.0); }
      }
      d + [(k, v)]
  }

  /** `d.pop(k)` with the popped value discarded: every entry for `k` is dropped. */
  function Remove<V(!new)>(d: Dict<V>, k: string): (r: Dict<V>)
    ensures forall p :: p in r <==> p in d && p.0 != k
    ensures Unique(d) ==> Unique(r)
    ensures k !in Keys(d) ==> r == d
  {
    if d == [] then []
    else if d[0].0 == k then Remove(d[1..], k)
    else
      var rest := Remove(d[1..], k);
      assert Keys(d) == [d[0].0] + Keys(d[1..]);
      assert k !in Keys(d) ==> [d[0]] + rest == d;
      if Unique(d) then UniqueCons(d[0], rest); [d[0]] + rest else [d[0]] + rest
  }

  /** Removal works pair by pair: it distributes over concatenation. */
  lemma {:induction false} RemoveAppend<V(!new)>(a: Dict<V>, b: Dict<V>, k: string)
    ensures Remove(a + b, k) == Remove(a, k) + Remove(b, k)
  {
    if a == [] {
      assert a + b == b;
    } else {
      assert (a + b)[0] == a[0] && (a + b)[1..] == a[1..] + b;
      RemoveAppend(a[1..], b, k);
    }
  }

  /** A slice of a dict is a dict. */
  lemma UniqueSlice<V>(d: Dict<V>, lo: nat, hi: nat)
    requires Unique(d) && lo <= hi <= |d|
    ensures Unique(d[lo..hi])
  {
    var e := d[lo..hi];
    forall a, b | 0 <= a < b < |e| ensures e[a].0 != e[b].0 {
      assert e[a] == d[lo + a] && e[b] == d[lo + b];
    }
  }

  /** In a dict, the key at `j` occurs nowhere before or after it. */
  lemma KeyOnlyAt<V>(d: Dict<V>, j: nat)
    requires Unique(d) && j < |d|
    ensures d[j].0 !in Keys(d[..j]) && d[j].0 !in Keys(d[j + 1..])
  {
    KeysMember(d[..j], d[j].0);
    KeysMember(d[j + 1..], d[j].0);
    assert forall i :: 0 <= i < j ==> d[..j][i] == d[i];
    var after := d[j + 1..];
    forall i | 0 <= i < |after| ensures after[i].0 != d[j].0 {
      assert after[i] == d[j + 1 + i];
    }
  }

  lemma RemoveOwnKey<V(!new)>(x: (string, V))
    ensures Remove([x], x.0) == []
  {
    assert [x][1..] == [];
  }

  lemma RemoveAround<V(!new)>(before: Dict<V>, x: (string, V), after: Dict<V>)
    ensures Remove(before + [x] + after, x.0) == Remove(before, x.0) + Remove(after, x.0)
  {
    var k := x.0;
    RemoveAppend(before + [x], after, k);
    RemoveAppend(before, [x], k);
    RemoveOwnKey(x);
    assert Remove(before, k) + [] == Remove(before, k);
  }

  /** In a dict the pair for `k` is cut out where it stands; the others keep their order. */
  lemma RemoveAt<V(!new)>(d: Dict<V>, k: string, j: nat)
    requires Unique(d) && j < |d| && d[j].0 == k
    ensures Remove(d, k) == d[..j] + d[j + 1..]
  {
    assert d == d[..j] + [d[j]] + d[j + 1..];
    RemoveAround(d[..j], d[j], d[j + 1..]);
    KeyOnlyAt(d, j);
  }

  /** `{k: v for k, v in d.items() if k in allowed}`. */
  function Filter<V(!new)>(d: Dict<V>, allowed: seq<string>): (r: Dict<V>)
    ensures forall p :: p in r <==> p in d && p.0 in allowed
    ensures Unique(d) ==> Unique(r)
  {
    if d == [] then []
    else
      var rest := Filter(d[1..], allowed);
      if d[0].0 !in allowed then rest
      else if Unique(d) then UniqueCons(d[0], rest); [d[0]] + rest
      else [d[0]] + rest
  }

  /** A dict whose keys are all allowed is kept whole. */
  lemma {:induction false} FilterAll<V(!new)>(d: Dict<V>, allowed: seq<string>)
    requires forall i :: 0 <= i < |d| ==> d[i].0 in allowed
    ensures Filter(d, allowed) == d
  {
    if d != [] {
      assert forall i :: 0 <= i < |d[1..]| ==> d[1..][i] == d[i + 1];
      FilterAll(d[1..], allowed);
    }
  }

  /** The comprehension visits the pairs in order: filtering distributes over concatenation. */
  lemma {:induction false} FilterAppend<V(!new)>(a: Dict<V>, b: Dict<V>, allowed: seq<string>)
    ensures Filter(a + b, allowed) == Filter(a, allowed) + Filter(b, allowed)
  {
    if a == [] {
      assert a + b == b;
    } else {
      assert (a + b)[0] == a[0] && (a + b)[1..] == a[1..] + b;
      FilterAppend(a[1..], b, allowed);
    }
  }

  lemma LookupSet<V(!new)>(d: Dict<V>, k: string, v: V, x: string)
    requires Unique(d)
    ensures Lookup(Set(d, k, v), x) == if x == k then Some(v) else Lookup(d, x)
  {
    var r := Set(d, k, v);
    if x == k {
      LookupPair(r, k, v);
    } else if Lookup(d, x).Some? {
      LookupPair(r, x, Lookup(d, x).value);
    } else if Lookup(r, x).Some? {
      LookupPair(d, x, Lookup(r, x).value);
    }
  }

  lemma LookupRemove<V(!new)>(d: Dict<V>, k: string, x: string)
    requires Unique(d)
    ensures Lookup(Remove(d, k), x) == if x == k then None else Lookup(d, x)
  {
    var r := Remove(d, k);
    if x != k && Lookup(d, x).Some? {
      LookupPair(r, x, Lookup(d, x).value);
    } else if Lookup(r, x).Some? {
      LookupPair(d, x, Lookup(r, x).value);
    }
  }

  lemma LookupFilter<V(!new)>(d: Dict<V>, allowed: seq<string>, x: string)
    requires Unique(d)
    ensures Lookup(Filter(d, allowed), x) == if x in allowed then Lookup(d, x) else None
  {
    var r := Filter(d, allowed);
    if x in allowed && Lookup(d, x).Some? {
      LookupPair(r, x, Lookup(d, x).value);
    } else if Lookup(r, x).Some? {
      LookupPair(d, x, Lookup(r, x).value);
    }
  }

  /** The keys of `dict(pairs)` are exactly the keys the pairs carry. */
  lemma FromPairsKeys<V(!new)>(ps: seq<(string, V)>, x: string)
    ensures x in Keys(FromPairs(ps)) <==> exists i :: 0 <= i < |ps| && ps[i].0 == x
  {
    var r := FromPairs(ps);
    FromPairsMember(ps);
    KeysMember(r, x);
    if x in Keys(r) {
      var j :| 0 <= j < |r| && r[j].0 == x;
      assert r[j] in ps;
    }
  }

  /** `dict(pairs)`: inserts the pairs in order, so a repeated key keeps its first
      position (FromPairsKeysGrow) and its last value (FromPairsLast). */
  function FromPairs<V(!new)>(ps: seq<(string, V)>): (r: Dict<V>)
    ensures Unique(r)
  {
    if ps == [] then []
    else Set(FromPairs(ps[..|ps| - 1]), ps[|ps| - 1].0, ps[|ps| - 1].1)
  }

  /** Later pairs never move a key already inserted: the keys of a prefix's dict are a
      prefix of the keys of the whole dict. */
  lemma {:induction false} FromPairsKeysGrow<V(!new)>(ps: seq<(string, V)>, n: nat)
    requires n <= |ps|
    ensures Keys(FromPairs(ps[..n])) <= Keys(FromPairs(ps))
  {
    if n < |ps| {
      var init := ps[..|ps| - 1];
      assert init[..n] == ps[..n];
      FromPairsKeysGrow(init, n);
      var last := ps[|ps| - 1];
      if last.0 !in Keys(FromPairs(init)) {
        KeysAppend(FromPairs(init), [last]);
      }
    } else {
      assert ps[..n] == ps;
    }
  }

  /** The value a key ends with is the one of its last pair. */
  lemma {:induction false} FromPairsLast<V(!new)>(ps: seq<(string, V)>, i: nat)
    requires i < |ps|
    requires forall j :: i < j < |ps| ==> ps[j].0 != ps[i].0
    ensures Lookup(FromPairs(ps), ps[i].0) == Some(ps[i].1)
  {
    var init, last := ps[..|ps| - 1], ps[|ps| - 1];
    var r := FromPairs(ps);
    assert r == Set(FromPairs(init), last.0, last.1);
    if i == |ps| - 1 {
      LookupPair(r, last.0, last.1);
    } else {
      FromPairsLast(init, i);
      assert init[i] == ps[i];
      LookupSet(FromPairs(init), last.0, last.1, ps[i].0);
    }
  }

  lemma {:induction false} FromPairsOfUnique<V(!new)>(ps: seq<(string, V)>)
    requires Unique(ps)
    ensures FromPairs(ps) == ps
  {
    if ps != [] {
      var init, last := ps[..|ps| - 1], ps[|ps| - 1];
      calc {
        FromPairs(ps);
        Set(FromPairs(init), last.0, last.1);
      == { UniqueSlice(ps, 0, |ps| - 1); assert init == ps[0..|ps| - 1]; FromPairsOfUnique(init); }
        Set(init, last.0, last.1);
      == { KeyOnlyAt(ps, |ps| - 1); }
        init + [last];
      == { assert ps == init + [last]; }
        ps;
      }
    }
  }

  lemma {:induction false} FromPairsMember<V(!new)>(ps: seq<(string, V)>)
    ensures forall p :: p in FromPairs(ps) ==> p in ps
    ensures forall i :: 0 <= i < |ps| ==> ps[i].0 in Keys(FromPairs(ps))
  {
    if ps != [] {
      var init, last := ps[..|ps| - 1], ps[|ps| - 1];
      FromPairsMember(init);
      var r := FromPairs(ps);
      assert r == Set(FromPairs(init), last.0, last.1);
      forall i | 0 <= i < |ps| ensures ps[i].0 in Keys(r) {
        if i < |ps| - 1 {
          assert ps[i] == init[i];
          var k := ps[i].0;
          KeysMember(FromPairs(init), k);
          var j :| 0 <= j < |FromPairs(init)| && FromPairs(init)[j].0 == k;
          var q := FromPairs(init)[j];
          if k != last.0 {
            assert q in r;
            KeysMember(r, k);
          } else {
            assert (last.0, last.1) in r;
            KeysMember(r, k);
          }
        } else {
          assert (last.0, last.1) in r;
          KeysMember(r, last.0);
        }
      }
    }
  }
}
