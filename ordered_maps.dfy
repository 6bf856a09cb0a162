/**
 * Kotlin's default mutable map (`LinkedHashMap`): lookups behave like a map,
 * iteration follows first insertion, and writing an existing key replaces its
 * value in place without moving it.
 */
module OrderedMaps {
  import KotlinText

  datatype OMap<K, V> = OMap(keys: seq<K>, values: map<K, V>)

  ghost predicate Distinct<K>(s: seq<K>) {
    forall i, j :: 0 <= i < j < |s| ==> s[i] != s[j]
  }

  /** The iteration order lists every key exactly once. */
  ghost predicate Valid<K, V>(m: OMap<K, V>) {
    && Distinct(m.keys)
    && (forall k | k in m.values :: k in m.keys)
    && (forall i | 0 <= i < |m.keys| :: m.keys[i] in m.values)
  }

  function Empty<K, V>(): (m: OMap<K, V>)
    ensures Valid(m) && m.keys == [] && m.values == map[]
  {
    OMap([], map[])
  }

  /** `m[k] = v`: a new key goes last, an existing key keeps its place. */
  function Put<K, V>(m: OMap<K, V>, k: K, v: V): (r: OMap<K, V>)
    ensures r.values == m.values[k := v]
    ensures r.keys == if k in m.values then m.keys else m.keys + [k]
  {
    if k in m.values then OMap(m.keys, m.values[k := v]) else OMap(m.keys + [k], m.values[k := v])
  }

  /** The entries of `m` in iteration order. */
  function Items<K, V>(m: OMap<K, V>): (xs: seq<(K, V)>)
    requires Valid(m)
    ensures |xs| == |m.keys|
    ensures forall i :: 0 <= i < |xs| ==> xs[i] == (m.keys[i], m.values[m.keys[i]])
  {
    seq(|m.keys|, i requires 0 <= i < |m.keys| => (m.keys[i], m.values[m.keys[i]]))
  }

  /** Writes the entries `xs` one after the other. */
  function PutItems<K, V>(m: OMap<K, V>, xs: seq<(K, V)>): OMap<K, V>
    decreases |xs|
  {
    if xs == [] then m else PutItems(Put(m, xs[0].0, xs[0].1), xs[1..])
  }

  /** `m.putAll(n)`. */
  function PutAll<K, V>(m: OMap<K, V>, n: OMap<K, V>): OMap<K, V>
    requires Valid(n)
  {
    PutItems(m, Items(n))
  }

  /** A second write to the same key keeps the first write's position and only the second value. */
  lemma PutTwice<K, V>(m: OMap<K, V>, k: K, v: V, w: V)
    ensures Put(Put(m, k, v), k, w) == Put(m, k, w)
  {
  }

  lemma PutValid<K, V>(m: OMap<K, V>, k: K, v: V)
    requires Valid(m)
    ensures Valid(Put(m, k, v))
  {
  }

  lemma {:induction false} PutItemsValid<K, V>(m: OMap<K, V>, xs: seq<(K, V)>)
    requires Valid(m)
    ensures Valid(PutItems(m, xs))
    decreases |xs|
  {
    if xs != [] {
      PutValid(m, xs[0].0, xs[0].1);
      PutItemsValid(Put(m, xs[0].0, xs[0].1), xs[1..]);
    }
  }

  // ---------------------------------------------------------------------------
  // An order-free description of PutItems: the keys not seen before, in order of
  // first appearance, and the value of each key's last write.

  function KeysOf<K, V>(xs: seq<(K, V)>): (ks: seq<K>)
    ensures |ks| == |xs| && forall i :: 0 <= i < |xs| ==> ks[i] == xs[i].0
  {
    seq(|xs|, i requires 0 <= i < |xs| => xs[i].0)
  }

  /** The first occurrences in `ks` of keys outside `seen`. */
  function Dedup<K>(seen: set<K>, ks: seq<K>): seq<K>
    decreases |ks|
  {
    if ks == [] then []
    else if ks[0] in seen then Dedup(seen, ks[1..])
    else [ks[0]] + Dedup(seen + {ks[0]}, ks[1..])
  }

  /** `base` overwritten by the entries of `xs`, later entries winning. */
  function Override<K, V>(base: map<K, V>, xs: seq<(K, V)>): map<K, V>
    decreases |xs|
  {
    if xs == [] then base else Override(base[xs[0].0 := xs[0].1], xs[1..])
  }

  lemma {:induction false} PutItemsKeys<K, V>(m: OMap<K, V>, xs: seq<(K, V)>)
    ensures PutItems(m, xs).keys == m.keys + Dedup(m.values.Keys, KeysOf(xs))
    decreases |xs|
  {
    if xs == [] {
      assert m.keys + [] == m.keys;
    } else {
      var k := xs[0].0;
      var m' := Put(m, k, xs[0].1);
      var rest := KeysOf(xs[1..]);
      PutItemsKeys(m', xs[1..]);
      KeysOfCons(xs);
      DedupCons(m.values.Keys, k, rest);
      if k in m.values {
        assert m'.values.Keys == m.values.Keys;
      } else {
        assert m'.values.Keys == m.values.Keys + {k};
        KotlinText.AppendAssoc(m.keys, [k], Dedup(m.values.Keys + {k}, rest));
      }
    }
  }

  lemma KeysOfCons<K, V>(xs: seq<(K, V)>)
    requires xs != []
    ensures KeysOf(xs) == [xs[0].0] + KeysOf(xs[1..])
  {
  }

  lemma DedupCons<K>(seen: set<K>, k: K, rest: seq<K>)
    ensures Dedup(seen, [k] + rest) == if k in seen then Dedup(seen, rest) else [k] + Dedup(seen + {k}, rest)
  {
    assert ([k] + rest)[1..] == rest;
  }

  lemma {:induction false} PutItemsValues<K, V>(m: OMap<K, V>, xs: seq<(K, V)>)
    ensures PutItems(m, xs).values == Override(m.values, xs)
    decreases |xs|
  {
    if xs != [] {
      PutItemsValues(Put(m, xs[0].0, xs[0].1), xs[1..]);
    }
  }

  lemma PutItemsShape<K, V>(m: OMap<K, V>, xs: seq<(K, V)>)
    ensures PutItems(m, xs) == OMap(m.keys + Dedup(m.values.Keys, KeysOf(xs)), Override(m.values, xs))
  {
    PutItemsKeys(m, xs);
    PutItemsValues(m, xs);
  }

  lemma {:induction false} DedupTwice<K>(s: set<K>, t: set<K>, ks: seq<K>)
    ensures Dedup(s, Dedup(t, ks)) == Dedup(s + t, ks)
    decreases |ks|
  {
    if ks != [] {
      var k := ks[0];
      if k in t {
        DedupTwice(s, t, ks[1..]);
      } else {
        DedupTwice(s, t + {k}, ks[1..]);
        if k in s {
          assert s + (t + {k}) == s + t;
        } else {
          assert s + (t + {k}) == (s + t) + {k};
          assert Dedup(s, [k] + Dedup(t + {k}, ks[1..])) == [k] + Dedup(s + {k}, Dedup(t + {k}, ks[1..]));
          DedupTwice(s + {k}, t + {k}, ks[1..]);
          assert (s + {k}) + (t + {k}) == (s + t) + {k};
        }
      }
    }
  }

  /** Dedup keeps every key once: it drops nothing exactly when `ks` is distinct and avoids `seen`. */
  lemma {:induction false} DedupFacts<K>(seen: set<K>, ks: seq<K>)
    ensures |Dedup(seen, ks)| <= |ks|
    ensures Distinct(Dedup(seen, ks))
    ensures forall k :: k in Dedup(seen, ks) <==> k in ks && k !in seen
    ensures |Dedup(seen, ks)| == |ks| <==> Distinct(ks) && forall i :: 0 <= i < |ks| ==> ks[i] !in seen
    ensures |Dedup(seen, ks)| == |ks| ==> Dedup(seen, ks) == ks
    decreases |ks|
  {
    if ks != [] {
      var k := ks[0];
      if k in seen {
        DedupFacts(seen, ks[1..]);
      } else {
        DedupFacts(seen + {k}, ks[1..]);
        var rest := Dedup(seen + {k}, ks[1..]);
        assert Dedup(seen, ks) == [k] + rest;
        if Distinct(ks) && forall i :: 0 <= i < |ks| ==> ks[i] !in seen {
          assert forall i :: 0 <= i < |ks[1..]| ==> ks[1..][i] !in seen + {k} by {
            forall i | 0 <= i < |ks[1..]| ensures ks[1..][i] !in seen + {k} {
              assert ks[1..][i] == ks[i + 1];
            }
          }
        }
        if |Dedup(seen, ks)| == |ks| {
          forall i, j | 0 <= i < j < |ks| ensures ks[i] != ks[j] {
            if i == 0 {
              assert ks[j] == ks[1..][j - 1];
            } else {
              assert ks[i] == ks[1..][i - 1] && ks[j] == ks[1..][j - 1];
            }
          }
          assert ks == [k] + ks[1..];
        }
      }
    }
  }

  lemma {:induction false} OverrideSplit<K, V>(base: map<K, V>, xs: seq<(K, V)>)
    ensures Override(base, xs) == base + Override(map[], xs)
    decreases |xs|
  {
    if xs != [] {
      var x := xs[0];
      var rest := Override(map[], xs[1..]);
      OverrideSplit(base[x.0 := x.1], xs[1..]);
      OverrideSplit(map[x.0 := x.1], xs[1..]);
      assert base[x.0 := x.1] + rest == base + (map[x.0 := x.1] + rest);
    }
  }

  /** Writing a key before a merge that agrees on it is writing it after. */
  lemma MergeUpdate<K, V>(base: map<K, V>, k: K, v: V, later: map<K, V>)
    requires k in later ==> later[k] == v
    ensures base[k := v] + later == base + later[k := v]
  {
  }

  /** Writing entries that agree with a map `mm` adds exactly `mm` restricted to their keys. */
  lemma {:induction false} OverrideAgreeing<K, V>(base: map<K, V>, xs: seq<(K, V)>, mm: map<K, V>)
    requires forall i :: 0 <= i < |xs| ==> xs[i].0 in mm && mm[xs[i].0] == xs[i].1
    ensures Override(base, xs) == base + map k | k in mm && k in KeysOf(xs) :: mm[k]
    decreases |xs|
  {
    if xs != [] {
      var x := xs[0];
      OverrideAgreeing(base[x.0 := x.1], xs[1..], mm);
      KeysOfCons(xs);
      var later := map k | k in mm && k in KeysOf(xs[1..]) :: mm[k];
      var all := map k | k in mm && k in KeysOf(xs) :: mm[k];
      assert all == later[x.0 := x.1];
      MergeUpdate(base, x.0, x.1, later);
    }
  }

  /** Writing the entries of a map into an empty map rebuilds its values. */
  lemma OverrideItems<K, V>(n: OMap<K, V>)
    requires Valid(n)
    ensures Override(map[], Items(n)) == n.values
  {
    var xs := Items(n);
    OverrideAgreeing(map[], xs, n.values);
    assert KeysOf(xs) == n.keys;
  }

  /** A map built from nothing holds the pairs' keys without repetitions and their last values. */
  lemma FreshShape<K, V>(ys: seq<(K, V)>)
    ensures var p := PutItems(Empty(), ys);
      Valid(p) && p.keys == Dedup({}, KeysOf(ys)) && p.values == Override(map[], ys)
  {
    var e: OMap<K, V> := Empty();
    PutItemsValid(e, ys);
    PutItemsShape(e, ys);
    assert e.values.Keys == {};
    assert [] + Dedup({}, KeysOf(ys)) == Dedup({}, KeysOf(ys));
  }

  lemma PutAllKeysSame<K, V>(m: OMap<K, V>, ys: seq<(K, V)>)
    ensures Valid(PutItems(Empty(), ys))
    ensures Dedup(m.values.Keys, KeysOf(Items(PutItems(Empty(), ys)))) == Dedup(m.values.Keys, KeysOf(ys))
  {
    var p := PutItems(Empty(), ys);
    FreshShape(ys);
    var s := m.values.Keys;
    assert KeysOf(Items(p)) == p.keys;
    DedupTwice(s, {}, KeysOf(ys));
    assert s + {} == s;
  }

  lemma PutAllValuesSame<K, V>(m: OMap<K, V>, ys: seq<(K, V)>)
    ensures Valid(PutItems(Empty(), ys))
    ensures Override(m.values, Items(PutItems(Empty(), ys))) == Override(m.values, ys)
  {
    var p := PutItems(Empty(), ys);
    FreshShape(ys);
    OverrideSplit(m.values, Items(p));
    OverrideItems(p);
    OverrideSplit(m.values, ys);
  }

  /** Copying a freshly built map into `m` is the same as writing its entries into `m` directly. */
  lemma PutAllOfPutItems<K, V>(m: OMap<K, V>, ys: seq<(K, V)>)
    ensures Valid(PutItems(Empty(), ys))
    ensures PutAll(m, PutItems(Empty(), ys)) == PutItems(m, ys)
  {
    var p := PutItems(Empty(), ys);
    FreshShape(ys);
    PutAllKeysSame(m, ys);
    PutAllValuesSame(m, ys);
    PutItemsShape(m, Items(p));
    PutItemsShape(m, ys);
  }

  lemma {:induction false} PutItemsAppend<K, V>(m: OMap<K, V>, xs: seq<(K, V)>, ys: seq<(K, V)>)
    ensures PutItems(m, xs + ys) == PutItems(PutItems(m, xs), ys)
    decreases |xs|
  {
    if xs == [] {
      assert [] + ys == ys;
    } else {
      var m' := Put(m, xs[0].0, xs[0].1);
      assert (xs + ys)[0] == xs[0] && (xs + ys)[1..] == xs[1..] + ys;
      assert PutItems(m, xs + ys) == PutItems(m', xs[1..] + ys);
      assert PutItems(m, xs) == PutItems(m', xs[1..]);
      PutItemsAppend(m', xs[1..], ys);
    }
  }

  lemma {:induction false} OverrideKeys<K, V>(base: map<K, V>, xs: seq<(K, V)>)
    ensures forall k :: k in Override(base, xs) <==> k in base || k in KeysOf(xs)
    decreases |xs|
  {
    if xs != [] {
      OverrideKeys(base[xs[0].0 := xs[0].1], xs[1..]);
      assert KeysOf(xs) == [xs[0].0] + KeysOf(xs[1..]);
    }
  }

  /** The value of a key after writing `xs` is the one its last write carried. */
  lemma {:induction false} OverrideLast<K, V>(base: map<K, V>, xs: seq<(K, V)>, j: nat)
    requires j < |xs|
    requires forall l :: j < l < |xs| ==> xs[l].0 != xs[j].0
    ensures xs[j].0 in Override(base, xs) && Override(base, xs)[xs[j].0] == xs[j].1
    decreases |xs|
  {
    var b := base[xs[0].0 := xs[0].1];
    if j == 0 {
      OverrideKeep(b, xs[1..], xs[0].0);
    } else {
      OverrideLast(b, xs[1..], j - 1);
    }
  }

  /** A key that `xs` never writes keeps its value. */
  lemma {:induction false} OverrideKeep<K, V>(base: map<K, V>, xs: seq<(K, V)>, k: K)
    requires k in base
    requires forall l :: 0 <= l < |xs| ==> xs[l].0 != k
    ensures k in Override(base, xs) && Override(base, xs)[k] == base[k]
    decreases |xs|
  {
    if xs != [] {
      OverrideKeep(base[xs[0].0 := xs[0].1], xs[1..], k);
    }
  }

  /**
   * Writing pairs into an empty map: the keys are the pairs' keys without
   * repetitions, so nothing is lost exactly when the keys are distinct, and then
   * every key holds its own value.
   */
  lemma PutItemsFresh<K, V>(xs: seq<(K, V)>)
    ensures var m := PutItems(Empty(), xs);
      && Valid(m) && m.keys == Dedup({}, KeysOf(xs))
      && (|m.keys| == |xs| <==> Distinct(KeysOf(xs)))
      && (Distinct(KeysOf(xs)) ==>
            && m.keys == KeysOf(xs)
            && forall j :: 0 <= j < |xs| ==> xs[j].0 in m.values && m.values[xs[j].0] == xs[j].1)
  {
    var e: OMap<K, V> := Empty();
    PutItemsShape(e, xs);
    PutItemsValid(e, xs);
    assert e.values.Keys == {};
    assert e.keys + Dedup({}, KeysOf(xs)) == Dedup({}, KeysOf(xs));
    DedupFacts({}, KeysOf(xs));
    if Distinct(KeysOf(xs)) {
      forall j | 0 <= j < |xs| ensures xs[j].0 in PutItems(e, xs).values && PutItems(e, xs).values[xs[j].0] == xs[j].1 {
        OverrideLast(map[], xs, j);
      }
    }
  }
}
