/** Sequence helpers shared by the sync models: distinctness, flattening,
    and listing a set in some iteration order. */
module Seqs {

  predicate Distinct<T(==)>(s: seq<T>) {
    forall i, j | 0 <= i < j < |s| :: s[i] != s[j]
  }

  /** Concatenation of a list of lists, in order. */
  function Flatten<T>(ss: seq<seq<T>>): seq<T> {
    if ss == [] then [] else Flatten(ss[..|ss| - 1]) + ss[|ss| - 1]
  }

  lemma FlattenAppend<T>(ss: seq<seq<T>>, s: seq<T>)
    ensures Flatten(ss + [s]) == Flatten(ss) + s
  {
    assert (ss + [s])[..|ss|] == ss;
  }

  /** The concatenation of the first `k` lists is that of the first `k - 1`
      followed by the `k`-th. */
  lemma FlattenPrefix<T>(ss: seq<seq<T>>, k: nat)
    requires 0 < k <= |ss|
    ensures Flatten(ss[..k]) == Flatten(ss[..k - 1]) + ss[k - 1]
  {
    assert ss[..k][..k - 1] == ss[..k - 1];
  }

  lemma {:induction false} FlattenConcat<T>(xs: seq<seq<T>>, ys: seq<seq<T>>)
    ensures Flatten(xs + ys) == Flatten(xs) + Flatten(ys)
  {
    if ys == [] {
      assert xs + ys == xs;
    } else {
      var init := ys[..|ys| - 1];
      assert xs + ys == (xs + init) + [ys[|ys| - 1]];
      FlattenAppend(xs + init, ys[|ys| - 1]);
      FlattenConcat(xs, init);
      FlattenAppend(init, ys[|ys| - 1]);
      assert ys == init + [ys[|ys| - 1]];
    }
  }

  /** A list of lists headed by `x` concatenates to `x` followed by the rest. */
  lemma FlattenCons<T>(x: seq<T>, rest: seq<seq<T>>)
    ensures Flatten([x] + rest) == x + Flatten(rest)
  {
    FlattenConcat([x], rest);
    assert [x][..0] == [];
  }

  /** Python's `list(s)` on a set: every element once, in an unspecified order. */
  method ListOfSet<T(==)>(s: set<T>) returns (xs: seq<T>)
    ensures Distinct(xs)
    ensures |xs| == |s|
    ensures forall x :: x in xs <==> x in s
    ensures (set x | x in xs) == s
  {
    xs := [];
    var rest := s;
    while rest != {}
      invariant Distinct(xs)
      invariant |xs| + |rest| == |s|
      invariant forall x :: x in s <==> x in xs || x in rest
      invariant forall x :: x in xs ==> x !in rest
      decreases |rest|
    {
      var x :| x in rest;
      xs := xs + [x];
      rest := rest - {x};
    }
  }

  /** A non-empty finite set of keys has one whose value is largest. */
  lemma {:induction false} MaxKeyExists<K>(m: map<K, nat>, s: set<K>)
    requires s != {} && s <= m.Keys
    ensures exists k :: k in s && forall h :: h in s ==> m[h] <= m[k]
    decreases |s|
  {
    var k0 :| k0 in s;
    if s != {k0} {
      var rest := s - {k0};
      MaxKeyExists(m, rest);
      var k1 :| k1 in rest && forall h :: h in rest ==> m[h] <= m[k1];
      if m[k0] <= m[k1] {
        assert forall h :: h in s ==> m[h] <= m[k1];
      } else {
        assert forall h :: h in s ==> m[h] <= m[k0];
      }
    } else {
      assert forall h :: h in s ==> h == k0;
    }
  }

  /** A duplicate-free sequence has as many elements as its set. */
  lemma {:induction false} DistinctCard<T>(s: seq<T>)
    requires Distinct(s)
    ensures |set x | x in s| == |s|
  {
    if s != [] {
      var init := s[..|s| - 1];
      DistinctCard(init);
      assert (set x | x in s) == (set x | x in init) + {s[|s| - 1]};
      assert s[|s| - 1] !in init;
    }
  }

  /** Conversely, a sequence as long as its set has no duplicate. */
  lemma {:induction false} CardDistinct<T>(s: seq<T>)
    requires |set x | x in s| == |s|
    ensures Distinct(s)
  {
    if s != [] {
      var init := s[..|s| - 1];
      var last := s[|s| - 1];
      assert (set x | x in s) == (set x | x in init) + {last};
      SetOfSeqBound(init);
      if last in init {
        assert false;
      }
      CardDistinct(init);
      forall i, j | 0 <= i < j < |s| ensures s[i] != s[j] {
        if j == |s| - 1 {
          assert s[i] in init;
        } else {
          assert s[i] == init[i] && s[j] == init[j];
        }
      }
    }
  }

  lemma {:induction false} SetOfSeqBound<T>(s: seq<T>)
    ensures |set x | x in s| <= |s|
  {
    if s != [] {
      var init := s[..|s| - 1];
      SetOfSeqBound(init);
      assert (set x | x in s) == (set x | x in init) + {s[|s| - 1]};
    }
  }

  /** The keys of a list of rows, in order. */
  function KeysOf<K, R>(rows: seq<R>, key: R -> K): (ks: seq<K>)
    ensures |ks| == |rows| && forall i | 0 <= i < |rows| :: ks[i] == key(rows[i])
  {
    seq(|rows|, i requires 0 <= i < |rows| => key(rows[i]))
  }

  /** A list of rows as a table keyed by `key`, later rows winning. */
  function Keyed<K(==), R>(rows: seq<R>, key: R -> K): (m: map<K, R>)
    ensures m.Keys == set i | 0 <= i < |rows| :: key(rows[i])
    decreases |rows|
  {
    if rows == [] then map[]
    else Keyed(rows[..|rows| - 1], key)[key(rows[|rows| - 1]) := rows[|rows| - 1]]
  }

  /** With distinct keys every row is found under its own key. */
  lemma {:induction false} KeyedAt<K, R>(rows: seq<R>, key: R -> K, i: nat)
    requires Distinct(KeysOf(rows, key)) && i < |rows|
    ensures Keyed(rows, key)[key(rows[i])] == rows[i]
    decreases |rows|
  {
    var init := rows[..|rows| - 1];
    if i < |rows| - 1 {
      assert KeysOf(init, key) == KeysOf(rows, key)[..|rows| - 1];
      assert rows[i] == init[i];
      KeyedAt(init, key, i);
      assert KeysOf(rows, key)[i] != KeysOf(rows, key)[|rows| - 1];
    }
  }

  lemma KeysOfAppend<K, R>(a: seq<R>, b: seq<R>, key: R -> K)
    ensures KeysOf(a + b, key) == KeysOf(a, key) + KeysOf(b, key)
  {
  }

  /** Appending an element not yet present keeps a sequence duplicate-free. */
  lemma DistinctSnoc<T>(s: seq<T>, x: T)
    requires Distinct(s) && x !in s
    ensures Distinct(s + [x])
  {
    forall i, j | 0 <= i < j < |s| + 1 ensures (s + [x])[i] != (s + [x])[j] {
      if j == |s| {
        assert (s + [x])[i] in s;
      }
    }
  }

  /** Two duplicate-free sequences without common element concatenate to one. */
  lemma DistinctConcat<T>(a: seq<T>, b: seq<T>)
    requires Distinct(a) && Distinct(b) && forall x | x in a :: x !in b
    ensures Distinct(a + b)
  {
    forall i, j | 0 <= i < j < |a| + |b| ensures (a + b)[i] != (a + b)[j] {
      if i < |a| <= j {
        assert (a + b)[i] in a && (a + b)[j] == b[j - |a|];
      } else if |a| <= i {
        assert (a + b)[i] == b[i - |a|] && (a + b)[j] == b[j - |a|];
      }
    }
  }

  lemma DistinctPrefix<T>(s: seq<T>, n: nat)
    requires Distinct(s) && n <= |s|
    ensures Distinct(s[..n])
  {
  }

  /** Writing a key's own row again leaves a table as it was. */
  lemma RewriteSame<K, V>(m: map<K, V>, k: K, v: V)
    requires k in m && m[k] == v
    ensures m[k := v] == m
  {
  }

  /** Overriding a table by an updated table is updating the overridden one. */
  lemma OverrideUpdate<K, V>(m: map<K, V>, t: map<K, V>, k: K, v: V)
    ensures (m + t)[k := v] == m + t[k := v]
  {
  }

  /** Adding rows under keys not yet in a table leaves its rows as they were. */
  lemma KeyedMergeKeeps<K, R>(m: map<K, R>, rows: seq<R>, key: R -> K)
    requires forall r | r in rows :: key(r) !in m
    ensures (m + Keyed(rows, key)).Keys == m.Keys + Keyed(rows, key).Keys
    ensures forall k | k in m :: (m + Keyed(rows, key))[k] == m[k]
  {
  }
}
