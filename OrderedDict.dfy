/** Python's dict as the scraper uses it: an insertion-ordered table from
    string keys to values. Assigning to a key that is present replaces its
    value where it stands; assigning to a new key appends it. */
module OrderedDict {
  import opened Wrappers

  type Dict<V> = seq<(string, V)>

  /** list(d.keys()): the keys in insertion order. */
  function Keys<V>(d: Dict<V>): (ks: seq<string>)
    ensures |ks| == |d|
  {
    seq(|d|, i requires 0 <= i < |d| => d[i].0)
  }

  /** A Python dict never holds the same key twice. */
  predicate Distinct<V>(d: Dict<V>)
  {
    forall i, j | 0 <= i < j < |d| :: d[i].0 != d[j].0
  }

  /** d.get(k): the value stored under k, or None when k is absent. */
  function Get<V>(d: Dict<V>, k: string): Option<V>
  {
    if d == [] then None
    else if d[0].0 == k then Some(d[0].1)
    else Get(d[1..], k)
  }

  /** d[k] = v. */
  function Set<V>(d: Dict<V>, k: string, v: V): Dict<V>
  {
    if d == [] then [(k, v)]
    else if d[0].0 == k then [(k, v)] + d[1..]
    else [d[0]] + Set(d[1..], k, v)
  }

  /** d.pop(k, None), its result discarded: an absent key is no error. */
  function Pop<V>(d: Dict<V>, k: string): Dict<V>
  {
    if d == [] then []
    else if d[0].0 == k then d[1..]
    else [d[0]] + Pop(d[1..], k)
  }

  /** The entries of d whose key is not k, in their order. */
  function Without<V>(d: Dict<V>, k: string): Dict<V>
  {
    if d == [] then []
    else (if d[0].0 == k then [] else [d[0]]) + Without(d[1..], k)
  }

  lemma KeysCons<V>(e: (string, V), d: Dict<V>)
    ensures Keys([e] + d) == [e.0] + Keys(d)
  {
  }

  /** A lookup finds a key exactly when the key is present, and finds its stored value. */
  lemma {:induction false} GetSpec<V>(d: Dict<V>, k: string)
    ensures Get(d, k).None? <==> k !in Keys(d)
    ensures Get(d, k).Some? ==> (k, Get(d, k).value) in d
    ensures forall i | 0 <= i < |d| && Distinct(d) && d[i].0 == k :: Get(d, k) == Some(d[i].1)
  {
    if d != [] {
      GetSpec(d[1..], k);
      KeysCons(d[0], d[1..]);
      assert d == [d[0]] + d[1..];
      forall i | 0 <= i < |d| && Distinct(d) && d[i].0 == k
        ensures Get(d, k) == Some(d[i].1)
      {
        if i > 0 {
          assert d[1..][i - 1] == d[i];
        }
      }
    }
  }

  /** d[k] = v keeps the key order, appending k only when it is new; afterwards
      k maps to v and every other key keeps its value. */
  lemma {:induction false} SetSpec<V>(d: Dict<V>, k: string, v: V)
    ensures Keys(Set(d, k, v)) == if k in Keys(d) then Keys(d) else Keys(d) + [k]
    ensures Get(Set(d, k, v), k) == Some(v)
    ensures forall k' | k' != k :: Get(Set(d, k, v), k') == Get(d, k')
  {
    if d != [] {
      KeysCons(d[0], d[1..]);
      assert d == [d[0]] + d[1..];
      if d[0].0 == k {
        KeysCons((k, v), d[1..]);
      } else {
        SetSpec(d[1..], k, v);
        KeysCons(d[0], Set(d[1..], k, v));
        assert Set(d, k, v)[1..] == Set(d[1..], k, v);
      }
    }
  }

  /** Assignment keeps the keys distinct. */
  lemma {:induction false} SetDistinct<V>(d: Dict<V>, k: string, v: V)
    requires Distinct(d)
    ensures Distinct(Set(d, k, v))
  {
    SetSpec(d, k, v);
    var r := Set(d, k, v);
    assert Keys(r)[..|Keys(d)|] == Keys(d);
    forall i, j | 0 <= i < j < |r| ensures r[i].0 != r[j].0 {
      assert Keys(r)[i] == r[i].0 && Keys(r)[j] == r[j].0;
      if j < |d| {
        assert Keys(d)[i] == d[i].0 && Keys(d)[j] == d[j].0;
      } else {
        assert Keys(d)[i] == d[i].0;
      }
    }
  }

  /** Assigning a key twice leaves only the second value, where the key stands. */
  lemma {:induction false} SetOverwrite<V>(d: Dict<V>, k: string, a: V, b: V)
    ensures Set(Set(d, k, a), k, b) == Set(d, k, b)
  {
    if d != [] && d[0].0 != k {
      SetOverwrite(d[1..], k, a, b);
      assert Set(d, k, a)[1..] == Set(d[1..], k, a);
    }
  }

  /** At the first position holding key k, a lookup finds that entry's value and
      an assignment replaces that entry where it stands. */
  lemma {:induction false} SetAt<V>(d: Dict<V>, t: nat, k: string, v: V)
    requires t < |d| && d[t].0 == k
    requires forall u | 0 <= u < t :: d[u].0 != k
    ensures Get(d, k) == Some(d[t].1)
    ensures Set(d, k, v) == d[t := (k, v)]
  {
    if t > 0 {
      SetAt(d[1..], t - 1, k, v);
      assert d == [d[0]] + d[1..];
    }
  }

  /** Removing the entries under k leaves the others, their values and their
      order; no entry under k remains. */
  lemma {:induction false} WithoutSpec<V>(d: Dict<V>, k: string)
    ensures k !in Keys(Without(d, k))
    ensures forall k' | k' != k :: Get(Without(d, k), k') == Get(d, k')
    ensures Distinct(d) ==> Distinct(Without(d, k))
    ensures forall e | e in Without(d, k) :: e in d
  {
    if d != [] {
      WithoutSpec(d[1..], k);
      var rest := Without(d[1..], k);
      assert d == [d[0]] + d[1..];
      forall e | e in Without(d, k) ensures e in d {
        if e in rest {
          assert e in d[1..];
        }
      }
      if d[0].0 == k {
        assert Without(d, k) == rest;
      } else {
        assert Without(d, k) == [d[0]] + rest;
        KeysCons(d[0], rest);
        forall k' | k' != k ensures Get(Without(d, k), k') == Get(d, k') {
          assert ([d[0]] + rest)[1..] == rest;
        }
      }
      if Distinct(d) {
        assert Distinct(d[1..]) by {
          forall a, b | 0 <= a < b < |d[1..]| ensures d[1..][a].0 != d[1..][b].0 {
            assert d[1..][a] == d[a + 1] && d[1..][b] == d[b + 1];
          }
        }
        forall e | e in rest ensures e.0 != d[0].0 {
          assert e in d[1..];
          var t :| 0 <= t < |d[1..]| && d[1..][t] == e;
          assert d[t + 1] == e;
        }
        if d[0].0 != k {
          var w := [d[0]] + rest;
          forall a, b | 0 <= a < b < |w| ensures w[a].0 != w[b].0 {
            assert w[b] == rest[b - 1];
            assert w[b] in rest;
            if a > 0 {
              assert w[a] == rest[a - 1];
            }
          }
        }
      }
    }
  }

  /** d.pop(k, None) on a dict: the entry under k goes, nothing else changes;
      when k is absent, the dict is left as it was. */
  lemma {:induction false} PopSpec<V>(d: Dict<V>, k: string)
    ensures k !in Keys(d) ==> Pop(d, k) == d
    ensures Distinct(d) ==> Pop(d, k) == Without(d, k)
  {
    if d != [] {
      PopSpec(d[1..], k);
      KeysCons(d[0], d[1..]);
      assert d == [d[0]] + d[1..];
      if Distinct(d) {
        assert Distinct(d[1..]) by {
          forall a, b | 0 <= a < b < |d[1..]| ensures d[1..][a].0 != d[1..][b].0 {
            assert d[1..][a] == d[a + 1] && d[1..][b] == d[b + 1];
          }
        }
        if d[0].0 == k {
          forall e | e in d[1..] ensures e.0 != k {
            var t :| 0 <= t < |d[1..]| && d[1..][t] == e;
            assert d[t + 1] == e;
          }
          WithoutAbsent(d[1..], k);
        }
      }
    }
  }

  /** Removing a key that is absent changes nothing. */
  lemma {:induction false} WithoutAbsent<V>(d: Dict<V>, k: string)
    requires forall e | e in d :: e.0 != k
    ensures Without(d, k) == d
  {
    if d != [] {
      assert d[0] in d;
      assert forall e | e in d[1..] :: e in d;
      WithoutAbsent(d[1..], k);
      assert d == [d[0]] + d[1..];
    }
  }

  /** d[k] = v for a new key k appends the entry. */
  lemma {:induction false} AppendNew<V>(d: Dict<V>, k: string, v: V)
    requires k !in Keys(d)
    ensures Set(d, k, v) == d + [(k, v)]
  {
    if d != [] {
      assert d[0].0 == Keys(d)[0];
      assert k !in Keys(d[1..]) by {
        forall a | 0 <= a < |d[1..]| ensures Keys(d[1..])[a] != k {
          assert Keys(d[1..])[a] == Keys(d)[a + 1];
        }
      }
      AppendNew(d[1..], k, v);
      assert d == [d[0]] + d[1..];
    }
  }
}
