/**
 The insertion-ordered dictionary that the translator fills in with
 `columns[name] = value`: assigning to a new key appends it at the end of the
 key order, assigning to a key already present replaces its value and leaves
 the key where it was.
 */
module PyDict {

  /** No element of `s` occurs twice. */
  ghost predicate NoDuplicates<T>(s: seq<T>)
  {
    forall i, j :: 0 <= i < j < |s| ==> s[i] != s[j]
  }

  /** The keys of a list of (key, value) assignments, in order. */
  function Names<V>(ps: seq<(string, V)>): (ns: seq<string>)
    ensures |ns| == |ps|
    ensures forall i :: 0 <= i < |ps| ==> ns[i] == ps[i].0
  {
    if ps == [] then [] else [ps[0].0] + Names(ps[1..])
  }

  /** The keys of two lists of assignments one after the other. */
  lemma NamesAppend<V>(a: seq<(string, V)>, b: seq<(string, V)>)
    ensures Names(a + b) == Names(a) + Names(b)
  {
  }

  /** A dictionary: its keys in insertion order, and the value of each key. */
  datatype Dict<V> = Dict(keys: seq<string>, entries: map<string, V>)
  {
    /** Every key is listed exactly once, and the listed keys are the keys that have a value. */
    ghost predicate Valid()
    {
      && NoDuplicates(keys)
      && (forall k :: k in entries <==> k in keys)
    }

    /** `d[k] = v`. */
    function Put(k: string, v: V): (d: Dict<V>)
      requires Valid()
      ensures d.Valid()
      ensures d.entries == entries[k := v]
      ensures |d.keys| == |keys| + (if k in entries then 0 else 1)
      ensures d.keys[..|keys|] == keys
      ensures k !in entries ==> d.keys[|keys|] == k
    {
      if k in entries then Dict(keys, entries[k := v]) else Dict(keys + [k], entries[k := v])
    }
  }

  /** `{}`. */
  function Empty<V>(): (d: Dict<V>)
    ensures d.Valid() && d.keys == [] && d.entries == map[]
  {
    Dict([], map[])
  }

  /** The assignments `d[k] = v` for each pair of `ps`, one after another. */
  function PutAll<V>(d: Dict<V>, ps: seq<(string, V)>): (r: Dict<V>)
    requires d.Valid()
    ensures r.Valid()
    decreases |ps|
  {
    if ps == [] then d else PutAll(d.Put(ps[0].0, ps[0].1), ps[1..])
  }

  /** A single assignment. */
  lemma PutAllOne<V>(d: Dict<V>, k: string, v: V)
    requires d.Valid()
    ensures PutAll(d, [(k, v)]) == d.Put(k, v)
  {
  }

  /** Assigning `a` and then `b` is assigning `a + b`. */
  lemma {:induction false} PutAllAppend<V>(d: Dict<V>, a: seq<(string, V)>, b: seq<(string, V)>)
    requires d.Valid()
    ensures PutAll(d, a + b) == PutAll(PutAll(d, a), b)
    decreases |a|
  {
    if a == [] {
      assert a + b == b;
    } else {
      assert (a + b)[0] == a[0];
      assert (a + b)[1..] == a[1..] + b;
      PutAllAppend(d.Put(a[0].0, a[0].1), a[1..], b);
    }
  }

  /**
   After the assignments, the keys are the old keys and the assigned ones; the
   old keys keep their places at the front; no more keys are added than there
   are assignments; and a key that was never assigned keeps its old value.
   */
  lemma {:induction false} PutAllKeys<V>(d: Dict<V>, ps: seq<(string, V)>)
    requires d.Valid()
    ensures forall k :: k in PutAll(d, ps).entries <==> k in d.entries || k in Names(ps)
    ensures |d.keys| <= |PutAll(d, ps).keys| <= |d.keys| + |ps|
    ensures PutAll(d, ps).keys[..|d.keys|] == d.keys
    ensures forall k :: k in d.entries && k !in Names(ps) ==> PutAll(d, ps).entries[k] == d.entries[k]
    decreases |ps|
  {
    if ps != [] {
      var d' := d.Put(ps[0].0, ps[0].1);
      PutAllKeys(d', ps[1..]);
      assert Names(ps) == [ps[0].0] + Names(ps[1..]);
      var r := PutAll(d', ps[1..]);
      assert r.keys[..|d.keys|] == r.keys[..|d'.keys|][..|d.keys|];
    }
  }

  /** The value a key ends up with is the one of the last assignment to it. */
  lemma {:induction false} PutAllLastWins<V>(d: Dict<V>, ps: seq<(string, V)>, i: nat)
    requires d.Valid()
    requires i < |ps|
    requires forall j :: i < j < |ps| ==> ps[j].0 != ps[i].0
    ensures ps[i].0 in PutAll(d, ps).entries
    ensures PutAll(d, ps).entries[ps[i].0] == ps[i].1
    decreases |ps|
  {
    var d' := d.Put(ps[0].0, ps[0].1);
    if i == 0 {
      PutAllKeys(d', ps[1..]);
      assert ps[0].0 !in Names(ps[1..]) by {
        forall j | 0 <= j < |ps[1..]| ensures Names(ps[1..])[j] != ps[0].0 {
          assert ps[1..][j] == ps[j + 1];
        }
      }
    } else {
      forall j | i - 1 < j < |ps[1..]| ensures ps[1..][j].0 != ps[1..][i - 1].0 {
        assert ps[1..][j] == ps[j + 1];
      }
      PutAllLastWins(d', ps[1..], i - 1);
    }
  }

  /** Sequence concatenation is associative. */
  lemma AppendAssoc<T>(a: seq<T>, b: seq<T>, c: seq<T>)
    ensures (a + b) + c == a + (b + c)
  {
  }

  /** The prefix one longer is the prefix and the next element. */
  lemma PrefixSnoc<T>(s: seq<T>, i: nat)
    requires i < |s|
    ensures s[..i + 1] == s[..i] + [s[i]]
  {
  }

  /** Dropping the first element keeps a list free of duplicates, and that element is not in the rest. */
  lemma NoDuplicatesTail<T>(s: seq<T>)
    requires |s| > 0 && NoDuplicates(s)
    ensures NoDuplicates(s[1..]) && s[0] !in s[1..]
  {
  }

  /**
   When every assignment is to a key not yet present and no key is assigned
   twice, each assignment appends its key: the key order is the old order
   followed by the assigned keys in order.
   */
  lemma {:induction false} PutAllFreshKeys<V>(d: Dict<V>, ps: seq<(string, V)>)
    requires d.Valid()
    requires NoDuplicates(Names(ps))
    requires forall k :: k in Names(ps) ==> k !in d.entries
    ensures PutAll(d, ps).keys == d.keys + Names(ps)
    decreases |ps|
  {
    if ps == [] {
      assert d.keys + [] == d.keys;
    } else {
      var d' := d.Put(ps[0].0, ps[0].1);
      var ns := Names(ps);
      assert ns[0] == ps[0].0;
      assert ps[0].0 !in d.entries;
      assert d'.keys == d.keys + [ps[0].0];
      assert ns[1..] == Names(ps[1..]);
      NoDuplicatesTail(ns);
      assert forall k :: k in Names(ps[1..]) ==> k !in d'.entries by {
        forall k | k in Names(ps[1..]) ensures k !in d'.entries {
          assert k in ns && k != ns[0];
        }
      }
      PutAllFreshKeys(d', ps[1..]);
      assert PutAll(d, ps) == PutAll(d', ps[1..]);
      assert ns == [ps[0].0] + ns[1..];
      AppendAssoc(d.keys, [ps[0].0], ns[1..]);
    }
  }

  /**
   Under the same conditions, the `p`-th assignment's key stands at its place
   after the old keys and keeps the value it was assigned.
   */
  lemma PutAllFreshKeysAt<V>(d: Dict<V>, ps: seq<(string, V)>, p: nat)
    requires d.Valid()
    requires NoDuplicates(Names(ps))
    requires forall k :: k in Names(ps) ==> k !in d.entries
    requires p < |ps|
    ensures |d.keys| + p < |PutAll(d, ps).keys|
    ensures PutAll(d, ps).keys[|d.keys| + p] == ps[p].0
    ensures ps[p].0 in PutAll(d, ps).entries
    ensures PutAll(d, ps).entries[ps[p].0] == ps[p].1
  {
    PutAllFreshKeys(d, ps);
    forall j | p < j < |ps| ensures ps[j].0 != ps[p].0 {
      assert Names(ps)[j] == ps[j].0 && Names(ps)[p] == ps[p].0;
    }
    PutAllLastWins(d, ps, p);
  }

  /**
   Starting from `{}` with no key assigned twice, the `p`-th assignment `(k, v)`
   puts `k` at position `p` with value `v`.
   */
  lemma PutAllFreshEntry<V>(ps: seq<(string, V)>, p: nat, k: string, v: V)
    requires NoDuplicates(Names(ps))
    requires p < |ps| && ps[p] == (k, v)
    ensures p < |PutAll(Empty(), ps).keys| && PutAll(Empty(), ps).keys[p] == k
    ensures k in PutAll(Empty(), ps).entries && PutAll(Empty(), ps).entries[k] == v
  {
    PutAllFreshKeysAt(Empty(), ps, p);
  }

  /** Under the same conditions, two assignments in a row put their keys at two neighbouring positions. */
  lemma PutAllFreshPair<V>(ps: seq<(string, V)>, p: nat, k1: string, v1: V, k2: string, v2: V)
    requires NoDuplicates(Names(ps))
    requires p + 1 < |ps| && ps[p] == (k1, v1) && ps[p + 1] == (k2, v2)
    ensures p + 1 < |PutAll(Empty(), ps).keys|
    ensures PutAll(Empty(), ps).keys[p] == k1 && PutAll(Empty(), ps).keys[p + 1] == k2
    ensures k2 in PutAll(Empty(), ps).entries && PutAll(Empty(), ps).entries[k2] == v2
  {
    var r := PutAll(Empty(), ps);
    assert r.keys == Names(ps) by {
      PutAllFreshKeys(Empty(), ps);
    }
    assert k2 in r.entries && r.entries[k2] == v2 by {
      forall j | p + 1 < j < |ps| ensures ps[j].0 != ps[p + 1].0 {
        assert Names(ps)[j] == ps[j].0 && Names(ps)[p + 1] == ps[p + 1].0;
      }
      PutAllLastWins(Empty(), ps, p + 1);
    }
  }
}
