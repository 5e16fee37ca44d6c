/** Python's insertion-ordered `dict` with string keys, as a sequence of
    key/value pairs in insertion order. Both the client's parameter table and
    its settings live in one. */
module OrderedDict {
  import opened PyValues

  type Table = seq<(string, Value)>

  function Keys(t: Table): seq<string> {
    seq(|t|, i requires 0 <= i < |t| => t[i].0)
  }

  /** `k in d`. */
  predicate HasKey(t: Table, k: string) {
    k in Keys(t)
  }

  /** A dict never holds a key twice. */
  predicate DistinctKeys(t: Table) {
    forall i, j :: 0 <= i < j < |t| ==> t[i].0 != t[j].0
  }

  /** `d[k]` guarded by `except KeyError: return None`: the stored value,
      or None for a key the dict does not hold. */
  function Get(t: Table, k: string): (v: Value)
    ensures !HasKey(t, k) ==> v == PyNone
    decreases |t|
  {
    if t == [] then PyNone
    else if t[0].0 == k then assert Keys(t)[0] == k; t[0].1
    else
      assert HasKey(t[1..], k) ==> HasKey(t, k) by {
        if HasKey(t[1..], k) {
          var i :| 0 <= i < |t[1..]| && Keys(t[1..])[i] == k;
          assert Keys(t)[i + 1] == k;
        }
      }
      Get(t[1..], k)
  }

  /** `d[k] = v` for a key the dict already holds: the entry keeps its place. */
  function Set(t: Table, k: string, v: Value): Table {
    seq(|t|, i requires 0 <= i < |t| => if t[i].0 == k then (k, v) else t[i])
  }

  /** `d.pop(k)`: the dict without the entry for `k`, order kept. */
  function Remove(t: Table, k: string): Table
    decreases |t|
  {
    if t == [] then []
    else if t[0].0 == k then Remove(t[1..], k)
    else [t[0]] + Remove(t[1..], k)
  }

  /** Looking a key up finds the value stored with it. */
  lemma {:induction false} GetAt(t: Table, i: int)
    requires DistinctKeys(t)
    requires 0 <= i < |t|
    ensures Get(t, t[i].0) == t[i].1
    decreases |t|
  {
    if i > 0 {
      assert t[0].0 != t[i].0;
      GetAt(t[1..], i - 1);
    }
  }

  /** Every entry is found by looking its key up. */
  lemma GetFound(t: Table, k: string)
    requires DistinctKeys(t)
    ensures forall i :: 0 <= i < |t| && t[i].0 == k ==> Get(t, k) == t[i].1
  {
    forall i | 0 <= i < |t| && t[i].0 == k ensures Get(t, k) == t[i].1 {
      GetAt(t, i);
    }
  }

  /** Two dicts with the same key sequence are both free of duplicates or
      neither is. */
  lemma SameKeysDistinct(t: Table, u: Table)
    requires Keys(t) == Keys(u) && DistinctKeys(u)
    ensures DistinctKeys(t)
  {
    forall i, j | 0 <= i < j < |t| ensures t[i].0 != t[j].0 {
      assert Keys(t)[i] == Keys(u)[i] && Keys(t)[j] == Keys(u)[j];
    }
  }

  /** Assignment to an existing key never changes the key sequence, so the
      dict keeps its keys, their order and their distinctness. */
  lemma SetKeepsKeys(t: Table, k: string, v: Value)
    ensures Keys(Set(t, k, v)) == Keys(t)
    ensures DistinctKeys(t) ==> DistinctKeys(Set(t, k, v))
  {
    var r := Set(t, k, v);
    assert forall i :: 0 <= i < |t| ==> Keys(r)[i] == Keys(t)[i];
  }

  /** Assignment followed by a lookup of the same key gives the assigned
      value; every other key keeps its value. */
  lemma {:induction false} GetSet(t: Table, k: string, v: Value, other: string)
    requires DistinctKeys(t) && HasKey(t, k)
    ensures Get(Set(t, k, v), k) == v
    ensures other != k ==> Get(Set(t, k, v), other) == Get(t, other)
    decreases |t|
  {
    var r := Set(t, k, v);
    assert r[1..] == Set(t[1..], k, v);
    if t[0].0 != k {
      var i :| 0 <= i < |t| && Keys(t)[i] == k;
      assert Keys(t[1..])[i - 1] == k;
      GetSet(t[1..], k, v, other);
    } else if other != k {
      assert !HasKey(t[1..], k) by {
        forall i | 0 <= i < |t[1..]| ensures Keys(t[1..])[i] != k {
          assert t[i + 1].0 != t[0].0;
        }
      }
      assert forall i :: 0 <= i < |t[1..]| ==> r[1..][i] == t[1..][i];
      assert r[1..] == t[1..];
    }
  }

  /** The keys of a dict with one entry in front. */
  lemma KeysCons(e: (string, Value), t: Table)
    ensures Keys([e] + t) == [e.0] + Keys(t)
  {
    assert forall i :: 0 <= i < |t| ==> Keys([e] + t)[i + 1] == Keys(t)[i];
  }

  /** `pop` removes exactly the popped key, keeps the others in order, and
      their values with them. */
  lemma {:induction false} RemoveSpec(t: Table, k: string, other: string)
    requires DistinctKeys(t)
    ensures !HasKey(Remove(t, k), k)
    ensures DistinctKeys(Remove(t, k))
    ensures other != k ==> (HasKey(Remove(t, k), other) <==> HasKey(t, other))
    ensures other != k ==> Get(Remove(t, k), other) == Get(t, other)
    decreases |t|
  {
    if t != [] {
      RemoveSpec(t[1..], k, other);
      RemoveKeysSub(t[1..], k);
      KeysCons(t[0], t[1..]);
      assert t == [t[0]] + t[1..];
      var rest := Remove(t[1..], k);
      if t[0].0 != k {
        var r := [t[0]] + rest;
        assert Remove(t, k) == r;
        KeysCons(t[0], rest);
        assert !HasKey(t[1..], t[0].0) by {
          forall i | 0 <= i < |t[1..]| ensures Keys(t[1..])[i] != t[0].0 {
            assert t[i + 1].0 != t[0].0;
          }
        }
        forall i, j | 0 <= i < j < |r| ensures r[i].0 != r[j].0 {
          assert r[j].0 == Keys(rest)[j - 1];
          if i > 0 {
            assert r[i] == rest[i - 1];
          }
        }
        assert r[1..] == rest;
      }
    }
  }

  /** Every key left after a `pop` was a key before it. */
  lemma {:induction false} RemoveKeysSub(t: Table, k: string)
    ensures forall x :: HasKey(Remove(t, k), x) ==> HasKey(t, x) && x != k
    decreases |t|
  {
    if t != [] {
      RemoveKeysSub(t[1..], k);
      KeysCons(t[0], t[1..]);
      assert t == [t[0]] + t[1..];
      if t[0].0 != k {
        assert Remove(t, k) == [t[0]] + Remove(t[1..], k);
        KeysCons(t[0], Remove(t[1..], k));
        forall x | HasKey(Remove(t, k), x) ensures HasKey(t, x) && x != k {
          if x != t[0].0 {
            assert HasKey(Remove(t[1..], k), x);
          }
        }
      }
    }
  }
}
