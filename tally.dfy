/** The `dict[str, int]` accumulators of `app/main.py` (`by_app`, `by_group`,
    `by_category`, the window counts), updated as `d[k] = d.get(k, 0) + n`. A Python
    dict keeps its keys in insertion order, so a tally is a sequence of entries with
    distinct keys. */
module Tally {
  import opened Wrappers

  type Tally = seq<(string, int)>

  predicate DistinctKeys(t: Tally) {
    forall i, j :: 0 <= i < j < |t| ==> t[i].0 != t[j].0
  }

  function Keys(t: Tally): set<string> {
    set i | 0 <= i < |t| :: t[i].0
  }

  /** `d.get(k, 0)`. */
  function Get(t: Tally, k: string): int
    decreases |t|
  {
    if t == [] then 0 else if t[0].0 == k then t[0].1 else Get(t[1..], k)
  }

  /** The sum of all values. */
  function Sum(t: Tally): int
    decreases |t|
  {
    if t == [] then 0 else t[0].1 + Sum(t[1..])
  }

  lemma KeysCons(t: Tally)
    requires t != []
    ensures Keys(t) == {t[0].0} + Keys(t[1..])
  {
    forall x | x in Keys(t) ensures x in {t[0].0} + Keys(t[1..]) {
      var i :| 0 <= i < |t| && t[i].0 == x;
      if i > 0 { assert t[1..][i - 1] == t[i]; }
    }
    forall x | x in Keys(t[1..]) ensures x in Keys(t) {
      var i :| 0 <= i < |t[1..]| && t[1..][i].0 == x;
      assert t[i + 1] == t[1..][i];
    }
  }

  /** A key that was never added reads as zero. */
  lemma {:induction false} GetAbsent(t: Tally, k: string)
    requires k !in Keys(t)
    ensures Get(t, k) == 0
    decreases |t|
  {
    if t != [] {
      GetAbsent(t[1..], k);
    }
  }

  /** Where `k` stands in `t`, if anywhere. */
  function IndexOf(t: Tally, k: string): (r: Option<nat>)
    ensures r.None? <==> k !in Keys(t)
    ensures r.Some? ==> r.value < |t| && t[r.value].0 == k
    decreases |t|
  {
    if t == [] then None
    else
      KeysCons(t);
      if t[0].0 == k then Some(0)
      else match IndexOf(t[1..], k)
        case None => None
        case Some(i) => Some(i + 1)
  }

  /** In a tally with distinct keys, the entry at index `i` is what its key reads as. */
  lemma {:induction false} GetAt(t: Tally, i: nat)
    requires DistinctKeys(t) && i < |t|
    ensures Get(t, t[i].0) == t[i].1
    decreases |t|
  {
    if i > 0 {
      GetAt(t[1..], i - 1);
    }
  }

  /** Changing the value at index `i` changes no other key's reading. */
  lemma {:induction false} GetUpdateOther(t: Tally, i: nat, v: int, k: string)
    requires i < |t| && t[i].0 != k
    ensures Get(t[i := (t[i].0, v)], k) == Get(t, k)
    decreases |t|
  {
    if i > 0 {
      GetUpdateOther(t[1..], i - 1, v, k);
      assert t[i := (t[i].0, v)][1..] == t[1..][i - 1 := (t[i].0, v)];
    }
  }

  /** Changing the value at index `i` from `t[i].1` to `v` moves the sum by the difference. */
  lemma {:induction false} SumUpdate(t: Tally, i: nat, v: int)
    requires i < |t|
    ensures Sum(t[i := (t[i].0, v)]) == Sum(t) - t[i].1 + v
    decreases |t|
  {
    if i > 0 {
      SumUpdate(t[1..], i - 1, v);
      assert t[i := (t[i].0, v)][1..] == t[1..][i - 1 := (t[i].0, v)];
    }
  }

  /** Appending an entry with a new key leaves every other key's reading alone. */
  lemma {:induction false} GetAppend(t: Tally, x: (string, int), k: string)
    requires x.0 !in Keys(t)
    ensures Get(t + [x], k) == if k == x.0 then x.1 else Get(t, k)
    decreases |t|
  {
    if t != [] {
      KeysCons(t);
      assert (t + [x])[1..] == t[1..] + [x];
      GetAppend(t[1..], x, k);
    }
  }

  lemma {:induction false} SumAppend(t: Tally, x: (string, int))
    ensures Sum(t + [x]) == Sum(t) + x.1
    decreases |t|
  {
    if t != [] {
      assert (t + [x])[1..] == t[1..] + [x];
      SumAppend(t[1..], x);
    }
  }

  /** `d[k] = d.get(k, 0) + n`: the entry for `k` grows by `n` where it stands, or a new
      entry is appended; every other key keeps its value and its place. */
  function AddTo(t: Tally, k: string, n: int): (r: Tally)
    requires DistinctKeys(t)
    ensures DistinctKeys(r)
    ensures Get(r, k) == Get(t, k) + n
    ensures forall k' :: k' != k ==> Get(r, k') == Get(t, k')
    ensures Sum(r) == Sum(t) + n
    ensures Keys(r) == Keys(t) + {k}
    ensures k in Keys(t) ==> |r| == |t|
    ensures k !in Keys(t) ==> |r| == |t| + 1 && r[|t|] == (k, n)
    ensures forall i :: 0 <= i < |t| ==> r[i].0 == t[i].0
  {
    match IndexOf(t, k)
    case None =>
      AppendNewKey(t, k, n);
      t + [(k, n)]
    case Some(i) =>
      BumpExistingKey(t, k, n, i);
      t[i := (k, t[i].1 + n)]
  }

  /** Appending an entry for a key not yet present. */
  lemma AppendNewKey(t: Tally, k: string, n: int)
    requires DistinctKeys(t) && k !in Keys(t)
    ensures DistinctKeys(t + [(k, n)])
    ensures Get(t + [(k, n)], k) == Get(t, k) + n
    ensures forall k' :: k' != k ==> Get(t + [(k, n)], k') == Get(t, k')
    ensures Sum(t + [(k, n)]) == Sum(t) + n
    ensures Keys(t + [(k, n)]) == Keys(t) + {k}
  {
    var r := t + [(k, n)];
    forall k' ensures Get(r, k') == if k' == k then n else Get(t, k') {
      GetAppend(t, (k, n), k');
    }
    GetAbsent(t, k);
    SumAppend(t, (k, n));
    assert forall x :: x in Keys(r) <==> x in Keys(t) || x == k by {
      forall x ensures x in Keys(r) <==> x in Keys(t) || x == k {
        if x in Keys(t) {
          var i :| 0 <= i < |t| && t[i].0 == x;
          assert r[i] == t[i];
        }
        assert r[|t|].0 == k;
      }
    }
  }

  /** Raising the value of the entry at `i`, whose key is `k`. */
  lemma BumpExistingKey(t: Tally, k: string, n: int, i: nat)
    requires DistinctKeys(t) && i < |t| && t[i].0 == k
    ensures DistinctKeys(t[i := (k, t[i].1 + n)])
    ensures Get(t[i := (k, t[i].1 + n)], k) == Get(t, k) + n
    ensures forall k' :: k' != k ==> Get(t[i := (k, t[i].1 + n)], k') == Get(t, k')
    ensures Sum(t[i := (k, t[i].1 + n)]) == Sum(t) + n
    ensures Keys(t[i := (k, t[i].1 + n)]) == Keys(t)
  {
    var r := t[i := (k, t[i].1 + n)];
    GetAt(t, i);
    GetAt(r, i);
    forall k' | k' != k ensures Get(r, k') == Get(t, k') {
      GetUpdateOther(t, i, t[i].1 + n, k');
    }
    SumUpdate(t, i, t[i].1 + n);
    assert forall x :: x in Keys(r) <==> x in Keys(t) by {
      forall x ensures x in Keys(r) <==> x in Keys(t) {
        if x in Keys(t) {
          var j :| 0 <= j < |t| && t[j].0 == x;
          assert r[j].0 == x;
        }
        if x in Keys(r) {
          var j :| 0 <= j < |r| && r[j].0 == x;
          assert t[j].0 == x;
        }
      }
    }
  }

  /** A tally of non-negative amounts has a non-negative sum bounded below by each value. */
  lemma {:induction false} SumBoundsEntries(t: Tally, k: string)
    requires forall i :: 0 <= i < |t| ==> t[i].1 >= 0
    ensures 0 <= Get(t, k) <= Sum(t)
    decreases |t|
  {
    if t != [] {
      SumBoundsEntries(t[1..], k);
    }
  }
}
