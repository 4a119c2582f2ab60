/**
 The value-level meaning of an accumulation phase: what the stored map or set
 holds after a sequence of inserts, each applied as one atomic step, with no
 consume in between. The container classes in module ConcurrentContainers
 change their storage one insert at a time; the folds below describe a whole
 run of such inserts, and the lemmas state what the source promises about it:
 last write wins per key, untouched keys keep their value, nothing inserted is
 lost, and a set insert is a union.
 */
module Accumulation {

  /** The keys named by a sequence of (key, value) writes. */
  function WrittenKeys<K, V>(writes: seq<(K, V)>): (ks: set<K>)
    ensures forall i :: 0 <= i < |writes| ==> writes[i].0 in ks
    ensures forall k :: k in ks ==> exists i :: 0 <= i < |writes| && writes[i].0 == k
  {
    set i | 0 <= i < |writes| :: writes[i].0
  }

  /** The elements of a sequence of inserted values. */
  function Elements<T>(xs: seq<T>): (es: set<T>)
    ensures forall i :: 0 <= i < |xs| ==> xs[i] in es
    ensures forall x :: x in es ==> exists i :: 0 <= i < |xs| && xs[i] == x
  {
    set i | 0 <= i < |xs| :: xs[i]
  }

  /**
   The map obtained by applying `writes` to `m` in order, each one as an
   insert_or_assign. Its keys are the old keys together with every key written.
   */
  function AssignAll<K, V>(m: map<K, V>, writes: seq<(K, V)>): (r: map<K, V>)
    ensures r.Keys == m.Keys + WrittenKeys(writes)
    decreases |writes|
  {
    if writes == [] then m
    else
      assert WrittenKeys(writes) == {writes[0].0} + WrittenKeys(writes[1..]);
      AssignAll(m[writes[0].0 := writes[0].1], writes[1..])
  }

  /** One more insert_or_assign after a run of them extends the fold by one step. */
  lemma {:induction false} AssignAllSnoc<K, V>(m: map<K, V>, writes: seq<(K, V)>, key: K, value: V)
    ensures AssignAll(m, writes + [(key, value)]) == AssignAll(m, writes)[key := value]
    decreases |writes|
  {
    if writes == [] {
      assert writes + [(key, value)] == [(key, value)];
    } else {
      assert (writes + [(key, value)])[1..] == writes[1..] + [(key, value)];
      AssignAllSnoc(m[writes[0].0 := writes[0].1], writes[1..], key, value);
    }
  }

  /** A key that no write names keeps its earlier mapping, or stays absent. */
  lemma {:induction false} AssignAllUntouched<K, V>(m: map<K, V>, writes: seq<(K, V)>, key: K)
    requires forall i :: 0 <= i < |writes| ==> writes[i].0 != key
    ensures key in AssignAll(m, writes) <==> key in m
    ensures key in m ==> AssignAll(m, writes)[key] == m[key]
    decreases |writes|
  {
    if writes != [] {
      AssignAllUntouched(m[writes[0].0 := writes[0].1], writes[1..], key);
    }
  }

  /** Last write wins: the final value of a key is that of its last write. */
  lemma {:induction false} AssignAllLastWriteWins<K, V>(m: map<K, V>, writes: seq<(K, V)>, i: nat)
    requires i < |writes|
    requires forall j :: i < j < |writes| ==> writes[j].0 != writes[i].0
    ensures writes[i].0 in AssignAll(m, writes)
    ensures AssignAll(m, writes)[writes[i].0] == writes[i].1
    decreases |writes|
  {
    var m' := m[writes[0].0 := writes[0].1];
    if i == 0 {
      AssignAllUntouched(m', writes[1..], writes[0].0);
    } else {
      AssignAllLastWriteWins(m', writes[1..], i - 1);
    }
  }

  /**
   Writes to pairwise distinct keys, none already present, are all kept: the
   result has exactly one more entry per write and every written pair in it.
   */
  lemma {:induction false} AssignAllDistinct<K, V>(m: map<K, V>, writes: seq<(K, V)>)
    requires forall i, j :: 0 <= i < j < |writes| ==> writes[i].0 != writes[j].0
    requires forall i :: 0 <= i < |writes| ==> writes[i].0 !in m
    ensures |AssignAll(m, writes)| == |m| + |writes|
    ensures forall i :: 0 <= i < |writes| ==>
              writes[i].0 in AssignAll(m, writes) && AssignAll(m, writes)[writes[i].0] == writes[i].1
    decreases |writes|
  {
    if writes != [] {
      var m' := m[writes[0].0 := writes[0].1];
      AssignAllDistinct(m', writes[1..]);
      assert |AssignAll(m, writes)| == |m'| + |writes[1..]|;
    }
    forall i | 0 <= i < |writes|
      ensures writes[i].0 in AssignAll(m, writes) && AssignAll(m, writes)[writes[i].0] == writes[i].1
    {
      AssignAllLastWriteWins(m, writes, i);
    }
  }

  /** The set obtained by inserting `xs` into `s` in order: their union. */
  function InsertAll<T>(s: set<T>, xs: seq<T>): (r: set<T>)
    ensures r == s + Elements(xs)
    decreases |xs|
  {
    if xs == [] then s
    else
      assert Elements(xs) == {xs[0]} + Elements(xs[1..]);
      InsertAll(s + {xs[0]}, xs[1..])
  }

  /** One more insert after a run of them extends the fold by one step. */
  lemma InsertAllSnoc<T>(s: set<T>, xs: seq<T>, x: T)
    ensures InsertAll(s, xs + [x]) == InsertAll(s, xs) + {x}
  {
    var ys := xs + [x];
    assert ys[|xs|] == x;
    assert forall i :: 0 <= i < |xs| ==> ys[i] == xs[i];
    assert Elements(ys) == Elements(xs) + {x};
  }

  /** Inserting the same run a second time changes nothing. */
  lemma InsertAllIdempotent<T>(s: set<T>, xs: seq<T>)
    ensures InsertAll(InsertAll(s, xs), xs) == InsertAll(s, xs)
  {
  }

  /**
   Distinct values, none already present, are all kept: the result grows by
   exactly one element per insert.
   */
  lemma {:induction false} InsertAllDistinctSize<T>(s: set<T>, xs: seq<T>)
    requires forall i, j :: 0 <= i < j < |xs| ==> xs[i] != xs[j]
    requires forall i :: 0 <= i < |xs| ==> xs[i] !in s
    ensures |InsertAll(s, xs)| == |s| + |xs|
    decreases |xs|
  {
    if xs != [] {
      InsertAllDistinctSize(s + {xs[0]}, xs[1..]);
    }
  }
}
