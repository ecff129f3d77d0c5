/**
 The insertion-ordered object of the document: what its operations mean on a
 sequence of entries, and the class that keeps parallel slices and an index.
 */
module OrderedObject {
  import opened Options

  datatype Entry<+V> = Entry(key: string, raw: string, val: V)

  /** Position of `k`, or the length when it is absent. */
  function IndexOf<V>(es: seq<Entry<V>>, k: string): (i: nat)
    ensures i <= |es|
    ensures i < |es| ==> es[i].key == k
    ensures forall j :: 0 <= j < i ==> es[j].key != k
  {
    if es == [] || es[0].key == k then 0 else 1 + IndexOf(es[1..], k)
  }

  predicate Has<V>(es: seq<Entry<V>>, k: string) {
    IndexOf(es, k) < |es|
  }

  function At<V>(es: seq<Entry<V>>, k: string): V
    requires Has(es, k)
  {
    es[IndexOf(es, k)].val
  }

  /** An existing key keeps its position and its text. */
  function PutEntry<V>(es: seq<Entry<V>>, k: string, raw: string, v: V): seq<Entry<V>> {
    var i := IndexOf(es, k);
    if i < |es| then es[i := es[i].(val := v)] else es + [Entry(k, raw, v)]
  }

  function RemoveEntry<V>(es: seq<Entry<V>>, k: string): seq<Entry<V>> {
    var i := IndexOf(es, k);
    if i < |es| then es[..i] + es[i + 1..] else es
  }

  predicate Distinct<V>(es: seq<Entry<V>>) {
    forall i, j :: 0 <= i < j < |es| ==> es[i].key != es[j].key
  }

  function Keys<V>(es: seq<Entry<V>>): seq<string> {
    seq(|es|, i requires 0 <= i < |es| => es[i].key)
  }

  lemma IndexOfAt<V>(es: seq<Entry<V>>, i: nat)
    requires Distinct(es) && i < |es|
    ensures IndexOf(es, es[i].key) == i
  {
  }

  // ---- an insertion-ordered map ----

  lemma PutReads<V>(es: seq<Entry<V>>, k: string, raw: string, v: V, q: string)
    ensures Has(PutEntry(es, k, raw, v), q) <==> q == k || Has(es, q)
    ensures Has(PutEntry(es, k, raw, v), q) ==> At(PutEntry(es, k, raw, v), q) == if q == k then v else At(es, q)
  {
    var t := PutEntry(es, k, raw, v);
    var i, j := IndexOf(es, q), IndexOf(t, q);
    assert forall m :: 0 <= m < |es| ==> t[m].key == es[m].key;
    assert !Has(es, k) ==> t[|es|].key == k;
  }

  lemma RemoveReads<V>(es: seq<Entry<V>>, k: string, q: string)
    requires Distinct(es)
    ensures Has(RemoveEntry(es, k), q) <==> q != k && Has(es, q)
    ensures Has(RemoveEntry(es, k), q) ==> At(RemoveEntry(es, k), q) == At(es, q)
  {
    var t, i := RemoveEntry(es, k), IndexOf(es, k);
    assert forall m :: 0 <= m < |t| ==> t[m] == es[if m < i then m else m + 1];
    var j, h := IndexOf(es, q), IndexOf(t, q);
    if j < |es| && q != k {
      assert t[if j < i then j else j - 1] == es[j];
      IndexOfAt(es, j);
      assert t[h].key == q;
    }
  }

  /** Keys stay distinct; a new key goes last, texts stay. */
  lemma KeepsOrder<V>(es: seq<Entry<V>>, k: string, raw: string, v: V)
    requires Distinct(es)
    ensures Distinct(PutEntry(es, k, raw, v)) && Distinct(RemoveEntry(es, k))
    ensures Keys(PutEntry(es, k, raw, v)) == if Has(es, k) then Keys(es) else Keys(es) + [k]
    ensures forall i :: 0 <= i < |es| ==> PutEntry(es, k, raw, v)[i].raw == es[i].raw
    ensures !Has(es, k) ==> PutEntry(es, k, raw, v) == es + [Entry(k, raw, v)]
  {
  }

  /** A removed key leaves the others in their order. */
  lemma RemoveKeepsOrder<V>(es: seq<Entry<V>>, k: string, q: string, r: string)
    requires Distinct(es)
    requires Has(es, q) && Has(es, r) && q != k && r != k
    ensures IndexOf(RemoveEntry(es, k), q) < IndexOf(RemoveEntry(es, k), r) <==> IndexOf(es, q) < IndexOf(es, r)
  {
    var t, i := RemoveEntry(es, k), IndexOf(es, k);
    if i < |es| {
      var a, b := IndexOf(es, q), IndexOf(es, r);
      assert Distinct(t) by {
        KeepsOrder(es, k, "", es[0].val);
      }
      var c, d := if a < i then a else a - 1, if b < i then b else b - 1;
      assert t[c].key == q && t[d].key == r;
      IndexOfAt(t, c);
      IndexOfAt(t, d);
    }
  }

  // ---- parallel slices and their index ----

  function Zip<V>(keys: seq<string>, raws: seq<string>, vals: seq<V>): (es: seq<Entry<V>>)
    requires |keys| == |raws| == |vals|
  {
    seq(|keys|, i requires 0 <= i < |keys| => Entry(keys[i], raws[i], vals[i]))
  }

  /** `idx` is the exact inverse of `keys`. */
  ghost predicate Inverse(keys: seq<string>, idx: map<string, int>) {
    && (forall i :: 0 <= i < |keys| ==> keys[i] in idx && idx[keys[i]] == i)
    && (forall k :: k in idx ==> 0 <= idx[k] < |keys| && keys[idx[k]] == k)
  }

  lemma InverseAfterDelete(was: seq<string>, wasIdx: map<string, int>, i: nat, keys: seq<string>, idx: map<string, int>)
    requires Inverse(was, wasIdx) && i < |was|
    requires keys == was[..i] + was[i + 1..]
    requires idx.Keys == wasIdx.Keys - {was[i]}
    requires forall j :: 0 <= j < |keys| ==> keys[j] in idx && idx[keys[j]] == j
    ensures Inverse(keys, idx)
  {
    forall q | q in idx
      ensures 0 <= idx[q] < |keys| && keys[idx[q]] == q
    {
      var o := wasIdx[q];
      assert was[o] == q && keys[if o < i then o else o - 1] == q;
    }
  }

  lemma KeysAfterDelete(was: seq<string>, wasIdx: map<string, int>, i: nat)
    requires Inverse(was, wasIdx) && i < |was|
    ensures var keys := was[..i] + was[i + 1..];
            && (forall j :: 0 <= j < |keys| ==> keys[j] in wasIdx && keys[j] != was[i])
            && (forall j, m :: 0 <= j < m < |keys| ==> keys[j] != keys[m])
            && (forall j :: 0 <= j < i ==> keys[j] == was[j])
  {
    var keys := was[..i] + was[i + 1..];
    assert forall j :: 0 <= j < |keys| ==> keys[j] == was[if j < i then j else j + 1];
  }

  lemma ZipCut<V>(keys: seq<string>, raws: seq<string>, vals: seq<V>, i: nat)
    requires |keys| == |raws| == |vals| && i < |keys|
    ensures Zip(keys[..i] + keys[i + 1..], raws[..i] + raws[i + 1..], vals[..i] + vals[i + 1..]) ==
            Zip(keys, raws, vals)[..i] + Zip(keys, raws, vals)[i + 1..]
  {
  }

  class TreeObj<V> {
    var keys: seq<string>
    var raws: seq<string>
    var vals: seq<V>
    var idx: map<string, int>

    ghost predicate Valid()
      reads this
    {
      |keys| == |raws| == |vals| && Inverse(keys, idx)
    }

    ghost function Entries(): (es: seq<Entry<V>>)
      reads this
      requires Valid()
      ensures Distinct(es)
    {
      assert forall i, j :: 0 <= i < j < |keys| ==> idx[keys[i]] != idx[keys[j]];
      Zip(keys, raws, vals)
    }

    constructor ()
      ensures Valid() && Entries() == []
    {
      keys, raws, vals, idx := [], [], [], map[];
    }

    lemma Indexed(k: string)
      requires Valid()
      ensures k in idx <==> Has(Entries(), k)
      ensures k in idx ==> idx[k] == IndexOf(Entries(), k)
    {
      var i := IndexOf(Entries(), k);
      assert i < |keys| ==> keys[i] == k;
      if k in idx {
        assert Entries()[idx[k]].key == k;
        IndexOfAt(Entries(), idx[k]);
      }
    }

    method Get(k: string) returns (v: Option<V>)
      requires Valid()
      ensures v == if Has(Entries(), k) then Some(At(Entries(), k)) else None
    {
      Indexed(k);
      if k !in idx {
        return None;
      }
      return Some(vals[idx[k]]);
    }

    method Set(k: string, raw: string, v: V)
      requires Valid()
      modifies this
      ensures Valid() && Entries() == PutEntry(old(Entries()), k, raw, v)
    {
      Indexed(k);
      if k in idx {
        vals := vals[idx[k] := v];
        return;
      }
      idx := idx[k := |keys|];
      keys := keys + [k];
      raws := raws + [raw];
      vals := vals + [v];
    }

    /** `quote` is the JSON text of a new key. */
    method Put(k: string, v: V, quote: string -> string)
      requires Valid()
      modifies this
      ensures Valid() && Entries() == PutEntry(old(Entries()), k, quote(k), v)
    {
      Indexed(k);
      if k in idx {
        vals := vals[idx[k] := v];
        return;
      }
      Set(k, quote(k), v);
    }

    /** Sets the index of every key from position `from` on. */
    method Reindex(from: nat)
      requires from <= |keys| && |keys| == |raws| == |vals|
      requires forall i, j :: 0 <= i < j < |keys| ==> keys[i] != keys[j]
      requires forall i :: 0 <= i < |keys| ==> keys[i] in idx
      requires forall i :: 0 <= i < from ==> idx[keys[i]] == i
      modifies this`idx
      ensures idx.Keys == old(idx).Keys
      ensures forall i :: 0 <= i < |keys| ==> keys[i] in idx && idx[keys[i]] == i
    {
      for j := from to |keys|
        invariant idx.Keys == old(idx).Keys
        invariant forall i :: 0 <= i < |keys| ==> keys[i] in idx
        invariant forall i :: 0 <= i < j ==> idx[keys[i]] == i
      {
        idx := idx[keys[j] := j];
      }
    }

    method Del(k: string)
      requires Valid()
      modifies this
      ensures Valid() && Entries() == RemoveEntry(old(Entries()), k)
    {
      Indexed(k);
      if k !in idx {
        return;
      }
      ghost var was, wasIdx := keys, idx;
      var i := idx[k];
      KeysAfterDelete(keys, idx, i);
      ZipCut(keys, raws, vals, i);
      keys := keys[..i] + keys[i + 1..];
      raws := raws[..i] + raws[i + 1..];
      vals := vals[..i] + vals[i + 1..];
      idx := idx - {k};
      Reindex(i);
      InverseAfterDelete(was, wasIdx, i, keys, idx);
    }
  }
}
