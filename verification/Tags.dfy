/** Merging tag layers: later values win, first positions stay, private is sticky. */
module Tags {
  import opened Seqs

  datatype Tag = Tag(key: string, value: string, private_: bool)

  function Has(ts: seq<Tag>, key: string): bool {
    ts != [] && (ts[|ts| - 1].key == key || Has(ts[..|ts| - 1], key))
  }

  /** The keys in order of first appearance. */
  function FirstKeys(ts: seq<Tag>): seq<string> {
    if ts == [] then []
    else
      var before, key := ts[..|ts| - 1], ts[|ts| - 1].key;
      FirstKeys(before) + if Has(before, key) then [] else [key]
  }

  /** The value of the last tag with the key; "" without one. */
  function LastValue(ts: seq<Tag>, key: string): string {
    if ts == [] then ""
    else if ts[|ts| - 1].key == key then ts[|ts| - 1].value
    else LastValue(ts[..|ts| - 1], key)
  }

  function AnyPrivate(ts: seq<Tag>, key: string): bool {
    ts != [] && ((ts[|ts| - 1].key == key && ts[|ts| - 1].private_) || AnyPrivate(ts[..|ts| - 1], key))
  }

  function MergedTag(ts: seq<Tag>, key: string): Tag {
    Tag(key, LastValue(ts, key), AnyPrivate(ts, key))
  }

  /** One tag per key, in first-appearance order, with the last value, private if any was. */
  function Merged(ts: seq<Tag>): (m: seq<Tag>)
    ensures |m| == |FirstKeys(ts)|
  {
    seq(|FirstKeys(ts)|, i requires 0 <= i < |FirstKeys(ts)| => MergedTag(ts, FirstKeys(ts)[i]))
  }

  function Flat(layers: seq<seq<Tag>>): seq<Tag> {
    if layers == [] then [] else Flat(layers[..|layers| - 1]) + layers[|layers| - 1]
  }

  /** `idx` points at the tag of each key. */
  ghost predicate Indexes(idx: map<string, nat>, out: seq<Tag>, seen: seq<Tag>) {
    && (forall k :: k in idx <==> Has(seen, k))
    && (forall k :: k in idx ==> idx[k] < |out| && out[idx[k]].key == k)
  }

  method MergeTags(layers: seq<seq<Tag>>) returns (out: seq<Tag>)
    ensures out == Merged(Flat(layers))
  {
    hide Merged, Indexes, Has;
    var idx: map<string, nat> := map[];
    out := [];
    MergedNone();
    ghost var seen: seq<Tag> := [];
    for i := 0 to |layers|
      invariant seen == Flat(layers[..i])
      invariant out == Merged(seen) && Indexes(idx, out, seen)
    {
      var layer := layers[i];
      assert layers[..i + 1][..i] == layers[..i];
      ghost var before := seen;
      for j := 0 to |layer|
        invariant seen == before + layer[..j]
        invariant out == Merged(seen) && Indexes(idx, out, seen)
      {
        idx, out := Overlay(idx, out, layer[j], seen);
        assert seen + [layer[j]] == before + layer[..j + 1];
        seen := seen + [layer[j]];
      }
      assert layer[..|layer|] == layer;
    }
    assert layers[..|layers|] == layers;
  }

  lemma MergedNone()
    ensures Merged([]) == [] && Indexes(map[], [], [])
  {
  }

  /** The body of the loop: one tag laid over what was merged so far. */
  method Overlay(idx: map<string, nat>, out: seq<Tag>, t: Tag, ghost seen: seq<Tag>)
      returns (idx': map<string, nat>, out': seq<Tag>)
    requires out == Merged(seen) && Indexes(idx, out, seen)
    ensures out' == Merged(seen + [t]) && Indexes(idx', out', seen + [t])
  {
    idx', out' := idx, out;
    MergedOneMore(seen, t);
    if t.key in idx {
      var pos := idx[t.key];
      assert FirstKeys(seen)[pos] == t.key;
      out' := out'[pos := out'[pos].(value := t.value)];
      if t.private_ {
        out' := out'[pos := out'[pos].(private_ := true)];
      }
      assert out' == out[pos := Tag(t.key, t.value, out[pos].private_ || t.private_)];
      return;
    }
    idx' := idx'[t.key := |out'|];
    out' := out' + [t];
  }

  lemma {:induction false} AbsentValue(ts: seq<Tag>, key: string)
    requires !Has(ts, key)
    ensures !AnyPrivate(ts, key) && LastValue(ts, key) == ""
    decreases |ts|
  {
    if ts != [] {
      AbsentValue(ts[..|ts| - 1], key);
    }
  }

  lemma OneMore(ts: seq<Tag>, t: Tag, key: string)
    ensures Has(ts + [t], key) <==> Has(ts, key) || t.key == key
    ensures LastValue(ts + [t], key) == if t.key == key then t.value else LastValue(ts, key)
    ensures AnyPrivate(ts + [t], key) <==> AnyPrivate(ts, key) || (t.key == key && t.private_)
    ensures FirstKeys(ts + [t]) == FirstKeys(ts) + if Has(ts, t.key) then [] else [t.key]
  {
    SplitConcat(ts, [t]);
  }

  ghost predicate DistinctKeys(keys: seq<string>) {
    forall i, j :: 0 <= i < j < |keys| ==> keys[i] != keys[j]
  }

  /** The first-appearance keys are the keys there are, each once. */
  lemma {:induction false} FirstKeysAre(ts: seq<Tag>)
    ensures DistinctKeys(FirstKeys(ts))
    ensures forall i :: 0 <= i < |FirstKeys(ts)| ==> Has(ts, FirstKeys(ts)[i])
    decreases |ts|
  {
    if ts != [] {
      FirstKeysAre(ts[..|ts| - 1]);
    }
  }

  lemma {:induction false} KeyPosition(ts: seq<Tag>, key: string) returns (i: nat)
    requires Has(ts, key)
    ensures i < |FirstKeys(ts)| && FirstKeys(ts)[i] == key
    decreases |ts|
  {
    var before := ts[..|ts| - 1];
    if Has(before, key) {
      i := KeyPosition(before, key);
    } else {
      i := |FirstKeys(before)|;
    }
  }

  /** What one more tag does to the merge: a new key is appended, a known one updated in place. */
  lemma {:induction false} MergedOneMore(ts: seq<Tag>, t: Tag)
    ensures !Has(ts, t.key) ==> Merged(ts + [t]) == Merged(ts) + [t]
    ensures forall pos :: 0 <= pos < |FirstKeys(ts)| && FirstKeys(ts)[pos] == t.key ==>
              Merged(ts + [t])
              == Merged(ts)[pos := Tag(t.key, t.value, Merged(ts)[pos].private_ || t.private_)]
    ensures forall k :: Has(ts + [t], k) <==> Has(ts, k) || t.key == k
  {
    FirstKeysAre(ts);
    forall k
      ensures Has(ts + [t], k) <==> Has(ts, k) || t.key == k
      ensures MergedTag(ts + [t], k)
              == if t.key == k then Tag(k, t.value, AnyPrivate(ts, k) || t.private_) else MergedTag(ts, k)
    {
      OneMore(ts, t, k);
    }
    OneMore(ts, t, t.key);
    if !Has(ts, t.key) {
      AbsentValue(ts, t.key);
    }
  }

  // A monoid.

  lemma {:induction false} ConcatFacts(a: seq<Tag>, b: seq<Tag>, key: string)
    ensures Has(a + b, key) <==> Has(a, key) || Has(b, key)
    ensures LastValue(a + b, key) == if Has(b, key) then LastValue(b, key) else LastValue(a, key)
    ensures AnyPrivate(a + b, key) <==> AnyPrivate(a, key) || AnyPrivate(b, key)
    decreases |b|
  {
    if b == [] {
      assert a + b == a;
    } else {
      var before, t := b[..|b| - 1], b[|b| - 1];
      assert a + b == (a + before) + [t] && b == before + [t];
      ConcatFacts(a, before, key);
      OneMore(a + before, t, key);
      OneMore(before, t, key);
    }
  }

  /** The keys that `a` does not have. */
  function Unseen(keys: seq<string>, a: seq<Tag>): seq<string> {
    if keys == [] then []
    else
      var last := keys[|keys| - 1];
      Unseen(keys[..|keys| - 1], a) + if Has(a, last) then [] else [last]
  }

  lemma {:induction false} FirstKeysConcat(a: seq<Tag>, b: seq<Tag>)
    ensures FirstKeys(a + b) == FirstKeys(a) + Unseen(FirstKeys(b), a)
    decreases |b|
  {
    if b == [] {
      assert a + b == a;
    } else {
      var before, t := b[..|b| - 1], b[|b| - 1];
      assert a + b == (a + before) + [t] && b == before + [t];
      FirstKeysConcat(a, before);
      OneMore(a + before, t, t.key);
      OneMore(before, t, t.key);
      ConcatFacts(a, before, t.key);
      var keys, unseen := FirstKeys(before), Unseen(FirstKeys(before), a);
      assert keys + [] == keys && unseen + [] == unseen && FirstKeys(a) + unseen + [] == FirstKeys(a) + unseen;
      SplitConcat(keys, [t.key]);
      assert Unseen(keys + [t.key], a) == unseen + if Has(a, t.key) then [] else [t.key];
      Assoc(FirstKeys(a), unseen, [t.key]);
    }
  }

  lemma {:induction false} UnseenSame(keys: seq<string>, a: seq<Tag>, b: seq<Tag>)
    requires forall k :: Has(a, k) <==> Has(b, k)
    ensures Unseen(keys, a) == Unseen(keys, b)
    decreases |keys|
  {
    if keys != [] {
      UnseenSame(keys[..|keys| - 1], a, b);
    }
  }

  ghost predicate Distinct(ts: seq<Tag>) {
    forall i, j :: 0 <= i < j < |ts| ==> ts[i].key != ts[j].key
  }

  lemma {:induction false} DistinctFacts(ts: seq<Tag>)
    requires Distinct(ts)
    ensures |FirstKeys(ts)| == |ts|
    ensures forall i :: 0 <= i < |ts| ==> FirstKeys(ts)[i] == ts[i].key
    ensures forall i :: 0 <= i < |ts| ==> Has(ts, ts[i].key) && MergedTag(ts, ts[i].key) == ts[i]
    decreases |ts|
  {
    if ts != [] {
      var before, t := ts[..|ts| - 1], ts[|ts| - 1];
      DistinctFacts(before);
      if Has(before, t.key) {
        var i := KeyPosition(before, t.key);
      } else {
        AbsentValue(before, t.key);
      }
    }
  }

  /** A merge reads as what it merged: same keys in the same order, same values, same privacy. */
  lemma MergedReads(ts: seq<Tag>, key: string)
    ensures FirstKeys(Merged(ts)) == FirstKeys(ts)
    ensures Has(Merged(ts), key) <==> Has(ts, key)
    ensures MergedTag(Merged(ts), key) == MergedTag(ts, key)
  {
    var m := Merged(ts);
    FirstKeysAre(ts);
    DistinctFacts(m);
    if Has(ts, key) {
      var i := KeyPosition(ts, key);
      assert m[i].key == key;
    } else {
      AbsentValue(ts, key);
      if Has(m, key) {
        var i := KeyPosition(m, key);
      }
      AbsentValue(m, key);
    }
  }

  /** Merging part of the layers first makes no difference, on either side. */
  lemma MergeNested(a: seq<Tag>, b: seq<Tag>)
    ensures Merged(Merged(a) + b) == Merged(a + b)
    ensures Merged(a + Merged(b)) == Merged(a + b)
  {
    MergedReads(a, "");
    MergedReads(b, "");
    FirstKeysConcat(a, b);
    FirstKeysConcat(Merged(a), b);
    FirstKeysConcat(a, Merged(b));
    forall k
      ensures Has(Merged(a), k) <==> Has(a, k)
      ensures MergedTag(Merged(a) + b, k) == MergedTag(a + b, k)
      ensures MergedTag(a + Merged(b), k) == MergedTag(a + b, k)
    {
      MergedReads(a, k);
      MergedReads(b, k);
      ConcatFacts(a, b, k);
      ConcatFacts(Merged(a), b, k);
      ConcatFacts(a, Merged(b), k);
    }
    UnseenSame(FirstKeys(b), a, Merged(a));
  }

  lemma {:induction false} FlatConcat(a: seq<seq<Tag>>, b: seq<seq<Tag>>)
    ensures Flat(a + b) == Flat(a) + Flat(b)
    decreases |b|
  {
    if b == [] {
      assert a + b == a;
    } else {
      InitOfConcat(a, b);
      FlatConcat(a, b[..|b| - 1]);
      Assoc(Flat(a), Flat(b[..|b| - 1]), b[|b| - 1]);
    }
  }

  /** Layers are laid one after the other: one layer is itself, and two lists of layers follow on. */
  lemma FlatIs(layer: seq<Tag>, a: seq<seq<Tag>>, b: seq<seq<Tag>>)
    ensures Flat([]) == [] && Flat([layer]) == layer
    ensures Flat(a + b) == Flat(a) + Flat(b)
  {
    assert [layer][..0] == [];
    FlatConcat(a, b);
  }

  // The merge, by position.

  /** Tag `k` is the last of its key. */
  ghost predicate LastOf(ts: seq<Tag>, k: int) {
    0 <= k < |ts| && forall j :: k < j < |ts| ==> ts[j].key != ts[k].key
  }

  /** Tag `k` is the first of its key. */
  ghost predicate FirstOf(ts: seq<Tag>, k: int) {
    0 <= k < |ts| && forall j :: 0 <= j < k ==> ts[j].key != ts[k].key
  }

  ghost predicate PrivateSomewhere(ts: seq<Tag>, key: string) {
    exists j :: 0 <= j < |ts| && ts[j].key == key && ts[j].private_
  }

  lemma {:induction false} HasIff(ts: seq<Tag>, key: string)
    ensures Has(ts, key) <==> exists k :: 0 <= k < |ts| && ts[k].key == key
    ensures AnyPrivate(ts, key) <==> PrivateSomewhere(ts, key)
    decreases |ts|
  {
    if ts != [] {
      var n := |ts| - 1;
      HasIff(ts[..n], key);
      assert forall k :: 0 <= k < n ==> ts[..n][k] == ts[k];
      if k :| 0 <= k < |ts| && ts[k].key == key {
        assert k == n || ts[..n][k].key == key;
      }
      if PrivateSomewhere(ts, key) {
        var j :| 0 <= j < |ts| && ts[j].key == key && ts[j].private_;
        assert j == n || (ts[..n][j].key == key && ts[..n][j].private_);
      }
    }
  }

  lemma {:induction false} LastValueIs(ts: seq<Tag>, k: nat)
    requires LastOf(ts, k)
    ensures LastValue(ts, ts[k].key) == ts[k].value
    decreases |ts|
  {
    if k < |ts| - 1 {
      LastValueIs(ts[..|ts| - 1], k);
    }
  }

  lemma {:induction false} FirstKeyAt(ts: seq<Tag>, k: nat)
    requires FirstOf(ts, k)
    ensures FirstKeys(ts[..k]) + [ts[k].key] <= FirstKeys(ts)
    decreases |ts|
  {
    var n := |ts| - 1;
    if k == n {
      HasIff(ts[..n], ts[n].key);
    } else {
      FirstKeyAt(ts[..n], k);
      assert ts[..n][..k] == ts[..k];
    }
  }

  /** Every key has one tag in the merge, with the value of its last tag, private if any of its tags
      is, after the tags of the keys that appear before it does and before all others. */
  lemma MergedAt(ts: seq<Tag>, first: nat, last: nat)
    requires FirstOf(ts, first) && LastOf(ts, last) && ts[first].key == ts[last].key
    ensures var p := |Merged(ts[..first])|;
            && p < |Merged(ts)|
            && Merged(ts)[p] == Tag(ts[last].key, ts[last].value, PrivateSomewhere(ts, ts[last].key))
  {
    FirstKeyAt(ts, first);
    LastValueIs(ts, last);
    HasIff(ts, ts[last].key);
    var p, keys := |Merged(ts[..first])|, FirstKeys(ts);
    assert (FirstKeys(ts[..first]) + [ts[first].key])[p] == ts[first].key;
    assert keys[p] == ts[last].key;
  }

  /** Merging is an associative monoid over layers: nesting on either side merges all at once. */
  lemma MergeAssociative(a: seq<seq<Tag>>, b: seq<seq<Tag>>, c: seq<seq<Tag>>)
    ensures Merged(Merged(Flat(a + b)) + Flat(c)) == Merged(Flat(a + b + c))
    ensures Merged(Flat(a) + Merged(Flat(b + c))) == Merged(Flat(a + b + c))
  {
    assert Flat(a + b + c) == Flat(a + b) + Flat(c) by {
      FlatConcat(a + b, c);
    }
    assert Flat(a + b + c) == Flat(a) + Flat(b + c) by {
      Assoc(a, b, c);
      FlatConcat(a, b + c);
    }
    MergeNested(Flat(a + b), Flat(c));
    MergeNested(Flat(a), Flat(b + c));
  }

  lemma MergeIdempotent(ts: seq<Tag>)
    ensures Merged(Merged(ts)) == Merged(ts)
  {
    MergeNested(ts, []);
    assert Merged(ts) + [] == Merged(ts) && ts + [] == ts;
  }
}
