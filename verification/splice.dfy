/**
 * The list surgery `VisitClassDecl` of the unwrapping pass performs on a
 * class's field list: the expansion of each original element is tagged with
 * the element's index, the tagged entries are inserted in reverse order with
 * `List.Insert`, and the expanded originals are then deleted with
 * `List.Remove`. The lemmas here show that this splice puts every expansion
 * exactly where its original stood.
 *
 * `List.Remove` removes the first element EQUAL to its argument; here
 * equality is value equality, and `Consistent` states when that agrees with
 * removing the original element itself.
 */
module Splice {
  import opened Results

  function Insert<T>(s: seq<T>, i: nat, x: T): (r: seq<T>)
    requires i <= |s|
    ensures |r| == |s| + 1 && r[i] == x
    ensures r[..i] == s[..i] && r[i + 1..] == s[i..]
  {
    s[..i] + [x] + s[i..]
  }

  /**
   * Performs the `(index, element)` inserts from the LAST entry to the first,
   * as a loop over the reversed list does; `None` is the out-of-range
   * exception `List.Insert` raises for an index past the end.
   */
  function InsertBackward<T>(s: seq<T>, inserts: seq<(nat, T)>): (r: Option<seq<T>>)
    ensures r.Some? ==> |r.value| == |s| + |inserts|
    decreases |inserts|
  {
    if |inserts| == 0 then Some(s)
    else
      var last := inserts[|inserts| - 1];
      if last.0 <= |s| then InsertBackward(Insert(s, last.0, last.1), inserts[..|inserts| - 1])
      else None
  }

  /** One backward insert: the last entry is in range and goes in first. */
  lemma InsertBackwardStep<T>(s: seq<T>, inserts: seq<(nat, T)>)
    requires |inserts| > 0 && InsertBackward(s, inserts).Some?
    ensures inserts[|inserts| - 1].0 <= |s|
    ensures InsertBackward(Insert(s, inserts[|inserts| - 1].0, inserts[|inserts| - 1].1), inserts[..|inserts| - 1])
      == InsertBackward(s, inserts)
  {
  }

  /** Going backwards, the entries of `ys` are inserted before those of `xs`. */
  lemma {:induction false} InsertBackwardAppend<T>(s: seq<T>, xs: seq<(nat, T)>, ys: seq<(nat, T)>, u: seq<T>)
    requires InsertBackward(s, ys) == Some(u)
    ensures InsertBackward(s, xs + ys) == InsertBackward(u, xs)
    decreases |ys|
  {
    if |ys| > 0 {
      var zs := xs + ys;
      assert zs[|zs| - 1] == ys[|ys| - 1];
      assert zs[..|zs| - 1] == xs + ys[..|ys| - 1];
      var last := ys[|ys| - 1];
      InsertBackwardAppend(Insert(s, last.0, last.1), xs, ys[..|ys| - 1], u);
    } else {
      assert xs + ys == xs;
    }
  }

  /** The elements of `e`, each tagged with the index `k`. */
  function Tagged<T>(k: nat, e: seq<T>): (r: seq<(nat, T)>)
    ensures |r| == |e|
    ensures forall j :: 0 <= j < |e| ==> r[j] == (k, e[j])
  {
    seq(|e|, j requires 0 <= j < |e| => (k, e[j]))
  }

  /** The expansions `ex` tagged with their positions, counted from `base`, concatenated in order. */
  function Entries<T>(ex: seq<seq<T>>, base: nat): seq<(nat, T)>
    decreases |ex|
  {
    if |ex| == 0 then [] else Tagged(base, ex[0]) + Entries(ex[1..], base + 1)
  }

  lemma {:induction false} EntriesSnoc<T>(ex: seq<seq<T>>, e: seq<T>, base: nat)
    ensures Entries(ex + [e], base) == Entries(ex, base) + Tagged(base + |ex|, e)
    decreases |ex|
  {
    if |ex| == 0 {
      assert (ex + [e])[1..] == [];
    } else {
      assert (ex + [e])[0] == ex[0];
      assert (ex + [e])[1..] == ex[1..] + [e];
      EntriesSnoc(ex[1..], e, base + 1);
    }
  }

  /** Each expansion followed by its original, concatenated: the list after all inserts. */
  function Blocks<T>(orig: seq<T>, ex: seq<seq<T>>): (r: seq<T>)
    requires |ex| == |orig|
    decreases |orig|
  {
    if |orig| == 0 then [] else ex[0] + [orig[0]] + Blocks(orig[1..], ex[1..])
  }

  /** Inserting the tagged entries of `e` backwards at `|p|` places `e`, in order, between `p` and `q`. */
  lemma {:induction false} InsertRun<T>(p: seq<T>, q: seq<T>, e: seq<T>)
    ensures InsertBackward(p + q, Tagged(|p|, e)) == Some(p + e + q)
    decreases |e|
  {
    if |e| == 0 {
      assert p + e + q == p + q;
    } else {
      var e', x := e[..|e| - 1], e[|e| - 1];
      var t := Tagged(|p|, e);
      assert t[|t| - 1] == (|p|, x);
      assert t[..|t| - 1] == Tagged(|p|, e');
      assert Insert(p + q, |p|, x) == p + ([x] + q);
      InsertRun(p, [x] + q, e');
      assert p + e' + ([x] + q) == p + e + q;
    }
  }

  /**
   * Inserting all tagged entries backwards, over a list whose first `|p|`
   * elements precede the originals, yields the blocks.
   */
  lemma {:induction false} InsertAll<T>(p: seq<T>, orig: seq<T>, ex: seq<seq<T>>)
    requires |ex| == |orig|
    ensures InsertBackward(p + orig, Entries(ex, |p|)) == Some(p + Blocks(orig, ex))
    decreases |orig|
  {
    if |orig| > 0 {
      var p' := p + [orig[0]];
      assert p' + orig[1..] == p + orig;
      InsertAll(p', orig[1..], ex[1..]);
      var tail := [orig[0]] + Blocks(orig[1..], ex[1..]);
      assert p' + Blocks(orig[1..], ex[1..]) == p + tail;
      InsertBackwardAppend(p + orig, Tagged(|p|, ex[0]), Entries(ex[1..], |p| + 1), p + tail);
      InsertRun(p, tail, ex[0]);
      BlocksUnfold(p, orig, ex);
    } else {
      assert p + orig == p + Blocks(orig, ex);
    }
  }

  lemma BlocksUnfold<T>(p: seq<T>, orig: seq<T>, ex: seq<seq<T>>)
    requires |ex| == |orig| > 0
    ensures p + Blocks(orig, ex) == p + ex[0] + ([orig[0]] + Blocks(orig[1..], ex[1..]))
  {
  }

  /** The whole insertion phase: the reversed inserts turn the originals into the blocks. */
  lemma InsertionPhase<T>(orig: seq<T>, ex: seq<seq<T>>)
    requires |ex| == |orig|
    ensures InsertBackward(orig, Entries(ex, 0)) == Some(Blocks(orig, ex))
  {
    InsertAll([], orig, ex);
    assert [] + orig == orig && [] + Blocks(orig, ex) == Blocks(orig, ex);
  }

  /** `List.Remove(x)`: drops the first element equal to `x`, if any. */
  function RemoveFirst<T(==)>(s: seq<T>, x: T): (r: seq<T>)
    ensures x in s ==> |r| == |s| - 1
    ensures x !in s ==> r == s
  {
    if |s| == 0 then []
    else if s[0] == x then s[1..]
    else [s[0]] + RemoveFirst(s[1..], x)
  }

  /** The position of the first element equal to `x`. */
  function FirstIndex<T(==)>(s: seq<T>, x: T): (i: nat)
    requires x in s
    ensures i < |s| && s[i] == x && x !in s[..i]
  {
    if s[0] == x then 0
    else
      var j := FirstIndex(s[1..], x);
      assert s[..j + 1] == [s[0]] + s[1..][..j];
      j + 1
  }

  lemma {:induction false} RemoveFirstAt<T>(s: seq<T>, x: T)
    requires x in s
    ensures RemoveFirst(s, x) == s[..FirstIndex(s, x)] + s[FirstIndex(s, x) + 1..]
  {
    if s[0] != x {
      var t := s[1..];
      var j := FirstIndex(t, x);
      RemoveFirstAt(t, x);
      assert RemoveFirst(s, x) == [s[0]] + (t[..j] + t[j + 1..]);
      assert s[..j + 1] == [s[0]] + t[..j];
      assert s[j + 2..] == t[j + 1..];
    }
  }

  /**
   * The element `List.Remove` drops is the first one equal to `x`; the
   * elements before and after it stay, in their order.
   */
  lemma RemoveFirstDropsFirstMatch<T>(s: seq<T>, x: T)
    requires x in s
    ensures exists i :: 0 <= i < |s| && s[i] == x && x !in s[..i] && RemoveFirst(s, x) == s[..i] + s[i + 1..]
  {
    RemoveFirstAt(s, x);
    var i := FirstIndex(s, x);
    assert s[i] == x && x !in s[..i];
  }

  /** `List.Remove` for each element of `xs`, in order. */
  function RemoveAll<T(==)>(s: seq<T>, xs: seq<T>): seq<T>
    decreases |xs|
  {
    if |xs| == 0 then s else RemoveAll(RemoveFirst(s, xs[0]), xs[1..])
  }

  lemma {:induction false} RemoveFirstSkips<T>(p: seq<T>, q: seq<T>, x: T)
    requires x !in p
    ensures RemoveFirst(p + q, x) == p + RemoveFirst(q, x)
    decreases |p|
  {
    if |p| > 0 {
      assert (p + q)[0] == p[0];
      assert (p + q)[1..] == p[1..] + q;
      RemoveFirstSkips(p[1..], q, x);
    } else {
      assert p + q == q;
    }
  }

  lemma {:induction false} RemoveAllSkips<T>(p: seq<T>, q: seq<T>, xs: seq<T>)
    requires forall i :: 0 <= i < |xs| ==> xs[i] !in p
    ensures RemoveAll(p + q, xs) == p + RemoveAll(q, xs)
    decreases |xs|
  {
    if |xs| > 0 {
      RemoveFirstSkips(p, q, xs[0]);
      RemoveAllSkips(p, RemoveFirst(q, xs[0]), xs[1..]);
    }
  }

  /** The originals whose expansion is non-empty, in order: the `toRemove` list. */
  function Removed<T>(orig: seq<T>, ex: seq<seq<T>>): seq<T>
    requires |ex| == |orig|
    decreases |orig|
  {
    if |orig| == 0 then [] else (if |ex[0]| > 0 then [orig[0]] else []) + Removed(orig[1..], ex[1..])
  }

  /** Everything scheduled for removal is an original with a non-empty expansion. */
  lemma {:induction false} RemovedAreExpanded<T>(orig: seq<T>, ex: seq<seq<T>>, i: nat)
    requires |ex| == |orig| && i < |Removed(orig, ex)|
    ensures exists k :: 0 <= k < |orig| && Removed(orig, ex)[i] == orig[k] && |ex[k]| > 0
    decreases |orig|
  {
    var rest := Removed(orig[1..], ex[1..]);
    if |ex[0]| > 0 && i == 0 {
      assert Removed(orig, ex)[i] == orig[0];
    } else {
      var j := if |ex[0]| > 0 then i - 1 else i;
      assert Removed(orig, ex)[i] == rest[j];
      RemovedAreExpanded(orig[1..], ex[1..], j);
      var k :| 0 <= k < |orig| - 1 && rest[j] == orig[1..][k] && |ex[1..][k]| > 0;
      assert orig[1..][k] == orig[k + 1] && ex[1..][k] == ex[k + 1];
    }
  }

  lemma {:induction false} RemovedSnoc<T>(orig: seq<T>, ex: seq<seq<T>>, o: T, e: seq<T>)
    requires |ex| == |orig|
    ensures Removed(orig + [o], ex + [e]) == Removed(orig, ex) + (if |e| > 0 then [o] else [])
    decreases |orig|
  {
    if |orig| == 0 {
      assert (orig + [o])[1..] == [] && (ex + [e])[1..] == [];
    } else {
      assert (orig + [o])[0] == orig[0] && (ex + [e])[0] == ex[0];
      assert (orig + [o])[1..] == orig[1..] + [o];
      assert (ex + [e])[1..] == ex[1..] + [e];
      RemovedSnoc(orig[1..], ex[1..], o, e);
    }
  }

  /** Each original replaced by its expansion, or kept where the expansion is empty. */
  function Flatten<T>(orig: seq<T>, ex: seq<seq<T>>): (r: seq<T>)
    requires |ex| == |orig|
    decreases |orig|
  {
    if |orig| == 0 then [] else (if |ex[0]| > 0 then ex[0] else [orig[0]]) + Flatten(orig[1..], ex[1..])
  }

  /** The length the splice leaves: each expansion's length, and 1 for each original kept. */
  function Weight<T>(ex: seq<seq<T>>): nat
    decreases |ex|
  {
    if |ex| == 0 then 0 else (if |ex[0]| > 0 then |ex[0]| else 1) + Weight(ex[1..])
  }

  lemma {:induction false} FlattenLength<T>(orig: seq<T>, ex: seq<seq<T>>)
    requires |ex| == |orig|
    ensures |Flatten(orig, ex)| == Weight(ex)
    decreases |orig|
  {
    if |orig| > 0 {
      FlattenLength(orig[1..], ex[1..]);
    }
  }

  /**
   * Value equality does not confuse the removals: no expanded original occurs
   * inside any expansion, and an original equal to an expanded one is
   * expanded itself.
   */
  ghost predicate Consistent<T>(orig: seq<T>, ex: seq<seq<T>>)
    requires |ex| == |orig|
  {
    forall k, j :: 0 <= k < |orig| && 0 <= j < |orig| && |ex[j]| > 0 ==>
      orig[j] !in ex[k] && (orig[k] == orig[j] ==> |ex[k]| > 0)
  }

  lemma ConsistentTail<T>(orig: seq<T>, ex: seq<seq<T>>)
    requires |ex| == |orig| > 0 && Consistent(orig, ex)
    ensures Consistent(orig[1..], ex[1..])
  {
    forall k, j | 0 <= k < |orig| - 1 && 0 <= j < |orig| - 1 && |ex[1..][j]| > 0
      ensures orig[1..][j] !in ex[1..][k] && (orig[1..][k] == orig[1..][j] ==> |ex[1..][k]| > 0)
    {
      assert orig[1..][j] == orig[j + 1] && ex[1..][k] == ex[k + 1] && ex[1..][j] == ex[j + 1];
    }
  }

  /** No later removal hits the first block: it is an expansion or an unexpanded original. */
  lemma LaterRemovalsMissHead<T>(orig: seq<T>, ex: seq<seq<T>>)
    requires |ex| == |orig| > 0 && Consistent(orig, ex)
    ensures
      var head := if |ex[0]| > 0 then ex[0] else [orig[0]];
      var later := Removed(orig[1..], ex[1..]);
      forall i :: 0 <= i < |later| ==> later[i] !in head
  {
    var later := Removed(orig[1..], ex[1..]);
    forall i | 0 <= i < |later|
      ensures later[i] !in (if |ex[0]| > 0 then ex[0] else [orig[0]])
    {
      RemovedAreExpanded(orig[1..], ex[1..], i);
      var k :| 0 <= k < |orig| - 1 && later[i] == orig[1..][k] && |ex[1..][k]| > 0;
      assert later[i] == orig[k + 1] && |ex[k + 1]| > 0;
    }
  }

  lemma RemoveStep<T>(orig: seq<T>, ex: seq<seq<T>>)
    requires |ex| == |orig| > 0 && Consistent(orig, ex)
    requires RemoveAll(Blocks(orig[1..], ex[1..]), Removed(orig[1..], ex[1..])) == Flatten(orig[1..], ex[1..])
    ensures RemoveAll(Blocks(orig, ex), Removed(orig, ex)) == Flatten(orig, ex)
  {
    var rest, later := Blocks(orig[1..], ex[1..]), Removed(orig[1..], ex[1..]);
    LaterRemovalsMissHead(orig, ex);
    if |ex[0]| > 0 {
      RemoveExpandedHead(orig[0], ex[0], rest, later);
      assert Blocks(orig, ex) == ex[0] + ([orig[0]] + rest);
      assert Removed(orig, ex) == [orig[0]] + later;
    } else {
      assert Blocks(orig, ex) == [orig[0]] + rest;
      assert Removed(orig, ex) == later;
      RemoveAllSkips([orig[0]], rest, later);
    }
    assert Flatten(orig, ex) == (if |ex[0]| > 0 then ex[0] else [orig[0]]) + Flatten(orig[1..], ex[1..]);
  }

  /** An expanded original is removed from just after its block; the later removals skip the block. */
  lemma RemoveExpandedHead<T>(o: T, e: seq<T>, rest: seq<T>, later: seq<T>)
    requires o !in e && forall i :: 0 <= i < |later| ==> later[i] !in e
    ensures RemoveAll(e + ([o] + rest), [o] + later) == e + RemoveAll(rest, later)
  {
    RemoveFirstSkips(e, [o] + rest, o);
    assert RemoveFirst([o] + rest, o) == rest;
    assert ([o] + later)[0] == o && ([o] + later)[1..] == later;
    RemoveAllSkips(e, rest, later);
  }

  /** Removing the expanded originals from the blocks leaves the flattened list. */
  lemma {:induction false} RemoveExpandedOriginals<T>(orig: seq<T>, ex: seq<seq<T>>)
    requires |ex| == |orig| && Consistent(orig, ex)
    ensures RemoveAll(Blocks(orig, ex), Removed(orig, ex)) == Flatten(orig, ex)
    decreases |orig|
  {
    if |orig| > 0 {
      ConsistentTail(orig, ex);
      RemoveExpandedOriginals(orig[1..], ex[1..]);
      RemoveStep(orig, ex);
    }
  }
}
