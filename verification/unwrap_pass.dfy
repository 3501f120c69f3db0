/**
 * The in-place array pass: a field that is a constant-size array of a
 * non-primitive element is replaced, at its own position in the class, by
 * one sibling field per slot (`A_0`, `A_1`, ...); a slot that is itself an
 * unsupported array is expanded again (`A_0_0`, ...). The classification is
 * the one shared with the wrapper pass (`ArrayShape`).
 */
module UnwrapPass {
  import opened Results
  import opened Numerals
  import opened Ast
  import opened ArrayShape
  import opened Splice

  /**
   * A type the pass leaves as it is: not an unsupported array, or one whose
   * classification yields no slot at all (an array of rows longer than the
   * array itself, or of size 0).
   */
  predicate Inert(t: Type, pw: nat) {
    || !ShouldUnwrap(t)
    || (&& FieldUnwrapInfo(t, pw).Success?
        && FieldUnwrapInfo(t, pw).value.Some?
        && FieldUnwrapInfo(t, pw).value.value.count == 0)
  }

  /** Slot `i` of field `f`: named `<name>_<i>`, at `offset + i * width`, copying the field's attributes. */
  function Slot(clsName: string, f: Field, info: UnwrapInfo, i: nat): (g: Field)
    ensures f.name + "_" <= g.name && g.Ty() == info.ty
    ensures g.qt.quals == f.qt.quals && g.owner == f.owner && g.info == f.info
    ensures g.cls == InDecl(clsName) && g.value.None?
    ensures g.offset - f.offset == i * info.width
  {
    assert (f.name + "_" + Numeral(i, 10))[..|f.name + "_"|] == f.name + "_";
    Field(f.name + "_" + Numeral(i, 10), QualifiedType(info.ty, f.qt.quals), f.offset + i * info.width,
          f.owner, InDecl(clsName), f.info, None)
  }

  /** Different slots of one field get different names. */
  lemma SlotNamesDistinct(clsName: string, f: Field, info: UnwrapInfo, i: nat, j: nat)
    requires i != j
    ensures Slot(clsName, f, info, i).name != Slot(clsName, f, info, j).name
  {
    var p := f.name + "_";
    NumeralInjective(i, j, 10);
    assert Slot(clsName, f, info, i).name[|p|..] == Numeral(i, 10);
    assert Slot(clsName, f, info, j).name[|p|..] == Numeral(j, 10);
  }

  /**
   * `g` descends from `f`: its name extends `<f.name>_`, it keeps the field's
   * qualifiers, namespace and declaration attributes, belongs to the class,
   * sits at or after the field's offset, and has a strictly shallower type.
   */
  ghost predicate DerivedFrom(g: Field, f: Field, clsName: string) {
    && f.name + "_" <= g.name
    && g.qt.quals == f.qt.quals
    && g.owner == f.owner
    && g.cls == InDecl(clsName)
    && g.info == f.info
    && g.value.None?
    && g.offset >= f.offset
    && Height(g.Ty()) < Height(f.Ty())
  }

  lemma SlotDerived(clsName: string, f: Field, info: UnwrapInfo, i: nat)
    requires Height(info.ty) < Height(f.Ty())
    ensures DerivedFrom(Slot(clsName, f, info, i), f, clsName)
  {
    var name := f.name + "_" + Numeral(i, 10);
    assert name[..|f.name + "_"|] == f.name + "_";
  }

  lemma DerivedTrans(g: Field, s: Field, f: Field, clsName: string)
    requires DerivedFrom(g, s, clsName) && DerivedFrom(s, f, clsName)
    ensures DerivedFrom(g, f, clsName)
  {
    var p := f.name + "_";
    assert s.name[..|p|] == p;
    assert g.name[..|s.name|] == s.name;
    assert g.name[..|p|] == s.name[..|p|];
  }

  /**
   * `TryUnwrapField(@class, field)`: the fields that replace `field`, empty
   * when it stays. `Failure(DivideByZero)` is the exception of an
   * array-of-array element with inner size 0, at any depth.
   */
  function TryUnwrapField(clsName: string, f: Field, pw: nat): (r: Result<seq<Field>, Fault>)
    ensures Inert(f.Ty(), pw) ==> r == Success([])
    ensures r == Success([]) ==> Inert(f.Ty(), pw)
    ensures r.Success? ==> forall g :: g in r.value ==> Inert(g.Ty(), pw) && DerivedFrom(g, f, clsName)
    ensures r.Failure? ==> r.error == DivideByZero && ShouldUnwrap(f.Ty())
    decreases Height(f.Ty()), 1, 0
  {
    if !ShouldUnwrap(f.Ty()) then Success([])
    else
      match FieldUnwrapInfo(f.Ty(), pw)
      case Failure(e) => Failure(e)
      case Success(None) => Success([])  // "Failed to unwrap" warning; unreachable
      case Success(Some(info)) => ExpandSlots(clsName, f, info, 0, pw)
  }

  /** The `for` loop over slots `i .. count - 1`: each slot, or its own expansion when that is non-empty. */
  function ExpandSlots(clsName: string, f: Field, info: UnwrapInfo, i: nat, pw: nat): (r: Result<seq<Field>, Fault>)
    requires i <= info.count && Height(info.ty) < Height(f.Ty())
    ensures r.Success? ==> |r.value| >= info.count - i
    ensures r.Success? ==> forall g :: g in r.value ==> Inert(g.Ty(), pw) && DerivedFrom(g, f, clsName)
    ensures r.Failure? ==> r.error == DivideByZero
    decreases Height(info.ty) + 1, 0, info.count - i
  {
    if i == info.count then Success([])
    else
      var slot := Slot(clsName, f, info, i);
      SlotDerived(clsName, f, info, i);
      var again :- TryUnwrapField(clsName, slot, pw);
      var rest :- ExpandSlots(clsName, f, info, i + 1, pw);
      var piece := if |again| > 0 then again else [slot];
      assert forall g :: g in piece ==> Inert(g.Ty(), pw) && DerivedFrom(g, f, clsName) by {
        forall g | g in piece ensures Inert(g.Ty(), pw) && DerivedFrom(g, f, clsName) {
          if |again| > 0 {
            DerivedTrans(g, slot, f, clsName);
          }
        }
      }
      Success(piece + rest)
  }

  /**
   * Slots whose type is not an array are never expanded again: the field is
   * replaced by exactly `count` siblings `<name>_0 ... <name>_<count-1>`.
   */
  lemma OneLevelExpansion(clsName: string, f: Field, pw: nat)
    requires ShouldUnwrap(f.Ty()) && !Desugar(f.Ty().elem).Array?
    ensures FieldUnwrapInfo(f.Ty(), pw).Success? && FieldUnwrapInfo(f.Ty(), pw).value.Some?
    ensures
      var info := FieldUnwrapInfo(f.Ty(), pw).value.value;
      TryUnwrapField(clsName, f, pw) == Success(seq(info.count, i requires 0 <= i => Slot(clsName, f, info, i)))
  {
    var info := FieldUnwrapInfo(f.Ty(), pw).value.value;
    SlotsAreLeaves(clsName, f, info, 0, pw);
    assert seq(info.count - 0, k requires 0 <= k => Slot(clsName, f, info, 0 + k))
      == seq(info.count, i requires 0 <= i => Slot(clsName, f, info, i));
  }

  lemma {:induction false} SlotsAreLeaves(clsName: string, f: Field, info: UnwrapInfo, i: nat, pw: nat)
    requires i <= info.count && Height(info.ty) < Height(f.Ty()) && !IsConstSizeArray(info.ty)
    ensures ExpandSlots(clsName, f, info, i, pw) ==
      Success(seq(info.count - i, k requires 0 <= k => Slot(clsName, f, info, i + k)))
    decreases info.count - i
  {
    if i < info.count {
      SlotsAreLeaves(clsName, f, info, i + 1, pw);
      var slot := Slot(clsName, f, info, i);
      assert TryUnwrapField(clsName, slot, pw) == Success([]);
      var rest := seq(info.count - (i + 1), k requires 0 <= k => Slot(clsName, f, info, i + 1 + k));
      assert ExpandSlots(clsName, f, info, i + 1, pw) == Success(rest);
      assert ExpandSlots(clsName, f, info, i, pw) == Success([slot] + rest);
      var all := seq(info.count - i, k requires 0 <= k => Slot(clsName, f, info, i + k));
      assert all == [slot] + rest by {
        forall k | 0 <= k < |all| ensures all[k] == ([slot] + rest)[k] {
          if k > 0 {
            assert rest[k - 1] == Slot(clsName, f, info, i + 1 + (k - 1));
          }
        }
      }
    } else {
      assert seq(info.count - i, k requires 0 <= k => Slot(clsName, f, info, i + k)) == [];
    }
  }

  // ---------------------------------------------------------------------------
  // The class-level splice
  // ---------------------------------------------------------------------------

  /** The expansion of every field, in order; the first failing field aborts. */
  function Expansions(clsName: string, fields: seq<Field>, pw: nat): (r: Result<seq<seq<Field>>, Fault>)
    ensures r.Success? ==> |r.value| == |fields|
    ensures r.Failure? ==> r.error == DivideByZero
    decreases |fields|
  {
    if |fields| == 0 then Success([])
    else
      var init :- Expansions(clsName, fields[..|fields| - 1], pw);
      var e :- TryUnwrapField(clsName, fields[|fields| - 1], pw);
      Success(init + [e])
  }

  /** Field by field, the expansions are those of `TryUnwrapField`, and they succeed exactly when all fields do. */
  lemma {:induction false} ExpansionsElementwise(clsName: string, fields: seq<Field>, pw: nat)
    ensures Expansions(clsName, fields, pw).Success? <==>
      forall k :: 0 <= k < |fields| ==> TryUnwrapField(clsName, fields[k], pw).Success?
    ensures Expansions(clsName, fields, pw).Success? ==>
      forall k :: 0 <= k < |fields| ==>
        TryUnwrapField(clsName, fields[k], pw) == Success(Expansions(clsName, fields, pw).value[k])
    decreases |fields|
  {
    if |fields| > 0 {
      var init := fields[..|fields| - 1];
      ExpansionsElementwise(clsName, init, pw);
      assert forall k :: 0 <= k < |init| ==> init[k] == fields[k];
    }
  }

  /** The collecting loop of `VisitClassDecl`, one field further. */
  lemma ExpansionsStep(clsName: string, fields: seq<Field>, index: nat, ex: seq<seq<Field>>, pw: nat)
    requires index < |fields| && Expansions(clsName, fields[..index], pw) == Success(ex)
    ensures
      var t := TryUnwrapField(clsName, fields[index], pw);
      && (t.Success? ==> Expansions(clsName, fields[..index + 1], pw) == Success(ex + [t.value]))
      && (t.Failure? ==> Expansions(clsName, fields[..index + 1], pw).Failure?)
  {
    assert fields[..index + 1][..index] == fields[..index];
  }

  /** A failure among the first fields is a failure of the whole list. */
  lemma {:induction false} ExpansionsPrefixFailure(clsName: string, fields: seq<Field>, n: nat, pw: nat)
    requires n <= |fields| && Expansions(clsName, fields[..n], pw).Failure?
    ensures Expansions(clsName, fields, pw).Failure?
    decreases |fields| - n
  {
    if n < |fields| {
      assert fields[..n + 1][..n] == fields[..n];
      ExpansionsPrefixFailure(clsName, fields, n + 1, pw);
    } else {
      assert fields[..n] == fields;
    }
  }

  /**
   * The class as the pass leaves it: each field replaced by its expansion
   * where that is non-empty, kept where it is empty, in the original order.
   */
  function UnwrapFields(c: Class, pw: nat): (r: Result<Class, Fault>)
    ensures r.Success? ==> r.value == c.(fields := r.value.fields)
    ensures r.Success? ==> |r.value.fields| >= |c.fields|
    ensures r.Success? ==> forall g :: g in r.value.fields ==> g in c.fields || exists f :: f in c.fields && DerivedFrom(g, f, c.name)
    ensures r.Failure? ==> r.error == DivideByZero
  {
    var ex :- Expansions(c.name, c.fields, pw);
    ExpansionsElementwise(c.name, c.fields, pw);
    FlattenShape(c.name, c.fields, ex, pw);
    Success(c.(fields := Flatten(c.fields, ex)))
  }

  /**
   * The layout of a successful run: field by field, the expansion where it is
   * non-empty and the field itself otherwise, so the class ends up with the
   * sum of the expansion lengths, counting 1 for each field kept.
   */
  lemma UnwrapLayout(c: Class, pw: nat)
    requires UnwrapFields(c, pw).Success?
    ensures Expansions(c.name, c.fields, pw).Success?
    ensures
      var ex := Expansions(c.name, c.fields, pw).value;
      && |ex| == |c.fields|
      && (forall k :: 0 <= k < |c.fields| ==> TryUnwrapField(c.name, c.fields[k], pw) == Success(ex[k]))
      && UnwrapFields(c, pw).value.fields == Flatten(c.fields, ex)
      && |UnwrapFields(c, pw).value.fields| == Weight(ex)
  {
    var ex := Expansions(c.name, c.fields, pw).value;
    ExpansionsElementwise(c.name, c.fields, pw);
    FlattenLength(c.fields, ex);
  }

  lemma {:induction false} FlattenShape(clsName: string, fields: seq<Field>, ex: seq<seq<Field>>, pw: nat)
    requires |ex| == |fields|
    requires forall k :: 0 <= k < |fields| ==> TryUnwrapField(clsName, fields[k], pw) == Success(ex[k])
    ensures |Flatten(fields, ex)| >= |fields|
    ensures forall g :: g in Flatten(fields, ex) ==> g in fields || exists f :: f in fields && DerivedFrom(g, f, clsName)
    ensures forall g :: g in Flatten(fields, ex) ==> Inert(g.Ty(), pw)
    decreases |fields|
  {
    if |fields| > 0 {
      FlattenShape(clsName, fields[1..], ex[1..], pw);
      var head := if |ex[0]| > 0 then ex[0] else [fields[0]];
      assert Flatten(fields, ex) == head + Flatten(fields[1..], ex[1..]);
      forall g | g in Flatten(fields, ex)
        ensures (g in fields || exists f :: f in fields && DerivedFrom(g, f, clsName)) && Inert(g.Ty(), pw)
      {
        if g in head && |ex[0]| > 0 {
          assert fields[0] in fields && DerivedFrom(g, fields[0], clsName);
        } else if g !in head {
          assert g in Flatten(fields[1..], ex[1..]);
          if g !in fields[1..] {
            var f :| f in fields[1..] && DerivedFrom(g, f, clsName);
            assert f in fields;
          }
        }
      }
    }
  }

  /** Value equality can stand in for the removal of the original field objects. */
  lemma ExpansionsConsistent(clsName: string, fields: seq<Field>, ex: seq<seq<Field>>, pw: nat)
    requires |ex| == |fields|
    requires forall k :: 0 <= k < |fields| ==> TryUnwrapField(clsName, fields[k], pw) == Success(ex[k])
    ensures Consistent(fields, ex)
  {
    forall k, j | 0 <= k < |fields| && 0 <= j < |fields| && |ex[j]| > 0
      ensures fields[j] !in ex[k] && (fields[k] == fields[j] ==> |ex[k]| > 0)
    {
      assert !Inert(fields[j].Ty(), pw);
    }
  }

  /**
   * `VisitClassDecl(@class)`: collects the expansions and the fields they
   * replace, inserts the expansions from the last one back to the first at
   * their field's index, then removes the replaced fields.
   */
  method VisitClassDecl(c: Class, pw: nat) returns (r: Result<Class, Fault>)
    ensures r == UnwrapFields(c, pw)
  {
    var toRemove: seq<Field> := [];
    var toAdd: seq<(nat, Field)> := [];
    ghost var ex: seq<seq<Field>> := [];
    var index := 0;
    while index < |c.fields|
      invariant 0 <= index <= |c.fields|
      invariant Expansions(c.name, c.fields[..index], pw) == Success(ex)
      invariant toAdd == Entries(ex, 0)
      invariant toRemove == Removed(c.fields[..index], ex)
    {
      var field := c.fields[index];
      var unwrapped := TryUnwrapField(c.name, field, pw);
      ExpansionsStep(c.name, c.fields, index, ex, pw);
      if unwrapped.Failure? {
        ExpansionsPrefixFailure(c.name, c.fields, index + 1, pw);
        return Failure(unwrapped.error);
      }
      if |unwrapped.value| > 0 {
        toRemove := toRemove + [field];
      }
      CollectStep(c.fields, index, ex, unwrapped.value, toAdd, toRemove);
      toAdd := toAdd + Tagged(index, unwrapped.value);
      ex := ex + [unwrapped.value];
      index := index + 1;
    }
    assert c.fields[..index] == c.fields;

    InsertionPhase(c.fields, ex);
    var fields := InsertReversed(c.fields, toAdd);
    ExpansionsElementwise(c.name, c.fields, pw);
    ExpansionsConsistent(c.name, c.fields, ex, pw);
    RemoveExpandedOriginals(c.fields, ex);
    fields := RemoveEach(fields, toRemove);
    return Success(c.(fields := fields));
  }

  /** `toAdd.Reverse()` followed by `Fields.Insert` for each entry: the entries are taken last to first. */
  method InsertReversed<T>(s: seq<T>, toAdd: seq<(nat, T)>) returns (r: seq<T>)
    requires InsertBackward(s, toAdd).Some?
    ensures Some(r) == InsertBackward(s, toAdd)
  {
    r := s;
    var t := |toAdd|;
    assert toAdd[..t] == toAdd;
    while t > 0
      invariant 0 <= t <= |toAdd|
      invariant InsertBackward(r, toAdd[..t]) == InsertBackward(s, toAdd)
    {
      InsertBackwardStep(r, toAdd[..t]);
      assert toAdd[..t][..t - 1] == toAdd[..t - 1];
      var entry := toAdd[t - 1];
      r := Insert(r, entry.0, entry.1);
      t := t - 1;
    }
  }

  /** `Fields.Remove` for each element of `toRemove`, in order. */
  method RemoveEach<T(==)>(s: seq<T>, toRemove: seq<T>) returns (r: seq<T>)
    ensures r == RemoveAll(s, toRemove)
  {
    r := s;
    var u := 0;
    while u < |toRemove|
      invariant 0 <= u <= |toRemove|
      invariant RemoveAll(r, toRemove[u..]) == RemoveAll(s, toRemove)
    {
      assert toRemove[u..][1..] == toRemove[u + 1..];
      r := RemoveFirst(r, toRemove[u]);
      u := u + 1;
    }
  }

  /** The bookkeeping of one pass of the collecting loop. */
  lemma CollectStep(fields: seq<Field>, index: nat, ex: seq<seq<Field>>, e: seq<Field>,
                    toAdd: seq<(nat, Field)>, toRemove: seq<Field>)
    requires index < |fields| && |ex| == index
    requires toAdd == Entries(ex, 0)
    requires toRemove == Removed(fields[..index], ex) + (if |e| > 0 then [fields[index]] else [])
    ensures toAdd + Tagged(index, e) == Entries(ex + [e], 0)
    ensures toRemove == Removed(fields[..index + 1], ex + [e])
  {
    EntriesSnoc(ex, e, 0);
    RemovedSnoc(fields[..index], ex, fields[index], e);
    assert fields[..index + 1] == fields[..index] + [fields[index]];
  }

  /** A second run over the resulting class changes nothing. */
  lemma UnwrapIsIdempotent(c: Class, pw: nat)
    requires UnwrapFields(c, pw).Success?
    ensures UnwrapFields(UnwrapFields(c, pw).value, pw) == UnwrapFields(c, pw)
  {
    var d := UnwrapFields(c, pw).value;
    var ex := Expansions(c.name, c.fields, pw).value;
    ExpansionsElementwise(c.name, c.fields, pw);
    FlattenShape(c.name, c.fields, ex, pw);
    var none := seq(|d.fields|, k requires 0 <= k => []);
    assert forall k :: 0 <= k < |d.fields| ==> TryUnwrapField(d.name, d.fields[k], pw) == Success(none[k]) by {
      forall k | 0 <= k < |d.fields| ensures TryUnwrapField(d.name, d.fields[k], pw) == Success(none[k]) {
        assert d.fields[k] in d.fields;
      }
    }
    ExpansionsAll(d.name, d.fields, none, pw);
    FlattenNothing(d.fields, none);
  }

  /** Expansions that all succeed are collected as they are. */
  lemma {:induction false} ExpansionsAll(clsName: string, fields: seq<Field>, ex: seq<seq<Field>>, pw: nat)
    requires |ex| == |fields|
    requires forall k :: 0 <= k < |fields| ==> TryUnwrapField(clsName, fields[k], pw) == Success(ex[k])
    ensures Expansions(clsName, fields, pw) == Success(ex)
    decreases |fields|
  {
    if |fields| > 0 {
      var n := |fields| - 1;
      ExpansionsAll(clsName, fields[..n], ex[..n], pw);
      assert ex == ex[..n] + [ex[n]];
    }
  }

  lemma {:induction false} FlattenNothing<T>(xs: seq<T>, ex: seq<seq<T>>)
    requires |ex| == |xs| && forall k :: 0 <= k < |xs| ==> ex[k] == []
    ensures Flatten(xs, ex) == xs
    decreases |xs|
  {
    if |xs| > 0 {
      FlattenNothing(xs[1..], ex[1..]);
      assert xs == [xs[0]] + xs[1..];
    }
  }
}
