/**
 * Worked shapes for both array passes: the concrete classes the passes
 * produce for a nested primitive array, an array of pointers to arrays,
 * a two-level array of structs, and two fields of the same shape.
 */
module Scenarios {
  import opened Results
  import opened Numerals
  import opened Ast
  import opened ArrayShape
  import opened WrapperPass
  import opened UnwrapPass

  const IntType := Builtin(Int32)

  function Member(name: string, t: Type, offset: nat): Field {
    Field(name, QualifiedType(t, NoQualifiers), offset, Detached, InDecl("C"), FreshInfo, None)
  }

  // ---------------------------------------------------------------------------
  // The in-place pass
  // ---------------------------------------------------------------------------

  /**
   * `int (*p[2])[5]`, two pointers to `int[5]`, at offset 8 on a 64-bit
   * target: two siblings `p_0`, `p_1` typed `int**`, one pointer width apart.
   */
  lemma PointerToArraySiblings()
    ensures
      var f := Member("p", Array(Pointer(QualifiedType(Array(IntType, Constant, 5), NoQualifiers)), Constant, 2), 8);
      var slotType := QualifiedType(Pointer(QualifiedType(Pointer(QualifiedType(IntType, NoQualifiers)), NoQualifiers)), NoQualifiers);
      TryUnwrapField("C", f, 64) == Success([
        Field("p_0", slotType, 8, Detached, InDecl("C"), FreshInfo, None),
        Field("p_1", slotType, 72, Detached, InDecl("C"), FreshInfo, None)])
  {
    var f := Member("p", Array(Pointer(QualifiedType(Array(IntType, Constant, 5), NoQualifiers)), Constant, 2), 8);
    var slotType := QualifiedType(Pointer(QualifiedType(Pointer(QualifiedType(IntType, NoQualifiers)), NoQualifiers)), NoQualifiers);
    var info := UnwrapInfo(slotType.ty, 2, 64);
    assert FieldUnwrapInfo(f.Ty(), 64) == Success(Some(info));
    OneLevelExpansion("C", f, 64);
    assert Numeral(0, 10) == "0" && Numeral(1, 10) == "1";
    var s0 := Field("p_0", slotType, 8, Detached, InDecl("C"), FreshInfo, None);
    var s1 := Field("p_1", slotType, 72, Detached, InDecl("C"), FreshInfo, None);
    assert Slot("C", f, info, 0) == s0;
    assert Slot("C", f, info, 1) == s1;
    assert seq(info.count, i requires 0 <= i => Slot("C", f, info, i)) == [s0, s1];
  }

  /** A row `S r[2]` of a struct array expands into its two elements `r_0`, `r_1`. */
  lemma RowExpansion(clsName: string, row: Field, pw: nat)
    requires row.Ty() == Array(Tag("S"), Constant, 2)
    ensures
      var info := UnwrapInfo(Tag("S"), 2, 0);
      TryUnwrapField(clsName, row, pw) == Success([Slot(clsName, row, info, 0), Slot(clsName, row, info, 1)])
  {
    var info := UnwrapInfo(Tag("S"), 2, 0);
    assert FieldUnwrapInfo(row.Ty(), pw) == Success(Some(info));
    OneLevelExpansion(clsName, row, pw);
    assert seq(2, i requires 0 <= i => Slot(clsName, row, info, i))
      == [Slot(clsName, row, info, 0), Slot(clsName, row, info, 1)];
  }

  /**
   * The expansion of `S a[2][2]` (outer size 4, the total element count):
   * two rows of `S[2]`, each row's two elements, row by row.
   */
  lemma RowsExpansion(clsName: string, f: Field, pw: nat)
    requires f.Ty() == Array(Array(Tag("S"), Constant, 2), Constant, 4)
    ensures
      var info := UnwrapInfo(Array(Tag("S"), Constant, 2), 2, 0);
      var cell := UnwrapInfo(Tag("S"), 2, 0);
      var row0, row1 := Slot(clsName, f, info, 0), Slot(clsName, f, info, 1);
      TryUnwrapField(clsName, f, pw) == Success([
        Slot(clsName, row0, cell, 0), Slot(clsName, row0, cell, 1),
        Slot(clsName, row1, cell, 0), Slot(clsName, row1, cell, 1)])
  {
    var info := UnwrapInfo(Array(Tag("S"), Constant, 2), 2, 0);
    var cell := UnwrapInfo(Tag("S"), 2, 0);
    assert FieldUnwrapInfo(f.Ty(), pw) == Success(Some(info));
    var row0, row1 := Slot(clsName, f, info, 0), Slot(clsName, f, info, 1);
    assert row0.Ty() == Array(Tag("S"), Constant, 2) && row1.Ty() == Array(Tag("S"), Constant, 2);
    RowExpansion(clsName, row0, pw);
    RowExpansion(clsName, row1, pw);
    var e0 := [Slot(clsName, row0, cell, 0), Slot(clsName, row0, cell, 1)];
    var e1 := [Slot(clsName, row1, cell, 0), Slot(clsName, row1, cell, 1)];
    assert TryUnwrapField(clsName, row0, pw) == Success(e0);
    assert TryUnwrapField(clsName, row1, pw) == Success(e1);
    assert ExpandSlots(clsName, f, info, 2, pw) == Success([]);
    assert e1 + [] == e1;
    assert ExpandSlots(clsName, f, info, 1, pw) == Success(e1);
    assert ExpandSlots(clsName, f, info, 0, pw) == Success(e0 + e1);
    assert e0 + e1 == [e0[0], e0[1], e1[0], e1[1]];
  }

  /**
   * A struct array `S a[2][2]`, whose outer size is the total element
   * count 4, read as two rows of `S[2]`: the rows are
   * expanded again, giving `a_0_0, a_0_1, a_1_0, a_1_1` in that order, all
   * of type `S` and all at the array's own offset (the width is left at 0).
   */
  lemma NestedRowsGiveNestedNames(clsName: string, f: Field, pw: nat)
    requires f.Ty() == Array(Array(Tag("S"), Constant, 2), Constant, 4)
    ensures
      var r := TryUnwrapField(clsName, f, pw);
      && r.Success?
      && |r.value| == 4
      && r.value[0].name == f.name + "_0_0" && r.value[1].name == f.name + "_0_1"
      && r.value[2].name == f.name + "_1_0" && r.value[3].name == f.name + "_1_1"
      && forall k :: 0 <= k < 4 ==> r.value[k].Ty() == Tag("S") && r.value[k].offset == f.offset
  {
    RowsExpansion(clsName, f, pw);
    assert Numeral(0, 10) == "0" && Numeral(1, 10) == "1";
    var r := TryUnwrapField(clsName, f, pw).value;
    assert r[0].name == f.name + "_" + "0" + "_" + "0";
    assert r[1].name == f.name + "_" + "0" + "_" + "1";
    assert r[2].name == f.name + "_" + "1" + "_" + "0";
    assert r[3].name == f.name + "_" + "1" + "_" + "1";
  }

  // ---------------------------------------------------------------------------
  // The wrapper pass
  // ---------------------------------------------------------------------------

  /** The wrapper made for `int m[3][4]` (outer size 12): three slots typed `int[4]`, none of which needs unwrapping. */
  lemma RowWrapper(ctx: Context, f: Field)
    requires f.Ty() == Array(Array(IntType, Constant, 4), Constant, 12)
    ensures
      var w := NewWrapper(ctx, f, UnwrapInfo(Array(IntType, Constant, 4), 3, 0));
      && w.name == "ArrayWrapper_int[4]3"
      && |w.fields| == 3
      && w.fields[0].name == "I0" && w.fields[1].name == "I1" && w.fields[2].name == "I2"
      && (forall k :: 0 <= k < 3 ==> w.fields[k].Ty() == Array(IntType, Constant, 4))
      && Settled(w)
  {
    var info := UnwrapInfo(Array(IntType, Constant, 4), 3, 0);
    assert Numeral(4, 10) == "4" && Numeral(3, 10) == "3";
    assert Render(info.ty) == "int[4]";
    assert WrapperName(info) == "ArrayWrapper_int[4]3";
    assert Numeral(0, 10) == "0" && Numeral(1, 10) == "1" && Numeral(2, 10) == "2";
  }

  /**
   * `int m[3][4]` (twelve ints in rows of four): the class gets one wrapper
   * `ArrayWrapper_int[4]3`, a value type with three slots `I0 .. I2` typed
   * `int[4]`, which is left as it is; the field now refers to the wrapper.
   */
  lemma NestedPrimitiveArrayWrapper(c: Class, f: Field, pw: nat)
    requires f.Ty() == Array(Array(IntType, Constant, 4), Constant, 12)
    requires !IsWrapperName(c.name) && c.fields == [f]
    ensures
      var ctx := Context(c.owner, [c]);
      var r := ProcessClass(ctx, 0, pw, 1);
      && r.Success?
      && |r.value.classes| == 2
      && r.value.classes[0] == c.(fields := [Rewrite(f, "ArrayWrapper_int[4]3")])
      && var w := r.value.classes[1];
      && w.name == "ArrayWrapper_int[4]3"
      && w.kind == ValueType && w.owner == c.owner
      && |w.fields| == 3
      && w.fields[0].name == "I0" && w.fields[1].name == "I1" && w.fields[2].name == "I2"
      && (forall k :: 0 <= k < 3 ==> w.fields[k].Ty() == Array(IntType, Constant, 4))
  {
    var ctx := Context(c.owner, [c]);
    var info := UnwrapInfo(Array(IntType, Constant, 4), 3, 0);
    assert FieldUnwrapInfo(f.Ty(), pw) == Success(Some(info));
    RowWrapper(ctx, f);
    var w := NewWrapper(ctx, f, info);
    var name := w.name;
    assert FindClass(ctx.classes, name) == None by {
      assert ctx.classes[0].name != name;
    }
    var ctx1 := ctx.(classes := ctx.classes + [w]);
    assert GetCreateWrapperStruct(ctx, f, info) == (ctx1, 1);
    SettledIsFixpoint(ctx1, 1, pw, 0);
    assert ProcessField(ctx, f, pw, 1) == Success((ctx1, Some(1)));
    var ctx2 := StoreField(ctx1, 0, 0, Rewrite(f, name));
    SettledFieldsUnchanged(ctx2, 0, 1, pw, 1);
    assert ProcessFieldsFrom(ctx, 0, 0, pw, 1) == Success(ctx2);
  }

  /**
   * Two fields `S x[2]` and `S y[2]` of one class share one wrapper: the
   * context gains a single class and both fields refer to it.
   */
  lemma SameShapeSharesWrapper(self: Owner, pw: nat)
    ensures
      var x := Member("x", Array(Tag("S"), Constant, 2), 0);
      var y := Member("y", Array(Tag("S"), Constant, 2), 16);
      var ctx := Context(self, [Class("C", RefType, self, [x, y], [], [], [])]);
      var r := ProcessClass(ctx, 0, pw, 1);
      && r.Success?
      && |r.value.classes| == 2
      && r.value.classes[1].name == "ArrayWrapper_S2"
      && r.value.classes[0].fields == [Rewrite(x, "ArrayWrapper_S2"), Rewrite(y, "ArrayWrapper_S2")]
  {
    var x := Member("x", Array(Tag("S"), Constant, 2), 0);
    var y := Member("y", Array(Tag("S"), Constant, 2), 16);
    var ctx := Context(self, [Class("C", RefType, self, [x, y], [], [], [])]);
    var info := UnwrapInfo(Tag("S"), 2, 0);
    assert FieldUnwrapInfo(x.Ty(), pw) == Success(Some(info));
    assert FieldUnwrapInfo(y.Ty(), pw) == Success(Some(info));
    assert Numeral(2, 10) == "2";
    var name := WrapperName(info);
    assert name == "ArrayWrapper_S2";
    assert FindClass(ctx.classes, name) == None by {
      assert ctx.classes[0].name != name;
    }
    var w := NewWrapper(ctx, x, info);
    var ctx1 := ctx.(classes := ctx.classes + [w]);
    assert GetCreateWrapperStruct(ctx, x, info) == (ctx1, 1);
    assert Settled(ctx1.classes[1]);
    SettledIsFixpoint(ctx1, 1, pw, 0);
    assert ProcessField(ctx, x, pw, 1) == Success((ctx1, Some(1)));
    var ctx2 := StoreField(ctx1, 0, 0, Rewrite(x, name));
    assert FindClass(ctx2.classes, name) == Some(1) by {
      assert ctx2.classes[0].name != name;
    }
    assert GetCreateWrapperStruct(ctx2, y, info) == (ctx2, 1);
    assert Settled(ctx2.classes[1]);
    SettledIsFixpoint(ctx2, 1, pw, 0);
    assert ProcessField(ctx2, y, pw, 1) == Success((ctx2, Some(1)));
    var ctx3 := StoreField(ctx2, 0, 1, Rewrite(y, name));
    SettledFieldsUnchanged(ctx3, 0, 2, pw, 1);
    assert ProcessFieldsFrom(ctx2, 0, 1, pw, 1) == Success(ctx3);
    assert ProcessFieldsFrom(ctx, 0, 0, pw, 1) == Success(ctx3);
  }

  /**
   * A class named like a wrapper is harmless once settled: with an empty
   * `ArrayWrapper_S2` already in the namespace, `S x[2]` is retyped to it and
   * the run ends with budget 1, adding nothing.
   */
  lemma SettledWrapperReused(self: Owner, pw: nat)
    ensures
      var x := Member("x", Array(Tag("S"), Constant, 2), 0);
      var prior := Class("ArrayWrapper_S2", ValueType, self, [], [], [], []);
      var ctx := Context(self, [Class("C", RefType, self, [x], [], [], []), prior]);
      ProcessClass(ctx, 0, pw, 1) == Success(ctx.(classes := [Class("C", RefType, self, [Rewrite(x, "ArrayWrapper_S2")], [], [], []), prior]))
  {
    var x := Member("x", Array(Tag("S"), Constant, 2), 0);
    var prior := Class("ArrayWrapper_S2", ValueType, self, [], [], [], []);
    var ctx := Context(self, [Class("C", RefType, self, [x], [], [], []), prior]);
    var info := UnwrapInfo(Tag("S"), 2, 0);
    assert FieldUnwrapInfo(x.Ty(), pw) == Success(Some(info));
    assert Numeral(2, 10) == "2";
    var name := WrapperName(info);
    assert name == "ArrayWrapper_S2";
    assert FindClass(ctx.classes, name) == Some(1) by {
      assert ctx.classes[0].name != name;
    }
    assert GetCreateWrapperStruct(ctx, x, info) == (ctx, 1);
    SettledIsFixpoint(ctx, 1, pw, 0);
    assert ProcessField(ctx, x, pw, 1) == Success((ctx, Some(1)));
    var ctx2 := StoreField(ctx, 0, 0, Rewrite(x, name));
    SettledFieldsUnchanged(ctx2, 0, 1, pw, 1);
    assert ProcessFieldsFrom(ctx, 0, 0, pw, 1) == Success(ctx2);
    assert [x][0 := Rewrite(x, name)] == [Rewrite(x, "ArrayWrapper_S2")];
    assert ctx2.classes[0] == Class("C", RefType, self, [Rewrite(x, "ArrayWrapper_S2")], [], [], []);
    assert ctx2.classes[1] == prior && |ctx2.classes| == 2;
    assert ctx2.classes == [Class("C", RefType, self, [Rewrite(x, "ArrayWrapper_S2")], [], [], []), prior];
  }
}
