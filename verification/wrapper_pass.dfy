/**
 * The wrapper-generating array pass: every field that is a constant-size
 * array of a non-primitive element is retyped to a synthesized value type
 * `ArrayWrapper_<type><count>` holding one positional slot `I0 ... I{N-1}`
 * per element. Wrappers are looked up by name in the declaration context
 * before one is created, and each wrapper the pass hands out (new or found)
 * is processed in turn, so nested shapes are unwrapped recursively.
 *
 * Classes live in the context's ordered class list and are addressed by
 * index; a `Tag` type refers to a class by name, and the class it denotes
 * is the first one of that name in the list.
 *
 * The C# recursion has no bound of its own; here it carries an explicit
 * call-stack budget, and running out of it is the `StackOverflow` fault.
 */
module WrapperPass {
  import opened Results
  import opened Numerals
  import opened Ast
  import opened ArrayShape

  /** A declaration context: the `Owner` value that refers to it, and its ordered class list. */
  datatype Context = Context(self: Owner, classes: seq<Class>)

  /** `ctx.FindClass(name)`: the index of the first class with that name. */
  function FindClass(classes: seq<Class>, name: string): (r: Option<nat>)
    ensures r.Some? ==> r.value < |classes| && classes[r.value].name == name
    ensures r.Some? ==> forall k :: 0 <= k < r.value ==> classes[k].name != name
    ensures r.None? ==> forall k :: 0 <= k < |classes| ==> classes[k].name != name
  {
    if |classes| == 0 then None
    else if classes[0].name == name then Some(0)
    else
      match FindClass(classes[1..], name)
      case None => None
      case Some(i) => Some(i + 1)
  }

  /** The lookup only depends on names: a list that keeps the names of a prefix finds the same class. */
  lemma FindClassStable(xs: seq<Class>, ys: seq<Class>, name: string)
    requires |xs| <= |ys|
    requires forall k :: 0 <= k < |xs| ==> ys[k].name == xs[k].name
    requires FindClass(xs, name).Some?
    ensures FindClass(ys, name) == FindClass(xs, name)
  {
    var i := FindClass(xs, name).value;
    assert ys[i].name == name;
  }

  /** Appending a class of a name the list lacks makes the name resolve to the new last index. */
  lemma FindClassAppend(xs: seq<Class>, c: Class)
    requires FindClass(xs, c.name).None?
    ensures FindClass(xs + [c], c.name) == Some(|xs|)
  {
    var ys := xs + [c];
    assert ys[|xs|].name == c.name;
    assert forall k :: 0 <= k < |xs| ==> ys[k] == xs[k];
  }

  predicate IsWrapperName(name: string) {
    "ArrayWrapper_" <= name
  }

  /** Slot `I<i>` of a new wrapper: the unwrap type with the original field's qualifiers, at `i * width`. */
  function WrapperSlot(wrapperName: string, field: Field, info: UnwrapInfo, i: nat): Field {
    Field("I" + Numeral(i, 10), QualifiedType(info.ty, field.qt.quals), i * info.width,
          InDecl(wrapperName), Detached, FreshInfo, None)
  }

  lemma SlotNamesDistinct(i: nat, j: nat)
    requires i != j
    ensures "I" + Numeral(i, 10) != "I" + Numeral(j, 10)
  {
    NumeralInjective(i, j, 10);
    assert ("I" + Numeral(i, 10))[1..] == Numeral(i, 10);
    assert ("I" + Numeral(j, 10))[1..] == Numeral(j, 10);
  }

  /** The value type created on a cache miss. */
  function NewWrapper(ctx: Context, field: Field, info: UnwrapInfo): (c: Class)
    ensures c.name == WrapperName(info) && IsWrapperName(c.name)
    ensures c.kind == ValueType && c.owner == ctx.self
    ensures |c.fields| == info.count
    ensures forall i :: 0 <= i < |c.fields| ==>
      && c.fields[i].name == "I" + Numeral(i, 10)
      && c.fields[i].offset == i * info.width
      && c.fields[i].qt == QualifiedType(info.ty, field.qt.quals)
      && c.fields[i].owner == InDecl(c.name)
    ensures forall i, j :: 0 <= i < j < |c.fields| ==> c.fields[i].name != c.fields[j].name
    ensures c.classes == [] && c.functions == [] && c.enums == []
  {
    var name := WrapperName(info);
    var slots := seq(info.count, i requires 0 <= i => WrapperSlot(name, field, info, i));
    assert forall i, j :: 0 <= i < j < |slots| ==> slots[i].name != slots[j].name by {
      forall i, j | 0 <= i < j < |slots| ensures slots[i].name != slots[j].name {
        SlotNamesDistinct(i, j);
      }
    }
    Class(name, ValueType, ctx.self, slots, [], [], [])
  }

  /**
   * `GetCreateWrapperStruct`: the class named `WrapperName(info)` if the
   * context has one (context unchanged), otherwise a new wrapper appended to
   * the context. The index returned is where the name now resolves.
   */
  function GetCreateWrapperStruct(ctx: Context, field: Field, info: UnwrapInfo): (r: (Context, nat))
    ensures r.0.self == ctx.self
    ensures r.1 < |r.0.classes| && FindClass(r.0.classes, WrapperName(info)) == Some(r.1)
    ensures FindClass(ctx.classes, WrapperName(info)).Some? ==> r.0 == ctx
    ensures FindClass(ctx.classes, WrapperName(info)).None? ==>
      r.0.classes == ctx.classes + [NewWrapper(ctx, field, info)]
  {
    var name := WrapperName(info);
    match FindClass(ctx.classes, name)
    case Some(i) => (ctx, i)
    case None =>
      var c := NewWrapper(ctx, field, info);
      var classes := ctx.classes + [c];
      FindClassAppend(ctx.classes, c);
      (ctx.(classes := classes), |ctx.classes|)
  }

  /** Asking twice for the same shape gives the same class and adds nothing the second time. */
  lemma WrapperMemoised(ctx: Context, f: Field, g: Field, info: UnwrapInfo)
    ensures
      var (ctx1, w1) := GetCreateWrapperStruct(ctx, f, info);
      GetCreateWrapperStruct(ctx1, g, info) == (ctx1, w1)
  {
  }

  // ---------------------------------------------------------------------------
  // What one run may change
  // ---------------------------------------------------------------------------

  /** `new Field(field) { QualifiedType = new QualifiedType(new TagType(wrapper)) }`: qualifiers are reset. */
  function Rewrite(f: Field, wrapperName: string): Field {
    f.(qt := QualifiedType(Tag(wrapperName), NoQualifiers))
  }

  /**
   * The copy keeps the field's name, offset, owners, attributes and value;
   * only its type changes, to a reference to the wrapper with no qualifiers,
   * which the pass never unwraps again.
   */
  lemma RewriteRetypesOnly(f: Field, wrapperName: string)
    ensures
      var g := Rewrite(f, wrapperName);
      && g.Ty() == Tag(wrapperName) && g.qt.quals == NoQualifiers && !ShouldUnwrap(g.Ty())
      && g.name == f.name && g.offset == f.offset && g.owner == f.owner && g.cls == f.cls
      && g.info == f.info && g.value == f.value
  {
  }

  /** No field of the class is left for the pass to unwrap. */
  ghost predicate Settled(c: Class) {
    forall j :: 0 <= j < |c.fields| ==> !ShouldUnwrap(c.fields[j].Ty())
  }

  /** `b` is the rewrite of `a` to its wrapper reference. */
  ghost predicate IsRewriteOf(a: Field, b: Field, pw: nat) {
    && ShouldUnwrap(a.Ty())
    && FieldUnwrapInfo(a.Ty(), pw).Success?
    && FieldUnwrapInfo(a.Ty(), pw).value.Some?
    && b == Rewrite(a, WrapperName(FieldUnwrapInfo(a.Ty(), pw).value.value))
  }

  ghost predicate FieldStep(a: Field, b: Field, pw: nat) {
    b == a || IsRewriteOf(a, b, pw)
  }

  /** Same class apart from fields, same number of fields, each field kept or rewritten. */
  ghost predicate ClassStep(a: Class, b: Class, pw: nat) {
    && b.name == a.name && b.kind == a.kind && b.owner == a.owner
    && b.classes == a.classes && b.functions == a.functions && b.enums == a.enums
    && |b.fields| == |a.fields|
    && forall j :: 0 <= j < |a.fields| ==> FieldStep(a.fields[j], b.fields[j], pw)
  }

  /** A field's tag names a class of the list, and that class is settled. */
  ghost predicate Resolves(classes: seq<Class>, f: Field) {
    && f.Ty().Tag?
    && FindClass(classes, f.Ty().decl).Some?
    && Settled(classes[FindClass(classes, f.Ty().decl).value])
  }

  /**
   * The invariant of the pass: classes are never removed, renamed or
   * reordered; fields are kept or rewritten in place; every rewritten field
   * resolves to a settled class; every added class is a value-type wrapper of
   * this context and the first class of its name.
   */
  ghost predicate Grows(c0: Context, c1: Context, pw: nat) {
    && c1.self == c0.self
    && |c0.classes| <= |c1.classes|
    && (forall k :: 0 <= k < |c0.classes| ==> ClassStep(c0.classes[k], c1.classes[k], pw))
    && (forall k, j ::
          (0 <= k < |c0.classes| && 0 <= j < |c0.classes[k].fields| &&
           c1.classes[k].fields[j] != c0.classes[k].fields[j]) ==>
          Resolves(c1.classes, c1.classes[k].fields[j]))
    && (forall k :: |c0.classes| <= k < |c1.classes| ==>
          && IsWrapperName(c1.classes[k].name)
          && c1.classes[k].kind == ValueType
          && c1.classes[k].owner == c0.self
          && FindClass(c1.classes, c1.classes[k].name) == Some(k))
  }

  lemma GrowsRefl(c: Context, pw: nat)
    ensures Grows(c, c, pw)
  {
  }

  lemma SettledKept(a: Class, b: Class, pw: nat)
    requires ClassStep(a, b, pw) && Settled(a)
    ensures b == a
  {
    assert b.fields == a.fields;
  }

  lemma GrowsTrans(a: Context, b: Context, c: Context, pw: nat)
    requires Grows(a, b, pw) && Grows(b, c, pw)
    ensures Grows(a, c, pw)
  {
    forall k | 0 <= k < |a.classes|
      ensures ClassStep(a.classes[k], c.classes[k], pw)
    {
      var x, y, z := a.classes[k], b.classes[k], c.classes[k];
      forall j | 0 <= j < |x.fields| ensures FieldStep(x.fields[j], z.fields[j], pw) {
        assert FieldStep(x.fields[j], y.fields[j], pw);
        assert FieldStep(y.fields[j], z.fields[j], pw);
      }
    }
    forall k, j | 0 <= k < |a.classes| && 0 <= j < |a.classes[k].fields| &&
        c.classes[k].fields[j] != a.classes[k].fields[j]
      ensures Resolves(c.classes, c.classes[k].fields[j])
    {
      var fa, fb, fc := a.classes[k].fields[j], b.classes[k].fields[j], c.classes[k].fields[j];
      if fc == fb {
        assert Resolves(b.classes, fb);
        ResolvesStable(b, c, fb, pw);
      }
    }
    forall k | |b.classes| > k >= |a.classes|
      ensures FindClass(c.classes, c.classes[k].name) == Some(k)
    {
      FindClassStable(b.classes, c.classes, b.classes[k].name);
    }
  }

  /** A resolving reference keeps resolving, to a settled class, as the context grows. */
  lemma ResolvesStable(b: Context, c: Context, f: Field, pw: nat)
    requires Grows(b, c, pw) && Resolves(b.classes, f)
    ensures Resolves(c.classes, f)
  {
    var w := FindClass(b.classes, f.Ty().decl).value;
    FindClassStable(b.classes, c.classes, f.Ty().decl);
    SettledKept(b.classes[w], c.classes[w], pw);
  }

  /** Class `ci` of the context with its field `index` replaced by `f`. */
  function StoreField(ctx: Context, ci: nat, index: nat, f: Field): (r: Context)
    requires ci < |ctx.classes| && index < |ctx.classes[ci].fields|
    ensures r.self == ctx.self && |r.classes| == |ctx.classes|
    ensures forall k :: 0 <= k < |ctx.classes| && k != ci ==> r.classes[k] == ctx.classes[k]
    ensures r.classes[ci] == ctx.classes[ci].(fields := ctx.classes[ci].fields[index := f])
  {
    var c := ctx.classes[ci];
    ctx.(classes := ctx.classes[ci := c.(fields := c.fields[index := f])])
  }

  /** Storing a kept-or-rewritten field that resolves keeps the invariant. */
  lemma StoreGrows(ctx: Context, ci: nat, index: nat, f: Field, pw: nat)
    requires ci < |ctx.classes| && index < |ctx.classes[ci].fields|
    requires FieldStep(ctx.classes[ci].fields[index], f, pw)
    requires Resolves(StoreField(ctx, ci, index, f).classes, f)
    ensures Grows(ctx, StoreField(ctx, ci, index, f), pw)
  {
    var ctx2 := StoreField(ctx, ci, index, f);
    forall k | 0 <= k < |ctx.classes| ensures ClassStep(ctx.classes[k], ctx2.classes[k], pw) {
      if k == ci {
        var a, b := ctx.classes[k], ctx2.classes[k];
        forall j | 0 <= j < |a.fields| ensures FieldStep(a.fields[j], b.fields[j], pw) {
          if j != index {
            assert b.fields[j] == a.fields[j];
          }
        }
      }
    }
    forall k, j | 0 <= k < |ctx.classes| && 0 <= j < |ctx.classes[k].fields| &&
        ctx2.classes[k].fields[j] != ctx.classes[k].fields[j]
      ensures Resolves(ctx2.classes, ctx2.classes[k].fields[j])
    {
      assert k == ci && j == index;
    }
  }

  lemma StoreKeepsSettled(ctx: Context, ci: nat, index: nat, f: Field, w: nat)
    requires ci < |ctx.classes| && index < |ctx.classes[ci].fields| && w < |ctx.classes|
    requires Settled(ctx.classes[w]) && !ShouldUnwrap(f.Ty())
    ensures Settled(StoreField(ctx, ci, index, f).classes[w])
  {
    var c := StoreField(ctx, ci, index, f).classes[w];
    forall j | 0 <= j < |c.fields| ensures !ShouldUnwrap(c.fields[j].Ty()) {
      if w == ci && j != index {
        assert c.fields[j] == ctx.classes[w].fields[j];
      }
    }
  }

  /** Storing the rewritten field at `index` of class `ci` keeps the invariant. */
  lemma StoreRewriteGrows(ctx: Context, ctx1: Context, ci: nat, index: nat, w: nat, pw: nat)
    requires ci < |ctx.classes| && index < |ctx.classes[ci].fields|
    requires Grows(ctx, ctx1, pw)
    requires ShouldUnwrap(ctx.classes[ci].fields[index].Ty())
    requires FieldUnwrapInfo(ctx.classes[ci].fields[index].Ty(), pw).Success?
    requires FieldUnwrapInfo(ctx.classes[ci].fields[index].Ty(), pw).value.Some?
    requires w < |ctx1.classes| && Settled(ctx1.classes[w])
    requires FindClass(ctx1.classes, WrapperName(FieldUnwrapInfo(ctx.classes[ci].fields[index].Ty(), pw).value.value)) == Some(w)
    ensures
      var field := ctx.classes[ci].fields[index];
      var ctx2 := StoreField(ctx1, ci, index, Rewrite(field, ctx1.classes[w].name));
      && Grows(ctx, ctx2, pw)
      && !ShouldUnwrap(ctx2.classes[ci].fields[index].Ty())
  {
    var field := ctx.classes[ci].fields[index];
    var nf := Rewrite(field, ctx1.classes[w].name);
    var ctx2 := StoreField(ctx1, ci, index, nf);
    assert IsRewriteOf(field, nf, pw);
    assert FieldStep(ctx1.classes[ci].fields[index], nf, pw) by {
      assert ClassStep(ctx.classes[ci], ctx1.classes[ci], pw);
      assert FieldStep(field, ctx1.classes[ci].fields[index], pw);
    }
    FindClassStable(ctx1.classes, ctx2.classes, nf.Ty().decl);
    StoreKeepsSettled(ctx1, ci, index, nf, w);
    assert Resolves(ctx2.classes, nf);
    StoreGrows(ctx1, ci, index, nf, pw);
    GrowsTrans(ctx, ctx1, ctx2, pw);
  }

  // ---------------------------------------------------------------------------
  // The pass
  // ---------------------------------------------------------------------------

  /**
   * `ProcessClass(@class, ctx)`: processes the fields of class `ci` in order.
   * On completion every field of the class is settled and the context has
   * only grown as `Grows` allows.
   */
  function ProcessClass(ctx: Context, ci: nat, pw: nat, budget: nat): (r: Result<Context, Fault>)
    requires ci < |ctx.classes|
    ensures r.Success? ==> Grows(ctx, r.value, pw) && Settled(r.value.classes[ci])
    decreases budget, |ctx.classes[ci].fields| + 2
  {
    ProcessFieldsFrom(ctx, ci, 0, pw, budget)
  }

  /** The `for` loop of `ProcessClass`, from field `index` on. */
  function ProcessFieldsFrom(ctx: Context, ci: nat, index: nat, pw: nat, budget: nat): (r: Result<Context, Fault>)
    requires ci < |ctx.classes| && index <= |ctx.classes[ci].fields|
    ensures r.Success? ==> Grows(ctx, r.value, pw)
    ensures r.Success? ==> forall j :: index <= j < |r.value.classes[ci].fields| ==>
      !ShouldUnwrap(r.value.classes[ci].fields[j].Ty())
    decreases budget, |ctx.classes[ci].fields| - index + 1
  {
    if index == |ctx.classes[ci].fields| then
      GrowsRefl(ctx, pw);
      Success(ctx)
    else
      var field := ctx.classes[ci].fields[index];
      match ProcessField(ctx, field, pw, budget)
      case Failure(e) => Failure(e)
      case Success((ctx1, wrapper)) =>
        FieldDone(ctx, ci, index, pw, budget);
        var ctx2 :=
          if wrapper.None? then ctx1
          else StoreField(ctx1, ci, index, Rewrite(field, ctx1.classes[wrapper.value].name));
        match ProcessFieldsFrom(ctx2, ci, index + 1, pw, budget)
        case Failure(e) => Failure(e)
        case Success(ctx3) =>
          RestDone(ctx, ctx2, ctx3, ci, index, pw);
          Success(ctx3)
  }

  /** After one field: the rewrite, if any, is stored and the invariant holds. */
  lemma FieldDone(ctx: Context, ci: nat, index: nat, pw: nat, budget: nat)
    requires ci < |ctx.classes| && index < |ctx.classes[ci].fields|
    requires ProcessField(ctx, ctx.classes[ci].fields[index], pw, budget).Success?
    ensures
      var (ctx1, wrapper) := ProcessField(ctx, ctx.classes[ci].fields[index], pw, budget).value;
      && ci < |ctx1.classes| && index < |ctx1.classes[ci].fields|
      && (wrapper.Some? ==> wrapper.value < |ctx1.classes|)
      && var ctx2 :=
           if wrapper.None? then ctx1
           else StoreField(ctx1, ci, index, Rewrite(ctx.classes[ci].fields[index], ctx1.classes[wrapper.value].name));
         && Grows(ctx, ctx2, pw)
         && |ctx2.classes[ci].fields| == |ctx.classes[ci].fields|
         && !ShouldUnwrap(ctx2.classes[ci].fields[index].Ty())
    decreases budget, |ctx.classes[ci].fields| - index
  {
    var field := ctx.classes[ci].fields[index];
    var (ctx1, wrapper) := ProcessField(ctx, field, pw, budget).value;
    assert ClassStep(ctx.classes[ci], ctx1.classes[ci], pw);
    if wrapper.Some? {
      StoreRewriteGrows(ctx, ctx1, ci, index, wrapper.value, pw);
    }
  }

  /** The rest of the loop keeps the field just processed settled. */
  lemma RestDone(ctx: Context, ctx2: Context, ctx3: Context, ci: nat, index: nat, pw: nat)
    requires ci < |ctx.classes| && Grows(ctx, ctx2, pw) && Grows(ctx2, ctx3, pw)
    requires index < |ctx2.classes[ci].fields| && !ShouldUnwrap(ctx2.classes[ci].fields[index].Ty())
    requires forall j :: index + 1 <= j < |ctx3.classes[ci].fields| ==> !ShouldUnwrap(ctx3.classes[ci].fields[j].Ty())
    ensures Grows(ctx, ctx3, pw)
    ensures forall j :: index <= j < |ctx3.classes[ci].fields| ==> !ShouldUnwrap(ctx3.classes[ci].fields[j].Ty())
  {
    GrowsTrans(ctx, ctx2, ctx3, pw);
    assert ClassStep(ctx2.classes[ci], ctx3.classes[ci], pw);
    assert FieldStep(ctx2.classes[ci].fields[index], ctx3.classes[ci].fields[index], pw);
  }

  /**
   * `ProcessField`: `None` when the field is not an unsupported array;
   * otherwise the wrapper class (found or created), after that class has
   * itself been processed one stack frame deeper.
   */
  function ProcessField(ctx: Context, field: Field, pw: nat, budget: nat): (r: Result<(Context, Option<nat>), Fault>)
    ensures r.Success? ==> Grows(ctx, r.value.0, pw)
    ensures r.Success? ==> (r.value.1.None? <==> !ShouldUnwrap(field.Ty()))
    ensures r.Success? && r.value.1.None? ==> r.value.0 == ctx
    ensures r.Success? && r.value.1.Some? ==>
      && FieldUnwrapInfo(field.Ty(), pw).Success?
      && FieldUnwrapInfo(field.Ty(), pw).value.Some?
      && r.value.1.value < |r.value.0.classes|
      && FindClass(r.value.0.classes, WrapperName(FieldUnwrapInfo(field.Ty(), pw).value.value)) == r.value.1
      && Settled(r.value.0.classes[r.value.1.value])
    ensures ShouldUnwrap(field.Ty()) && FieldUnwrapInfo(field.Ty(), pw).Failure? ==> r == Failure(DivideByZero)
    decreases budget, 0
  {
    if !ShouldUnwrap(field.Ty()) then
      GrowsRefl(ctx, pw);
      Success((ctx, None))
    else
      match FieldUnwrapInfo(field.Ty(), pw)
      case Failure(e) => Failure(e)
      case Success(None) =>
        // "Failed to unwrap" warning; `GetUnwrapInfo`'s contract rules this branch out
        GrowsRefl(ctx, pw);
        Success((ctx, None))
      case Success(Some(info)) =>
        var (ctx1, w) := GetCreateWrapperStruct(ctx, field, info);
        GetCreateGrows(ctx, field, info, pw);
        if budget == 0 then Failure(StackOverflow)
        else
          match ProcessClass(ctx1, w, pw, budget - 1)
          case Failure(e) => Failure(e)
          case Success(ctx2) =>
            GrowsTrans(ctx, ctx1, ctx2, pw);
            FindClassStable(ctx1.classes, ctx2.classes, WrapperName(info));
            Success((ctx2, Some(w)))
  }

  /** Looking up or creating a wrapper only ever appends the wrapper. */
  lemma GetCreateGrows(ctx: Context, field: Field, info: UnwrapInfo, pw: nat)
    ensures Grows(ctx, GetCreateWrapperStruct(ctx, field, info).0, pw)
  {
    if FindClass(ctx.classes, WrapperName(info)).Some? {
      GrowsRefl(ctx, pw);
    } else {
      AppendGrows(ctx, NewWrapper(ctx, field, info), pw);
    }
  }

  /** Appending a value-type wrapper of a name the context lacks keeps the invariant. */
  lemma AppendGrows(ctx: Context, c: Class, pw: nat)
    requires FindClass(ctx.classes, c.name).None?
    requires IsWrapperName(c.name) && c.kind == ValueType && c.owner == ctx.self
    ensures Grows(ctx, ctx.(classes := ctx.classes + [c]), pw)
  {
    var ctx1 := ctx.(classes := ctx.classes + [c]);
    FindClassAppend(ctx.classes, c);
    assert forall k :: 0 <= k < |ctx.classes| ==> ctx1.classes[k] == ctx.classes[k];
    assert ctx1.classes[|ctx.classes|] == c;
  }

  /** `VisitClassDecl(@class)`: process the class in its own namespace. */
  function VisitClassDecl(ctx: Context, ci: nat, pw: nat, budget: nat): (r: Result<Context, Fault>)
    requires ci < |ctx.classes|
    ensures r.Success? ==> Grows(ctx, r.value, pw) && Settled(r.value.classes[ci])
  {
    ProcessClass(ctx, ci, pw, budget)
  }

  // ---------------------------------------------------------------------------
  // Properties of completed runs
  // ---------------------------------------------------------------------------

  lemma {:induction false} SettledFieldsUnchanged(ctx: Context, ci: nat, index: nat, pw: nat, budget: nat)
    requires ci < |ctx.classes| && index <= |ctx.classes[ci].fields|
    requires forall j :: index <= j < |ctx.classes[ci].fields| ==> !ShouldUnwrap(ctx.classes[ci].fields[j].Ty())
    ensures ProcessFieldsFrom(ctx, ci, index, pw, budget) == Success(ctx)
    decreases |ctx.classes[ci].fields| - index
  {
    if index < |ctx.classes[ci].fields| {
      SettledFieldsUnchanged(ctx, ci, index + 1, pw, budget);
    }
  }

  /** Processing a class none of whose fields is an unsupported array changes nothing. */
  lemma SettledIsFixpoint(ctx: Context, ci: nat, pw: nat, budget: nat)
    requires ci < |ctx.classes| && Settled(ctx.classes[ci])
    ensures ProcessClass(ctx, ci, pw, budget) == Success(ctx)
  {
    SettledFieldsUnchanged(ctx, ci, 0, pw, budget);
  }

  /** Running the pass on a class a second time is a no-op. */
  lemma SecondRunIsNoop(ctx: Context, ci: nat, pw: nat, budget1: nat, budget2: nat)
    requires ci < |ctx.classes| && ProcessClass(ctx, ci, pw, budget1).Success?
    ensures
      var r := ProcessClass(ctx, ci, pw, budget1).value;
      ProcessClass(r, ci, pw, budget2) == Success(r)
  {
    var r := ProcessClass(ctx, ci, pw, budget1).value;
    SettledIsFixpoint(r, ci, pw, budget2);
  }

  /**
   * What a completed run did to the class: same declaration, same number of
   * fields in the same positions; a field that is an unsupported array is
   * replaced by a copy typed as the wrapper for its shape (a settled class of
   * the context), every other field is untouched.
   */
  lemma ProcessClassRewrites(ctx: Context, ci: nat, pw: nat, budget: nat)
    requires ci < |ctx.classes| && ProcessClass(ctx, ci, pw, budget).Success?
    ensures
      var r := ProcessClass(ctx, ci, pw, budget).value;
      var a, b := ctx.classes[ci], r.classes[ci];
      && b == a.(fields := b.fields)
      && |b.fields| == |a.fields|
      && forall j :: 0 <= j < |a.fields| ==>
        if ShouldUnwrap(a.fields[j].Ty()) then
          && FieldUnwrapInfo(a.fields[j].Ty(), pw).Success?
          && FieldUnwrapInfo(a.fields[j].Ty(), pw).value.Some?
          && b.fields[j] == Rewrite(a.fields[j], WrapperName(FieldUnwrapInfo(a.fields[j].Ty(), pw).value.value))
          && Resolves(r.classes, b.fields[j])
        else b.fields[j] == a.fields[j]
  {
    var r := ProcessClass(ctx, ci, pw, budget).value;
    var a, b := ctx.classes[ci], r.classes[ci];
    assert ClassStep(a, b, pw);
    forall j | 0 <= j < |a.fields| && ShouldUnwrap(a.fields[j].Ty())
      ensures b.fields[j] != a.fields[j]
    {
      assert !ShouldUnwrap(b.fields[j].Ty());
    }
  }

  ghost predicate DistinctNames(classes: seq<Class>) {
    forall i, j :: 0 <= i < j < |classes| ==> classes[i].name != classes[j].name
  }

  /** The pass never introduces a second class of an existing name. */
  lemma GrowsKeepsDistinct(c0: Context, c1: Context, pw: nat)
    requires Grows(c0, c1, pw) && DistinctNames(c0.classes)
    ensures DistinctNames(c1.classes)
  {
    forall i, j | 0 <= i < j < |c1.classes| ensures c1.classes[i].name != c1.classes[j].name {
      if j >= |c0.classes| {
        assert FindClass(c1.classes, c1.classes[j].name) == Some(j);
      } else {
        assert ClassStep(c0.classes[i], c1.classes[i], pw);
        assert ClassStep(c0.classes[j], c1.classes[j], pw);
      }
    }
  }

  /**
   * A class that is already named like the wrapper of its own field's shape
   * (`ArrayWrapper_S2` holding an `S[2]`) is found by the lookup while it is
   * being processed and is processed again: the recursion never ends.
   */
  lemma {:induction false} SelfNamedWrapperOverflows(self: Owner, pw: nat, budget: nat)
    ensures
      var f := Field("items", QualifiedType(Array(Tag("S"), Constant, 2), NoQualifiers), 0,
                     Detached, InDecl("ArrayWrapper_S2"), FreshInfo, None);
      var ctx := Context(self, [Class("ArrayWrapper_S2", RefType, self, [f], [], [], [])]);
      ProcessClass(ctx, 0, pw, budget) == Failure(StackOverflow)
    decreases budget
  {
    var f := Field("items", QualifiedType(Array(Tag("S"), Constant, 2), NoQualifiers), 0,
                   Detached, InDecl("ArrayWrapper_S2"), FreshInfo, None);
    var ctx := Context(self, [Class("ArrayWrapper_S2", RefType, self, [f], [], [], [])]);
    var info := UnwrapInfo(Tag("S"), 2, 0);
    assert FieldUnwrapInfo(f.Ty(), pw) == Success(Some(info));
    assert Numeral(2, 10) == "2";
    assert WrapperName(info) == "ArrayWrapper_S2";
    assert GetCreateWrapperStruct(ctx, f, info) == (ctx, 0);
    if budget > 0 {
      SelfNamedWrapperOverflows(self, pw, budget - 1);
      assert ProcessClass(ctx, 0, pw, budget - 1) == Failure(StackOverflow);
    }
    assert ProcessField(ctx, f, pw, budget) == Failure(StackOverflow);
    assert ProcessFieldsFrom(ctx, 0, 0, pw, budget) == Failure(StackOverflow);
  }

  // ---------------------------------------------------------------------------
  // When the recursion ends
  // ---------------------------------------------------------------------------

  /**
   * The shapes the pass reaches from a type: its own unwrap triple, then the
   * triple of the wrapper's slot type, and so on until the slot type is no
   * longer an unsupported array.
   */
  function Chain(t: Type, pw: nat): (r: seq<UnwrapInfo>)
    ensures |r| <= Height(t)
    decreases Height(t)
  {
    if !ShouldUnwrap(t) then []
    else
      match FieldUnwrapInfo(t, pw)
      case Success(Some(info)) =>
        SlotTypeShallower(t, pw);
        [info] + Chain(info.ty, pw)
      case _ => []
  }

  /** Every shape reached from any field of the class. */
  ghost function Reached(c: Class, pw: nat): set<UnwrapInfo> {
    set j, info | 0 <= j < |c.fields| && info in Chain(c.fields[j].Ty(), pw) :: info
  }

  /** `WrapperName` tells the shapes of `s` apart. */
  ghost predicate NamesDistinct(s: set<UnwrapInfo>) {
    forall a, b :: a in s && b in s && WrapperName(a) == WrapperName(b) ==> a == b
  }

  /** `t` is an unsupported array whose unwrap triple is `info`. */
  ghost predicate Unwraps(t: Type, pw: nat, info: UnwrapInfo) {
    ShouldUnwrap(t) && FieldUnwrapInfo(t, pw) == Success(Some(info))
  }

  /** The shape of the slot type of every shape in `s` is in `s` too. */
  ghost predicate Closed(s: set<UnwrapInfo>, pw: nat) {
    forall a, b :: a in s && Unwraps(a.ty, pw, b) ==> b in s
  }

  /** The shape of every unsupported array field of the class is in `s`. */
  ghost predicate FieldsIn(c: Class, s: set<UnwrapInfo>, pw: nat) {
    forall j, info :: 0 <= j < |c.fields| && Unwraps(c.fields[j].Ty(), pw, info) ==> info in s
  }

  /** Every unsupported array field of the class is at most `h` high. */
  ghost predicate Bounded(c: Class, h: nat) {
    forall j :: 0 <= j < |c.fields| && ShouldUnwrap(c.fields[j].Ty()) ==> Height(c.fields[j].Ty()) <= h
  }

  /** The unsupported array fields left in a wrapper all have the wrapper's slot type. */
  ghost predicate WrapperFields(c: Class, info: UnwrapInfo) {
    forall j :: 0 <= j < |c.fields| && ShouldUnwrap(c.fields[j].Ty()) ==> c.fields[j].Ty() == info.ty
  }

  /** A class named like the wrapper of a shape of `s` holds only that wrapper's slots still to unwrap. */
  ghost predicate WrappersShaped(ctx: Context, s: set<UnwrapInfo>) {
    forall k, info :: 0 <= k < |ctx.classes| && info in s && ctx.classes[k].name == WrapperName(info) ==>
      WrapperFields(ctx.classes[k], info)
  }

  /** `b` is `a` with some fields retyped so that they are no longer unsupported arrays. */
  ghost predicate Narrowed(a: Class, b: Class) {
    && b.name == a.name && |b.fields| == |a.fields|
    && forall j :: 0 <= j < |b.fields| && ShouldUnwrap(b.fields[j].Ty()) ==> b.fields[j] == a.fields[j]
  }

  lemma StepNarrows(a: Class, b: Class, pw: nat)
    requires ClassStep(a, b, pw)
    ensures Narrowed(a, b)
  {
    forall j | 0 <= j < |b.fields| && ShouldUnwrap(b.fields[j].Ty()) ensures b.fields[j] == a.fields[j] {
      assert FieldStep(a.fields[j], b.fields[j], pw);
    }
  }

  lemma NarrowedKeeps(a: Class, b: Class, s: set<UnwrapInfo>, h: nat, pw: nat)
    requires Narrowed(a, b)
    ensures FieldsIn(a, s, pw) ==> FieldsIn(b, s, pw)
    ensures Bounded(a, h) ==> Bounded(b, h)
    ensures forall info :: WrapperFields(a, info) ==> WrapperFields(b, info)
  {
  }

  /** Retyping one field to a wrapper reference narrows its class and keeps every wrapper shaped. */
  lemma StoreRewriteShaped(ctx: Context, ci: nat, index: nat, f: Field, s: set<UnwrapInfo>)
    requires ci < |ctx.classes| && index < |ctx.classes[ci].fields|
    requires WrappersShaped(ctx, s) && f.Ty().Tag?
    ensures Narrowed(ctx.classes[ci], StoreField(ctx, ci, index, f).classes[ci])
    ensures WrappersShaped(StoreField(ctx, ci, index, f), s)
  {
    var ctx2 := StoreField(ctx, ci, index, f);
    var a, b := ctx.classes[ci], ctx2.classes[ci];
    forall j | 0 <= j < |b.fields| && ShouldUnwrap(b.fields[j].Ty()) ensures b.fields[j] == a.fields[j] {
      assert j != index;
    }
    forall k, info | 0 <= k < |ctx2.classes| && info in s && ctx2.classes[k].name == WrapperName(info)
      ensures WrapperFields(ctx2.classes[k], info)
    {
      if k == ci {
        NarrowedKeeps(a, b, s, 0, 0);
      }
    }
  }

  /** Looking up or creating the wrapper of a shape of `s` keeps every wrapper shaped, the new one included. */
  lemma GetCreateShaped(ctx: Context, field: Field, info: UnwrapInfo, s: set<UnwrapInfo>)
    requires WrappersShaped(ctx, s) && NamesDistinct(s) && info in s
    ensures
      var (ctx1, w) := GetCreateWrapperStruct(ctx, field, info);
      && WrappersShaped(ctx1, s)
      && ctx1.classes[w].name == WrapperName(info)
      && WrapperFields(ctx1.classes[w], info)
  {
    var (ctx1, w) := GetCreateWrapperStruct(ctx, field, info);
    if FindClass(ctx.classes, WrapperName(info)).None? {
      var c := NewWrapper(ctx, field, info);
      assert ctx1.classes[|ctx.classes|] == c;
      forall k, other | 0 <= k < |ctx1.classes| && other in s && ctx1.classes[k].name == WrapperName(other)
        ensures WrapperFields(ctx1.classes[k], other)
      {
        if k == |ctx.classes| {
          assert other == info;
        } else {
          assert ctx1.classes[k] == ctx.classes[k];
        }
      }
    }
  }

  lemma {:induction false} ClassTerminates(ctx: Context, ci: nat, pw: nat, budget: nat, s: set<UnwrapInfo>)
    requires ci < |ctx.classes|
    requires Closed(s, pw) && NamesDistinct(s) && WrappersShaped(ctx, s)
    requires FieldsIn(ctx.classes[ci], s, pw) && Bounded(ctx.classes[ci], budget)
    ensures
      var r := ProcessClass(ctx, ci, pw, budget);
      r != Failure(StackOverflow) && (r.Success? ==> WrappersShaped(r.value, s))
    decreases budget, |ctx.classes[ci].fields| + 2
  {
    FieldsFromTerminate(ctx, ci, 0, pw, budget, s);
  }

  lemma {:induction false} FieldsFromTerminate(ctx: Context, ci: nat, index: nat, pw: nat, budget: nat, s: set<UnwrapInfo>)
    requires ci < |ctx.classes| && index <= |ctx.classes[ci].fields|
    requires Closed(s, pw) && NamesDistinct(s) && WrappersShaped(ctx, s)
    requires FieldsIn(ctx.classes[ci], s, pw) && Bounded(ctx.classes[ci], budget)
    ensures
      var r := ProcessFieldsFrom(ctx, ci, index, pw, budget);
      r != Failure(StackOverflow) && (r.Success? ==> WrappersShaped(r.value, s))
    decreases budget, |ctx.classes[ci].fields| - index + 1
  {
    if index < |ctx.classes[ci].fields| {
      var field := ctx.classes[ci].fields[index];
      assert ShouldUnwrap(field.Ty()) ==> Height(field.Ty()) <= budget;
      assert forall info :: Unwraps(field.Ty(), pw, info) ==> info in s;
      FieldTerminates(ctx, field, pw, budget, s);
      var r1 := ProcessField(ctx, field, pw, budget);
      if r1.Failure? {
        assert ProcessFieldsFrom(ctx, ci, index, pw, budget) == Failure(r1.error);
      } else {
        var (ctx1, wrapper) := r1.value;
        var ctx2 :=
          if wrapper.None? then ctx1
          else StoreField(ctx1, ci, index, Rewrite(field, ctx1.classes[wrapper.value].name));
        FieldStoredShaped(ctx, ci, index, pw, budget, s);
        FieldsFromTerminate(ctx2, ci, index + 1, pw, budget, s);
        FieldsFromUnfold(ctx, ci, index, pw, budget);
      }
    }
  }

  /** A successful field hands the rest of the class over to the next index. */
  lemma FieldsFromUnfold(ctx: Context, ci: nat, index: nat, pw: nat, budget: nat)
    requires ci < |ctx.classes| && index < |ctx.classes[ci].fields|
    requires ProcessField(ctx, ctx.classes[ci].fields[index], pw, budget).Success?
    ensures
      var field := ctx.classes[ci].fields[index];
      var (ctx1, wrapper) := ProcessField(ctx, field, pw, budget).value;
      var ctx2 :=
        if wrapper.None? then ctx1
        else StoreField(ctx1, ci, index, Rewrite(field, ctx1.classes[wrapper.value].name));
      && ci < |ctx2.classes| && index < |ctx2.classes[ci].fields|
      && ProcessFieldsFrom(ctx, ci, index, pw, budget) == ProcessFieldsFrom(ctx2, ci, index + 1, pw, budget)
  {
    FieldDone(ctx, ci, index, pw, budget);
  }

  /** Processing one field and storing its rewrite keeps the shapes, heights and wrappers in bounds. */
  lemma FieldStoredShaped(ctx: Context, ci: nat, index: nat, pw: nat, budget: nat, s: set<UnwrapInfo>)
    requires ci < |ctx.classes| && index < |ctx.classes[ci].fields|
    requires FieldsIn(ctx.classes[ci], s, pw) && Bounded(ctx.classes[ci], budget)
    requires
      var r1 := ProcessField(ctx, ctx.classes[ci].fields[index], pw, budget);
      r1.Success? && WrappersShaped(r1.value.0, s)
    ensures
      var field := ctx.classes[ci].fields[index];
      var (ctx1, wrapper) := ProcessField(ctx, field, pw, budget).value;
      var ctx2 :=
        if wrapper.None? then ctx1
        else StoreField(ctx1, ci, index, Rewrite(field, ctx1.classes[wrapper.value].name));
      && ci < |ctx2.classes| && index < |ctx2.classes[ci].fields|
      && WrappersShaped(ctx2, s) && FieldsIn(ctx2.classes[ci], s, pw) && Bounded(ctx2.classes[ci], budget)
  {
    var field := ctx.classes[ci].fields[index];
    var (ctx1, wrapper) := ProcessField(ctx, field, pw, budget).value;
    assert ClassStep(ctx.classes[ci], ctx1.classes[ci], pw);
    StepNarrows(ctx.classes[ci], ctx1.classes[ci], pw);
    NarrowedKeeps(ctx.classes[ci], ctx1.classes[ci], s, budget, pw);
    if wrapper.Some? {
      var ctx2 := StoreField(ctx1, ci, index, Rewrite(field, ctx1.classes[wrapper.value].name));
      StoreRewriteShaped(ctx1, ci, index, Rewrite(field, ctx1.classes[wrapper.value].name), s);
      NarrowedKeeps(ctx1.classes[ci], ctx2.classes[ci], s, budget, pw);
    }
  }

  lemma {:induction false} FieldTerminates(ctx: Context, field: Field, pw: nat, budget: nat, s: set<UnwrapInfo>)
    requires Closed(s, pw) && NamesDistinct(s) && WrappersShaped(ctx, s)
    requires ShouldUnwrap(field.Ty()) ==> Height(field.Ty()) <= budget
    requires forall info :: Unwraps(field.Ty(), pw, info) ==> info in s
    ensures
      var r := ProcessField(ctx, field, pw, budget);
      r != Failure(StackOverflow) && (r.Success? ==> WrappersShaped(r.value.0, s))
    decreases budget, 0
  {
    if ShouldUnwrap(field.Ty()) && FieldUnwrapInfo(field.Ty(), pw).Success? && FieldUnwrapInfo(field.Ty(), pw).value.Some? {
      var info := FieldUnwrapInfo(field.Ty(), pw).value.value;
      assert Unwraps(field.Ty(), pw, info);
      SlotTypeShallower(field.Ty(), pw);
      var (ctx1, w) := GetCreateWrapperStruct(ctx, field, info);
      GetCreateShaped(ctx, field, info, s);
      var c := ctx1.classes[w];
      assert FieldsIn(c, s, pw) && Bounded(c, budget - 1) by {
        forall j, next | 0 <= j < |c.fields| && Unwraps(c.fields[j].Ty(), pw, next) ensures next in s {
          assert c.fields[j].Ty() == info.ty;
        }
      }
      ClassTerminates(ctx1, w, pw, budget - 1, s);
    }
  }

  lemma {:induction false} ChainClosed(t: Type, pw: nat, a: UnwrapInfo, b: UnwrapInfo)
    requires a in Chain(t, pw) && Unwraps(a.ty, pw, b)
    ensures b in Chain(t, pw)
    decreases Height(t)
  {
    var head := FieldUnwrapInfo(t, pw).value.value;
    SlotTypeShallower(t, pw);
    assert Chain(t, pw) == [head] + Chain(head.ty, pw);
    if a != head {
      ChainClosed(head.ty, pw, a, b);
    } else {
      assert Chain(head.ty, pw) == [b] + Chain(b.ty, pw);
    }
  }

  /**
   * The recursion ends when every class of the context already named like a
   * wrapper is settled (as the wrappers an earlier visit left behind are) and
   * the wrapper names of the shapes it reaches are all distinct: with a
   * call-stack budget as high as the class's tallest field type, the run
   * never overflows. (`SelfNamedWrapperOverflows` shows what an unsettled
   * class named like a wrapper does.)
   */
  lemma ProcessClassTerminates(ctx: Context, ci: nat, pw: nat, budget: nat)
    requires ci < |ctx.classes|
    requires forall k :: 0 <= k < |ctx.classes| && IsWrapperName(ctx.classes[k].name) ==> Settled(ctx.classes[k])
    requires NamesDistinct(Reached(ctx.classes[ci], pw))
    requires forall j :: 0 <= j < |ctx.classes[ci].fields| ==> Height(ctx.classes[ci].fields[j].Ty()) <= budget
    ensures ProcessClass(ctx, ci, pw, budget) != Failure(StackOverflow)
  {
    var c := ctx.classes[ci];
    var s := Reached(c, pw);
    forall a, b | a in s && Unwraps(a.ty, pw, b) ensures b in s {
      var j :| 0 <= j < |c.fields| && a in Chain(c.fields[j].Ty(), pw);
      ChainClosed(c.fields[j].Ty(), pw, a, b);
    }
    forall j, info | 0 <= j < |c.fields| && Unwraps(c.fields[j].Ty(), pw, info) ensures info in s {
      assert info in Chain(c.fields[j].Ty(), pw);
    }
    forall info ensures IsWrapperName(WrapperName(info)) {
      assert WrapperName(info)[..|"ArrayWrapper_"|] == "ArrayWrapper_";
    }
    assert WrappersShaped(ctx, s);
    ClassTerminates(ctx, ci, pw, budget, s);
  }

  /** Wrapper-named classes are settled, except those whose processing is still under way. */
  ghost predicate WrappersSettledBut(classes: seq<Class>, busy: set<nat>) {
    forall k :: 0 <= k < |classes| && k !in busy && IsWrapperName(classes[k].name) ==> Settled(classes[k])
  }

  /** If processing class `ci` succeeds, it leaves wrapper-named classes settled outside `busy`. */
  ghost predicate SettledAfter(ctx: Context, ci: nat, pw: nat, budget: nat, busy: set<nat>)
    requires ci < |ctx.classes|
  {
    var r := ProcessClass(ctx, ci, pw, budget);
    r.Success? ==> WrappersSettledBut(r.value.classes, busy)
  }

  lemma {:induction false} ClassSettles(ctx: Context, ci: nat, pw: nat, budget: nat, busy: set<nat>)
    requires ci < |ctx.classes| && WrappersSettledBut(ctx.classes, busy + {ci})
    ensures SettledAfter(ctx, ci, pw, budget, busy)
    decreases budget, |ctx.classes[ci].fields| + 2
  {
    FieldsFromSettle(ctx, ci, 0, pw, budget, busy + {ci});
  }

  lemma {:induction false} FieldsFromSettle(ctx: Context, ci: nat, index: nat, pw: nat, budget: nat, busy: set<nat>)
    requires ci < |ctx.classes| && index <= |ctx.classes[ci].fields|
    requires WrappersSettledBut(ctx.classes, busy)
    ensures
      var r := ProcessFieldsFrom(ctx, ci, index, pw, budget);
      r.Success? ==> WrappersSettledBut(r.value.classes, busy)
    decreases budget, |ctx.classes[ci].fields| - index + 1
  {
    if index < |ctx.classes[ci].fields| {
      var field := ctx.classes[ci].fields[index];
      FieldSettles(ctx, field, pw, budget, busy);
      var r1 := ProcessField(ctx, field, pw, budget);
      if r1.Success? {
        FieldDone(ctx, ci, index, pw, budget);
        var (ctx1, wrapper) := r1.value;
        var ctx2 :=
          if wrapper.None? then ctx1
          else StoreField(ctx1, ci, index, Rewrite(field, ctx1.classes[wrapper.value].name));
        if wrapper.Some? {
          var nf := Rewrite(field, ctx1.classes[wrapper.value].name);
          assert !ShouldUnwrap(nf.Ty());
          forall k | 0 <= k < |ctx2.classes| && k !in busy && IsWrapperName(ctx2.classes[k].name)
            ensures Settled(ctx2.classes[k])
          {
            StoreKeepsSettled(ctx1, ci, index, nf, k);
          }
        }
        FieldsFromSettle(ctx2, ci, index + 1, pw, budget, busy);
      }
    }
  }

  lemma {:induction false} FieldSettles(ctx: Context, field: Field, pw: nat, budget: nat, busy: set<nat>)
    requires WrappersSettledBut(ctx.classes, busy)
    ensures
      var r := ProcessField(ctx, field, pw, budget);
      r.Success? ==> WrappersSettledBut(r.value.0.classes, busy)
    decreases budget, 1
  {
    var r := ProcessField(ctx, field, pw, budget);
    if r.Success? && r.value.1.Some? && budget > 0 {
      WrapperSettles(ctx, field, FieldUnwrapInfo(field.Ty(), pw).value.value, pw, budget, busy);
      FieldUnfold(ctx, field, pw, budget);
    }
  }

  /** Processing the wrapper of one shape leaves the other wrapper-named classes settled. */
  lemma {:induction false} WrapperSettles(ctx: Context, field: Field, info: UnwrapInfo, pw: nat, budget: nat, busy: set<nat>)
    requires WrappersSettledBut(ctx.classes, busy) && budget > 0
    ensures
      var p := GetCreateWrapperStruct(ctx, field, info);
      SettledAfter(p.0, p.1, pw, budget - 1, busy)
    decreases budget, 0
  {
    var p := GetCreateWrapperStruct(ctx, field, info);
    GetCreateSettledBut(ctx, field, info, busy);
    assert WrappersSettledBut(p.0.classes, busy + {p.1});
    ClassSettles(p.0, p.1, pw, budget - 1, busy);
  }

  /** An unsupported array field with a shape and stack to spare ends the way its wrapper's processing does. */
  lemma FieldUnfold(ctx: Context, field: Field, pw: nat, budget: nat)
    requires ShouldUnwrap(field.Ty()) && budget > 0
    requires FieldUnwrapInfo(field.Ty(), pw).Success? && FieldUnwrapInfo(field.Ty(), pw).value.Some?
    ensures
      var (ctx1, w) := GetCreateWrapperStruct(ctx, field, FieldUnwrapInfo(field.Ty(), pw).value.value);
      var r := ProcessField(ctx, field, pw, budget);
      && w < |ctx1.classes|
      && var rc := ProcessClass(ctx1, w, pw, budget - 1);
         && (rc.Failure? ==> r == Failure(rc.error))
         && (rc.Success? ==> r == Success((rc.value, Some(w))))
  {
  }

  /** Only the wrapper handed out may be unsettled after the lookup. */
  lemma GetCreateSettledBut(ctx: Context, field: Field, info: UnwrapInfo, busy: set<nat>)
    requires WrappersSettledBut(ctx.classes, busy)
    ensures
      var (ctx1, w) := GetCreateWrapperStruct(ctx, field, info);
      WrappersSettledBut(ctx1.classes, busy + {w})
  {
    var (ctx1, w) := GetCreateWrapperStruct(ctx, field, info);
    forall k | 0 <= k < |ctx1.classes| && k !in busy + {w} && IsWrapperName(ctx1.classes[k].name)
      ensures Settled(ctx1.classes[k])
    {
      assert k < |ctx.classes| && ctx1.classes[k] == ctx.classes[k];
    }
  }

  /**
   * A completed run leaves every class named like a wrapper settled, the
   * wrappers it created included, so the next class visited in the same
   * namespace meets the first condition of `ProcessClassTerminates`.
   */
  lemma ProcessClassSettlesWrappers(ctx: Context, ci: nat, pw: nat, budget: nat)
    requires ci < |ctx.classes|
    requires forall k :: 0 <= k < |ctx.classes| && IsWrapperName(ctx.classes[k].name) ==> Settled(ctx.classes[k])
    requires ProcessClass(ctx, ci, pw, budget).Success?
    ensures
      var r := ProcessClass(ctx, ci, pw, budget).value;
      forall k :: 0 <= k < |r.classes| && IsWrapperName(r.classes[k].name) ==> Settled(r.classes[k])
  {
    ClassSettles(ctx, ci, pw, budget, {});
    var r := ProcessClass(ctx, ci, pw, budget).value;
    assert Settled(r.classes[ci]);
  }
}
