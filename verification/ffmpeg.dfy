/**
 * The FFmpeg binding library's own rewrites of the declaration tree: folding
 * object-like `#define`s into a constants class per translation unit, and
 * wrapping every unit's top-level classes, functions and enumerations into a
 * single class named after the library (`lib<name>`), plus the header filter.
 */
module FFmpeg {
  import opened Results
  import opened Numerals
  import opened Ast
  import Literals

  // ---------------------------------------------------------------------------
  // Constants from macros
  // ---------------------------------------------------------------------------

  /** `ParseToNumber`: a copy of the literal folder's integer rule, hex after a `0x`/`0X` prefix, else decimal. */
  function ParseToNumber(s: string): (r: Option<int>)
    ensures r == Literals.ParseAsLong(s)
    ensures r.Some? ==> InLongRange(r.value)
  {
    if |s| >= 2 && s[0] == '0' && (s[1] == 'x' || s[1] == 'X') then ParseHexLong(s[2..])
    else ParseDecimalLong(s)
  }

  /** The type of a generated constant: `const long`. */
  const ConstInt64 := QualifiedType(Builtin(Int64), Qualifiers(true, false))

  /**
   * `GenerateConstValueFromMacro`: `null` unless the macro's text is a number;
   * otherwise a public `const long` field named after the macro, whose value
   * records the parsed number, the macro's text and the kind `UInt64`.
   */
  function GenerateConstValueFromMacro(m: MacroDefinition): (r: Option<Field>)
    ensures r.None? <==> ParseToNumber(m.expression).None?
    ensures r.Some? ==>
      && r.value.name == m.name
      && r.value.qt == ConstInt64
      && r.value.info.access == Public
      && r.value.info.debugText == m.debugText
      && r.value.value == Some(BuiltinValue(UInt64, m.expression, ParseToNumber(m.expression).value))
  {
    match ParseToNumber(m.expression)
    case None => None
    case Some(v) =>
      Some(Field(m.name, ConstInt64, 0, Detached, Detached,
                 FreshInfo.(access := Public, debugText := m.debugText),
                 Some(BuiltinValue(UInt64, m.expression, v))))
  }

  /** The constant a macro yields and the literal the folder builds from the same text hold the same `long`. */
  lemma ConstantAgreesWithLiteral(m: MacroDefinition, parseDouble: Literals.DoubleParser)
    requires GenerateConstValueFromMacro(m).Some?
    ensures Literals.TryCreate(m.expression, parseDouble).Some?
    ensures Literals.TryCreate(m.expression, parseDouble).value.value
         == Literals.IntValue(GenerateConstValueFromMacro(m).value.value.value.value)
  {
  }

  /** The filter of the macro loop: a macro of this very unit that was not folded into an enumeration. */
  predicate Eligible(e: PreprocessedEntity, unitPath: string) {
    e.Macro? && e.def.unitPath == unitPath && e.def.enumeration.None?
  }

  /** The field one preprocessed entity contributes to its unit's constants class, if any. */
  function ConstFieldOf(e: PreprocessedEntity, unitPath: string): (r: Option<Field>)
    ensures r.Some? <==> Eligible(e, unitPath) && ParseToNumber(e.def.expression).Some?
    ensures r.Some? ==> r == GenerateConstValueFromMacro(e.def)
  {
    if Eligible(e, unitPath) then GenerateConstValueFromMacro(e.def) else None
  }

  /** The fields the macro loop adds, in the order of the unit's preprocessed entities. */
  function ConstFields(es: seq<PreprocessedEntity>, unitPath: string): (r: seq<Field>)
    ensures |r| <= |es|
  {
    if |es| == 0 then []
    else
      var last := ConstFieldOf(es[|es| - 1], unitPath);
      ConstFields(es[..|es| - 1], unitPath) + (if last.Some? then [last.value] else [])
  }

  /** Splitting the entities splits the fields: the loop keeps source order. */
  lemma {:induction false} ConstFieldsAppend(a: seq<PreprocessedEntity>, b: seq<PreprocessedEntity>, unitPath: string)
    ensures ConstFields(a + b, unitPath) == ConstFields(a, unitPath) + ConstFields(b, unitPath)
    decreases |b|
  {
    if |b| == 0 {
      assert a + b == a;
    } else {
      var b' := b[..|b| - 1];
      ConstFieldsAppend(a, b', unitPath);
      assert (a + b)[..|a + b| - 1] == a + b';
      assert (a + b)[|a + b| - 1] == b[|b| - 1];
    }
  }

  /** One entity contributes exactly its own field, or nothing. */
  lemma ConstFieldsSingle(e: PreprocessedEntity, unitPath: string)
    ensures ConstFields([e], unitPath) == (if ConstFieldOf(e, unitPath).Some? then [ConstFieldOf(e, unitPath).value] else [])
  {
    assert [e][..0] == [];
  }

  /** The fields of a non-empty entity list: those of all but the last entity, then the last one's. */
  lemma ConstFieldsSnoc(es: seq<PreprocessedEntity>, unitPath: string)
    requires |es| > 0
    ensures ConstFields(es, unitPath)
         == ConstFields(es[..|es| - 1], unitPath) + ConstFields([es[|es| - 1]], unitPath)
  {
    ConstFieldsAppend(es[..|es| - 1], [es[|es| - 1]], unitPath);
    assert es[..|es| - 1] + [es[|es| - 1]] == es;
  }

  /** Every generated field comes from an entity that qualifies. */
  lemma {:induction false} ConstFieldsSound(es: seq<PreprocessedEntity>, unitPath: string)
    ensures forall f :: f in ConstFields(es, unitPath) ==>
      exists i :: 0 <= i < |es| && ConstFieldOf(es[i], unitPath) == Some(f)
    decreases |es|
  {
    if |es| > 0 {
      var p := es[..|es| - 1];
      ConstFieldsSound(p, unitPath);
      ConstFieldsSnoc(es, unitPath);
      ConstFieldsSingle(es[|es| - 1], unitPath);
      forall f | f in ConstFields(es, unitPath)
        ensures exists i :: 0 <= i < |es| && ConstFieldOf(es[i], unitPath) == Some(f)
      {
        if f in ConstFields(p, unitPath) {
          var i :| 0 <= i < |p| && ConstFieldOf(p[i], unitPath) == Some(f);
          assert es[i] == p[i];
        } else {
          assert ConstFieldOf(es[|es| - 1], unitPath) == Some(f);
        }
      }
    }
  }

  /** Every entity that qualifies gives a field. */
  lemma {:induction false} ConstFieldsComplete(es: seq<PreprocessedEntity>, unitPath: string)
    ensures forall i :: 0 <= i < |es| && ConstFieldOf(es[i], unitPath).Some? ==>
      ConstFieldOf(es[i], unitPath).value in ConstFields(es, unitPath)
    decreases |es|
  {
    if |es| > 0 {
      var p := es[..|es| - 1];
      ConstFieldsComplete(p, unitPath);
      ConstFieldsSnoc(es, unitPath);
      ConstFieldsSingle(es[|es| - 1], unitPath);
      forall i | 0 <= i < |es| && ConstFieldOf(es[i], unitPath).Some?
        ensures ConstFieldOf(es[i], unitPath).value in ConstFields(es, unitPath)
      {
        if i < |p| {
          assert es[i] == p[i];
        }
      }
    }
  }

  /** A unit yields no field exactly when none of its entities qualifies. */
  lemma ConstFieldsEmptyIff(es: seq<PreprocessedEntity>, unitPath: string)
    ensures |ConstFields(es, unitPath)| == 0 <==> forall i :: 0 <= i < |es| ==> ConstFieldOf(es[i], unitPath).None?
  {
    ConstFieldsSound(es, unitPath);
    ConstFieldsComplete(es, unitPath);
    if |ConstFields(es, unitPath)| > 0 {
      assert ConstFields(es, unitPath)[0] in ConstFields(es, unitPath);
    }
  }

  /** The kind a freshly constructed class has (`Class.cs` is not part of this model). */
  const DefaultClassKind := RefType

  /** The constants class: a new, detached class with the given fields. */
  function ConstantsClass(className: string, fields: seq<Field>): Class {
    Class(className, DefaultClassKind, Detached, fields, [], [], [])
  }

  /**
   * One iteration of `GenerateClassWithConstValuesFromMacros`: a class is
   * appended only if at least one macro gave a field; no existing class is
   * looked up or reused.
   */
  function GenerateClassForUnit(u: TranslationUnit, className: string): (r: TranslationUnit)
    ensures r.(classes := u.classes) == u
    ensures u.classes <= r.classes && |r.classes| <= |u.classes| + 1
    ensures |r.classes| == |u.classes| + 1 <==> |ConstFields(u.entities, u.path)| > 0
    ensures |r.classes| == |u.classes| + 1 ==>
      r.classes[|u.classes|] == ConstantsClass(className, ConstFields(u.entities, u.path))
  {
    var fields := ConstFields(u.entities, u.path);
    if |fields| > 0 then u.(classes := u.classes + [ConstantsClass(className, fields)]) else u
  }

  /** `GenerateClassWithConstValuesFromMacros`: every unit, independently. */
  function GenerateClassWithConstValuesFromMacros(units: seq<TranslationUnit>, className: string): (r: seq<TranslationUnit>)
    ensures |r| == |units|
    ensures forall i :: 0 <= i < |units| ==> r[i] == GenerateClassForUnit(units[i], className)
  {
    seq(|units|, i requires 0 <= i < |units| => GenerateClassForUnit(units[i], className))
  }

  /** A unit gets a constants class exactly when one of its own, non-enumeration macros is a number. */
  lemma ConstantsClassIffNumericMacro(u: TranslationUnit, className: string)
    ensures |GenerateClassForUnit(u, className).classes| == |u.classes| + 1 <==>
      exists i :: 0 <= i < |u.entities| && Eligible(u.entities[i], u.path)
                  && ParseToNumber(u.entities[i].def.expression).Some?
  {
    ConstFieldsEmptyIff(u.entities, u.path);
    if |ConstFields(u.entities, u.path)| == 0 {
      forall i | 0 <= i < |u.entities|
        ensures !(Eligible(u.entities[i], u.path) && ParseToNumber(u.entities[i].def.expression).Some?)
      {
        assert ConstFieldOf(u.entities[i], u.path).None?;
      }
    }
  }

  /** No lookup: generating twice leaves two identical constants classes side by side. */
  lemma GeneratingTwiceDuplicates(u: TranslationUnit, className: string)
    requires |ConstFields(u.entities, u.path)| > 0
    ensures
      var c := ConstantsClass(className, ConstFields(u.entities, u.path));
      GenerateClassForUnit(GenerateClassForUnit(u, className), className).classes == u.classes + [c, c]
  {
  }

  // ---------------------------------------------------------------------------
  // Wrapping into the library class
  // ---------------------------------------------------------------------------

  /** `LibraryNameSpace`. */
  function LibraryNameSpace(libraryName: string): string {
    "lib" + libraryName
  }

  /** The skip test of `Postprocess`: exactly one class, with the library class's name. */
  predicate IsWrapped(u: TranslationUnit, ns: string) {
    |u.classes| == 1 && u.classes[0].name == ns
  }

  /**
   * Wrapping one unit: a new class named `ns` under the unit takes over the
   * unit's classes, then its functions, then its enumerations, in order, each
   * moved under the new class; the unit keeps only the new class.
   */
  function WrapUnit(u: TranslationUnit, ns: string): (r: TranslationUnit)
    ensures r.path == u.path && r.entities == u.entities
    ensures |r.classes| == 1 && r.functions == [] && r.enums == []
    ensures
      var w := r.classes[0];
      && w.name == ns && w.owner == InUnit(u.path) && w.fields == []
      && |w.classes| == |u.classes| && |w.functions| == |u.functions| && |w.enums| == |u.enums|
      && (forall i :: 0 <= i < |u.classes| ==>
            w.classes[i].owner == InDecl(ns) && w.classes[i].(owner := u.classes[i].owner) == u.classes[i])
      && (forall i :: 0 <= i < |u.functions| ==>
            w.functions[i].owner == InDecl(ns) && w.functions[i].(owner := u.functions[i].owner) == u.functions[i])
      && (forall i :: 0 <= i < |u.enums| ==>
            w.enums[i].owner == InDecl(ns) && w.enums[i].(owner := u.enums[i].owner) == u.enums[i])
  {
    var w := Class(ns, DefaultClassKind, InUnit(u.path), [],
                   seq(|u.classes|, i requires 0 <= i < |u.classes| => u.classes[i].(owner := InDecl(ns))),
                   seq(|u.functions|, i requires 0 <= i < |u.functions| => u.functions[i].(owner := InDecl(ns))),
                   seq(|u.enums|, i requires 0 <= i < |u.enums| => u.enums[i].(owner := InDecl(ns))));
    u.(classes := [w], functions := [], enums := [])
  }

  /** One iteration of `Postprocess`: skip a unit that already looks wrapped, wrap any other. */
  function PostprocessUnit(u: TranslationUnit, ns: string): (r: TranslationUnit)
    ensures IsWrapped(r, ns)
    ensures IsWrapped(u, ns) ==> r == u
    ensures !IsWrapped(u, ns) ==> r == WrapUnit(u, ns)
  {
    if IsWrapped(u, ns) then u else WrapUnit(u, ns)
  }

  /** `Postprocess`: every unit, with the namespace `lib<name>`. */
  function Postprocess(units: seq<TranslationUnit>, libraryName: string): (r: seq<TranslationUnit>)
    ensures |r| == |units|
    ensures forall i :: 0 <= i < |units| ==>
      r[i] == PostprocessUnit(units[i], LibraryNameSpace(libraryName)) && r[i].path == units[i].path
  {
    var ns := LibraryNameSpace(libraryName);
    seq(|units|, i requires 0 <= i < |units| => PostprocessUnit(units[i], ns))
  }

  /** Running `Postprocess` a second time changes nothing. */
  lemma PostprocessIdempotent(units: seq<TranslationUnit>, libraryName: string)
    ensures Postprocess(Postprocess(units, libraryName), libraryName) == Postprocess(units, libraryName)
  {
    var once := Postprocess(units, libraryName);
    var twice := Postprocess(once, libraryName);
    forall i | 0 <= i < |units|
      ensures twice[i] == once[i]
    {
      assert IsWrapped(once[i], LibraryNameSpace(libraryName));
    }
  }

  /** The skip test looks only at the classes: a unit whose one class is already `lib<name>` keeps its top-level functions and enumerations. */
  lemma SkipKeepsTopLevelFunctions(u: TranslationUnit, libraryName: string)
    requires IsWrapped(u, LibraryNameSpace(libraryName)) && |u.functions| > 0
    ensures PostprocessUnit(u, LibraryNameSpace(libraryName)).functions == u.functions
  {
  }

  /**
   * The constants class the preprocessing step adds under the library's
   * plain name ends up as the last class inside the `lib<name>` wrapper.
   */
  lemma ConstantsEndUpWrapped(u: TranslationUnit, libraryName: string)
    requires |ConstFields(u.entities, u.path)| > 0
    ensures
      var ns := LibraryNameSpace(libraryName);
      var w := PostprocessUnit(GenerateClassForUnit(u, libraryName), ns).classes[0];
      && |w.classes| == |u.classes| + 1
      && w.classes[|u.classes|] == ConstantsClass(libraryName, ConstFields(u.entities, u.path)).(owner := InDecl(ns))
  {
    var ns := LibraryNameSpace(libraryName);
    var g := GenerateClassForUnit(u, libraryName);
    assert !IsWrapped(g, ns) by {
      if |g.classes| == 1 {
        assert g.classes[0].name == libraryName;
        assert |ns| == |libraryName| + 3;
      }
    }
  }

  // ---------------------------------------------------------------------------
  // Header filter
  // ---------------------------------------------------------------------------

  /** `Enumerable.Contains`: a linear scan. */
  function ListContains(list: seq<string>, name: string): (r: bool)
    ensures r <==> name in list
  {
    |list| > 0 && (list[0] == name || ListContains(list[1..], name))
  }

  /**
   * `ShouldIncludeHeader`: `filesToIgnore` is the constructor argument,
   * where `null` stands for the empty list.
   */
  function ShouldIncludeHeader(filesToIgnore: Option<seq<string>>, fileName: string): (r: bool)
    ensures !r <==> filesToIgnore.Some? && fileName in filesToIgnore.value
  {
    var ignore := if filesToIgnore.Some? then filesToIgnore.value else [];
    !ListContains(ignore, fileName)
  }
}
