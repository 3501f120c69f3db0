/**
 * The slice of the C/C++ declaration tree that the array passes, the literal
 * folder and the FFmpeg post-processing read and rewrite: a closed type
 * algebra, fields, classes, functions, enumerations, macro definitions and
 * translation units. Back-references (a declaration's `Namespace`, a field's
 * `Class`) are names, not pointers.
 */
module Ast {
  import opened Results
  import opened Numerals

  datatype PrimitiveKind =
    | Void | Bool | WideChar
    | Int8 | UInt8 | Int16 | UInt16 | Int32 | UInt32 | Int64 | UInt64
    | Float | Double

  datatype Qualifiers = Qualifiers(isConst: bool, isVolatile: bool)

  /** The qualifiers of a `QualifiedType` built without any. */
  const NoQualifiers := Qualifiers(false, false)

  datatype QualifiedType = QualifiedType(ty: Type, quals: Qualifiers)

  /** How an array's extent is known; only `Constant` arrays are unwrap candidates. */
  datatype ArraySize = Constant | Variable | Dependent | Incomplete

  datatype Type =
    | Builtin(kind: PrimitiveKind)
    | Pointer(pointee: QualifiedType)
    // `size` is the total element count: for a nested constant array such as
    // `int m[3][4]` the outer `Array` has size 12, so `size / inner size` is the row count
    | Array(elem: Type, sizeType: ArraySize, size: nat)
    | Tag(decl: string)                    // a class, referred to by its name in the context
    | Typedef(name: string, target: Type)  // an alias, removed by `Desugar`
    | Decayed(original: Type)

  /** Nesting height of a type; every unwrap step strictly lowers it. */
  function Height(t: Type): nat {
    match t
    case Builtin(_) => 0
    case Tag(_) => 0
    case Pointer(qt) => 1 + Height(qt.ty)
    case Array(e, _, _) => 1 + Height(e)
    case Typedef(_, target) => 1 + Height(target)
    case Decayed(o) => 1 + Height(o)
  }

  /** Strips typedef aliases. */
  function Desugar(t: Type): (d: Type)
    ensures !d.Typedef?
    ensures Height(d) <= Height(t)
  {
    match t
    case Typedef(_, target) => Desugar(target)
    case _ => t
  }

  predicate IsPrimitive(t: Type) {
    Desugar(t).Builtin?
  }

  /** A pointer whose pointee desugars to a builtin type. */
  predicate IsPointerToPrimitive(t: Type) {
    t.Pointer? && IsPrimitive(t.pointee.ty)
  }

  /** A pointer whose pointee is (syntactically) an array. */
  predicate IsPointerToArray(t: Type) {
    t.Pointer? && t.pointee.ty.Array?
  }

  /** Target-language spelling of a builtin type. */
  function KindName(k: PrimitiveKind): string {
    match k
    case Void => "void"
    case Bool => "bool"
    case WideChar => "char"
    case Int8 => "sbyte"
    case UInt8 => "byte"
    case Int16 => "short"
    case UInt16 => "ushort"
    case Int32 => "int"
    case UInt32 => "uint"
    case Int64 => "long"
    case UInt64 => "ulong"
    case Float => "float"
    case Double => "double"
  }

  /** The text of a type as it appears inside synthesized wrapper names. */
  function Render(t: Type): string {
    match t
    case Builtin(k) => KindName(k)
    case Pointer(qt) => Render(qt.ty) + "*"
    case Array(e, st, n) => Render(e) + "[" + (if st == Constant then Numeral(n, 10) else "") + "]"
    case Tag(d) => d
    case Typedef(name, _) => name
    case Decayed(o) => Render(o)
  }

  // ---------------------------------------------------------------------------
  // Declarations
  // ---------------------------------------------------------------------------

  /** The declaration a node hangs under: none, a translation unit (by path), or a declaration (by name). */
  datatype Owner = Detached | InUnit(path: string) | InDecl(name: string)

  datatype Access = Public | Protected | Private

  /** Declaration attributes the array-unwrapping pass copies from a field to each of its slots. */
  datatype DeclInfo = DeclInfo(
    access: Access,
    debugText: Option<string>,
    comment: Option<string>,
    definitionOrder: nat,
    ignoreFlags: nat,
    isGenerated: bool,
    excludeFromPasses: set<string>,
    explicitlyIgnored: bool,
    completeDeclaration: Option<string>,
    isIncomplete: bool,
    isDependent: bool)

  /**
   * The attributes a freshly constructed declaration is taken to have: public,
   * generated, no comment, no text, nothing excluded. `Declaration.cs` is not
   * part of this model.
   */
  const FreshInfo := DeclInfo(Public, None, None, 0, 0, true, {}, false, None, false, false)

  /** A constant value attached to a field. */
  datatype BuiltinValue = BuiltinValue(kind: PrimitiveKind, expression: string, value: int)

  /** A data member; `offset` is in bits, `cls` is the field's `Class` back-reference. */
  datatype Field = Field(
    name: string,
    qt: QualifiedType,
    offset: nat,
    owner: Owner,
    cls: Owner,
    info: DeclInfo,
    value: Option<BuiltinValue>)
  {
    function Ty(): Type {
      qt.ty
    }
  }

  datatype ClassKind = ValueType | RefType | Interface

  datatype Function = Function(name: string, owner: Owner)

  datatype Enumeration = Enumeration(name: string, owner: Owner, items: seq<string>)

  datatype Class = Class(
    name: string,
    kind: ClassKind,
    owner: Owner,
    fields: seq<Field>,
    classes: seq<Class>,
    functions: seq<Function>,
    enums: seq<Enumeration>)

  /** A `#define`; `unitPath` is the file path of the unit that owns it, `enumeration` the enum it was folded into. */
  datatype MacroDefinition = MacroDefinition(
    name: string,
    expression: string,
    debugText: Option<string>,
    unitPath: string,
    enumeration: Option<string>)

  datatype PreprocessedEntity = Macro(def: MacroDefinition) | OtherEntity(text: string)

  datatype TranslationUnit = TranslationUnit(
    path: string,
    classes: seq<Class>,
    functions: seq<Function>,
    enums: seq<Enumeration>,
    entities: seq<PreprocessedEntity>)
}
