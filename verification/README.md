# CppSharp array-field passes, literal folding and FFmpeg library rewrites, in Dafny

This project models three small parts of the CppSharp binding generator. Each is modelled as pure functions over immutable declarations.

- **Array-field unwrapping.** The target language can only hold a fixed array field whose element is primitive. Two generator passes rewrite every other constant-size array field. Both first classify the desugared element type, using one shared classifier (`ArrayShape`). There are four strategies: pointer-to-primitive, pointer-to-array, array-of-array and non-primitive scalar. Each yields a triple of slot type, slot count and slot width.
  - `GenerateWrapperForUnsupportedArrayFieldsPass` (`WrapperPass`) retypes the field to a value-type wrapper `ArrayWrapper_<type><count>`. The wrapper holds slots `I0 … I{N-1}` and is looked up by name in the declaration context before a new one is created. The pass then processes the wrapper's own fields.
  - `UnwrapUnsupportedArraysPass` (`UnwrapPass`) replaces the field, at its own position, by sibling fields `name_0 … name_{N-1}`. A slot that is itself an unsupported array is expanded again (`name_0_0`, …). The splice is done by a reversed run of list inserts followed by removals. `Splice` proves that this equals the direct "each field replaced by its expansion" definition.
- **Constant-literal folding** (`PrimitiveTypeExpression`, module `Literals`). Macro text is read as:
  1. a `long`, in hex after a `0x`/`0X` prefix and in decimal otherwise;
  2. else a `double`;
  3. else a quoted string;
  4. else folding fails.

  A `long` gets the first kind of the ladder `sbyte, byte, short, ushort, int, uint, long` whose range contains it, with the lower bound exclusive. The printer writes the value back as quoted text, decimal, or bare lower-case hex.
- **FFmpeg example library** (`FFmpeg`):
  - Numeric object-like macros become `const long` fields of a new constants class per translation unit.
  - `Postprocess` moves each unit's top-level classes, functions and enums into one class `lib<name>`.
  - A header filter drops ignored files.

`Numerals` holds the digit-level model of `long.TryParse` (decimal and `NumberStyles.HexNumber`) and of `long.ToString()` / `ToString("x")`. `Ast` holds the type algebra and the declaration records. `Scenarios` works through concrete shapes: a nested `int[3][4]`, an array of pointers to arrays, two-level struct rows, and two fields of the same shape.

Things the model makes explicit:
- The passes' exceptions are values of `Result`. Integer division by an inner array size of 0 is `DivideByZero`.
- The wrapper pass's recursion carries a call-stack budget; running out is `StackOverflow`.
- Parsing a `double` and formatting one are function parameters.
- The target pointer width is a parameter.
- Wrapper names can collide: `ArrayWrapper_<type><count>` runs the type and the count together, so two `S1` slots and twelve `S` slots are both named `ArrayWrapper_S12`. The lookup by name then hands the second field the first field's wrapper.

Behaviour of the code worth noting:
- **The constants class is never reused.** `GenerateClassWithConstValuesFromMacros` never looks for an existing constants class, so every call appends a fresh one (`FFmpeg.GeneratingTwiceDuplicates`).
- **`Postprocess` covers every unit.** It loops over all translation units, not only the library's own.
- **No `Length` member or indexer.** The wrapper has neither: both exist only as commented-out code.
- **The passes can throw.** An array-of-array element with inner size 0 raises a division by zero; there is no warning path for it.
- **Quote trimming is greedy.** A quoted string loses every leading and trailing quote character, not just one pair (`Literals.QuoteRunsTrimmed`).
- **`UInt64` is never chosen.** The ladder's `UInt64` rung is commented out; `long.MinValue` gets kind `Void`.

## Model

| member | source | states |
|---|---|---|
| ArrayShape.StrategyOf | src/Generator/Passes/GenerateWrapperForUnsupportedArrayFieldsPass.cs:149-217 | The strategy is the first test the element passes: pointer-to-primitive, then pointer-to-array, then array, then non-primitive. No strategy exactly when the element is primitive. |
| ArrayShape.IsConstSizeArray | src/Generator/Passes/GenerateWrapperForUnsupportedArrayFieldsPass.cs:85-93 | Only an array type whose extent is `Constant` qualifies; variable, dependent and incomplete arrays and every non-array type are rejected. |
| ArrayShape.ShouldUnwrap | src/Generator/Passes/GenerateWrapperForUnsupportedArrayFieldsPass.cs:67-82 | An accepted type is a constant-size array, and one whose desugared element is a builtin type is rejected. |
| ArrayShape.ShouldUnwrapIffStrategy | src/Generator/Passes/GenerateWrapperForUnsupportedArrayFieldsPass.cs:67-82 | The fields the passes unwrap are exactly the constant-size arrays whose desugared element one of the four strategies takes. |
| ArrayShape.GetUnwrapInfo | src/Generator/Passes/GenerateWrapperForUnsupportedArrayFieldsPass.cs:143-225 | Null exactly for a primitive element; division by zero exactly for an inner array of size 0. The slot type is never taller than the element, and is an array (of constant size) exactly when the element is. Array-of-array slots are whole rows: `count * inner <= size < (count + 1) * inner`. Otherwise count is the array size. Width is the pointer width for pointer-to-array and 0 otherwise. |
| ArrayShape.UnwrapTable | src/Generator/Passes/UnwrapUnsupportedArraysPass.cs:58-122 | The four rows of the table, shared by both passes: `(pointee*, Size, 0)`, `(elem**, Size, pointerWidth)`, `(elem[inner], Size / inner, 0)` with inner > 0, and `(element, Size, 0)`. |
| ArrayShape.WarningPathUnreachable | src/Generator/Passes/GenerateWrapperForUnsupportedArrayFieldsPass.cs:62-64 | For every field `ShouldUnwrap` accepts, the classification is never null, so the "Failed to unwrap" warning cannot be reached. |
| ArrayShape.SlotTypeShallower | src/Generator/Passes/GenerateWrapperForUnsupportedArrayFieldsPass.cs:184-201 | Each unwrap step yields a slot type of strictly smaller nesting height than the field's type. |
| ArrayShape.NonArraySlotsAreLeaves | src/Generator/Passes/GenerateWrapperForUnsupportedArrayFieldsPass.cs:149-183 | Slots made for pointer and scalar elements are never unwrapped again. |
| ArrayShape.WrapperName | src/Generator/Passes/GenerateWrapperForUnsupportedArrayFieldsPass.cs:97 | Every wrapper name starts with `ArrayWrapper_`. |
| ArrayShape.WrapperNameSeparatesCounts | src/Generator/Passes/GenerateWrapperForUnsupportedArrayFieldsPass.cs:97 | For one slot type, different slot counts give different wrapper names. |
| ArrayShape.WrapperNamesCollide | src/Generator/Passes/GenerateWrapperForUnsupportedArrayFieldsPass.cs:97-99 | Different shapes can share a name: two `S1` slots and twelve `S` slots are both `ArrayWrapper_S12`. |
| WrapperPass.FindClass | src/Generator/Passes/GenerateWrapperForUnsupportedArrayFieldsPass.cs:99 | The lookup returns the first class with the name, or nothing when no class has it. |
| WrapperPass.NewWrapper | src/Generator/Passes/GenerateWrapperForUnsupportedArrayFieldsPass.cs:102-134 | A new wrapper is a value type named `ArrayWrapper_<type><count>` in the context. It has exactly `count` fields; field `i` is named `I<i>`, sits at offset `i * width` and has the slot type with the original field's qualifiers. Slot names are pairwise distinct. |
| WrapperPass.RewriteRetypesOnly | src/Generator/Passes/GenerateWrapperForUnsupportedArrayFieldsPass.cs:32-35 | The copy keeps the field's name, offset, owners, attributes and value. Only its type changes: it becomes a reference to the wrapper with no qualifiers, which is never unwrapped again. |
| WrapperPass.GetCreateWrapperStruct | src/Generator/Passes/GenerateWrapperForUnsupportedArrayFieldsPass.cs:95-140 | If the name is found, the context is unchanged and that class is returned. Otherwise exactly the new wrapper is appended. Either way the returned index is where the name now resolves. |
| WrapperPass.WrapperMemoised | src/Generator/Passes/GenerateWrapperForUnsupportedArrayFieldsPass.cs:97-100 | Asking twice for the same shape, even for another field, returns the same class and adds nothing the second time. |
| WrapperPass.ProcessField | src/Generator/Passes/GenerateWrapperForUnsupportedArrayFieldsPass.cs:42-65 | No wrapper and no change exactly when `ShouldUnwrap` rejects the field. Otherwise the wrapper returned is the class that the name for the field's shape resolves to, and it has been settled. The context only grows as `Grows` allows. |
| WrapperPass.ProcessFieldsFrom | src/Generator/Passes/GenerateWrapperForUnsupportedArrayFieldsPass.cs:24-39 | After the loop from field `index` on, none of those fields is an unsupported array, and the context has only grown. |
| WrapperPass.ProcessClass | src/Generator/Passes/GenerateWrapperForUnsupportedArrayFieldsPass.cs:22-40 | On completion no field of the class satisfies `ShouldUnwrap`. Classes are never removed or reordered, and fields are kept or rewritten in place. Every rewritten field refers to a settled class. Every added class is a value-type wrapper of the context and the first class of its name. When the recursion ends is stated by `WrapperPass.ProcessClassTerminates`. |
| WrapperPass.VisitClassDecl | src/Generator/Passes/GenerateWrapperForUnsupportedArrayFieldsPass.cs:16-20 | Visiting a class processes it in its own namespace, with the same guarantees. |
| WrapperPass.ProcessClassRewrites | src/Generator/Passes/GenerateWrapperForUnsupportedArrayFieldsPass.cs:28-37 | The class keeps its declaration and its field count and positions. An unsupported array field becomes a copy retyped to `Tag(wrapper name)` with cleared qualifiers, resolving to a settled class. Every other field is untouched. |
| WrapperPass.SettledIsFixpoint | src/Generator/Passes/GenerateWrapperForUnsupportedArrayFieldsPass.cs:24-39 | A class with no unsupported array field is left unchanged, and so is the whole context. |
| WrapperPass.SecondRunIsNoop | src/Generator/Passes/GenerateWrapperForUnsupportedArrayFieldsPass.cs:22-40 | Processing a class again after a completed run changes nothing. |
| WrapperPass.GrowsKeepsDistinct | src/Generator/Passes/GenerateWrapperForUnsupportedArrayFieldsPass.cs:136 | If class names were distinct before the pass, they are distinct after it. |
| WrapperPass.SelfNamedWrapperOverflows | src/Generator/Passes/GenerateWrapperForUnsupportedArrayFieldsPass.cs:55-58 | A class already named `ArrayWrapper_S2` that holds an `S[2]` finds itself as the wrapper and is processed again forever: the run fails with a stack overflow for every budget. |
| WrapperPass.ProcessClassTerminates | src/Generator/Passes/GenerateWrapperForUnsupportedArrayFieldsPass.cs:22-65 | Suppose every class of the context already named like a wrapper is settled (has no unsupported array field left), and the wrapper names of the shapes reached from the class are pairwise distinct. Then, with a call-stack budget at least the height of the class's tallest field type, the run never overflows the stack. |
| WrapperPass.ProcessClassSettlesWrappers | src/Generator/Passes/GenerateWrapperForUnsupportedArrayFieldsPass.cs:22-65 | If every wrapper-named class is settled before a successful run, every wrapper-named class is settled after it, so the hypothesis of `WrapperPass.ProcessClassTerminates` carries over from one visited class to the next. |
| UnwrapPass.TryUnwrapField | src/Generator/Passes/UnwrapUnsupportedArraysPass.cs:40-171 | The expansion is empty exactly when the field is inert: not an unsupported array, or a shape giving no slot. Every produced field is inert and descends from the field. It extends the field's name with `_`, keeps its qualifiers, namespace and attributes, belongs to the class, sits at or after its offset and is strictly shallower. Failure is only a division by zero. |
| UnwrapPass.Slot | src/Generator/Passes/UnwrapUnsupportedArraysPass.cs:135-155 | Slot `i` extends the field's name with `_` and has the slot type. It keeps the field's qualifiers, namespace and attributes, belongs to the class, has no constant value, and sits `i * width` after the field's offset. |
| UnwrapPass.SlotNamesDistinct | src/Generator/Passes/UnwrapUnsupportedArraysPass.cs:135 | Different slots of one field get different names. |
| UnwrapPass.ExpandSlots | src/Generator/Passes/UnwrapUnsupportedArraysPass.cs:133-168 | The slot loop yields at least one field per remaining slot, each inert and descending from the field. |
| UnwrapPass.OneLevelExpansion | src/Generator/Passes/UnwrapUnsupportedArraysPass.cs:133-155 | For a non-array element the field becomes exactly `count` siblings. Sibling `i` is named `name_i`, at `offset + i * width`, with the slot type, the original qualifiers and the copied attributes. |
| UnwrapPass.ExpansionsElementwise | src/Generator/Passes/UnwrapUnsupportedArraysPass.cs:18-26 | The collecting loop succeeds exactly when every field's expansion does, and then records each field's expansion. |
| UnwrapPass.UnwrapFields | src/Generator/Passes/UnwrapUnsupportedArraysPass.cs:14-38 | The class keeps everything but its fields, and the field list does not shrink. Each resulting field is an original or descends from one. |
| UnwrapPass.UnwrapLayout | src/Generator/Passes/UnwrapUnsupportedArraysPass.cs:22-36 | The result lists, field by field, the expansion where it is non-empty and the field itself otherwise. Its length is the sum of the expansion lengths, with 1 for each kept field. |
| UnwrapPass.VisitClassDecl | src/Generator/Passes/UnwrapUnsupportedArraysPass.cs:14-38 | The collect, reversed-insert and remove loops compute exactly `UnwrapFields`. |
| UnwrapPass.InsertReversed | src/Generator/Passes/UnwrapUnsupportedArraysPass.cs:27-31 | Inserting the reversed entries one by one gives the backward insertion of the entry list. |
| UnwrapPass.RemoveEach | src/Generator/Passes/UnwrapUnsupportedArraysPass.cs:33-36 | Removing each scheduled field in turn gives `RemoveAll`. |
| UnwrapPass.UnwrapIsIdempotent | src/Generator/Passes/UnwrapUnsupportedArraysPass.cs:14-38 | Running the pass on its own output changes nothing. |
| Splice.Insert | src/Generator/Passes/UnwrapUnsupportedArraysPass.cs:30 | `List.Insert(i, x)` puts `x` at `i`, with the prefix before it and the old tail after it. |
| Splice.InsertionPhase | src/Generator/Passes/UnwrapUnsupportedArraysPass.cs:27-31 | Inserting every expansion at its field's index, last entry first, places each expansion, in order, just before its field. |
| Splice.RemoveFirst | src/Generator/Passes/UnwrapUnsupportedArraysPass.cs:35 | `List.Remove` shortens the list by one when the element is present and leaves it alone otherwise. |
| Splice.RemoveFirstDropsFirstMatch | src/Generator/Passes/UnwrapUnsupportedArraysPass.cs:35 | When the element is present, the one removed is the first equal to it; the elements before and after it stay, in order. |
| Splice.RemoveExpandedOriginals | src/Generator/Passes/UnwrapUnsupportedArraysPass.cs:33-36 | Removing the expanded originals (by value, as `List.Remove` does) leaves each field replaced by its expansion. This holds whenever no original occurs in an expansion. |
| Splice.FlattenLength | src/Generator/Passes/UnwrapUnsupportedArraysPass.cs:22-25 | The spliced list has one entry per expansion element and one per kept field. |
| Numerals.DecimalRoundTrip | src/AST/Expression.cs:147 | The decimal text of every `long` is canonical and parses back to it. |
| Numerals.HexRoundTrip | src/AST/Expression.cs:143-144 | The lower-case hex text of every `long` (its 64-bit pattern) parses back to it under `HexNumber`. |
| Numerals.CanonicalDecimalRoundTrip | src/AST/Expression.cs:147 | Canonical decimal text that parses prints back as the same text. |
| Literals.SmallestIntegerKind | src/AST/Expression.cs:79-119 | The kind is `Void` or a ladder rung. A rung holds the value, and no earlier rung does, under the exclusive lower bounds. `Void` comes exactly when no rung fits, which is exactly `long.MinValue`. A value `<= 0` never gets an unsigned kind. |
| Literals.LadderEdges | src/AST/Expression.cs:83-118 | 0 and -127 are `sbyte`; -128 is `short`; 128 and 255 are `byte`; -32768 is `int`; -2^31 and `long.MaxValue` are `long`; `long.MinValue` is `Void`; `UInt64` is never chosen. |
| Literals.ParseAsLong | src/AST/Expression.cs:137-148 | A `0x`/`0X` prefix selects a hex parse of the rest; anything else is parsed as decimal. Results are in `long` range. |
| Literals.ParseAsLongReadsPrinted | src/AST/Expression.cs:137-148 | A `long`'s decimal text, and its hex text behind either prefix spelling, parse back to it. |
| Literals.ParseAsString | src/AST/Expression.cs:126-135 | A string results exactly when the first and the last character of the text are `"` (the ordinal reading of `StartsWith`/`EndsWith`). The result neither starts nor ends with `"`. |
| Literals.IsHexadecimal | src/AST/Expression.cs:150-157 | A missing text is never hexadecimal. A present text is hexadecimal exactly when some `0` in it is directly followed by `x` or `X`. |
| Literals.TrimmedQuotes | src/AST/Expression.cs:130 | The result is an infix of the text with only quote characters before and after it. |
| Literals.LoneQuotesTrimToEmpty | src/AST/Expression.cs:128-130 | `"` and `""` both yield the empty string. |
| Literals.QuoteRunsTrimmed | src/AST/Expression.cs:128-130 | `""a""` yields `a`, `"a"b"` yields `a"b`, and `"a` is not a string. |
| Literals.DecimalTextIsNotHex | src/AST/Expression.cs:150-157 | Canonical decimal text never contains `0x` or `0X`. |
| Literals.TryParseExpression | src/AST/Expression.cs:52-77 | Success exactly when one of the three parsers accepts. The precedence is integer (ladder kind, unchanged value), then `Double`, then `WideChar`. On failure the kind is `Void` and the value null. Any success is well formed. |
| Literals.TryCreate | src/AST/Expression.cs:36-48 | Null exactly when all three parsers reject the text. Otherwise the parse's kind and value, with the input as debug text, well formed. |
| Literals.FromLong | src/AST/Expression.cs:23-28 | The `long` constructor keeps the value, takes the ladder kind and has no text. Its kind is `Void` exactly for `long.MinValue`. |
| Literals.FromDouble | src/AST/Expression.cs:17-21 | The `double` constructor gives kind `Double` with that value. |
| Literals.ToString | src/AST/Expression.cs:159-185 | Throws exactly for kind `Void`, which is exactly the value `long.MinValue`. Strings are re-quoted; doubles get `D`. Integers print canonical lower-case hex when the text contains `0x`/`0X` and canonical decimal otherwise; either way the output parses back to the value. |
| Literals.PrintLong | src/AST/Expression.cs:178-180 | Hex output is canonical lower-case hex that parses back to the `long`; decimal output is canonical decimal that parses back. |
| Literals.DecimalLiteralRoundTrip | src/AST/Expression.cs:137-185 | Canonical decimal text of any `long` above the minimum folds and prints back as exactly the same text. |
| Literals.QuotedLiteralRoundTrip | src/AST/Expression.cs:126-164 | A quoted string whose content neither starts nor ends with `"` (and is not read as a double) folds and prints back as exactly the same text. |
| Literals.HexLiteralDropsPrefix | src/AST/Expression.cs:178-180 | A hex literal prints as bare hex digits without the `0x`; putting the prefix back reads the same value. |
| Literals.MinimumCannotPrint | src/AST/Expression.cs:107-118 | `long.MinValue`, in decimal or hex, folds to kind `Void`, and printing it throws. So does the `long` constructor's literal. |
| Literals.FromLongPrintsDecimal | src/AST/Expression.cs:23-28 | A literal built from a `long` has no text, so it prints in decimal. |
| LiteralTable.HexSixteen | src/AST/Expression.cs:52-59 | `0x10` folds to the `sbyte` 16 and prints `10`. |
| LiteralTable.ThreeHundred | src/AST/Expression.cs:52-59 | `300` folds to the `short` 300 and prints `300`. |
| LiteralTable.GarbageFails | src/AST/Expression.cs:74-76 | `garbage` folds to nothing when it is not a double. |
| LiteralTable.QuotedAbc | src/AST/Expression.cs:67-73 | `"abc"` folds to the `WideChar` string `abc` and prints `"abc"`. |
| LiteralTable.AllOnesIsMinusOne | src/AST/Expression.cs:143-144 | `0x` followed by the hex digits of the all-ones 64-bit pattern folds to the `sbyte` -1, not to an unsigned value, and prints those digits back without the prefix. |
| FFmpeg.ParseToNumber | examples/SDL/FFmpegSubLibrary.cs:191-202 | The macro number rule is the literal folder's `ParseAsLong`, with results in `long` range. |
| FFmpeg.GenerateConstValueFromMacro | examples/SDL/FFmpegSubLibrary.cs:163-189 | Null exactly when the macro text does not parse. Otherwise a public `const long` field named as the macro with its debug text. Its value records kind `UInt64`, the macro text and the parsed number. |
| FFmpeg.ConstantAgreesWithLiteral | examples/SDL/FFmpegSubLibrary.cs:191-202 | The value a macro constant gets equals the `long` the literal folder gives the same text. |
| FFmpeg.ConstFieldOf | examples/SDL/FFmpegSubLibrary.cs:209-217 | An entity yields a field exactly when it is a macro of this unit, not folded into an enumeration, whose text parses. |
| FFmpeg.ConstFieldsAppend | examples/SDL/FFmpegSubLibrary.cs:209-218 | Fields follow the order of the preprocessed entities. |
| FFmpeg.ConstFieldsSound | examples/SDL/FFmpegSubLibrary.cs:209-218 | Every generated field comes from a qualifying entity. |
| FFmpeg.ConstFieldsComplete | examples/SDL/FFmpegSubLibrary.cs:209-218 | Every qualifying entity contributes its field. |
| FFmpeg.ConstFieldsEmptyIff | examples/SDL/FFmpegSubLibrary.cs:209-220 | A unit yields no field exactly when no entity qualifies. |
| FFmpeg.GenerateClassForUnit | examples/SDL/FFmpegSubLibrary.cs:206-224 | Only the class list changes, and only by appending at most one class. One is appended exactly when some field was generated; it is the constants class holding those fields. |
| FFmpeg.GenerateClassWithConstValuesFromMacros | examples/SDL/FFmpegSubLibrary.cs:204-225 | Every unit is processed independently, one result per unit. |
| FFmpeg.ConstantsClassIffNumericMacro | examples/SDL/FFmpegSubLibrary.cs:220-223 | A unit gains a class exactly when one of its own, non-enumeration macros is a number. |
| FFmpeg.GeneratingTwiceDuplicates | examples/SDL/FFmpegSubLibrary.cs:208 | No existing class is looked up: running twice leaves two identical constants classes. |
| FFmpeg.WrapUnit | examples/SDL/FFmpegSubLibrary.cs:97-123 | The unit ends with one class `ns`, owned by the unit, and no functions or enums. The class holds the former classes, functions and enums in their original order and number, each re-parented to `ns` and otherwise unchanged. |
| FFmpeg.PostprocessUnit | examples/SDL/FFmpegSubLibrary.cs:94-123 | A unit whose only class is `ns` is skipped; any other is wrapped. Either way the unit ends up wrapped. |
| FFmpeg.Postprocess | examples/SDL/FFmpegSubLibrary.cs:90-125 | Every unit, keeping its path, is processed with the namespace `lib<name>`. |
| FFmpeg.PostprocessIdempotent | examples/SDL/FFmpegSubLibrary.cs:94-95 | Running `Postprocess` twice equals running it once. |
| FFmpeg.SkipKeepsTopLevelFunctions | examples/SDL/FFmpegSubLibrary.cs:94-95 | The skip test looks only at classes, so a skipped unit keeps its top-level functions. |
| FFmpeg.ConstantsEndUpWrapped | examples/SDL/FFmpegSubLibrary.cs:87 | The constants class added under the library's name becomes the last class inside `lib<name>`. |
| FFmpeg.ListContains | examples/SDL/FFmpegSubLibrary.cs:155 | The scan finds a name exactly when it is in the list. |
| FFmpeg.ShouldIncludeHeader | examples/SDL/FFmpegSubLibrary.cs:153-158 | A header is excluded exactly when an ignore list was given and contains its name; a missing list ignores nothing. |
| Scenarios.PointerToArraySiblings | src/Generator/Passes/UnwrapUnsupportedArraysPass.cs:74-92 | Two pointers to `int[5]` at offset 8 become `p_0` and `p_1`, typed `int**`, at offsets 8 and 72 on a 64-bit target. |
| Scenarios.RowExpansion | src/Generator/Passes/UnwrapUnsupportedArraysPass.cs:111-155 | A row `S r[2]` expands into its two elements. |
| Scenarios.RowsExpansion | src/Generator/Passes/UnwrapUnsupportedArraysPass.cs:157-168 | Two rows of `S[2]` expand row by row into their elements. |
| Scenarios.NestedRowsGiveNestedNames | src/Generator/Passes/UnwrapUnsupportedArraysPass.cs:133-168 | The fields are named `a_0_0, a_0_1, a_1_0, a_1_1`, in that order, typed `S`. |
| Scenarios.RowWrapper | src/Generator/Passes/GenerateWrapperForUnsupportedArrayFieldsPass.cs:95-140 | The wrapper for `int m[3][4]` is `ArrayWrapper_int[4]3`, with slots `I0, I1, I2` typed `int[4]`, and needs no further unwrapping. |
| Scenarios.NestedPrimitiveArrayWrapper | src/Generator/Passes/GenerateWrapperForUnsupportedArrayFieldsPass.cs:22-65 | Processing a class with `int m[3][4]` adds exactly that wrapper and retypes the field to it. |
| Scenarios.SettledWrapperReused | src/Generator/Passes/GenerateWrapperForUnsupportedArrayFieldsPass.cs:95-100 | A settled class already named `ArrayWrapper_S2` is found by the lookup and reused for a field `S x[2]`: nothing is added and the field is retyped to it, with no recursion into a loop. |
| Scenarios.SameShapeSharesWrapper | src/Generator/Passes/GenerateWrapperForUnsupportedArrayFieldsPass.cs:97-100 | Two fields `S x[2]` and `S y[2]` share one wrapper `ArrayWrapper_S2`: one class is added and both fields refer to it. |

## Left out

- **Driver orchestration** (`examples/SDL/Program.cs`), which fixes the library order by hand, and the FFMS2 library configuration (`examples/SDL/FFMS2Library.cs`).
- **File-system I/O in `FFmpegSubLibrary`:**
  - the constructor's directory check;
  - `Setup` (header discovery);
  - the directory loop of `Preprocess`.

  `ShouldIncludeHeader` is modelled on the file name alone.
- **The other `Preprocess` steps** (`ConvertTypesToPortable`, `ChooseAndPromoteIncompleteClass`, `ResolveUnifyIncompleteClassDeclarationsFromSubLibs`, `IgnoreFunctionsWithParameterTypeName`): the extension methods they call are not part of this model.
- **Diagnostics** (`EmitMessage`, `EmitWarning`) are dropped.
- **The wrapper's indexer and `Length` member** exist only as commented-out code and are not modelled.
- **Floating point:** `ParseAsDouble` and the `"{0}D"` format are the parameters `parseDouble` and `formatDouble`.
- **Number parsing details:**
  - .NET culture is not modelled. This covers number parsing and the culture-sensitive `StartsWith("\"")`/`EndsWith("\"")` of `ParseAsString`.
  - Of the `NumberStyles` features, only the ones `long.TryParse` uses by default and with `HexNumber` are modelled: surrounding white space (space, tab, LF, VT, FF, CR), an optional sign for decimal, and hex digits in either case.
  - Trailing NUL characters are not modelled, and neither are thousands separators, currency or exponent forms. Those forms are rejected in both styles anyway.
- **Desugaring and type tests:** `Desugar`, `IsPrimitiveType`, `IsPointerToPrimitiveType`, `IsPointerToArrayType` and `Type.ToString` are defined directly over the `Type` datatype. The real visitors are not part of this model. `Render` gives a C#-like spelling that is only used inside wrapper names.
- **Offsets** are unbounded naturals: the `(uint)` cast of slot offsets is not modelled.
- **Class lookup:** `DeclarationContext.FindClass` is the first class of the name in the context's class list. Classes live in one list per context and are addressed by index and by name, not by object identity. `List.Remove` is modelled by value equality; `Splice.RemoveExpandedOriginals` shows this removes exactly the expanded originals.
- **The default kind of `new Class()`** is taken to be a reference type (`FFmpeg.DefaultClassKind`): `Class.cs` is not part of this model.
- **The attributes of `new Field { … }`** that the code leaves unset are taken to be public access, generated, no comment or text, nothing excluded and not ignored (`FreshInfo`): `Declaration.cs` is not part of this model. No contract depends on them beyond what the code sets explicitly.
- Literals.ParseAsString: the culture-sensitive `StartsWith("\"")` and `EndsWith("\"")` are modelled as ordinal first- and last-character tests. Under a culture comparison, an ignorable code point such as a soft hyphen (U+00AD) before the opening or after the closing quote is skipped and the text still counts as quoted; the model rejects it.
- WrapperPass.Rewrite: `new Field(field)` is taken to copy the name, offset, owners, every attribute and the value of the field; `Field.cs` is not part of this model.
- WrapperPass.ProcessClass: the C# recursion is bounded by an explicit call-stack budget (`StackOverflow` when exhausted). An unsettled class named like a wrapper (one that still holds an array of its own shape) sends the recursion into a loop (`WrapperPass.SelfNamedWrapperOverflows`). Termination is proved only when every class named like a wrapper is settled and the reached shapes have distinct wrapper names (`WrapperPass.ProcessClassTerminates`); a successful run keeps the first condition for the next class (`WrapperPass.ProcessClassSettlesWrappers`). Shapes whose names collide can also reach a wrapper of another shape (`ArrayShape.WrapperNamesCollide`); that case is not covered.
- FFmpeg.ConstFieldOf: the cast `(TranslationUnit)m.Namespace` in the macro filter of `GenerateClassWithConstValuesFromMacros` is modelled as the macro's recorded unit path. A macro whose namespace is not a translation unit would throw an invalid-cast exception, and one whose namespace is `null` a null-reference exception; neither case is modelled.
