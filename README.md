# A verified model of the AseWhy/json streaming generator

The library writes JSON text through a `JsonGenerator`. The caller drives it with
start, end, field-name and value calls. The generator keeps:

- a stack `inArray` of container kinds (true for an array, false for an object);
- one `havePrev` flag that decides whether the next element needs a comma;
- an append-only writer (`CommonBuilderWriter`) holding the text so far.

String contents and field names go through `JsonUtils.escapeJson`. That
function uses the `REPLACEMENT_CHARS` table to escape controls, `"`, `\`,
U+2028 and U+2029.

Modules, one concern each:

- `Utf16`: Java text as UTF-16 code units (`CodeUnit` is an `int` below
  0x10000, `Text` a sequence of them), ASCII literals, and `%04x` hex digits
  with their reader.
- `JsonUtils`: the static initializer that fills the table
  (`BuildReplacementChars`, a loop over an array) and the run-copying loop
  `EscapeJson`. Both are proved against the per-code-unit specification
  `Escape`. `Unescape` decodes a JSON string body as section 7 of RFC 8259
  defines it, and it inverts `Escape`.
- `Support`: the `CommonBuilderWriter` class, whose builder text is the
  field `contents`.
- `GeneratorModel`: the generator's state machine on values, with a
  `GenState` and one function per public operation. `Step` and `Run` replay
  call sequences, with an `Outcome` that records an exception.
- `Generator`: the `JsonGenerator` class, with the source's fields and
  methods. Each method is proved to leave `Snapshot()` (stack, flag and
  writer text) equal to what the matching `GeneratorModel` function gives.
- `CommaDiscipline`: why one `havePrev` flag is enough. Take call sequences
  that use the generator as intended. For those, the generator writes the
  same text as a design that keeps one "already holds an element" flag per
  open container, and `havePrev` equals the innermost container's flag.
- `TreeSerialization`: a caller that walks a JSON value and issues the
  matching calls gets exactly the standard text of that value. Elements are
  separated by single commas, and strings and names are quoted and escaped.
  The values are those the generator can write: null, strings, numbers (as
  `String.valueOf` prints them, which for a `Double` NaN or infinity is not
  a JSON number), arrays and objects. There are no booleans.

Behaviour of the code worth knowing:

- numbers are written with `String.valueOf`, with no rounding;
- a `Boolean` given to `writeField(name, value)` takes the `toString()` branch
  and is written as the quoted string `"true"` or `"false"`; the generator
  cannot write a JSON boolean;
- closing does not check the frame's kind;
- closing with an empty stack writes the bracket first and only then throws
  (`NoSuchElementException` from `removeLast`);
- field names are accepted at the document root;
- a field name inside an array is a silent no-op;
- the named start operations in an array write the bracket with no separator;
- the unnamed starts outside an array run no separator logic, so a second
  root container follows the first with no comma.

## Model

| member | source | states |
|---|---|---|
| JsonUtils.BuildReplacementChars | src/main/java/io/github/asewhy/json/JsonUtils.java:53-67 | the 128-entry table holds `\u%04x` for 0x00-0x1F, the seven short forms override their entries, and every other entry is null |
| JsonUtils.LookupReplacement | src/main/java/io/github/asewhy/json/JsonUtils.java:20-35 | the lookup gives the table entry below 128, the fixed texts for U+2028/U+2029 and null otherwise, i.e. exactly `Replacement(c)` |
| JsonUtils.EscapeJson | src/main/java/io/github/asewhy/json/JsonUtils.java:14-51 | the run-copying loop (cursor `last`, one append per run and per replacement) returns exactly `Escape(input)`: each code unit replaced or copied, in order |
| JsonUtils.FlushRun | src/main/java/io/github/asewhy/json/JsonUtils.java:37-47 | copying the pending run `input[last..i]` in one piece, then the replacement, agrees with escaping the prefix code unit by code unit |
| JsonUtils.ExtendRun | src/main/java/io/github/asewhy/json/JsonUtils.java:26-34 | a code unit with no replacement lengthens the pending run, which still needs no escape |
| JsonUtils.EscapeConcat | src/main/java/io/github/asewhy/json/JsonUtils.java:19-44 | escaping maps concatenation to concatenation |
| JsonUtils.EscapeIdentity | src/main/java/io/github/asewhy/json/JsonUtils.java:46-48 | text in which nothing needs escaping is copied unchanged |
| JsonUtils.NeedsEscapeExactly | src/main/java/io/github/asewhy/json/JsonUtils.java:23-35 | a code unit is replaced if and only if it is below 0x20, `"`, `\`, U+2028 or U+2029; `/`, DEL and all other text are copied |
| JsonUtils.ReplacementStartsWithBackslash | src/main/java/io/github/asewhy/json/JsonUtils.java:56-66 | every replacement has at least two code units and begins with a backslash |
| JsonUtils.ReplacementForm | src/main/java/io/github/asewhy/json/JsonUtils.java:56-66 | a code unit with a short-escape letter becomes `\` and that letter (`\"`, `\\`, `\t`, `\b`, `\n`, `\r`, `\f`); every other replaced code unit becomes `\u` and its own four hex digits |
| JsonUtils.SeparatorReplacements | src/main/java/io/github/asewhy/json/JsonUtils.java:29-32 | the literal texts `\u2028` and `\u2029` are exactly the `\u%04x` escapes of U+2028 and U+2029 |
| JsonUtils.ControlEscapeForm | src/main/java/io/github/asewhy/json/JsonUtils.java:56-58 | a control without a short form becomes `\u00` followed by its two lower-case, zero-padded hex digits |
| JsonUtils.EscapeLength | src/main/java/io/github/asewhy/json/JsonUtils.java:37-48 | the output is never shorter than the input, and has the same length exactly when no code unit needs escaping |
| JsonUtils.EscapeIsIdentityIff | src/main/java/io/github/asewhy/json/JsonUtils.java:37-48 | the output equals the input if and only if no code unit needs escaping |
| JsonUtils.EscapeUnitIsSafe | src/main/java/io/github/asewhy/json/JsonUtils.java:23-35 | neither a copied code unit nor any replacement contains a control or a raw U+2028/U+2029 |
| JsonUtils.EscapeIsSafe | src/main/java/io/github/asewhy/json/JsonUtils.java:14-51 | the output holds no raw code unit below 0x20 and no raw U+2028/U+2029 |
| JsonUtils.UnescapeEscapeUnit | src/main/java/io/github/asewhy/json/JsonUtils.java:56-66 | a JSON reader decodes each replacement (short form or `\u` escape) back to the code unit it replaced |
| JsonUtils.UnescapeEscape | src/main/java/io/github/asewhy/json/JsonUtils.java:14-51 | round trip: decoding the escaped text as a JSON string body (section 7 of RFC 8259) gives back the exact input, lone surrogates included |
| Utf16.ParseHex4OfHex4 | src/main/java/io/github/asewhy/json/JsonUtils.java:57 | the four digits `%04x` prints for a code unit are read back as that code unit |
| Support.CommonBuilderWriter.constructor | src/main/java/io/github/asewhy/json/support/CommonBuilderWriter.java:8-10 | the writer wraps a builder and starts from whatever text that builder already holds |
| Support.CommonBuilderWriter.Write | src/main/java/io/github/asewhy/json/support/CommonBuilderWriter.java:13-15 | the new contents are the old contents followed by `chars`, so nothing written before changes, and the same writer is returned for chaining |
| Support.CommonBuilderWriter.ToString | src/main/java/io/github/asewhy/json/support/CommonBuilderWriter.java:18-20 | returns exactly the accumulated contents and changes nothing |
| Generator.JsonGenerator.constructor | src/main/java/io/github/asewhy/json/JsonGenerator.java:31-36 | a new generator has an empty stack and `havePrev` false, writes nothing, and keeps the writer and date format it was given |
| Generator.JsonGenerator.CheckPrev | src/main/java/io/github/asewhy/json/JsonGenerator.java:247-253 | appends a comma when `havePrev` is set, otherwise sets it; the stack is unchanged |
| Generator.JsonGenerator.SafeJson | src/main/java/io/github/asewhy/json/JsonGenerator.java:261-263 | returns `Escape(some)`, computed by `EscapeJson` over the replacement table |
| Generator.JsonGenerator.WriteQuoted | src/main/java/io/github/asewhy/json/JsonGenerator.java:106 | the three chained writes append `"`, the escaped text and `"` |
| Generator.JsonGenerator.WriteString | src/main/java/io/github/asewhy/json/JsonGenerator.java:98-110 | `checkPrev` only when the top frame is an array, then `null` for a null reference or the quoted, escaped string |
| Generator.JsonGenerator.WriteNumber | src/main/java/io/github/asewhy/json/JsonGenerator.java:79-91 | `checkPrev` only when the top frame is an array, then `null` or the number's `String.valueOf` text |
| Generator.JsonGenerator.WriteEnum | src/main/java/io/github/asewhy/json/JsonGenerator.java:61-63 | the constant's `name()` written as a string (null stays null) |
| Generator.JsonGenerator.WriteDate | src/main/java/io/github/asewhy/json/JsonGenerator.java:70-72 | the date formatted by the current format and written as a string (null stays null) |
| Generator.JsonGenerator.WriteFieldName | src/main/java/io/github/asewhy/json/JsonGenerator.java:144-152 | inside an array nothing changes; otherwise `checkPrev`, then the quoted escaped name and `:` |
| Generator.JsonGenerator.WriteField | src/main/java/io/github/asewhy/json/JsonGenerator.java:117-137 | the field name, then the value through the writer its runtime kind selects (`toString()` for any other object) |
| Generator.JsonGenerator.WriteStartObject | src/main/java/io/github/asewhy/json/JsonGenerator.java:159-169 | `checkPrev` only in an array, then `havePrev` cleared, an object frame pushed and `{` appended |
| Generator.JsonGenerator.WriteStartObjectNamed | src/main/java/io/github/asewhy/json/JsonGenerator.java:177-185 | `writeField(name)`, then `havePrev` cleared, an object frame pushed and `{` appended |
| Generator.JsonGenerator.WriteStartArray | src/main/java/io/github/asewhy/json/JsonGenerator.java:204-214 | `checkPrev` only in an array, then `havePrev` cleared, `[` appended and an array frame pushed |
| Generator.JsonGenerator.WriteStartArrayNamed | src/main/java/io/github/asewhy/json/JsonGenerator.java:222-230 | `writeField(name)`, then `havePrev` cleared, `[` appended and an array frame pushed |
| Generator.JsonGenerator.WriteEndObject | src/main/java/io/github/asewhy/json/JsonGenerator.java:192-197 | `havePrev` set, `}` appended, the top frame popped whatever its kind; it reports the exception exactly when the stack was empty, after `}` was written |
| Generator.JsonGenerator.WriteEndArray | src/main/java/io/github/asewhy/json/JsonGenerator.java:237-242 | `havePrev` set, `]` appended, the top frame popped whatever its kind; it reports the exception exactly when the stack was empty, after `]` was written |
| Generator.JsonGenerator.RemoveLast | src/main/java/io/github/asewhy/json/JsonGenerator.java:195 | drops the last frame, or signals `NoSuchElementException` on an empty stack and leaves it empty |
| Generator.JsonGenerator.CurrentInArray | src/main/java/io/github/asewhy/json/JsonGenerator.java:268-270 | true exactly when the stack is not empty and its last frame is an array; false at the root |
| Generator.JsonGenerator.ToString | src/main/java/io/github/asewhy/json/JsonGenerator.java:278-280 | the text the writer holds |
| GeneratorModel.Step | src/main/java/io/github/asewhy/json/JsonGenerator.java:61-242 | one public call; it throws exactly when it is a close on an empty stack, and a throw leaves the stack empty |
| GeneratorModel.Run | src/main/java/io/github/asewhy/json/JsonGenerator.java:61-242 | a chain of calls, ended by the first exception; a chain that throws contains a close and leaves the stack empty |
| GeneratorModel.CheckPrevCommaIffHavePrev | src/main/java/io/github/asewhy/json/JsonGenerator.java:247-253 | `checkPrev` writes a comma exactly when `havePrev` is set and leaves it set in either case |
| GeneratorModel.FieldNameInArrayIsNoOp | src/main/java/io/github/asewhy/json/JsonGenerator.java:144-152 | inside an array `writeField(name)` changes nothing and writes nothing |
| GeneratorModel.FieldNameOutsideArray | src/main/java/io/github/asewhy/json/JsonGenerator.java:144-152 | at the root (empty stack) or in an object, `writeField(name)` writes the separator, `"`, the escaped name, `"` and `:`, and a reader recovers the name |
| GeneratorModel.StartInArraySeparates | src/main/java/io/github/asewhy/json/JsonGenerator.java:159-169 | in an array, `writeStartObject()`/`writeStartArray()` write the comma exactly when `havePrev` is set, then push a frame with `havePrev` cleared |
| GeneratorModel.StartOutsideArrayWritesNoSeparator | src/main/java/io/github/asewhy/json/JsonGenerator.java:159-169 | at the root or in an object, `writeStartObject()`/`writeStartArray()` write only the bracket, with no comma whatever `havePrev` is, and push a frame with `havePrev` cleared |
| GeneratorModel.NamedStartInArrayWritesNoSeparator | src/main/java/io/github/asewhy/json/JsonGenerator.java:177-185 | in an array the named starts drop the name and write the bracket with no separator, whatever `havePrev` is |
| GeneratorModel.EndPopsAnyFrame | src/main/java/io/github/asewhy/json/JsonGenerator.java:192-197 | both closes pop the top frame without checking its kind and set `havePrev` |
| GeneratorModel.EndOnEmptyStackThrowsAfterWriting | src/main/java/io/github/asewhy/json/JsonGenerator.java:192-197 | closing with an empty stack throws, with the bracket already written and `havePrev` already set |
| GeneratorModel.ValueOutsideArrayWritesNoSeparator | src/main/java/io/github/asewhy/json/JsonGenerator.java:79-110 | outside an array the value writers run no separator logic; a number is its exact `String.valueOf` text, with no rounding |
| GeneratorModel.FieldWritesValueText | src/main/java/io/github/asewhy/json/JsonGenerator.java:117-137 | after the name, `writeField(name, value)` writes the value as `null`, a number's text, or a quoted string (string, enum name, formatted date, `toString()`) |
| GeneratorModel.FieldOutsideArray | src/main/java/io/github/asewhy/json/JsonGenerator.java:117-137 | at the root or in an object: separator, quoted name, `:` and the value's text, and `havePrev` left set |
| GeneratorModel.FieldInArray | src/main/java/io/github/asewhy/json/JsonGenerator.java:117-137 | in an array the name is dropped and the value is written as an element, after `checkPrev`'s comma |
| GeneratorModel.ValueOnlyAppends | src/main/java/io/github/asewhy/json/JsonGenerator.java:79-110 | the value writers only append to the writer |
| GeneratorModel.StepOnlyAppends | src/main/java/io/github/asewhy/json/JsonGenerator.java:61-242 | every public operation only appends: what was written before the call is a prefix of the text after it |
| GeneratorModel.RunOnlyAppends | src/main/java/io/github/asewhy/json/JsonGenerator.java:61-242 | any chain of calls only appends, whether it returns or ends in an exception |
| CommaDiscipline.TopIsArrayIffInnermost | src/main/java/io/github/asewhy/json/JsonGenerator.java:268-270 | `currentInArray` is true exactly when the innermost open container is an array, and false at the root |
| CommaDiscipline.CheckPrevIsAddElement | src/main/java/io/github/asewhy/json/JsonGenerator.java:247-253 | when `havePrev` is the innermost container's flag, `checkPrev` adds one element to that container: a comma exactly when it already holds one |
| CommaDiscipline.OpenStep | src/main/java/io/github/asewhy/json/JsonGenerator.java:159-169 | an unnamed start in an array, after a field name or as the root container counts as one element of its parent and opens a frame that holds none |
| CommaDiscipline.NamedOpenStep | src/main/java/io/github/asewhy/json/JsonGenerator.java:177-185 | a named start in an object is a field name followed by a new empty frame as its value |
| CommaDiscipline.CloseCorresponds | src/main/java/io/github/asewhy/json/JsonGenerator.java:192-197 | setting `havePrev` on close is right: the closed container is an element of its parent, so the parent already holds one |
| CommaDiscipline.FieldNameCorresponds | src/main/java/io/github/asewhy/json/JsonGenerator.java:144-152 | a field name in an object adds one member to it: a comma exactly when it already holds one |
| CommaDiscipline.ValueCorresponds | src/main/java/io/github/asewhy/json/JsonGenerator.java:79-110 | a value after a field name adds no element and no comma; a value in an array adds one element |
| CommaDiscipline.ScalarStep | src/main/java/io/github/asewhy/json/JsonGenerator.java:61-110 | each scalar write returns and keeps the single flag equal to the innermost container's element flag |
| CommaDiscipline.FieldStep | src/main/java/io/github/asewhy/json/JsonGenerator.java:117-137 | `writeField(name, value)` in an object returns and adds exactly one member, preceded by a comma only when the object already held one |
| CommaDiscipline.StepCorresponds | src/main/java/io/github/asewhy/json/JsonGenerator.java:61-253 | every call admissible in the current context returns, and the generator stays in step with the per-container design |
| CommaDiscipline.RunCorresponds | src/main/java/io/github/asewhy/json/JsonGenerator.java:61-253 | for every admissible call sequence the generator never throws, writes what the per-container design writes, and keeps the same stack kinds |
| CommaDiscipline.SingleFlagSuffices | src/main/java/io/github/asewhy/json/JsonGenerator.java:26-27 | from a fresh generator, the single `havePrev` flag produces the same text as one flag per container and equals the innermost container's flag, so a container with k elements gets k - 1 commas |
| TreeSerialization.ArrayRun | src/main/java/io/github/asewhy/json/JsonGenerator.java:204-242 | a start, the calls of the elements and `writeEndArray()` write `[`, the comma-separated elements and `]`, and leave `havePrev` set |
| TreeSerialization.ObjectRun | src/main/java/io/github/asewhy/json/JsonGenerator.java:159-197 | a start, the members' calls and `writeEndObject()` write `{`, the comma-separated members and `}`, and leave `havePrev` set |
| TreeSerialization.ValueCallsRun | src/main/java/io/github/asewhy/json/JsonGenerator.java:79-242 | the calls of one value write its JSON text, preceded by a comma only in an array that already holds an element |
| TreeSerialization.ItemCallsRun | src/main/java/io/github/asewhy/json/JsonGenerator.java:79-242 | the elements of an array are written comma-separated, with a leading comma only if the array already held an element |
| TreeSerialization.MemberCallRun | src/main/java/io/github/asewhy/json/JsonGenerator.java:117-242 | one member, written with `writeField(name, value)` or a named start, appears as `"name":value` after the separator |
| TreeSerialization.MemberCallsRun | src/main/java/io/github/asewhy/json/JsonGenerator.java:117-242 | the members of an object are written comma-separated, with a leading comma only if the object already held a member |
| TreeSerialization.GeneratorWritesSerialization | src/main/java/io/github/asewhy/json/JsonGenerator.java:61-253 | driven by any value of `Json` (null, strings, numbers as `String.valueOf` prints them, arrays, objects; no booleans), a fresh generator returns, leaves an empty stack and has written exactly that value's JSON text |
| TreeSerialization.StringFieldExample | src/test/java/io/github/asewhy/json/JsonGeneratorTest.java:11-19 | `writeStartObject()`, `writeField(name, s)` with a string, `writeEndObject()` writes `{"name":"s"}` with both escaped, and a reader recovers `s`, quotes and line breaks included |
| TreeSerialization.ObjectExample | src/main/java/io/github/asewhy/json/JsonGenerator.java:117-137 | `{`, a number field, a string field, `}` writes `{"a":n,"b":"x"}`: one comma between the two fields, the strings escaped |
| TreeSerialization.ArrayExample | src/main/java/io/github/asewhy/json/JsonGenerator.java:79-91 | three numbers in an array are written `[n1,n2,n3]`, two commas for three elements |
| TreeSerialization.NestedExample | src/main/java/io/github/asewhy/json/JsonGenerator.java:222-230 | an array opened with a name inside an object, holding two strings, writes `{"name":["x","y"]}` |

## Left out

- The `OutputStream` factories and `StreamWrapperWriter` (JsonGenerator.java:292-305) are byte I/O and charset encoding; `StreamWrapperWriter` is not part of this model. The `StringBuilder` factories (:288-290, :298-300, :308-315) reduce to the constructor given a `CommonBuilderWriter`.
- `DateFormat` formatting is a foreign library: the current format is a field of type `Date -> Text`. The shared static `SimpleDateFormat` is not thread-safe; concurrency is not modelled.
- `getCurrentFormat`/`setCurrentFormat` (:43-54) are plain accessors of that field and are not modelled as methods.
- `String.valueOf(Number)`, `Enum.name()` and `Object.toString()` are Java library conversions, floating-point rendering included. The model carries their results as data (`JavaNumber.valueOf`, `JavaEnum.name`, `OtherObject.toStringText`).
- The fluent `return this` of the generator's methods is not modelled; the writer's `write` does return itself.
- The caller's `StringBuilder` may be shared with other code. The model's writer owns its text and does not capture outside appends to the same builder.
- `REPLACEMENT_CHARS` is static state. The generator is given the table built by `BuildReplacementChars`, and `Valid()` requires that it is that table.
- The `Objects.requireNonNullElse` guard on stack entries (:269) is not modelled, since entries are never null; the stack is a `seq<bool>`.
- `CommaDiscipline.SingleFlagSuffices` covers call sequences that use the generator as intended (`Admissible`). Misuse is described case by case by the `GeneratorModel` lemmas rather than by the simulation: a value in an object without a field name (`ValueOutsideArrayWritesNoSeparator`), a close that does not match (`EndPopsAnyFrame`), several root values or containers (`ValueOutsideArrayWritesNoSeparator`, `StartOutsideArrayWritesNoSeparator`).
- The test file only prints its output and compares nothing; `StringFieldExample` states its call sequence for any field name and string rather than for its literal Cyrillic text.
- Generator.JsonGenerator.WriteFieldName, and with it `WriteStartObjectNamed` and `WriteStartArrayNamed`, take a name that is never null. In the source a null name inside an array is a silent no-op, but at the root or in an object `checkPrev` runs, the opening `"` is written, and `escapeJson(null)` then throws `NullPointerException` (JsonUtils.java:17). That exception path is not modelled.
