/**
  The state machine of `JsonGenerator` as values. A `GenState` holds the
  container stack `inArray` (true for an array frame, false for an object
  frame, innermost last), the single `havePrev` flag and the text the writer
  holds. Each public operation of the generator is a function from the state
  before the call to the state after it; the class in module `Generator` is
  proved to follow these functions, and `Step`/`Run` replay whole call
  sequences for the lemmas in `CommaDiscipline` and `TreeSerialization`.
 */
module GeneratorModel {

  import opened Wrappers
  import opened Utf16
  import opened JsonUtils

  /** A `java.util.Date`, by its instant. */
  datatype Date = Date(epochMillis: int)

  /** A `java.lang.Number`, with the text `String.valueOf` gives it. */
  datatype JavaNumber = JavaNumber(valueOf: Text)

  /** A Java enum constant, with its `name()`. */
  datatype JavaEnum = JavaEnum(name: Text)

  /**
    The runtime kinds `writeField(name, value)` tells apart; any other object
    (a `Boolean`, a list, ...) is `OtherObject` with the text of its `toString()`.
   */
  datatype JavaObject =
    | Null
    | StringObject(s: Text)
    | NumberObject(n: JavaNumber)
    | EnumObject(e: JavaEnum)
    | DateObject(d: Date)
    | OtherObject(toStringText: Text)

  const HOOK: Text := [QUOTE]
  const COMMA: Text := Ascii(",")
  const OBJ_START: Text := Ascii("{")
  const OBJ_END: Text := Ascii("}")
  const ARR_START: Text := Ascii("[")
  const ARR_END: Text := Ascii("]")
  const FIELD_START: Text := Ascii(":")
  const NULL: Text := Ascii("null")

  datatype GenState = GenState(inArray: seq<bool>, havePrev: bool, out: Text)

  /** A new generator over a writer that already holds `initial`. */
  function Fresh(initial: Text): (r: GenState)
  {
    GenState([], false, initial)
  }

  /** `currentInArray`: the innermost open container is an array (false at the root). */
  predicate TopIsArray(inArray: seq<bool>)
  {
    |inArray| > 0 && inArray[|inArray| - 1]
  }

  /** `checkPrev`. */
  function CheckPrev(st: GenState): (r: GenState)
  {
    if st.havePrev then st.(out := st.out + COMMA) else st.(havePrev := true)
  }

  /** The `if (currentInArray()) checkPrev();` that opens the value writers. */
  function CheckPrevInArray(st: GenState): (r: GenState)
  {
    if TopIsArray(st.inArray) then CheckPrev(st) else st
  }

  /** `"` + `escapeJson(s)` + `"`. */
  function Quoted(s: Text): (r: Text)
  {
    HOOK + Escape(s) + HOOK
  }

  /** `writeField(name)`. */
  function WriteFieldName(st: GenState, name: Text): (r: GenState)
  {
    if TopIsArray(st.inArray) then st
    else
      var st1 := CheckPrev(st);
      st1.(out := st1.out + Quoted(name) + FIELD_START)
  }

  /** `write(String)`; `None` is a null reference. */
  function WriteString(st: GenState, s: Option<Text>): (r: GenState)
  {
    var st1 := CheckPrevInArray(st);
    st1.(out := st1.out + (match s case None => NULL case Some(t) => Quoted(t)))
  }

  /** `write(Number)`. */
  function WriteNumber(st: GenState, n: Option<JavaNumber>): (r: GenState)
  {
    var st1 := CheckPrevInArray(st);
    st1.(out := st1.out + (match n case None => NULL case Some(v) => v.valueOf))
  }

  /** `write(Enum)`: the constant's name, as a string. */
  function WriteEnum(st: GenState, e: Option<JavaEnum>): (r: GenState)
  {
    WriteString(st, match e case None => None case Some(v) => Some(v.name))
  }

  /** `write(Date)`: the date formatted by the current format, as a string. */
  function WriteDate(format: Date -> Text, st: GenState, d: Option<Date>): (r: GenState)
  {
    WriteString(st, match d case None => None case Some(v) => Some(format(v)))
  }

  /** `writeField(name, value)`: the field name, then the value by its runtime kind. */
  function WriteField(format: Date -> Text, st: GenState, name: Text, value: JavaObject): (r: GenState)
  {
    var st1 := WriteFieldName(st, name);
    match value
    case Null => WriteString(st1, None)
    case StringObject(s) => WriteString(st1, Some(s))
    case NumberObject(n) => WriteNumber(st1, Some(n))
    case EnumObject(e) => WriteEnum(st1, Some(e))
    case DateObject(d) => WriteDate(format, st1, Some(d))
    case OtherObject(t) => WriteString(st1, Some(t))
  }

  /** The common tail of the four start operations: a new empty frame and its bracket. */
  function Open(st: GenState, isArray: bool, token: Text): (r: GenState)
  {
    GenState(st.inArray + [isArray], false, st.out + token)
  }

  function WriteStartObject(st: GenState): (r: GenState)
  {
    Open(CheckPrevInArray(st), false, OBJ_START)
  }

  function WriteStartObjectNamed(st: GenState, name: Text): (r: GenState)
  {
    Open(WriteFieldName(st, name), false, OBJ_START)
  }

  function WriteStartArray(st: GenState): (r: GenState)
  {
    Open(CheckPrevInArray(st), true, ARR_START)
  }

  function WriteStartArrayNamed(st: GenState, name: Text): (r: GenState)
  {
    Open(WriteFieldName(st, name), true, ARR_START)
  }

  /**
    `writeEndObject` / `writeEndArray`: the state after `havePrev = true`, the
    closing token and `removeLast`, whatever kind the top frame has. On an empty
    stack `removeLast` throws after the token was written (see `EndThrows`).
   */
  function WriteEnd(st: GenState, token: Text): (r: GenState)
  {
    var popped := if |st.inArray| == 0 then st.inArray else st.inArray[..|st.inArray| - 1];
    GenState(popped, true, st.out + token)
  }

  /** `removeLast` throws `NoSuchElementException` on an empty stack. */
  predicate EndThrows(st: GenState)
  {
    |st.inArray| == 0
  }

  /** One call on the generator's public surface. */
  datatype Call =
    | StartObject
    | StartObjectNamed(name: Text)
    | StartArray
    | StartArrayNamed(name: Text)
    | EndObject
    | EndArray
    | FieldName(name: Text)
    | Field(name: Text, value: JavaObject)
    | StringValue(s: Option<Text>)
    | NumberValue(n: Option<JavaNumber>)
    | EnumValue(e: Option<JavaEnum>)
    | DateValue(d: Option<Date>)

  /** How a call ends: it returns, or it throws and leaves the state it had reached. */
  datatype Outcome = Returned(state: GenState) | Threw(state: GenState)

  /**
    One call. Only a close can throw, and it throws exactly when the stack is
    empty, leaving the stack empty.
   */
  function Step(format: Date -> Text, st: GenState, call: Call): (r: Outcome)
    ensures r.Threw? <==> (call.EndObject? || call.EndArray?) && |st.inArray| == 0
    ensures r.Threw? ==> |r.state.inArray| == 0
  {
    match call
    case StartObject => Returned(WriteStartObject(st))
    case StartObjectNamed(name) => Returned(WriteStartObjectNamed(st, name))
    case StartArray => Returned(WriteStartArray(st))
    case StartArrayNamed(name) => Returned(WriteStartArrayNamed(st, name))
    case EndObject => if EndThrows(st) then Threw(WriteEnd(st, OBJ_END)) else Returned(WriteEnd(st, OBJ_END))
    case EndArray => if EndThrows(st) then Threw(WriteEnd(st, ARR_END)) else Returned(WriteEnd(st, ARR_END))
    case FieldName(name) => Returned(WriteFieldName(st, name))
    case Field(name, value) => Returned(WriteField(format, st, name, value))
    case StringValue(s) => Returned(WriteString(st, s))
    case NumberValue(n) => Returned(WriteNumber(st, n))
    case EnumValue(e) => Returned(WriteEnum(st, e))
    case DateValue(d) => Returned(WriteDate(format, st, d))
  }

  /**
    A chain of calls; an exception ends the chain. A chain that throws holds a
    close, and leaves the stack empty.
   */
  function Run(format: Date -> Text, st: GenState, calls: seq<Call>): (r: Outcome)
    ensures r.Threw? ==> exists k | 0 <= k < |calls| :: calls[k].EndObject? || calls[k].EndArray?
    ensures r.Threw? ==> |r.state.inArray| == 0
    decreases calls
  {
    if |calls| == 0 then Returned(st)
    else match Step(format, st, calls[0])
      case Returned(st1) => Run(format, st1, calls[1..])
      case Threw(st1) => Threw(st1)
  }

  /** Running two chains one after the other is running their concatenation. */
  lemma {:induction false} RunConcat(format: Date -> Text, st: GenState, a: seq<Call>, b: seq<Call>)
    ensures Run(format, st, a + b) ==
      match Run(format, st, a)
      case Returned(st1) => Run(format, st1, b)
      case Threw(st1) => Threw(st1)
    decreases a
  {
    if |a| == 0 {
      assert a + b == b;
    } else {
      assert (a + b)[0] == a[0];
      assert (a + b)[1..] == a[1..] + b;
      match Step(format, st, a[0])
      case Returned(st1) => RunConcat(format, st1, a[1..], b);
      case Threw(st1) =>
    }
  }

  predicate IsPrefix(a: Text, b: Text)
  {
    |a| <= |b| && b[..|a|] == a
  }

  lemma PrefixOfAppend(a: Text, x: Text)
    ensures IsPrefix(a, a + x)
  {
    assert (a + x)[..|a|] == a;
  }

  lemma PrefixTransitive(a: Text, b: Text, c: Text)
    requires IsPrefix(a, b) && IsPrefix(b, c)
    ensures IsPrefix(a, c)
  {
    assert c[..|a|] == c[..|b|][..|a|];
  }

  lemma CheckPrevInArrayOnlyAppends(st: GenState)
    ensures IsPrefix(st.out, CheckPrevInArray(st).out)
  {
    PrefixOfAppend(st.out, COMMA);
    PrefixOfAppend(st.out, []);
  }

  lemma FieldNameOnlyAppends(st: GenState, name: Text)
    ensures IsPrefix(st.out, WriteFieldName(st, name).out)
  {
    var st1 := CheckPrev(st);
    PrefixOfAppend(st.out, COMMA);
    PrefixOfAppend(st.out, []);
    PrefixOfAppend(st1.out, Quoted(name) + FIELD_START);
    assert st1.out + Quoted(name) + FIELD_START == st1.out + (Quoted(name) + FIELD_START);
    PrefixTransitive(st.out, st1.out, st1.out + Quoted(name) + FIELD_START);
  }

  /** A value writer appends to what the writer held before it. */
  lemma ValueOnlyAppends(st: GenState, s: Option<Text>, n: Option<JavaNumber>)
    ensures IsPrefix(st.out, WriteString(st, s).out)
    ensures IsPrefix(st.out, WriteNumber(st, n).out)
  {
    var st1 := CheckPrevInArray(st);
    CheckPrevInArrayOnlyAppends(st);
    PrefixOfAppend(st1.out, match s case None => NULL case Some(t) => Quoted(t));
    PrefixTransitive(st.out, st1.out, WriteString(st, s).out);
    PrefixOfAppend(st1.out, match n case None => NULL case Some(v) => v.valueOf);
    PrefixTransitive(st.out, st1.out, WriteNumber(st, n).out);
  }

  /** `writeField(name, value)` appends to what the writer held before it. */
  lemma FieldOnlyAppends(format: Date -> Text, st: GenState, name: Text, value: JavaObject)
    ensures IsPrefix(st.out, WriteField(format, st, name, value).out)
  {
    var st1 := WriteFieldName(st, name);
    FieldNameOnlyAppends(st, name);
    match value {
      case Null => ValueOnlyAppends(st1, None, None);
      case StringObject(t) => ValueOnlyAppends(st1, Some(t), None);
      case NumberObject(v) => ValueOnlyAppends(st1, None, Some(v));
      case EnumObject(e) => ValueOnlyAppends(st1, Some(e.name), None);
      case DateObject(d) => ValueOnlyAppends(st1, Some(format(d)), None);
      case OtherObject(t) => ValueOnlyAppends(st1, Some(t), None);
    }
    PrefixTransitive(st.out, st1.out, WriteField(format, st, name, value).out);
  }

  /** The writer is only appended to: what one call found written is still there after it. */
  lemma StepOnlyAppends(format: Date -> Text, st: GenState, call: Call)
    ensures IsPrefix(st.out, Step(format, st, call).state.out)
  {
    match call
    case StartObject =>
      CheckPrevInArrayOnlyAppends(st);
      PrefixOfAppend(CheckPrevInArray(st).out, OBJ_START);
      PrefixTransitive(st.out, CheckPrevInArray(st).out, CheckPrevInArray(st).out + OBJ_START);
    case StartArray =>
      CheckPrevInArrayOnlyAppends(st);
      PrefixOfAppend(CheckPrevInArray(st).out, ARR_START);
      PrefixTransitive(st.out, CheckPrevInArray(st).out, CheckPrevInArray(st).out + ARR_START);
    case StartObjectNamed(name) =>
      FieldNameOnlyAppends(st, name);
      PrefixOfAppend(WriteFieldName(st, name).out, OBJ_START);
      PrefixTransitive(st.out, WriteFieldName(st, name).out, WriteFieldName(st, name).out + OBJ_START);
    case StartArrayNamed(name) =>
      FieldNameOnlyAppends(st, name);
      PrefixOfAppend(WriteFieldName(st, name).out, ARR_START);
      PrefixTransitive(st.out, WriteFieldName(st, name).out, WriteFieldName(st, name).out + ARR_START);
    case EndObject => PrefixOfAppend(st.out, OBJ_END);
    case EndArray => PrefixOfAppend(st.out, ARR_END);
    case FieldName(name) => FieldNameOnlyAppends(st, name);
    case Field(name, value) => FieldOnlyAppends(format, st, name, value);
    case StringValue(v) => ValueOnlyAppends(st, v, None);
    case NumberValue(v) => ValueOnlyAppends(st, None, v);
    case EnumValue(e) => ValueOnlyAppends(st, match e case None => None case Some(v) => Some(v.name), None);
    case DateValue(d) => ValueOnlyAppends(st, match d case None => None case Some(v) => Some(format(v)), None);
  }

  /** What any chain of calls found written is still there after it, exception or not. */
  lemma {:induction false} RunOnlyAppends(format: Date -> Text, st: GenState, calls: seq<Call>)
    ensures IsPrefix(st.out, Run(format, st, calls).state.out)
    decreases calls
  {
    if |calls| > 0 {
      StepOnlyAppends(format, st, calls[0]);
      match Step(format, st, calls[0])
      case Returned(st1) =>
        RunOnlyAppends(format, st1, calls[1..]);
      case Threw(st1) =>
    }
  }

  /** `checkPrev` writes a comma exactly when `havePrev` is set, and sets it in either case. */
  lemma CheckPrevCommaIffHavePrev(st: GenState)
    ensures CheckPrev(st).havePrev && CheckPrev(st).inArray == st.inArray
    ensures CheckPrev(st).out == st.out + (if st.havePrev then COMMA else [])
  {
  }

  /** Inside an array, `writeField(name)` changes nothing and writes nothing. */
  lemma FieldNameInArrayIsNoOp(format: Date -> Text, st: GenState, name: Text)
    requires TopIsArray(st.inArray)
    ensures Step(format, st, FieldName(name)) == Returned(st)
  {
  }

  /**
    At the root or in an object, `writeField(name)` writes the separator `checkPrev`
    decides on and the quoted, escaped name followed by a colon; a JSON reader
    recovers the name from the text between the quotes.
   */
  lemma FieldNameOutsideArray(format: Date -> Text, st: GenState, name: Text)
    requires !TopIsArray(st.inArray)
    ensures Step(format, st, FieldName(name)) ==
      Returned(GenState(st.inArray, true, st.out + (if st.havePrev then COMMA else []) + HOOK + Escape(name) + HOOK + FIELD_START))
    ensures Unescape(Escape(name)) == Some(name)
  {
    var before := st.out + (if st.havePrev then COMMA else []);
    assert WriteFieldName(st, name).out == before + Quoted(name) + FIELD_START;
    assert before + Quoted(name) == before + HOOK + Escape(name) + HOOK by {
      Assoc(before, HOOK, Escape(name));
      Assoc(before, HOOK + Escape(name), HOOK);
    }
    assert Unescape(Escape(name)) == Some(name) by {
      UnescapeEscape(name);
    }
  }

  /** A value or a nested container inside an array is preceded by `checkPrev`'s separator. */
  lemma StartInArraySeparates(format: Date -> Text, st: GenState)
    requires TopIsArray(st.inArray)
    ensures Step(format, st, StartObject) ==
      Returned(GenState(st.inArray + [false], false, st.out + (if st.havePrev then COMMA else []) + OBJ_START))
    ensures Step(format, st, StartArray) ==
      Returned(GenState(st.inArray + [true], false, st.out + (if st.havePrev then COMMA else []) + ARR_START))
  {
  }

  /**
    At the root or in an object, the unnamed starts run no separator logic:
    a second root container follows the first with no comma (`{}{}`).
   */
  lemma StartOutsideArrayWritesNoSeparator(format: Date -> Text, st: GenState)
    requires !TopIsArray(st.inArray)
    ensures Step(format, st, StartObject) == Returned(GenState(st.inArray + [false], false, st.out + OBJ_START))
    ensures Step(format, st, StartArray) == Returned(GenState(st.inArray + [true], false, st.out + ARR_START))
  {
  }

  /**
    Inside an array, the named start operations drop the name (the field name is
    a no-op there) and never run `checkPrev`: the bracket follows the previous
    element with no separator.
   */
  lemma NamedStartInArrayWritesNoSeparator(format: Date -> Text, st: GenState, name: Text)
    requires TopIsArray(st.inArray)
    ensures Step(format, st, StartObjectNamed(name)) == Returned(GenState(st.inArray + [false], false, st.out + OBJ_START))
    ensures Step(format, st, StartArrayNamed(name)) == Returned(GenState(st.inArray + [true], false, st.out + ARR_START))
  {
  }

  /** Closing does not look at the frame's kind: both closes pop the top frame, whatever it is. */
  lemma EndPopsAnyFrame(format: Date -> Text, st: GenState)
    requires |st.inArray| > 0
    ensures Step(format, st, EndObject) == Returned(GenState(st.inArray[..|st.inArray| - 1], true, st.out + OBJ_END))
    ensures Step(format, st, EndArray) == Returned(GenState(st.inArray[..|st.inArray| - 1], true, st.out + ARR_END))
  {
  }

  /** Closing with an empty stack writes the token, sets `havePrev`, and only then throws. */
  lemma EndOnEmptyStackThrowsAfterWriting(format: Date -> Text, st: GenState)
    requires |st.inArray| == 0
    ensures Step(format, st, EndObject) == Threw(GenState([], true, st.out + OBJ_END))
    ensures Step(format, st, EndArray) == Threw(GenState([], true, st.out + ARR_END))
  {
  }

  /**
    Outside an array the value writers run no separator logic, and the number
    is the exact text `String.valueOf` gives (no rounding to two decimals).
   */
  lemma ValueOutsideArrayWritesNoSeparator(format: Date -> Text, st: GenState, s: Text, n: JavaNumber)
    requires !TopIsArray(st.inArray)
    ensures Step(format, st, StringValue(Some(s))) == Returned(st.(out := st.out + HOOK + Escape(s) + HOOK))
    ensures Step(format, st, NumberValue(Some(n))) == Returned(st.(out := st.out + n.valueOf))
    ensures Step(format, st, StringValue(None)) == Returned(st.(out := st.out + NULL))
  {
    assert st.out + Quoted(s) == st.out + HOOK + Escape(s) + HOOK by {
      Assoc(st.out, HOOK, Escape(s));
      Assoc(st.out, HOOK + Escape(s), HOOK);
    }
  }

  /**
    The JSON text `writeField(name, value)` gives each kind of value: null as
    `null`, a number as its `String.valueOf` text, and everything else as a
    quoted, escaped string: the string itself, an enum constant's `name()`, a
    date in the current format, any other object's `toString()`.
   */
  function ValueText(format: Date -> Text, value: JavaObject): (r: Text)
  {
    match value
    case Null => NULL
    case StringObject(s) => Quoted(s)
    case NumberObject(n) => n.valueOf
    case EnumObject(e) => Quoted(e.name)
    case DateObject(d) => Quoted(format(d))
    case OtherObject(t) => Quoted(t)
  }

  /** The value half of `writeField(name, value)`: the value writer its runtime kind selects. */
  lemma FieldWritesValueText(format: Date -> Text, st: GenState, name: Text, value: JavaObject)
    ensures WriteField(format, st, name, value) ==
      var st1 := CheckPrevInArray(WriteFieldName(st, name));
      st1.(out := st1.out + ValueText(format, value))
  {
    match value {
      case Null =>
      case StringObject(_) =>
      case NumberObject(_) =>
      case EnumObject(_) =>
      case DateObject(_) =>
      case OtherObject(_) =>
    }
  }

  /**
    At the root or in an object, `writeField(name, value)` writes the separator,
    the quoted name, a colon and the value's text, and leaves `havePrev` set.
   */
  lemma FieldOutsideArray(format: Date -> Text, st: GenState, name: Text, value: JavaObject)
    requires !TopIsArray(st.inArray)
    ensures Step(format, st, Field(name, value)) ==
      Returned(GenState(st.inArray, true,
        st.out + (if st.havePrev then COMMA else []) + Quoted(name) + FIELD_START + ValueText(format, value)))
  {
    var st1 := WriteFieldName(st, name);
    assert st1 == GenState(st.inArray, true, st.out + (if st.havePrev then COMMA else []) + Quoted(name) + FIELD_START);
    assert CheckPrevInArray(st1) == st1;
    FieldWritesValueText(format, st, name, value);
  }

  /**
    Inside an array, `writeField(name, value)` drops the name and writes the
    value as an array element, after `checkPrev`'s separator.
   */
  lemma FieldInArray(format: Date -> Text, st: GenState, name: Text, value: JavaObject)
    requires TopIsArray(st.inArray)
    ensures Step(format, st, Field(name, value)) ==
      Returned(GenState(st.inArray, true, st.out + (if st.havePrev then COMMA else []) + ValueText(format, value)))
  {
    assert WriteFieldName(st, name) == st;
    CheckPrevCommaIffHavePrev(st);
    assert CheckPrevInArray(st) == GenState(st.inArray, true, st.out + (if st.havePrev then COMMA else []));
    FieldWritesValueText(format, st, name, value);
  }
}
