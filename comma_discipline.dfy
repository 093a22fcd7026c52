/**
  Why one `havePrev` flag is enough.

  The generator keeps a single `havePrev` flag where a textbook design keeps
  one "already holds an element" flag per open container. This module defines
  that per-frame design (`Ideal`, `IdealStep`): every element added to a
  container is preceded by a comma exactly when the container already holds
  one, so a container with k elements receives k - 1 commas. It then proves
  that for call sequences that use the generator as intended
  (`AdmissibleRun`), the generator writes exactly the text the per-frame
  design writes, its stack has the same kinds, and `havePrev` equals "the
  innermost open container already holds an element". The flag stays correct
  because every close sets it and every container it closes is itself an
  element of its parent.
 */
module CommaDiscipline {

  import opened Wrappers
  import opened Utf16
  import opened JsonUtils
  import opened GeneratorModel

  /** One open container with its own element flag. */
  datatype Frame = Frame(isArray: bool, hasElement: bool)

  /**
    The per-frame design: open frames (innermost last), the flag of the
    document root, whether a field name waits for its value, and the text.
   */
  datatype Ideal = Ideal(frames: seq<Frame>, rootHasElement: bool, awaitingValue: bool, out: Text)

  function IdealFresh(initial: Text): (r: Ideal)
  {
    Ideal([], false, false, initial)
  }

  predicate InnermostIsArray(id: Ideal)
  {
    |id.frames| > 0 && id.frames[|id.frames| - 1].isArray
  }

  predicate InnermostHasElement(id: Ideal)
  {
    if |id.frames| == 0 then id.rootHasElement else id.frames[|id.frames| - 1].hasElement
  }

  /** Adds one element to the innermost container: a comma first exactly when it already holds one. */
  function AddElement(id: Ideal): (r: Ideal)
  {
    var out := id.out + (if InnermostHasElement(id) then COMMA else []);
    if |id.frames| == 0 then id.(rootHasElement := true, out := out)
    else
      var n := |id.frames|;
      id.(frames := id.frames[..n - 1] + [id.frames[n - 1].(hasElement := true)], out := out)
  }

  /** A value: the one a field name waits for, or a new element of the innermost container. */
  function IdealValue(id: Ideal, text: Text): (r: Ideal)
  {
    if id.awaitingValue then id.(awaitingValue := false, out := id.out + text)
    else
      var id1 := AddElement(id);
      id1.(out := id1.out + text)
  }

  function IdealFieldName(id: Ideal, name: Text): (r: Ideal)
  {
    var id1 := AddElement(id);
    id1.(awaitingValue := true, out := id1.out + Quoted(name) + FIELD_START)
  }

  /** A new container is itself a value: of the waiting field, or a new element. */
  function IdealOpen(id: Ideal, isArray: bool, token: Text): (r: Ideal)
  {
    var id1 := if id.awaitingValue then id.(awaitingValue := false) else AddElement(id);
    id1.(frames := id1.frames + [Frame(isArray, false)], out := id1.out + token)
  }

  function IdealClose(id: Ideal, token: Text): (r: Ideal)
  {
    var n := |id.frames|;
    id.(frames := if n == 0 then [] else id.frames[..n - 1], out := id.out + token)
  }

  /** The runtime kind a scalar write call hands to the value writers. */
  function ScalarObject(call: Call): (r: JavaObject)
    requires call.StringValue? || call.NumberValue? || call.EnumValue? || call.DateValue?
  {
    match call
    case StringValue(s) => if s.Some? then StringObject(s.value) else Null
    case NumberValue(n) => if n.Some? then NumberObject(n.value) else Null
    case EnumValue(e) => if e.Some? then EnumObject(e.value) else Null
    case DateValue(d) => if d.Some? then DateObject(d.value) else Null
  }

  function IdealStep(format: Date -> Text, id: Ideal, call: Call): (r: Ideal)
  {
    match call
    case StartObject => IdealOpen(id, false, OBJ_START)
    case StartObjectNamed(name) => IdealOpen(IdealFieldName(id, name), false, OBJ_START)
    case StartArray => IdealOpen(id, true, ARR_START)
    case StartArrayNamed(name) => IdealOpen(IdealFieldName(id, name), true, ARR_START)
    case EndObject => IdealClose(id, OBJ_END)
    case EndArray => IdealClose(id, ARR_END)
    case FieldName(name) => IdealFieldName(id, name)
    case Field(name, value) => IdealValue(IdealFieldName(id, name), ValueText(format, value))
    case _ => IdealValue(id, ValueText(format, ScalarObject(call)))
  }

  function IdealRun(format: Date -> Text, id: Ideal, calls: seq<Call>): (r: Ideal)
    decreases calls
  {
    if |calls| == 0 then id else IdealRun(format, IdealStep(format, id, calls[0]), calls[1..])
  }

  /**
    Using the generator as intended: values and nested containers go into an
    array or right after a field name, and one container may stand at the
    root; field names go into an object (or the root) and are followed by
    their value; each close matches the innermost open container.
   */
  predicate Admissible(id: Ideal, call: Call)
  {
    match call
    case StartObject => id.awaitingValue || InnermostIsArray(id) || (|id.frames| == 0 && !id.rootHasElement)
    case StartArray => id.awaitingValue || InnermostIsArray(id) || (|id.frames| == 0 && !id.rootHasElement)
    case EndObject => !id.awaitingValue && |id.frames| > 0 && !id.frames[|id.frames| - 1].isArray
    case EndArray => !id.awaitingValue && InnermostIsArray(id)
    case StartObjectNamed(_) => !id.awaitingValue && !InnermostIsArray(id)
    case StartArrayNamed(_) => !id.awaitingValue && !InnermostIsArray(id)
    case FieldName(_) => !id.awaitingValue && !InnermostIsArray(id)
    case Field(_, _) => !id.awaitingValue && !InnermostIsArray(id)
    case _ => id.awaitingValue || InnermostIsArray(id)
  }

  predicate AdmissibleRun(format: Date -> Text, id: Ideal, calls: seq<Call>)
    decreases calls
  {
    |calls| == 0 ||
    (Admissible(id, calls[0]) && AdmissibleRun(format, IdealStep(format, id, calls[0]), calls[1..]))
  }

  function Kinds(frames: seq<Frame>): (kinds: seq<bool>)
    ensures |kinds| == |frames|
    ensures forall i | 0 <= i < |frames| :: kinds[i] == frames[i].isArray
  {
    if |frames| == 0 then [] else Kinds(frames[..|frames| - 1]) + [frames[|frames| - 1].isArray]
  }

  /**
    The generator's state stands for the per-frame state: same stack kinds, same
    text, and `havePrev` is the innermost container's flag. Every enclosing
    container already holds an element (the open one), and a waiting field name
    has been counted as an element of an object or of the root.
   */
  predicate Corresponds(st: GenState, id: Ideal)
  {
    && st.inArray == Kinds(id.frames)
    && st.out == id.out
    && st.havePrev == InnermostHasElement(id)
    && (|id.frames| > 0 ==> id.rootHasElement)
    && (forall i | 0 <= i < |id.frames| - 1 :: id.frames[i].hasElement)
    && (id.awaitingValue ==> InnermostHasElement(id) && !InnermostIsArray(id))
  }

  lemma TopIsArrayIffInnermost(st: GenState, id: Ideal)
    requires st.inArray == Kinds(id.frames)
    ensures TopIsArray(st.inArray) == InnermostIsArray(id)
  {
  }

  /** `checkPrev` is the per-frame `AddElement` when `havePrev` is the innermost flag. */
  lemma CheckPrevIsAddElement(st: GenState, id: Ideal)
    requires Corresponds(st, id) && !id.awaitingValue
    ensures Corresponds(CheckPrev(st), AddElement(id).(awaitingValue := false))
  {
    var id1 := AddElement(id);
    var n := |id.frames|;
    if n > 0 {
      assert id1.frames[..n - 1] == id.frames[..n - 1];
      assert Kinds(id1.frames) == Kinds(id.frames);
    }
  }

  lemma OpenCorresponds(st: GenState, id: Ideal, isArray: bool, token: Text)
    requires Corresponds(st, id) && !id.awaitingValue && InnermostHasElement(id)
    ensures Corresponds(Open(st, isArray, token), id.(frames := id.frames + [Frame(isArray, false)], out := id.out + token))
  {
    var frames := id.frames + [Frame(isArray, false)];
    assert frames[..|frames| - 1] == id.frames;
  }

  lemma CloseCorresponds(st: GenState, id: Ideal, token: Text)
    requires Corresponds(st, id) && !id.awaitingValue && |id.frames| > 0
    ensures Corresponds(WriteEnd(st, token), IdealClose(id, token))
  {
    var n := |id.frames|;
    assert Kinds(id.frames[..n - 1]) == Kinds(id.frames)[..n - 1];
  }

  lemma FieldNameCorresponds(st: GenState, id: Ideal, name: Text)
    requires Corresponds(st, id) && !id.awaitingValue && !InnermostIsArray(id)
    ensures Corresponds(WriteFieldName(st, name), IdealFieldName(id, name))
  {
    TopIsArrayIffInnermost(st, id);
    CheckPrevIsAddElement(st, id);
  }

  lemma ValueCorresponds(st: GenState, id: Ideal, text: Text)
    requires Corresponds(st, id) && (id.awaitingValue || InnermostIsArray(id))
    ensures Corresponds(CheckPrevInArray(st).(out := CheckPrevInArray(st).out + text), IdealValue(id, text))
  {
    TopIsArrayIffInnermost(st, id);
    if !id.awaitingValue {
      CheckPrevIsAddElement(st, id);
    }
  }

  /** The value writers append `ValueText` after the separator logic of `CheckPrevInArray`. */
  lemma ScalarWrite(format: Date -> Text, st: GenState, call: Call)
    requires call.StringValue? || call.NumberValue? || call.EnumValue? || call.DateValue?
    ensures Step(format, st, call) ==
      Returned(CheckPrevInArray(st).(out := CheckPrevInArray(st).out + ValueText(format, ScalarObject(call))))
  {
  }

  /** One admissible call keeps the correspondence, and does not throw. */
  lemma StepCorresponds(format: Date -> Text, st: GenState, id: Ideal, call: Call)
    requires Corresponds(st, id) && Admissible(id, call)
    ensures Step(format, st, call).Returned?
    ensures Corresponds(Step(format, st, call).state, IdealStep(format, id, call))
  {
    TopIsArrayIffInnermost(st, id);
    match call
    case StartObject => OpenStep(st, id, false, OBJ_START);
    case StartArray => OpenStep(st, id, true, ARR_START);
    case StartObjectNamed(name) => NamedOpenStep(st, id, name, false, OBJ_START);
    case StartArrayNamed(name) => NamedOpenStep(st, id, name, true, ARR_START);
    case EndObject => CloseCorresponds(st, id, OBJ_END);
    case EndArray => CloseCorresponds(st, id, ARR_END);
    case FieldName(name) => FieldNameCorresponds(st, id, name);
    case Field(name, value) => FieldStep(format, st, id, name, value);
    case StringValue(_) => ScalarStep(format, st, id, call);
    case NumberValue(_) => ScalarStep(format, st, id, call);
    case EnumValue(_) => ScalarStep(format, st, id, call);
    case DateValue(_) => ScalarStep(format, st, id, call);
  }

  /** A scalar write: a value of the waiting field, or a new element of the innermost array. */
  lemma ScalarStep(format: Date -> Text, st: GenState, id: Ideal, call: Call)
    requires call.StringValue? || call.NumberValue? || call.EnumValue? || call.DateValue?
    requires Corresponds(st, id) && (id.awaitingValue || InnermostIsArray(id))
    ensures Step(format, st, call).Returned?
    ensures Corresponds(Step(format, st, call).state, IdealValue(id, ValueText(format, ScalarObject(call))))
  {
    ScalarWrite(format, st, call);
    ValueCorresponds(st, id, ValueText(format, ScalarObject(call)));
  }

  /** The named start operations: a field name, then a new frame as its value. */
  lemma NamedOpenStep(st: GenState, id: Ideal, name: Text, isArray: bool, token: Text)
    requires Corresponds(st, id) && !id.awaitingValue && !InnermostIsArray(id)
    ensures Corresponds(Open(WriteFieldName(st, name), isArray, token), IdealOpen(IdealFieldName(id, name), isArray, token))
  {
    FieldNameCorresponds(st, id, name);
    OpenCorresponds(WriteFieldName(st, name), IdealFieldName(id, name).(awaitingValue := false), isArray, token);
  }

  /** `writeField(name, value)`: a field name, then the value it waits for. */
  lemma FieldStep(format: Date -> Text, st: GenState, id: Ideal, name: Text, value: JavaObject)
    requires Corresponds(st, id) && !id.awaitingValue && !InnermostIsArray(id)
    ensures Step(format, st, Field(name, value)).Returned?
    ensures Corresponds(Step(format, st, Field(name, value)).state, IdealValue(IdealFieldName(id, name), ValueText(format, value)))
  {
    TopIsArrayIffInnermost(st, id);
    FieldNameCorresponds(st, id, name);
    var st1 := WriteFieldName(st, name);
    FieldWritesValueText(format, st, name, value);
    ValueCorresponds(st1, IdealFieldName(id, name), ValueText(format, value));
    assert CheckPrevInArray(st1) == st1;
  }

  /** The unnamed start operations, in each of the three admissible contexts. */
  lemma OpenStep(st: GenState, id: Ideal, isArray: bool, token: Text)
    requires Corresponds(st, id)
    requires id.awaitingValue || InnermostIsArray(id) || (|id.frames| == 0 && !id.rootHasElement)
    ensures Corresponds(Open(CheckPrevInArray(st), isArray, token), IdealOpen(id, isArray, token))
  {
    TopIsArrayIffInnermost(st, id);
    if id.awaitingValue {
      OpenCorresponds(st, id.(awaitingValue := false), isArray, token);
    } else {
      var st1 := CheckPrevInArray(st);
      CheckPrevIsAddElement(st, id);
      if InnermostIsArray(id) {
        OpenCorresponds(st1, AddElement(id).(awaitingValue := false), isArray, token);
      } else {
        // At the root no `checkPrev` runs; `Open` clears the flag either way.
        assert st1 == st && |id.frames| == 0;
        assert Open(st, isArray, token) == Open(st.(havePrev := true), isArray, token);
        OpenCorresponds(st.(havePrev := true), AddElement(id).(awaitingValue := false), isArray, token);
      }
    }
  }

  /**
    For every admissible call sequence the generator never throws, writes
    exactly what the per-frame design writes, and keeps `havePrev` equal to the
    per-frame flag of the innermost open container.
   */
  lemma {:induction false} RunCorresponds(format: Date -> Text, st: GenState, id: Ideal, calls: seq<Call>)
    requires Corresponds(st, id) && AdmissibleRun(format, id, calls)
    ensures Run(format, st, calls).Returned?
    ensures Corresponds(Run(format, st, calls).state, IdealRun(format, id, calls))
    decreases calls
  {
    if |calls| > 0 {
      StepCorresponds(format, st, id, calls[0]);
      RunCorresponds(format, Step(format, st, calls[0]).state, IdealStep(format, id, calls[0]), calls[1..]);
    }
  }

  /** From a fresh generator: the single flag writes what per-frame flags write. */
  lemma SingleFlagSuffices(format: Date -> Text, initial: Text, calls: seq<Call>)
    requires AdmissibleRun(format, IdealFresh(initial), calls)
    ensures Run(format, Fresh(initial), calls).Returned?
    ensures Run(format, Fresh(initial), calls).state.out == IdealRun(format, IdealFresh(initial), calls).out
    ensures Run(format, Fresh(initial), calls).state.havePrev == InnermostHasElement(IdealRun(format, IdealFresh(initial), calls))
  {
    RunCorresponds(format, Fresh(initial), IdealFresh(initial), calls);
  }
}
