/**
  `JsonGenerator`: the object the caller drives. Its fields are those of the
  source: the writer it appends to, the container stack `inArray`, the single
  `havePrev` flag and the current date format. Each method does what the Java
  method does, step by step, and is proved to leave the state that the
  corresponding function of `GeneratorModel` describes.

  The `REPLACEMENT_CHARS` table is static in the source; here the generator is
  given the table that `JsonUtils.BuildReplacementChars` built.
 */
module Generator {

  import opened Wrappers
  import opened Utf16
  import opened JsonUtils
  import opened Support
  import M = GeneratorModel

  class JsonGenerator {
    const writer: CommonBuilderWriter
    const replacementChars: array<Option<Text>>
    var inArray: seq<bool>
    var havePrev: bool
    var currentFormat: M.Date -> Text

    /**
      The generator holds the replacement table. No method modifies the table,
      so every method keeps this; the mutating ones say so.
     */
    ghost predicate Valid()
      reads replacementChars
    {
      IsReplacementTable(replacementChars)
    }

    /** The generator's state and the writer's text, as one value. */
    ghost function Snapshot(): (r: M.GenState)
      reads this, writer
    {
      M.GenState(inArray, havePrev, writer.contents)
    }

    /** A generator writing into `writer` (the private constructor behind the factories). */
    constructor (writer: CommonBuilderWriter, format: M.Date -> Text, replacementChars: array<Option<Text>>)
      requires IsReplacementTable(replacementChars)
      ensures Valid()
      ensures this.writer == writer && this.replacementChars == replacementChars
      ensures currentFormat == format
      ensures Snapshot() == M.Fresh(writer.contents)
    {
      this.writer := writer;
      this.replacementChars := replacementChars;
      this.inArray := [];
      this.havePrev := false;
      this.currentFormat := format;
    }

    /** `currentInArray`: the stack is not empty and its last frame is an array. */
    function CurrentInArray(): (r: bool)
      reads this
      ensures r <==> |inArray| > 0 && inArray[|inArray| - 1]
    {
      M.TopIsArray(inArray)
    }

    /** `checkPrev`. */
    method CheckPrev()
      modifies this`havePrev, writer
      ensures Snapshot() == M.CheckPrev(old(Snapshot()))
    {
      if havePrev {
        var w := writer.Write(M.COMMA);
      } else {
        havePrev := true;
      }
    }

    /** `safeJson`. */
    method SafeJson(some: Text) returns (r: Text)
      requires Valid()
      ensures r == Escape(some)
    {
      r := EscapeJson(replacementChars, some);
    }

    /** `writer.write(HOOK).write(safeJson(s)).write(HOOK)`, shared by `write(String)` and `writeField(name)`. */
    method WriteQuoted(s: Text)
      requires Valid()
      modifies writer
      ensures Valid()
      ensures writer.contents == old(writer.contents) + M.Quoted(s)
    {
      ghost var before := writer.contents;
      var escaped := SafeJson(s);
      var w := writer.Write(M.HOOK);
      w := w.Write(escaped);
      w := w.Write(M.HOOK);
      Assoc(before, M.HOOK, escaped);
      Assoc(before, M.HOOK + escaped, M.HOOK);
    }

    /** `write(String)`; `None` is a null reference. */
    method WriteString(s: Option<Text>)
      requires Valid()
      modifies this`havePrev, writer
      ensures Valid()
      ensures Snapshot() == M.WriteString(old(Snapshot()), s)
    {
      if CurrentInArray() {
        CheckPrev();
      }
      if s.None? {
        var w := writer.Write(M.NULL);
      } else {
        WriteQuoted(s.value);
      }
    }

    /** `write(Number)`. */
    method WriteNumber(n: Option<M.JavaNumber>)
      modifies this`havePrev, writer
      ensures Snapshot() == M.WriteNumber(old(Snapshot()), n)
    {
      if CurrentInArray() {
        CheckPrev();
      }
      if n.None? {
        var w := writer.Write(M.NULL);
      } else {
        var w := writer.Write(n.value.valueOf);
      }
    }

    /** `write(Enum)`. */
    method WriteEnum(e: Option<M.JavaEnum>)
      requires Valid()
      modifies this`havePrev, writer
      ensures Valid()
      ensures Snapshot() == M.WriteEnum(old(Snapshot()), e)
    {
      WriteString(if e.Some? then Some(e.value.name) else None);
    }

    /** `write(Date)`. */
    method WriteDate(d: Option<M.Date>)
      requires Valid()
      modifies this`havePrev, writer
      ensures Valid()
      ensures Snapshot() == M.WriteDate(currentFormat, old(Snapshot()), d)
    {
      WriteString(if d.Some? then Some(currentFormat(d.value)) else None);
    }

    /** `writeField(name)`. */
    method WriteFieldName(name: Text)
      requires Valid()
      modifies this`havePrev, writer
      ensures Valid()
      ensures Snapshot() == M.WriteFieldName(old(Snapshot()), name)
    {
      if !CurrentInArray() {
        CheckPrev();
        WriteQuoted(name);
        var w := writer.Write(M.FIELD_START);
      }
    }

    /** `writeField(name, value)`. */
    method WriteField(name: Text, value: M.JavaObject)
      requires Valid()
      modifies this`havePrev, writer
      ensures Valid()
      ensures Snapshot() == M.WriteField(currentFormat, old(Snapshot()), name, value)
    {
      WriteFieldName(name);
      match value
      case Null => WriteString(None);
      case StringObject(s) => WriteString(Some(s));
      case NumberObject(n) => WriteNumber(Some(n));
      case EnumObject(e) => WriteEnum(Some(e));
      case DateObject(d) => WriteDate(Some(d));
      case OtherObject(t) => WriteString(Some(t));
    }

    /** `writeStartObject()`. */
    method WriteStartObject()
      modifies this`inArray, this`havePrev, writer
      ensures Snapshot() == M.WriteStartObject(old(Snapshot()))
    {
      if CurrentInArray() {
        CheckPrev();
      }
      havePrev := false;
      inArray := inArray + [false];
      var w := writer.Write(M.OBJ_START);
    }

    /** `writeStartObject(name)`. */
    method WriteStartObjectNamed(name: Text)
      requires Valid()
      modifies this`inArray, this`havePrev, writer
      ensures Valid()
      ensures Snapshot() == M.WriteStartObjectNamed(old(Snapshot()), name)
    {
      WriteFieldName(name);
      havePrev := false;
      inArray := inArray + [false];
      var w := writer.Write(M.OBJ_START);
    }

    /** `writeStartArray()`. */
    method WriteStartArray()
      modifies this`inArray, this`havePrev, writer
      ensures Snapshot() == M.WriteStartArray(old(Snapshot()))
    {
      if CurrentInArray() {
        CheckPrev();
      }
      havePrev := false;
      var w := writer.Write(M.ARR_START);
      inArray := inArray + [true];
    }

    /** `writeStartArray(name)`. */
    method WriteStartArrayNamed(name: Text)
      requires Valid()
      modifies this`inArray, this`havePrev, writer
      ensures Valid()
      ensures Snapshot() == M.WriteStartArrayNamed(old(Snapshot()), name)
    {
      WriteFieldName(name);
      havePrev := false;
      var w := writer.Write(M.ARR_START);
      inArray := inArray + [true];
    }

    /**
      `writeEndObject()`. `noSuchElement` reports the exception `removeLast`
      throws on an empty stack, after `}` has been written.
     */
    method WriteEndObject() returns (noSuchElement: bool)
      modifies this`inArray, this`havePrev, writer
      ensures Snapshot() == M.WriteEnd(old(Snapshot()), M.OBJ_END)
      ensures noSuchElement == M.EndThrows(old(Snapshot()))
    {
      havePrev := true;
      var w := writer.Write(M.OBJ_END);
      noSuchElement := RemoveLast();
    }

    /** `writeEndArray()`; see `WriteEndObject`. */
    method WriteEndArray() returns (noSuchElement: bool)
      modifies this`inArray, this`havePrev, writer
      ensures Snapshot() == M.WriteEnd(old(Snapshot()), M.ARR_END)
      ensures noSuchElement == M.EndThrows(old(Snapshot()))
    {
      havePrev := true;
      var w := writer.Write(M.ARR_END);
      noSuchElement := RemoveLast();
    }

    /** `inArray.removeLast()`: pops the top frame, or throws when there is none. */
    method RemoveLast() returns (noSuchElement: bool)
      modifies this`inArray
      ensures noSuchElement == (|old(inArray)| == 0)
      ensures inArray == if noSuchElement then old(inArray) else old(inArray)[..|old(inArray)| - 1]
    {
      noSuchElement := |inArray| == 0;
      if !noSuchElement {
        inArray := inArray[..|inArray| - 1];
      }
    }

    /** `toString()`: the writer's text. */
    method ToString() returns (s: Text)
      ensures s == Snapshot().out
    {
      s := writer.ToString();
    }
  }
}
