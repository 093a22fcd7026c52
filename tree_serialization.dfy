/**
  What the generator produces when it is driven by a JSON value.

  A caller that walks a JSON value and issues the matching calls (a start,
  the elements or fields, an end; scalars through `write`, object members
  through `writeField(name, value)` or the named starts) obtains exactly the
  standard text of that value: every array and object lists its elements
  separated by single commas, with no leading or trailing comma, and every
  string and field name is quoted and escaped.
 */
module TreeSerialization {

  import opened Wrappers
  import opened Utf16
  import opened JsonUtils
  import opened GeneratorModel

  datatype Json =
    | JNull
    | JString(s: Text)
    | JNumber(n: JavaNumber)
    | JArray(items: seq<Json>)
    | JObject(members: seq<Member>)

  datatype Member = Member(name: Text, value: Json)

  /** The JSON text of a value, elements and members separated by commas. */
  function Serialize(j: Json): (r: Text)
  {
    match j
    case JNull => NULL
    case JString(s) => Quoted(s)
    case JNumber(n) => n.valueOf
    case JArray(items) => ARR_START + SerializeItems(items) + ARR_END
    case JObject(members) => OBJ_START + SerializeMembers(members) + OBJ_END
  }

  function SerializeItems(items: seq<Json>): (r: Text)
  {
    if |items| == 0 then []
    else if |items| == 1 then Serialize(items[0])
    else Serialize(items[0]) + COMMA + SerializeItems(items[1..])
  }

  function SerializeMember(m: Member): (r: Text)
  {
    Quoted(m.name) + FIELD_START + Serialize(m.value)
  }

  function SerializeMembers(members: seq<Member>): (r: Text)
  {
    if |members| == 0 then []
    else if |members| == 1 then SerializeMember(members[0])
    else SerializeMember(members[0]) + COMMA + SerializeMembers(members[1..])
  }

  /** The calls that write a value: a scalar write, or a start, the elements, an end. */
  function Calls(j: Json): (r: seq<Call>)
  {
    match j
    case JNull => [StringValue(None)]
    case JString(s) => [StringValue(Some(s))]
    case JNumber(n) => [NumberValue(Some(n))]
    case JArray(items) => [StartArray] + ItemCalls(items) + [EndArray]
    case JObject(members) => [StartObject] + MemberCalls(members) + [EndObject]
  }

  function ItemCalls(items: seq<Json>): (r: seq<Call>)
  {
    if |items| == 0 then [] else Calls(items[0]) + ItemCalls(items[1..])
  }

  /** An object member: `writeField(name, value)` for a scalar, a named start for a container. */
  function MemberCall(m: Member): (r: seq<Call>)
  {
    match m.value
    case JNull => [Field(m.name, Null)]
    case JString(s) => [Field(m.name, StringObject(s))]
    case JNumber(n) => [Field(m.name, NumberObject(n))]
    case JArray(items) => [StartArrayNamed(m.name)] + ItemCalls(items) + [EndArray]
    case JObject(members) => [StartObjectNamed(m.name)] + MemberCalls(members) + [EndObject]
  }

  function MemberCalls(members: seq<Member>): (r: seq<Call>)
  {
    if |members| == 0 then [] else MemberCall(members[0]) + MemberCalls(members[1..])
  }

  function Separator(havePrev: bool): (r: Text)
  {
    if havePrev then COMMA else []
  }

  /** A chain of one call returns what the call returns. */
  lemma RunSingle(format: Date -> Text, st: GenState, call: Call, st1: GenState)
    requires Step(format, st, call) == Returned(st1)
    ensures Run(format, st, [call]) == Returned(st1)
  {
    assert [call][1..] == [];
  }

  /** A start, a chain and an end, each returning, return what the end returns. */
  lemma RunBracketed(format: Date -> Text, st: GenState, first: Call, middle: seq<Call>, last: Call,
                     st1: GenState, st2: GenState, st3: GenState)
    requires Step(format, st, first) == Returned(st1)
    requires Run(format, st1, middle) == Returned(st2)
    requires Step(format, st2, last) == Returned(st3)
    ensures Run(format, st, [first] + middle + [last]) == Returned(st3)
  {
    RunConcat(format, st, [first] + middle, [last]);
    RunConcat(format, st, [first], middle);
    assert Run(format, st, [first]) == Returned(st1) by {
      assert [first][1..] == [];
    }
    assert Run(format, st2, [last]) == Returned(st3) by {
      assert [last][1..] == [];
    }
  }

  /** Two chains, each returning, return what the second returns. */
  lemma RunBoth(format: Date -> Text, st: GenState, a: seq<Call>, b: seq<Call>, st1: GenState, st2: GenState)
    requires Run(format, st, a) == Returned(st1)
    requires Run(format, st1, b) == Returned(st2)
    ensures Run(format, st, a + b) == Returned(st2)
  {
    RunConcat(format, st, a, b);
  }

  /**
    An array written from `base`, the state once the separator or field name
    before it is out: its bracket, its elements, its closing bracket; the stack
    ends as it began and `havePrev` is set.
   */
  lemma {:induction false} ArrayRun(format: Date -> Text, st: GenState, base: GenState, start: Call, items: seq<Json>)
    requires base.inArray == st.inArray
    requires Step(format, st, start) == Returned(Open(base, true, ARR_START))
    ensures Run(format, st, [start] + ItemCalls(items) + [EndArray]) ==
      Returned(GenState(st.inArray, true, base.out + Serialize(JArray(items))))
    decreases items, 2
  {
    var pushed := Open(base, true, ARR_START);
    var body := if |items| == 0 then [] else SerializeItems(items);
    var mid := GenState(pushed.inArray, |items| > 0, pushed.out + body);
    var fin := GenState(st.inArray, true, pushed.out + body + ARR_END);
    assert Run(format, pushed, ItemCalls(items)) == Returned(mid) by {
      ItemCallsRun(format, pushed, items);
      assert Separator(pushed.havePrev) + SerializeItems(items) == SerializeItems(items);
    }
    assert Step(format, mid, EndArray) == Returned(fin) by {
      assert pushed.inArray[..|pushed.inArray| - 1] == st.inArray;
    }
    RunBracketed(format, st, start, ItemCalls(items), EndArray, pushed, mid, fin);
    assert fin.out == base.out + Serialize(JArray(items)) by {
      assert body == SerializeItems(items);
      assert Serialize(JArray(items)) == ARR_START + body + ARR_END;
      Regroup(base.out, ARR_START, body, ARR_END);
    }
  }

  /** An object written from `base`, as `ArrayRun` writes an array. */
  lemma {:induction false} ObjectRun(format: Date -> Text, st: GenState, base: GenState, start: Call, members: seq<Member>)
    requires base.inArray == st.inArray
    requires Step(format, st, start) == Returned(Open(base, false, OBJ_START))
    ensures Run(format, st, [start] + MemberCalls(members) + [EndObject]) ==
      Returned(GenState(st.inArray, true, base.out + Serialize(JObject(members))))
    decreases members, 2
  {
    var pushed := Open(base, false, OBJ_START);
    var body := if |members| == 0 then [] else SerializeMembers(members);
    var mid := GenState(pushed.inArray, |members| > 0, pushed.out + body);
    var fin := GenState(st.inArray, true, pushed.out + body + OBJ_END);
    assert Run(format, pushed, MemberCalls(members)) == Returned(mid) by {
      MemberCallsRun(format, pushed, members);
      assert Separator(pushed.havePrev) + SerializeMembers(members) == SerializeMembers(members);
    }
    assert Step(format, mid, EndObject) == Returned(fin) by {
      assert pushed.inArray[..|pushed.inArray| - 1] == st.inArray;
    }
    RunBracketed(format, st, start, MemberCalls(members), EndObject, pushed, mid, fin);
    assert fin.out == base.out + Serialize(JObject(members)) by {
      assert body == SerializeMembers(members);
      assert Serialize(JObject(members)) == OBJ_START + body + OBJ_END;
      Regroup(base.out, OBJ_START, body, OBJ_END);
    }
  }

  /**
    Writing a value anywhere: after the separator the context calls for (only
    inside an array, and only after an earlier element), the value's text; the
    stack is as before, and `havePrev` is set unless a scalar was written
    outside an array.
   */
  lemma {:induction false} ValueCallsRun(format: Date -> Text, st: GenState, j: Json)
    ensures Run(format, st, Calls(j)) ==
      Returned(GenState(st.inArray, st.havePrev || TopIsArray(st.inArray) || j.JArray? || j.JObject?,
        st.out + Separator(st.havePrev && TopIsArray(st.inArray)) + Serialize(j)))
    decreases j, 1
  {
    var st1 := CheckPrevInArray(st);
    assert st1.inArray == st.inArray;
    assert st1.havePrev == (st.havePrev || TopIsArray(st.inArray));
    assert st1.out == st.out + Separator(st.havePrev && TopIsArray(st.inArray));
    var fin := GenState(st.inArray, st1.havePrev, st1.out + Serialize(j));
    match j
    case JNull =>
      assert Step(format, st, StringValue(None)) == Returned(fin);
      RunSingle(format, st, StringValue(None), fin);
    case JString(s) =>
      assert Step(format, st, StringValue(Some(s))) == Returned(fin);
      RunSingle(format, st, StringValue(Some(s)), fin);
    case JNumber(n) =>
      assert Step(format, st, NumberValue(Some(n))) == Returned(fin);
      RunSingle(format, st, NumberValue(Some(n)), fin);
    case JArray(items) =>
      ArrayRun(format, st, st1, StartArray, items);
    case JObject(members) =>
      ObjectRun(format, st, st1, StartObject, members);
  }

  /** The elements of an array: separated by commas, the first after a comma only if `havePrev`. */
  lemma {:induction false} ItemCallsRun(format: Date -> Text, st: GenState, items: seq<Json>)
    requires TopIsArray(st.inArray)
    ensures Run(format, st, ItemCalls(items)) ==
      Returned(GenState(st.inArray, st.havePrev || |items| > 0,
        st.out + (if |items| == 0 then [] else Separator(st.havePrev) + SerializeItems(items))))
    decreases items, 0
  {
    if |items| > 0 {
      var rest := items[1..];
      var st1 := GenState(st.inArray, true, st.out + Separator(st.havePrev) + Serialize(items[0]));
      var tail := if |rest| == 0 then [] else Separator(true) + SerializeItems(rest);
      var st2 := GenState(st.inArray, true, st1.out + tail);
      assert Run(format, st, ItemCalls(items)) == Returned(st2) by {
        assert Run(format, st, Calls(items[0])) == Returned(st1) by {
          ValueCallsRun(format, st, items[0]);
        }
        assert Run(format, st1, ItemCalls(rest)) == Returned(st2) by {
          ItemCallsRun(format, st1, rest);
        }
        RunBoth(format, st, Calls(items[0]), ItemCalls(rest), st1, st2);
        assert ItemCalls(items) == Calls(items[0]) + ItemCalls(rest);
      }
      assert st2.out == st.out + (Separator(st.havePrev) + SerializeItems(items)) by {
        assert SerializeItems(items) == Serialize(items[0]) + tail;
        Regroup(st.out, Separator(st.havePrev), Serialize(items[0]), tail);
      }
    }
  }

  /** One member of an object: separator, quoted name, colon, value. */
  lemma {:induction false} MemberCallRun(format: Date -> Text, st: GenState, m: Member)
    requires !TopIsArray(st.inArray)
    ensures Run(format, st, MemberCall(m)) ==
      Returned(GenState(st.inArray, true, st.out + Separator(st.havePrev) + SerializeMember(m)))
    decreases m, 1
  {
    var pre := st.out + Separator(st.havePrev);
    var st1 := WriteFieldName(st, m.name);
    assert st1 == GenState(st.inArray, true, pre + Quoted(m.name) + FIELD_START);
    var fin := GenState(st.inArray, true, st1.out + Serialize(m.value));
    assert fin.out == st.out + Separator(st.havePrev) + SerializeMember(m) by {
      Regroup(pre, Quoted(m.name), FIELD_START, Serialize(m.value));
    }
    match m.value
    case JNull =>
      FieldOutsideArray(format, st, m.name, Null);
      RunSingle(format, st, Field(m.name, Null), fin);
    case JString(s) =>
      FieldOutsideArray(format, st, m.name, StringObject(s));
      RunSingle(format, st, Field(m.name, StringObject(s)), fin);
    case JNumber(n) =>
      FieldOutsideArray(format, st, m.name, NumberObject(n));
      RunSingle(format, st, Field(m.name, NumberObject(n)), fin);
    case JArray(items) =>
      ArrayRun(format, st, st1, StartArrayNamed(m.name), items);
    case JObject(members) =>
      ObjectRun(format, st, st1, StartObjectNamed(m.name), members);
  }

  /** The members of an object: separated by commas, the first after a comma only if `havePrev`. */
  lemma {:induction false} MemberCallsRun(format: Date -> Text, st: GenState, members: seq<Member>)
    requires !TopIsArray(st.inArray)
    ensures Run(format, st, MemberCalls(members)) ==
      Returned(GenState(st.inArray, st.havePrev || |members| > 0,
        st.out + (if |members| == 0 then [] else Separator(st.havePrev) + SerializeMembers(members))))
    decreases members, 0
  {
    if |members| > 0 {
      var rest := members[1..];
      var st1 := GenState(st.inArray, true, st.out + Separator(st.havePrev) + SerializeMember(members[0]));
      var tail := if |rest| == 0 then [] else Separator(true) + SerializeMembers(rest);
      var st2 := GenState(st.inArray, true, st1.out + tail);
      assert Run(format, st, MemberCalls(members)) == Returned(st2) by {
        assert Run(format, st, MemberCall(members[0])) == Returned(st1) by {
          MemberCallRun(format, st, members[0]);
        }
        assert Run(format, st1, MemberCalls(rest)) == Returned(st2) by {
          MemberCallsRun(format, st1, rest);
        }
        RunBoth(format, st, MemberCall(members[0]), MemberCalls(rest), st1, st2);
        assert MemberCalls(members) == MemberCall(members[0]) + MemberCalls(rest);
      }
      assert st2.out == st.out + (Separator(st.havePrev) + SerializeMembers(members)) by {
        assert SerializeMembers(members) == SerializeMember(members[0]) + tail;
        Regroup(st.out, Separator(st.havePrev), SerializeMember(members[0]), tail);
      }
    }
  }

  /**
    A fresh generator driven by a value writes exactly that value's JSON text
    after whatever its writer already held, and ends with an empty stack.
   */
  lemma GeneratorWritesSerialization(format: Date -> Text, initial: Text, j: Json)
    ensures Run(format, Fresh(initial), Calls(j)) ==
      Returned(GenState([], j.JArray? || j.JObject?, initial + Serialize(j)))
  {
    ValueCallsRun(format, Fresh(initial), j);
    assert initial + Separator(false) == initial;
  }

  // Small usage examples, for any names, numbers and strings.

  /**
    `startObject(); writeField(name, s); endObject()` with a string value writes
    `{"name":"s"}`, and a JSON reader recovers the string, quotes and line
    breaks included, from the text between the quotes.
   */
  lemma StringFieldExample(format: Date -> Text, name: Text, s: Text)
    ensures Run(format, Fresh([]), [StartObject, Field(name, StringObject(s)), EndObject])
      == Returned(GenState([], true, OBJ_START + (Quoted(name) + FIELD_START + Quoted(s)) + OBJ_END))
    ensures Unescape(Escape(s)) == Some(s)
  {
    var members := [Member(name, JString(s))];
    var j := JObject(members);
    assert Calls(j) == [StartObject, Field(name, StringObject(s)), EndObject] by {
      assert members[1..] == [];
      assert MemberCalls(members) == MemberCall(members[0]) + MemberCalls(members[1..]);
    }
    assert [] + Serialize(j) == OBJ_START + (Quoted(name) + FIELD_START + Quoted(s)) + OBJ_END by {
      assert Serialize(members[0].value) == Quoted(s);
      assert SerializeMember(members[0]) == Quoted(name) + FIELD_START + Quoted(s);
      assert SerializeMembers(members) == SerializeMember(members[0]);
      assert Serialize(j) == OBJ_START + SerializeMembers(members) + OBJ_END;
      assert [] + Serialize(j) == Serialize(j);
    }
    GeneratorWritesSerialization(format, [], j);
    UnescapeEscape(s);
  }

  /** `startObject(); writeField(a, n); writeField(b, x); endObject()` writes `{"a":n,"b":"x"}`. */
  lemma ObjectExample(format: Date -> Text, a: Text, n: JavaNumber, b: Text, x: Text)
    ensures Run(format, Fresh([]), [StartObject, Field(a, NumberObject(n)), Field(b, StringObject(x)), EndObject])
      == Returned(GenState([], true,
           OBJ_START + (Quoted(a) + FIELD_START + n.valueOf + COMMA + (Quoted(b) + FIELD_START + Quoted(x))) + OBJ_END))
  {
    var members := [Member(a, JNumber(n)), Member(b, JString(x))];
    var j := JObject(members);
    GeneratorWritesSerialization(format, [], j);
    assert Calls(j) == [StartObject, Field(a, NumberObject(n)), Field(b, StringObject(x)), EndObject] by {
      assert members[1..][1..] == [];
      assert MemberCalls(members[1..]) == [Field(b, StringObject(x))] + MemberCalls(members[1..][1..]);
      assert MemberCalls(members) == [Field(a, NumberObject(n))] + MemberCalls(members[1..]);
    }
    assert [] + Serialize(j) == Serialize(j);
    assert SerializeMembers(members[1..]) == SerializeMember(members[1]);
    assert SerializeMember(members[0]) == Quoted(a) + FIELD_START + n.valueOf;
    assert SerializeMember(members[1]) == Quoted(b) + FIELD_START + Quoted(x);
    assert Serialize(j) == OBJ_START + SerializeMembers(members) + OBJ_END;
  }

  /** `startArray(); write(n1); write(n2); write(n3); endArray()` writes `[n1,n2,n3]`. */
  lemma ArrayExample(format: Date -> Text, n1: JavaNumber, n2: JavaNumber, n3: JavaNumber)
    ensures Run(format, Fresh([]), [StartArray, NumberValue(Some(n1)), NumberValue(Some(n2)), NumberValue(Some(n3)), EndArray])
      == Returned(GenState([], true, ARR_START + (n1.valueOf + COMMA + n2.valueOf + COMMA + n3.valueOf) + ARR_END))
  {
    var items := [JNumber(n1), JNumber(n2), JNumber(n3)];
    var j := JArray(items);
    GeneratorWritesSerialization(format, [], j);
    assert Calls(j) == [StartArray, NumberValue(Some(n1)), NumberValue(Some(n2)), NumberValue(Some(n3)), EndArray] by {
      assert items[1..][1..][1..] == [];
      assert ItemCalls(items[1..][1..]) == [NumberValue(Some(n3))] + ItemCalls(items[1..][1..][1..]);
      assert ItemCalls(items[1..]) == [NumberValue(Some(n2))] + ItemCalls(items[1..][1..]);
      assert ItemCalls(items) == [NumberValue(Some(n1))] + ItemCalls(items[1..]);
    }
    assert [] + Serialize(j) == Serialize(j);
    assert SerializeItems(items) == n1.valueOf + COMMA + n2.valueOf + COMMA + n3.valueOf by {
      assert SerializeItems(items[1..][1..]) == n3.valueOf;
      assert SerializeItems(items[1..]) == n2.valueOf + COMMA + n3.valueOf;
      Regroup(n1.valueOf + COMMA, n2.valueOf, COMMA, n3.valueOf);
    }
  }

  /**
    `startObject(); startArray(name); write(x); write(y); endArray(); endObject()`
    writes `{"name":["x","y"]}`.
   */
  lemma NestedExample(format: Date -> Text, name: Text, x: Text, y: Text)
    ensures Run(format, Fresh([]), [StartObject, StartArrayNamed(name), StringValue(Some(x)), StringValue(Some(y)),
        EndArray, EndObject])
      == Returned(GenState([], true,
           OBJ_START + (Quoted(name) + FIELD_START + (ARR_START + (Quoted(x) + COMMA + Quoted(y)) + ARR_END)) + OBJ_END))
  {
    var items := [JString(x), JString(y)];
    var members := [Member(name, JArray(items))];
    var j := JObject(members);
    GeneratorWritesSerialization(format, [], j);
    assert Calls(j) == [StartObject, StartArrayNamed(name), StringValue(Some(x)), StringValue(Some(y)),
        EndArray, EndObject] by {
      assert members[1..] == [] && items[1..][1..] == [];
      assert ItemCalls(items[1..]) == [StringValue(Some(y))] + ItemCalls(items[1..][1..]);
      assert ItemCalls(items) == [StringValue(Some(x))] + ItemCalls(items[1..]);
      assert MemberCall(members[0]) == [StartArrayNamed(name)] + ItemCalls(items) + [EndArray];
      assert MemberCalls(members) == MemberCall(members[0]) + MemberCalls(members[1..]);
    }
    assert [] + Serialize(j) == Serialize(j);
    assert SerializeItems(items) == Quoted(x) + COMMA + Quoted(y) by {
      assert SerializeItems(items[1..]) == Quoted(y);
    }
    assert SerializeMember(members[0]) == Quoted(name) + FIELD_START + Serialize(JArray(items));
    assert SerializeMembers(members) == SerializeMember(members[0]);
    assert Serialize(j) == OBJ_START + SerializeMembers(members) + OBJ_END;
  }
}
