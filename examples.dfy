/** The parser's documented behaviour on concrete schemas and rows. */
module ParserExamples {
  import opened Types
  import opened Text
  import opened Numeric
  import opened Parser
  import opened ParserProperties
  import opened Registry

  const NoCustomTypes: map<string, CustomConverter> := map[]

  /** The integer value of a numeral and 0 otherwise, which is enough for the example's inputs. */
  function IntOf(s: string): int
  {
    if IsNumeric(s) then NumeralInt(s) else 0
  }

  lemma LowerOfLowercase(s: string)
    requires forall i :: 0 <= i < |s| ==> !('A' <= s[i] <= 'Z')
    ensures Lower(s) == s
  {
  }

  lemma StringIsBuiltin()
    ensures ':' !in "string" && BuiltinFor("string") == Some(StringType)
  {
    LowerOfLowercase("string");
  }

  lemma IntIsBuiltin()
    ensures ':' !in "int" && BuiltinFor("int") == Some(IntType)
  {
    LowerOfLowercase("int");
  }

  lemma FloatIsBuiltin()
    ensures ':' !in "float" && BuiltinFor("float") == Some(FloatType)
  {
    LowerOfLowercase("float");
  }

  lemma ArrayIsBuiltin()
    ensures ':' !in "array" && BuiltinFor("array") == Some(ArrayType)
  {
    LowerOfLowercase("array");
  }

  /** The spelling of a type expression naming a built-in converts with that built-in. */
  lemma BuiltinExpr(custom: map<string, CustomConverter>, t: TypeExpr, e: string, k: BuiltinType, value: string)
    requires ':' !in t.name && BuiltinFor(t.name) == Some(k) && Render(t) == e
    ensures GetValue(custom, e, value) == ApplyBuiltin(k, value, t.param)
  {
    BuiltinTakesPrecedence(custom, t, value);
  }

  /** A plain built-in type name converts with its built-in converter. */
  lemma BuiltinName(custom: map<string, CustomConverter>, name: string, k: BuiltinType, value: string)
    requires ':' !in name && BuiltinFor(name) == Some(k)
    ensures GetValue(custom, name, value) == ApplyBuiltin(k, value, None)
  {
    BuiltinExpr(custom, TypeExpr(name, None), name, k, value);
  }

  /** A one-field row whose field converts. */
  lemma RowOfOne(custom: map<string, CustomConverter>, f: Field, c: string, v: Value)
    requires GetValue(custom, f.typeExpr, c) == Ok(v)
    ensures ParseRow(custom, [f], [c]) == Ok([Entry(f.name, v)])
  {
    ParseRowAllConverted(custom, [f], [c], [v]);
    var r := ParseRow(custom, [f], [c]).value;
    assert r == [r[0]];
  }

  /** A two-field row whose fields both convert. */
  lemma RowOfTwo(custom: map<string, CustomConverter>, f: Field, g: Field, c: string, d: string, v: Value, w: Value)
    requires GetValue(custom, f.typeExpr, c) == Ok(v)
    requires GetValue(custom, g.typeExpr, d) == Ok(w)
    ensures ParseRow(custom, [f, g], [c, d]) == Ok([Entry(f.name, v), Entry(g.name, w)])
  {
    RowOfOne(custom, f, c, v);
    RowOfOne(custom, g, d, w);
    RowOfHalves(custom, [f], [g], [c], [d], [Entry(f.name, v)], [Entry(g.name, w)]);
    assert [f] + [g] == [f, g] && [c] + [d] == [c, d];
    assert [Entry(f.name, v)] + [Entry(g.name, w)] == [Entry(f.name, v), Entry(g.name, w)];
  }

  lemma StringColumns()
    ensures ParseRow(NoCustomTypes, [Field("foo", "string"), Field("bar", "string")], ["baz", "qux"])
            == Ok([Entry("foo", Str("baz")), Entry("bar", Str("qux"))])
  {
    StringIsBuiltin();
    BuiltinName(NoCustomTypes, "string", StringType, "baz");
    BuiltinName(NoCustomTypes, "string", StringType, "qux");
    RowOfTwo(NoCustomTypes, Field("foo", "string"), Field("bar", "string"), "baz", "qux", Str("baz"), Str("qux"));
  }

  lemma Spelled15And25()
    ensures IntToString(15) == "15" && IntToString(25) == "25"
  {
  }

  lemma IntField(custom: map<string, CustomConverter>, n: int)
    ensures GetValue(custom, "int", IntToString(n)) == Ok(Int(n))
  {
    IntIsBuiltin();
    BuiltinName(custom, "int", IntType, IntToString(n));
    ParseIntRoundTrip(n);
  }

  lemma IntColumns()
    ensures ParseRow(NoCustomTypes, [Field("foo", "int"), Field("bar", "int")], ["15", "25"])
            == Ok([Entry("foo", Int(15)), Entry("bar", Int(25))])
  {
    Spelled15And25();
    IntField(NoCustomTypes, 15);
    IntField(NoCustomTypes, 25);
    RowOfTwo(NoCustomTypes, Field("foo", "int"), Field("bar", "int"), "15", "25", Int(15), Int(25));
  }

  lemma Float12()
    ensures ParseFloat("12") == Ok(Float(12.0))
  {
    IntToStringIsNumeral(12);
    assert IntToString(12) == "12";
  }

  lemma Float18Point5()
    ensures ParseFloat("18.5") == Ok(Float(18.5))
  {
    assert IndexOf("18.5", '.') == 2;
    assert IntegerDigits("18.5") == "18" && FractionDigits("18.5") == "5";
  }

  lemma FloatColumns()
    ensures ParseRow(NoCustomTypes, [Field("foo", "float"), Field("bar", "float")], ["12", "18.5"])
            == Ok([Entry("foo", Float(12.0)), Entry("bar", Float(18.5))])
  {
    FloatIsBuiltin();
    BuiltinName(NoCustomTypes, "float", FloatType, "12");
    BuiltinName(NoCustomTypes, "float", FloatType, "18.5");
    Float12();
    Float18Point5();
    RowOfTwo(NoCustomTypes, Field("foo", "float"), Field("bar", "float"), "12", "18.5", Float(12.0), Float(18.5));
  }

  /** The greeting is its five words joined by commas, with nothing for trim to remove. */
  lemma GreetingJoin()
    ensures Join(["hello", "world", "how", "are", "you"], [',']) == "hello,world,how,are,you"
    ensures IsTrimmed("hello,world,how,are,you")
  {
  }

  lemma GreetingNoComma()
    ensures forall i :: 0 <= i < 5 ==> ',' !in ["hello", "world", "how", "are", "you"][i]
  {
  }

  lemma SplitGreeting()
    ensures ParseArray("hello,world,how,are,you", Some(",")) == Ok(List(["hello", "world", "how", "are", "you"]))
  {
    GreetingJoin();
    GreetingNoComma();
    ParseArrayJoin(["hello", "world", "how", "are", "you"], ',');
  }

  lemma CommaArraySpelling()
    ensures Render(TypeExpr("array", Some(","))) == "array:,"
  {
  }

  lemma ArrayField(custom: map<string, CustomConverter>, value: string, parts: seq<string>)
    requires ParseArray(value, Some(",")) == Ok(List(parts))
    ensures GetValue(custom, "array:,", value) == Ok(List(parts))
  {
    ArrayIsBuiltin();
    CommaArraySpelling();
    BuiltinExpr(custom, TypeExpr("array", Some(",")), "array:,", ArrayType, value);
  }

  lemma ArrayColumn()
    ensures ParseRow(NoCustomTypes, [Field("foo", "array:,")], ["hello,world,how,are,you"])
            == Ok([Entry("foo", List(["hello", "world", "how", "are", "you"]))])
  {
    SplitGreeting();
    ArrayField(NoCustomTypes, "hello,world,how,are,you", ["hello", "world", "how", "are", "you"]);
    RowOfOne(NoCustomTypes, Field("foo", "array:,"), "hello,world,how,are,you", List(["hello", "world", "how", "are", "you"]));
  }

  /** A four-field row whose fields all convert. */
  lemma RowOfFour(custom: map<string, CustomConverter>, f0: Field, f1: Field, f2: Field, f3: Field,
                  c0: string, c1: string, c2: string, c3: string, v0: Value, v1: Value, v2: Value, v3: Value)
    requires GetValue(custom, f0.typeExpr, c0) == Ok(v0)
    requires GetValue(custom, f1.typeExpr, c1) == Ok(v1)
    requires GetValue(custom, f2.typeExpr, c2) == Ok(v2)
    requires GetValue(custom, f3.typeExpr, c3) == Ok(v3)
    ensures ParseRow(custom, [f0, f1, f2, f3], [c0, c1, c2, c3])
            == Ok([Entry(f0.name, v0), Entry(f1.name, v1), Entry(f2.name, v2), Entry(f3.name, v3)])
  {
    RowOfTwo(custom, f0, f1, c0, c1, v0, v1);
    RowOfTwo(custom, f2, f3, c2, c3, v2, v3);
    RowOfHalves(custom, [f0, f1], [f2, f3], [c0, c1], [c2, c3],
                [Entry(f0.name, v0), Entry(f1.name, v1)], [Entry(f2.name, v2), Entry(f3.name, v3)]);
    PairsOfFour(f0, f1, f2, f3);
    PairsOfFour(c0, c1, c2, c3);
    PairsOfFour(Entry(f0.name, v0), Entry(f1.name, v1), Entry(f2.name, v2), Entry(f3.name, v3));
  }

  /** Two pairs make a four-element sequence. */
  lemma PairsOfFour<T>(x0: T, x1: T, x2: T, x3: T)
    ensures [x0, x1] + [x2, x3] == [x0, x1, x2, x3]
  {
  }

  lemma Float9Point8()
    ensures ParseFloat("9.8") == Ok(Float(9.8))
  {
    assert IndexOf("9.8", '.') == 1;
    assert IntegerDigits("9.8") == "9" && FractionDigits("9.8") == "8";
  }

  /** The children's names joined by commas, with nothing for trim to remove. */
  lemma ChildrenJoin()
    ensures Join(["John", "Jane", "The other one"], [',']) == "John,Jane,The other one"
    ensures IsTrimmed("John,Jane,The other one")
  {
  }

  lemma ChildrenNoComma()
    ensures forall i :: 0 <= i < 3 ==> ',' !in ["John", "Jane", "The other one"][i]
  {
  }

  lemma SplitChildren()
    ensures ParseArray("John,Jane,The other one", Some(",")) == Ok(List(["John", "Jane", "The other one"]))
  {
    ChildrenJoin();
    ChildrenNoComma();
    ParseArrayJoin(["John", "Jane", "The other one"], ',');
  }

  lemma AuthorAndAge()
    ensures GetValue(NoCustomTypes, "string", "Sir Fooington") == Ok(Str("Sir Fooington"))
    ensures GetValue(NoCustomTypes, "int", "58") == Ok(Int(58))
  {
    StringIsBuiltin();
    BuiltinName(NoCustomTypes, "string", StringType, "Sir Fooington");
    assert IntToString(58) == "58";
    IntField(NoCustomTypes, 58);
  }

  lemma RatingAndChildren()
    ensures GetValue(NoCustomTypes, "float", "9.8") == Ok(Float(9.8))
    ensures GetValue(NoCustomTypes, "array:,", "John,Jane,The other one") == Ok(List(["John", "Jane", "The other one"]))
  {
    FloatIsBuiltin();
    BuiltinName(NoCustomTypes, "float", FloatType, "9.8");
    Float9Point8();
    SplitChildren();
    ArrayField(NoCustomTypes, "John,Jane,The other one", ["John", "Jane", "The other one"]);
  }

  lemma ComplexSchema()
    ensures ParseRow(NoCustomTypes,
                     [Field("author", "string"), Field("age", "int"), Field("average_rating", "float"), Field("children", "array:,")],
                     ["Sir Fooington", "58", "9.8", "John,Jane,The other one"])
            == Ok([Entry("author", Str("Sir Fooington")), Entry("age", Int(58)), Entry("average_rating", Float(9.8)),
                   Entry("children", List(["John", "Jane", "The other one"]))])
  {
    AuthorAndAge();
    RatingAndChildren();
    RowOfFour(NoCustomTypes,
              Field("author", "string"), Field("age", "int"), Field("average_rating", "float"), Field("children", "array:,"),
              "Sir Fooington", "58", "9.8", "John,Jane,The other one",
              Str("Sir Fooington"), Int(58), Float(9.8), List(["John", "Jane", "The other one"]));
  }

  /** Only the first colon separates; the parameter keeps any later ones. */
  lemma ParameterKeepsColons()
    ensures ParseType("date:H:i") == TypeExpr("date", Some("H:i"))
  {
    assert Render(TypeExpr("date", Some("H:i"))) == "date:H:i";
    ParseTypeRender(TypeExpr("date", Some("H:i")));
  }

  lemma UnsupportedTypeFails()
    ensures ParseRow(NoCustomTypes, [Field("a", "foo")], ["foo"]) == Err(UnsupportedType("foo"))
  {
    LowerOfLowercase("foo");
    UnknownTypeUnsupported(NoCustomTypes, TypeExpr("foo", None), "foo");
    ParseRowFirstFailure(NoCustomTypes, [Field("a", "foo")], ["foo"], 0);
  }

  lemma NonNumericFails()
    ensures ParseRow(NoCustomTypes, [Field("a", "int")], ["a"]) == Err(CastFailure("a", "int"))
    ensures ParseRow(NoCustomTypes, [Field("a", "float")], ["a"]) == Err(CastFailure("a", "float"))
  {
    assert IntegerDigits("a") == "a";
    assert !IsNumeric("a");
    IntIsBuiltin();
    FloatIsBuiltin();
    BuiltinName(NoCustomTypes, "int", IntType, "a");
    BuiltinName(NoCustomTypes, "float", FloatType, "a");
    ParseRowFirstFailure(NoCustomTypes, [Field("a", "int")], ["a"], 0);
    ParseRowFirstFailure(NoCustomTypes, [Field("a", "float")], ["a"], 0);
  }

  lemma EmptyIsZero()
    ensures ParseInt("") == Ok(Int(0)) && ParseFloat("") == Ok(Float(0.0))
  {
  }

  // ---------------------------------------------------------------------------------------------
  // Custom types

  /** Converters a client registers: appending "foo", squaring, and multiplying by the parameter
      (PHP's (int) of a missing parameter is 0). */
  function Suffixed(value: string, param: Option<string>): Result<Value>
  {
    Ok(Str(value + "foo"))
  }

  function Squared(value: string, param: Option<string>): Result<Value>
  {
    Ok(Int(IntOf(value) * IntOf(value)))
  }

  function Multiplied(value: string, param: Option<string>): Result<Value>
  {
    Ok(Int(IntOf(value) * if param.Some? then IntOf(param.value) else 0))
  }

  /** A plain registered name that is not built in converts with its registered converter. */
  lemma CustomName(custom: map<string, CustomConverter>, name: string, value: string)
    requires forall i :: 0 <= i < |name| ==> !('A' <= name[i] <= 'Z')
    requires ':' !in name && name !in {"string", "int", "float", "array"} && name in custom
    ensures GetValue(custom, name, value) == custom[name](value, None)
  {
    LowerOfLowercase(name);
    CustomReceivesParameter(custom, TypeExpr(name, None), value);
  }

  lemma IntOfSmall()
    ensures IntOf("2") == 2 && IntOf("4") == 4 && IntOf("5") == 5
  {
    IntToStringIsNumeral(2);
    IntToStringIsNumeral(4);
    IntToStringIsNumeral(5);
    assert IntToString(2) == "2" && IntToString(4) == "4" && IntToString(5) == "5";
  }

  lemma SuffixedField(custom: map<string, CustomConverter>)
    requires "foo" in custom && custom["foo"] == Suffixed
    ensures GetValue(custom, "foo", "test") == Ok(Str("testfoo"))
  {
    CustomName(custom, "foo", "test");
    assert "test" + "foo" == "testfoo";
  }

  lemma SquaredField(custom: map<string, CustomConverter>)
    requires "square" in custom && custom["square"] == Squared
    ensures GetValue(custom, "square", "5") == Ok(Int(25))
  {
    CustomName(custom, "square", "5");
    IntOfSmall();
  }

  /** The row of the custom-type example, for any table holding the two converters. */
  lemma CustomTypesRow(custom: map<string, CustomConverter>)
    requires "foo" in custom && custom["foo"] == Suffixed
    requires "square" in custom && custom["square"] == Squared
    ensures ParseRow(custom, [Field("a", "foo"), Field("b", "square")], ["test", "5"])
            == Ok([Entry("a", Str("testfoo")), Entry("b", Int(25))])
  {
    SuffixedField(custom);
    SquaredField(custom);
    RowOfTwo(custom, Field("a", "foo"), Field("b", "square"), "test", "5", Str("testfoo"), Int(25));
  }

  /** A client registers two converters on a fresh registry and parses a row with them. */
  method RegisterAndParse() returns (r: Result<Record>)
    ensures r == Ok([Entry("a", Str("testfoo")), Entry("b", Int(25))])
  {
    var registry := new TypeRegistry();
    registry.RegisterType("foo", Suffixed);
    registry.RegisterType("square", Squared);
    CustomTypesRow(registry.custom);
    r := ParseRow(registry.custom, [Field("a", "foo"), Field("b", "square")], ["test", "5"]);
  }

  lemma MultiplyField(custom: map<string, CustomConverter>, n: string, value: string)
    requires "multiply" in custom
    ensures GetValue(custom, "multiply:" + n, value) == custom["multiply"](value, Some(n))
  {
    LowerOfLowercase("multiply");
    assert Render(TypeExpr("multiply", Some(n))) == "multiply:" + n;
    CustomReceivesParameter(custom, TypeExpr("multiply", Some(n)), value);
  }

  lemma MultiplyBy(custom: map<string, CustomConverter>, e: string, n: string, value: string, m: int)
    requires "multiply" in custom && custom["multiply"] == Multiplied
    requires e == "multiply:" + n && IntOf(value) * IntOf(n) == m
    ensures GetValue(custom, e, value) == Ok(Int(m))
  {
    MultiplyField(custom, n, value);
  }

  lemma MultiplyFields(custom: map<string, CustomConverter>)
    requires "multiply" in custom && custom["multiply"] == Multiplied
    ensures GetValue(custom, "multiply:2", "2") == Ok(Int(4))
    ensures GetValue(custom, "multiply:4", "2") == Ok(Int(8))
  {
    assert "multiply:2" == "multiply:" + "2" && "multiply:4" == "multiply:" + "4";
    IntOfSmall();
    MultiplyBy(custom, "multiply:2", "2", "2", 4);
    MultiplyBy(custom, "multiply:4", "4", "2", 8);
  }

  lemma ParameterisedCustomType()
    ensures ParseRow(map["multiply" := Multiplied], [Field("a", "multiply:2"), Field("b", "multiply:4")], ["2", "2"])
            == Ok([Entry("a", Int(4)), Entry("b", Int(8))])
  {
    var custom := map["multiply" := Multiplied];
    MultiplyFields(custom);
    RowOfTwo(custom, Field("a", "multiply:2"), Field("b", "multiply:4"), "2", "2", Int(4), Int(8));
  }

  // ---------------------------------------------------------------------------------------------
  // Batches

  /** A row under an all-string schema always parses. */
  lemma StringRowParses(custom: map<string, CustomConverter>, schema: Schema, columns: seq<string>)
    requires |columns| == |schema|
    requires forall i :: 0 <= i < |schema| ==> schema[i].typeExpr == "string"
    ensures ParseRow(custom, schema, columns).Ok?
  {
    StringIsBuiltin();
    forall i | 0 <= i < |schema|
      ensures GetValue(custom, schema[i].typeExpr, columns[i]).Ok?
    {
      BuiltinName(custom, "string", StringType, columns[i]);
    }
  }

  /** With an all-string schema every row parses, so the batch has one record per data row. */
  lemma StringSchemaParses(custom: map<string, CustomConverter>, config: Config, rows: seq<seq<string>>)
    requires RowsFit(config.schema, DataRows(config, rows))
    requires forall i :: 0 <= i < |config.schema| ==> config.schema[i].typeExpr == "string"
    ensures Parse(custom, config, rows).Ok?
    ensures |Parse(custom, config, rows).value| == |rows| - FirstDataRow(config, rows)
  {
    var body := DataRows(config, rows);
    forall j | 0 <= j < |body|
      ensures ParseRow(custom, config.schema, body[j]).Ok?
    {
      StringRowParses(custom, config.schema, body[j]);
    }
    assert DataRowsParse(custom, config, rows);
  }

  const Letters: Schema := [Field("a", "string"), Field("b", "string"), Field("c", "string")]
  const ThreeRows: seq<seq<string>> := [["foo", "bar", "baz"], ["bar", "quz", "blub"], ["foo", "bar", "test"]]
  const TwoRows: seq<seq<string>> := [["foo", "bar", "baz"], ["bar", "quz", "blub"]]

  lemma LettersFit(rows: seq<seq<string>>)
    requires forall i :: 0 <= i < |rows| ==> |rows[i]| == 3
    ensures RowsFit(Letters, rows)
  {
  }

  lemma ThreeRowsThreeRecords()
    ensures RowsFit(Letters, ThreeRows)
    ensures Parse(NoCustomTypes, Config(Letters, map[]), ThreeRows).Ok?
    ensures |Parse(NoCustomTypes, Config(Letters, map[]), ThreeRows).value| == 3
  {
    LettersFit(ThreeRows);
    StringSchemaParses(NoCustomTypes, Config(Letters, map[]), ThreeRows);
  }

  lemma TwoRowsTwoRecords()
    ensures RowsFit(Letters, TwoRows)
    ensures Parse(NoCustomTypes, Config(Letters, map[]), TwoRows).Ok?
    ensures |Parse(NoCustomTypes, Config(Letters, map[]), TwoRows).value| == 2
  {
    LettersFit(TwoRows);
    StringSchemaParses(NoCustomTypes, Config(Letters, map[]), TwoRows);
  }

  /** With skipTitle set, the first of three rows is a title and two records remain. */
  lemma TitleRowDropped()
    ensures RowsFit(Letters, ThreeRows)
    ensures Parse(NoCustomTypes, Config(Letters, map["skipTitle" := Bool(true)]), ThreeRows).Ok?
    ensures |Parse(NoCustomTypes, Config(Letters, map["skipTitle" := Bool(true)]), ThreeRows).value| == 2
  {
    LettersFit(ThreeRows);
    StringSchemaParses(NoCustomTypes, Config(Letters, map["skipTitle" := Bool(true)]), ThreeRows);
  }

  /** A title row is shifted off unread, so it may have any width: a two-column title over a
      one-column body gives the body's record. */
  lemma WideTitleSkipped()
    ensures Parse(NoCustomTypes, Config([Field("a", "string")], map["skipTitle" := Bool(true)]), [["x", "y"], ["1"]])
            == Ok([[Entry("a", Str("1"))]])
  {
    BuiltinName(NoCustomTypes, "string", StringType, "1");
    RowOfOne(NoCustomTypes, Field("a", "string"), "1", Str("1"));
    TitleThenRow(NoCustomTypes, Config([Field("a", "string")], map["skipTitle" := Bool(true)]), ["x", "y"], ["1"],
                 [Entry("a", Str("1"))]);
  }

  lemma TitleThenRow(custom: map<string, CustomConverter>, config: Config, title: seq<string>, row: seq<string>,
                     record: Record)
    requires SkipTitle(config) && |row| == |config.schema|
    requires ParseRow(custom, config.schema, row) == Ok(record)
    ensures Parse(custom, config, [title, row]) == Ok([record])
  {
    var rows := [title, row];
    assert DataRows(config, rows) == [row];
    assert DataRowsParse(custom, config, rows);
    var r := Parse(custom, config, rows);
    assert |r.value| == 1;
    assert RowResults(custom, config, rows)[0] == Ok(record);
    assert r.value == [record];
  }
}
