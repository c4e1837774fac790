/** Properties of the coercion engine that relate several of its operations: type expressions
    read back, numerals round-trip, explode undoes implode, dispatch precedence, registration,
    and the shape of parsed records. */
module ParserProperties {
  import opened Types
  import opened Text
  import opened Numeric
  import opened Parser

  /** Parsing undoes spelling for every name without a colon, whatever the parameter holds. */
  lemma ParseTypeRender(t: TypeExpr)
    requires ':' !in t.name
    ensures ParseType(Render(t)) == t
  {
    if t.param.Some? {
      var e := Render(t);
      var k := IndexOf(e, ':');
      assert e[|t.name|] == ':';
      assert k == |t.name|;
      assert e[..k] == t.name;
      assert e[k + 1..] == t.param.value;
    }
  }

  lemma RenderParseType(e: string)
    ensures Render(ParseType(e)) == e
  {
  }

  /** Every integer, printed in decimal, reads back as itself. */
  lemma ParseIntRoundTrip(n: int)
    ensures ParseInt(IntToString(n)) == Ok(Int(n))
  {
    IntToStringIsNumeral(n);
  }

  /** On a numeral, int truncates toward zero the value float reads. */
  lemma ParseIntTruncatesParseFloat(s: string)
    requires IsNumeric(s)
    ensures ParseInt(s).Ok? && ParseFloat(s).Ok?
    ensures !IsNegative(s) ==> ParseInt(s).value.i as real <= ParseFloat(s).value.x < ParseInt(s).value.i as real + 1.0
    ensures IsNegative(s) ==> ParseInt(s).value.i as real - 1.0 < ParseFloat(s).value.x <= ParseInt(s).value.i as real
  {
  }

  /** Splitting on a one-character delimiter gives back pieces that were joined with it, provided
      they do not contain it and the joined string has no blanks for trim to remove. */
  lemma {:induction false} ParseArrayJoin(parts: seq<string>, c: char)
    requires |parts| >= 1
    requires forall i :: 0 <= i < |parts| ==> c !in parts[i]
    requires IsTrimmed(Join(parts, [c]))
    ensures ParseArray(Join(parts, [c]), Some([c])) == Ok(List(parts))
  {
    var s := Join(parts, [c]);
    TrimOfTrimmed(s);
    ExplodeJoin(parts, c);
  }

  /** For any delimiter, splitting a trimmed join gives back pieces that are free of the delimiter
      and that end at its leftmost occurrences. */
  lemma ParseArrayUnique(parts: seq<string>, d: string)
    requires d != [] && |parts| >= 1
    requires forall i :: 0 <= i < |parts| ==> !Contains(parts[i], d)
    requires SplitsLeftmost(parts, d)
    requires IsTrimmed(Join(parts, d))
    ensures ParseArray(Join(parts, d), Some(d)) == Ok(List(parts))
  {
    TrimOfTrimmed(Join(parts, d));
    ExplodeUnique(parts, d);
  }

  /** The name before the first colon picks the converter: a built-in first, then a registered
      type, and otherwise the conversion fails naming the type. The converter receives the value
      and the parameter after the colon. */
  lemma GetValueDispatch(custom: map<string, CustomConverter>, typeExpr: string, value: string)
    ensures var t := ParseType(typeExpr);
            BuiltinFor(t.name).Some? ==> GetValue(custom, typeExpr, value) == ApplyBuiltin(BuiltinFor(t.name).value, value, t.param)
    ensures var t := ParseType(typeExpr);
            BuiltinFor(t.name).None? && t.name in custom ==> GetValue(custom, typeExpr, value) == custom[t.name](value, t.param)
    ensures var t := ParseType(typeExpr);
            BuiltinFor(t.name).None? && t.name !in custom ==> GetValue(custom, typeExpr, value) == Err(UnsupportedType(t.name))
  {
  }

  /** Each built-in yields a value of its own kind; the numeric ones fail exactly when the guard
      does, and the array one when it has no delimiter. */
  lemma BuiltinKinds(k: BuiltinType, value: string, param: Option<string>)
    ensures var r := ApplyBuiltin(k, value, param);
            && (k == StringType ==> r == Ok(Str(value)))
            && (k == IntType || k == FloatType ==> (r.Err? <==> !IsNumeric(value) && value != ""))
            && (r.Ok? ==> (r.value.Int? <==> k == IntType) && (r.value.Float? <==> k == FloatType)
                          && (r.value.List? <==> k == ArrayType))
            && (r.Err? ==> r.error == if k == IntType then CastFailure(value, "int")
                                      else if k == FloatType then CastFailure(value, "float")
                                      else MissingParameter("array"))
  {
  }

  /** A built-in name is converted by the built-in, whatever custom types are registered. */
  lemma BuiltinTakesPrecedence(custom: map<string, CustomConverter>, t: TypeExpr, value: string)
    requires ':' !in t.name && BuiltinFor(t.name).Some?
    ensures GetValue(custom, Render(t), value) == ApplyBuiltin(BuiltinFor(t.name).value, value, t.param)
  {
    ParseTypeRender(t);
  }

  /** A registered custom converter receives the raw value and the parameter verbatim. */
  lemma CustomReceivesParameter(custom: map<string, CustomConverter>, t: TypeExpr, value: string)
    requires ':' !in t.name && BuiltinFor(t.name).None? && t.name in custom
    ensures GetValue(custom, Render(t), value) == custom[t.name](value, t.param)
  {
    ParseTypeRender(t);
  }

  /** A name that is neither built in nor registered fails, naming the type. */
  lemma UnknownTypeUnsupported(custom: map<string, CustomConverter>, t: TypeExpr, value: string)
    requires ':' !in t.name && BuiltinFor(t.name).None? && t.name !in custom
    ensures GetValue(custom, Render(t), value) == Err(UnsupportedType(t.name))
  {
    ParseTypeRender(t);
  }

  /** After registering `name`, expressions naming it use the new converter (unless a built-in has
      that name) and every other expression converts as before. */
  lemma RegisteredTypeLookup(custom: map<string, CustomConverter>, name: string, f: CustomConverter,
                             typeExpr: string, value: string)
    ensures var t := ParseType(typeExpr);
            t.name == name && BuiltinFor(name).None? ==> GetValue(custom[name := f], typeExpr, value) == f(value, t.param)
    ensures ParseType(typeExpr).name != name ==> GetValue(custom[name := f], typeExpr, value) == GetValue(custom, typeExpr, value)
  {
  }

  /** A parsed record has exactly the schema's keys, in schema order. */
  lemma ParseRowKeys(custom: map<string, CustomConverter>, schema: Schema, columns: seq<string>)
    requires |columns| == |schema|
    requires ParseRow(custom, schema, columns).Ok?
    ensures Keys(ParseRow(custom, schema, columns).value) == Names(schema)
  {
  }

  /** A row whose every field converts gives the record of those values under the schema keys. */
  lemma ParseRowAllConverted(custom: map<string, CustomConverter>, schema: Schema, columns: seq<string>,
                             values: seq<Value>)
    requires |columns| == |schema| == |values|
    requires forall i :: 0 <= i < |schema| ==> GetValue(custom, schema[i].typeExpr, columns[i]) == Ok(values[i])
    ensures ParseRow(custom, schema, columns).Ok?
    ensures |ParseRow(custom, schema, columns).value| == |schema|
    ensures forall i :: 0 <= i < |schema| ==> ParseRow(custom, schema, columns).value[i] == Entry(schema[i].name, values[i])
  {
  }

  /** A row with a field that fails gives the error of the first such field. */
  lemma ParseRowFirstFailure(custom: map<string, CustomConverter>, schema: Schema, columns: seq<string>, k: nat)
    requires |columns| == |schema| && k < |schema|
    requires GetValue(custom, schema[k].typeExpr, columns[k]).Err?
    requires forall i :: 0 <= i < k ==> GetValue(custom, schema[i].typeExpr, columns[i]).Ok?
    ensures ParseRow(custom, schema, columns) == Err(GetValue(custom, schema[k].typeExpr, columns[k]).error)
  {
    var r := ParseRow(custom, schema, columns);
    var i :| FailsFirst(FieldResults(custom, schema, columns), i) && r.error == GetValue(custom, schema[i].typeExpr, columns[i]).error;
    assert i == k;
  }

  /** Parsing a row split in two gives the two records one after the other. */
  lemma RowOfHalves(custom: map<string, CustomConverter>, s1: Schema, s2: Schema, c1: seq<string>, c2: seq<string>,
                    r1: Record, r2: Record)
    requires |c1| == |s1| && |c2| == |s2|
    requires ParseRow(custom, s1, c1) == Ok(r1) && ParseRow(custom, s2, c2) == Ok(r2)
    ensures ParseRow(custom, s1 + s2, c1 + c2) == Ok(r1 + r2)
  {
    var a, b := FieldResults(custom, s1, c1), FieldResults(custom, s2, c2);
    FieldResultsOfHalves(custom, s1, s2, c1, c2);
    CollectOfHalves(a, b);
    ZipWithOfHalves(Labelled(), s1, s2, Collect(a).value, Collect(b).value);
  }

  lemma FieldResultsOfHalves(custom: map<string, CustomConverter>, s1: Schema, s2: Schema, c1: seq<string>, c2: seq<string>)
    requires |c1| == |s1| && |c2| == |s2|
    ensures FieldResults(custom, s1 + s2, c1 + c2) == FieldResults(custom, s1, c1) + FieldResults(custom, s2, c2)
  {
    ZipWithOfHalves(FieldConverter(custom), s1, s2, c1, c2);
  }

  /** Zipping two concatenations of equal-length halves is concatenating the zips of the halves. */
  lemma ZipWithOfHalves<A, B, R>(f: (A, B) -> R, xs1: seq<A>, xs2: seq<A>, ys1: seq<B>, ys2: seq<B>)
    requires |xs1| == |ys1| && |xs2| == |ys2|
    ensures ZipWith(f, xs1 + xs2, ys1 + ys2) == ZipWith(f, xs1, ys1) + ZipWith(f, xs2, ys2)
  {
    var a, b := ZipWith(f, xs1, ys1), ZipWith(f, xs2, ys2);
    var ab := ZipWith(f, xs1 + xs2, ys1 + ys2);
    forall i | 0 <= i < |ab|
      ensures ab[i] == (a + b)[i]
    {
      if i >= |xs1| {
        assert (xs1 + xs2)[i] == xs2[i - |xs1|] && (ys1 + ys2)[i] == ys2[i - |xs1|];
      }
    }
  }

  lemma CollectOfHalves<T>(a: seq<Result<T>>, b: seq<Result<T>>)
    requires Collect(a).Ok? && Collect(b).Ok?
    ensures Collect(a + b) == Ok(Collect(a).value + Collect(b).value)
  {
    var x, y := Collect(a).value, Collect(b).value;
    assert forall i :: 0 <= i < |a + b| ==> (a + b)[i].Ok? by {
      forall i | 0 <= i < |a + b| ensures (a + b)[i].Ok? {
        if i >= |a| { assert (a + b)[i] == b[i - |a|]; }
      }
    }
    var z := Collect(a + b).value;
    forall i | 0 <= i < |z| ensures z[i] == (x + y)[i] {
      if i >= |a| { assert (a + b)[i] == b[i - |a|]; }
    }
    assert z == x + y;
  }

  /** Without a title row to drop, a batch of rows that all parse yields one record per row, in order. */
  lemma ParseKeepsEveryRow(custom: map<string, CustomConverter>, config: Config, rows: seq<seq<string>>)
    requires RowsFit(config.schema, rows) && !SkipTitle(config)
    requires Parse(custom, config, rows).Ok?
    ensures |Parse(custom, config, rows).value| == |rows|
    ensures forall i :: 0 <= i < |rows| ==> Parse(custom, config, rows).value[i] == ParseRow(custom, config.schema, rows[i]).value
  {
  }

  /** With a title row to drop, the records are those of the rows after the first. */
  lemma ParseDropsTitle(custom: map<string, CustomConverter>, config: Config, rows: seq<seq<string>>)
    requires SkipTitle(config) && rows != [] && RowsFit(config.schema, rows[1..])
    requires Parse(custom, config, rows).Ok?
    ensures |Parse(custom, config, rows).value| == |rows| - 1
    ensures forall i :: 0 <= i < |rows| - 1 ==> Parse(custom, config, rows).value[i] == ParseRow(custom, config.schema, rows[i + 1]).value
  {
    forall i | 0 <= i < |rows| - 1
      ensures Parse(custom, config, rows).value[i] == ParseRow(custom, config.schema, rows[i + 1]).value
    {
      assert 1 <= i + 1 < |rows|;
    }
  }
}
