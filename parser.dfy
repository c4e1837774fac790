/** The type-directed coercion engine of the CSV parser: type expressions, dispatch of a type name
    to a converter, the built-in converters, the assembly of one typed record per row, and the
    mapping of a batch of already tokenised rows. The custom-type table is passed in as a map;
    the class that owns and updates it is Registry.TypeRegistry. */
module Parser {
  import opened Types
  import opened Text
  import opened Numeric

  // ---------------------------------------------------------------------------------------------
  // Type expressions: "name" or "name:parameter"

  datatype TypeExpr = TypeExpr(name: string, param: Option<string>)

  /** Splits a type expression on its first colon; the parameter is everything after it. */
  function ParseType(e: string): (t: TypeExpr)
    ensures ':' in e ==> t.param.Some? && ':' !in t.name && t.name + ":" + t.param.value == e
    ensures ':' !in e ==> t.name == e && t.param == None
  {
    var k := IndexOf(e, ':');
    if k == |e| then TypeExpr(e, None)
    else
      assert e == e[..k] + ":" + e[k + 1..];
      TypeExpr(e[..k], Some(e[k + 1..]))
  }

  /** The spelling of a type expression. */
  function Render(t: TypeExpr): string
  {
    match t.param
    case None => t.name
    case Some(p) => t.name + ":" + p
  }

  // ---------------------------------------------------------------------------------------------
  // Built-in converters

  datatype BuiltinType = StringType | IntType | FloatType | ArrayType

  /** The built-in converter a type name reaches through the method named "parse" followed by the
      capitalised name. Method names match without regard to ASCII case. */
  function BuiltinFor(name: string): (r: Option<BuiltinType>)
    ensures r == Some(StringType) <==> Lower(name) == "string"
    ensures r == Some(IntType) <==> Lower(name) == "int"
    ensures r == Some(FloatType) <==> Lower(name) == "float"
    ensures r == Some(ArrayType) <==> Lower(name) == "array"
  {
    var n := Lower(name);
    if n == "string" then Some(StringType)
    else if n == "int" then Some(IntType)
    else if n == "float" then Some(FloatType)
    else if n == "array" then Some(ArrayType)
    else None
  }

  /** Fails exactly on a value that is neither a numeral nor the empty string. */
  function GuardAgainstNonNumeric(value: string, target: string): (r: Outcome)
    ensures r.Fail? <==> !IsNumeric(value) && value != ""
    ensures r.Fail? ==> r.error == CastFailure(value, target)
  {
    if !IsNumeric(value) && value != "" then Fail(CastFailure(value, target)) else Pass
  }

  /** The identity on strings; the parameter is ignored. */
  function ParseString(value: string, param: Option<string>): (r: Result<Value>)
    ensures r.Ok? && r.value.Str? && r.value.s == value
  {
    Ok(Str(value))
  }

  /** The integer a numeral truncates to; the empty string reads as 0. */
  function ParseInt(value: string): (r: Result<Value>)
    ensures r.Err? <==> !IsNumeric(value) && value != ""
    ensures r.Err? ==> r.error == CastFailure(value, "int")
    ensures value == "" ==> r == Ok(Int(0))
    ensures IsNumeric(value) ==> r.Ok? && r.value.Int?
    ensures IsNumeric(value) && !IsNegative(value) ==>
              r.value.i as real <= NumeralReal(value) < r.value.i as real + 1.0
    ensures IsNumeric(value) && IsNegative(value) ==>
              r.value.i as real - 1.0 < NumeralReal(value) <= r.value.i as real
  {
    match GuardAgainstNonNumeric(value, "int")
    case Fail(e) => Err(e)
    case Pass =>
      if value == "" then Ok(Int(0))
      else Ok(Int(NumeralInt(value)))
  }

  /** The exact value of a numeral; the empty string reads as 0.0. */
  function ParseFloat(value: string): (r: Result<Value>)
    ensures r.Err? <==> !IsNumeric(value) && value != ""
    ensures r.Err? ==> r.error == CastFailure(value, "float")
    ensures value == "" ==> r == Ok(Float(0.0))
    ensures IsNumeric(value) ==> r == Ok(Float(NumeralReal(value)))
  {
    match GuardAgainstNonNumeric(value, "float")
    case Fail(e) => Err(e)
    case Pass => if value == "" then Ok(Float(0.0)) else Ok(Float(NumeralReal(value)))
  }

  /** The trimmed value split on the delimiter given as parameter. */
  function ParseArray(value: string, param: Option<string>): (r: Result<Value>)
    ensures r.Ok? <==> param.Some? && param.value != ""
    ensures r.Err? ==> r.error == MissingParameter("array")
    ensures r.Ok? ==> r.value.List? && |r.value.items| >= 1
                      && Join(r.value.items, param.value) == Trim(value)
                      && (forall i :: 0 <= i < |r.value.items| ==> !Contains(r.value.items[i], param.value))
                      && SplitsLeftmost(r.value.items, param.value)
  {
    match param
    case None => Err(MissingParameter("array"))
    case Some(d) => if d == "" then Err(MissingParameter("array")) else Ok(List(Explode(Trim(value), d)))
  }

  function ApplyBuiltin(k: BuiltinType, value: string, param: Option<string>): Result<Value>
  {
    match k
    case StringType => ParseString(value, param)
    case IntType => ParseInt(value)
    case FloatType => ParseFloat(value)
    case ArrayType => ParseArray(value, param)
  }

  // ---------------------------------------------------------------------------------------------
  // Dispatch

  datatype Converter = Builtin(kind: BuiltinType) | Custom(f: CustomConverter)

  /** A built-in wins over a registered custom type of the same name; otherwise the registered one
      is used; otherwise the name is unsupported. */
  function Resolve(custom: map<string, CustomConverter>, name: string): (r: Result<Converter>)
    ensures r.Ok? <==> BuiltinFor(name).Some? || name in custom
    ensures BuiltinFor(name).Some? ==> r.Ok? && r.value == Builtin(BuiltinFor(name).value)
    ensures BuiltinFor(name).None? && name in custom ==> r.Ok? && r.value.Custom? && r.value.f == custom[name]
    ensures r.Err? ==> r.error == UnsupportedType(name)
  {
    match BuiltinFor(name)
    case Some(k) => Ok(Builtin(k))
    case None => if name in custom then Ok(Custom(custom[name])) else Err(UnsupportedType(name))
  }

  /** Converts one raw value according to a type expression: the name before the first colon
      picks the converter, which receives the value and the parameter after the colon. */
  function GetValue(custom: map<string, CustomConverter>, typeExpr: string, value: string): Result<Value>
  {
    var t := ParseType(typeExpr);
    match Resolve(custom, t.name)
    case Err(e) => Err(e)
    case Ok(conv) =>
      match conv
      case Builtin(k) => ApplyBuiltin(k, value, t.param)
      case Custom(f) => f(value, t.param)
  }

  // ---------------------------------------------------------------------------------------------
  // Fail-fast mapping

  /** Element i is the first failure of the sequence. */
  predicate FailsFirst<T>(results: seq<Result<T>>, i: int)
  {
    && 0 <= i < |results|
    && results[i].Err?
    && forall j :: 0 <= j < i ==> results[j].Ok?
  }

  /** The values of a sequence of conversions taken in order, or the first failure: an exception
      thrown by a conversion inside a collection pipeline aborts the pipeline. */
  function Collect<T>(results: seq<Result<T>>): (r: Result<seq<T>>)
    ensures r.Ok? <==> forall i :: 0 <= i < |results| ==> results[i].Ok?
    ensures r.Ok? ==> |r.value| == |results|
    ensures r.Ok? ==> forall i :: 0 <= i < |results| ==> r.value[i] == results[i].value
    ensures r.Err? ==> exists i :: FailsFirst(results, i) && r.error == results[i].error
  {
    if results == [] then Ok([])
    else if results[0].Err? then
      assert FailsFirst(results, 0);
      Err(results[0].error)
    else
      var rest := Collect(results[1..]);
      if rest.Err? then
        assert exists i :: FailsFirst(results, i) && rest.error == results[i].error by {
          var i :| FailsFirst(results[1..], i) && rest.error == results[1..][i].error;
          assert FailsFirst(results, i + 1);
        }
        Err(rest.error)
      else
        Ok([results[0].value] + rest.value)
  }

  // ---------------------------------------------------------------------------------------------
  // Rows

  /** One schema entry: the output key and the type expression of the column at its position. */
  datatype Field = Field(name: string, typeExpr: string)
  type Schema = seq<Field>

  datatype Entry = Entry(key: string, value: Value)
  type Record = seq<Entry>

  /** Applies `f` to the elements of two equally long sequences at each position: a zip followed
      by a map. */
  function ZipWith<A, B, R>(f: (A, B) -> R, xs: seq<A>, ys: seq<B>): (rs: seq<R>)
    requires |xs| == |ys|
    ensures |rs| == |xs|
    ensures forall i :: 0 <= i < |xs| ==> rs[i] == f(xs[i], ys[i])
  {
    seq(|xs|, i requires 0 <= i < |xs| => f(xs[i], ys[i]))
  }

  /** Converts a column by the type of its schema entry. */
  function FieldConverter(custom: map<string, CustomConverter>): (Field, string) -> Result<Value>
  {
    (field: Field, column: string) => GetValue(custom, field.typeExpr, column)
  }

  /** The conversion of each column by the type of the schema entry at its position. */
  function FieldResults(custom: map<string, CustomConverter>, schema: Schema, columns: seq<string>): (rs: seq<Result<Value>>)
    requires |columns| == |schema|
    ensures |rs| == |schema|
    ensures forall i :: 0 <= i < |schema| ==> rs[i] == GetValue(custom, schema[i].typeExpr, columns[i])
  {
    ZipWith(FieldConverter(custom), schema, columns)
  }

  /** Every column converts by the type of its schema entry. */
  predicate FieldsConvert(custom: map<string, CustomConverter>, schema: Schema, columns: seq<string>)
    requires |columns| == |schema|
  {
    forall i :: 0 <= i < |schema| ==> GetValue(custom, schema[i].typeExpr, columns[i]).Ok?
  }

  /** One typed record per row: the key of entry i is schema key i and its value is column i
      converted by schema type i. The first failing field aborts the row and its error is returned. */
  function ParseRow(custom: map<string, CustomConverter>, schema: Schema, columns: seq<string>): (r: Result<Record>)
    requires |columns| == |schema|
    ensures r.Ok? <==> FieldsConvert(custom, schema, columns)
    ensures r.Ok? ==> |r.value| == |schema|
    ensures r.Ok? ==> forall i :: 0 <= i < |schema| ==>
              r.value[i] == Entry(schema[i].name, GetValue(custom, schema[i].typeExpr, columns[i]).value)
    ensures r.Err? ==> exists i ::
              FailsFirst(FieldResults(custom, schema, columns), i) && r.error == GetValue(custom, schema[i].typeExpr, columns[i]).error
  {
    var results := FieldResults(custom, schema, columns);
    var values :- Collect(results);
    Ok(ZipWith(Labelled(), schema, values))
  }

  /** Stores a converted value under the key of its schema entry. */
  function Labelled(): (Field, Value) -> Entry
  {
    (field: Field, v: Value) => Entry(field.name, v)
  }

  function Keys(record: Record): (ks: seq<string>)
    ensures |ks| == |record| && forall i :: 0 <= i < |record| ==> ks[i] == record[i].key
  {
    seq(|record|, i requires 0 <= i < |record| => record[i].key)
  }

  function Names(schema: Schema): (ns: seq<string>)
    ensures |ns| == |schema| && forall i :: 0 <= i < |schema| ==> ns[i] == schema[i].name
  {
    seq(|schema|, i requires 0 <= i < |schema| => schema[i].name)
  }

  // ---------------------------------------------------------------------------------------------
  // Configuration and batches

  /** A configuration value: null, a boolean, an integer or a string. */
  datatype Setting = Null | Bool(b: bool) | Number(n: int) | Chars(s: string)

  /** The caller's configuration: the schema and the remaining keys (delimiter, skipTitle, ...). */
  datatype Config = Config(schema: Schema, settings: map<string, Setting>)

  /** The configured value when it is set and not null, the default otherwise. */
  function GetConfigValue(settings: map<string, Setting>, key: string, default: Setting): (r: Setting)
    ensures key in settings && settings[key] != Null ==> r == settings[key]
    ensures key !in settings || settings[key] == Null ==> r == default
  {
    if key in settings && settings[key] != Null then settings[key] else default
  }

  /** PHP truthiness of a configuration value. */
  function Truthy(v: Setting): (b: bool)
    ensures !b <==> v in {Null, Bool(false), Number(0), Chars(""), Chars("0")}
  {
    match v
    case Null => false
    case Bool(b) => b
    case Number(n) => n != 0
    case Chars(s) => s != "" && s != "0"
  }

  /** Whether the first row is a title row to drop: off unless configured, and otherwise as
      truthy as the configured value. */
  function SkipTitle(config: Config): (b: bool)
    ensures "skipTitle" !in config.settings || config.settings["skipTitle"] == Null ==> !b
    ensures "skipTitle" in config.settings && config.settings["skipTitle"] != Null ==>
              (b <==> Truthy(config.settings["skipTitle"]))
  {
    Truthy(GetConfigValue(config.settings, "skipTitle", Bool(false)))
  }

  /** Removing the first row of a collection; nothing happens to an empty one. */
  function Shift(rows: seq<seq<string>>): (r: seq<seq<string>>)
    ensures rows != [] ==> |r| == |rows| - 1 && forall i :: 0 <= i < |r| ==> r[i] == rows[i + 1]
    ensures rows == [] ==> r == []
  {
    if rows == [] then [] else rows[1..]
  }

  /** Every row has one column per schema entry. */
  predicate RowsFit(schema: Schema, rows: seq<seq<string>>)
  {
    forall i :: 0 <= i < |rows| ==> |rows[i]| == |schema|
  }

  /** The index of the first row that is parsed: 1 when a title row is dropped. */
  function FirstDataRow(config: Config, rows: seq<seq<string>>): nat
  {
    if SkipTitle(config) && rows != [] then 1 else 0
  }

  /** The rows left once a configured title row has been shifted off. */
  function DataRows(config: Config, rows: seq<seq<string>>): (body: seq<seq<string>>)
    ensures |body| == |rows| - FirstDataRow(config, rows)
    ensures forall j :: 0 <= j < |body| ==> body[j] == rows[j + FirstDataRow(config, rows)]
  {
    if SkipTitle(config) then Shift(rows) else rows
  }

  /** The parse of each data row, in order. */
  function RowResults(custom: map<string, CustomConverter>, config: Config, rows: seq<seq<string>>): (rs: seq<Result<Record>>)
    requires RowsFit(config.schema, DataRows(config, rows))
    ensures |rs| == |DataRows(config, rows)|
    ensures forall j :: 0 <= j < |rs| ==> rs[j] == ParseRow(custom, config.schema, DataRows(config, rows)[j])
  {
    var body := DataRows(config, rows);
    seq(|body|, j requires 0 <= j < |body| => ParseRow(custom, config.schema, body[j]))
  }

  /** Every data row parses. */
  predicate DataRowsParse(custom: map<string, CustomConverter>, config: Config, rows: seq<seq<string>>)
    requires RowsFit(config.schema, DataRows(config, rows))
  {
    var body := DataRows(config, rows);
    forall j :: 0 <= j < |body| ==> ParseRow(custom, config.schema, body[j]).Ok?
  }

  /** Parses a batch of tokenised rows after shifting off the title row when skipTitle is set:
      one record per remaining row, in input order, or the error of the first row that fails. */
  function Parse(custom: map<string, CustomConverter>, config: Config, rows: seq<seq<string>>): (r: Result<seq<Record>>)
    requires RowsFit(config.schema, DataRows(config, rows))
    ensures r.Ok? <==> DataRowsParse(custom, config, rows)
    ensures r.Ok? ==> |r.value| == |rows| - FirstDataRow(config, rows)
    ensures r.Ok? ==> forall j :: 0 <= j < |r.value| ==>
              r.value[j] == RowResults(custom, config, rows)[j].value
    ensures r.Err? ==> exists j ::
              FailsFirst(RowResults(custom, config, rows), j) && r.error == RowResults(custom, config, rows)[j].error
  {
    Collect(RowResults(custom, config, rows))
  }
}
