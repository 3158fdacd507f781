/** Configuration formats: parsing any supported text to JSON, merging two configurations, and printing one. */
module Formatting {
  import opened Values
  import opened Keys
  import opened Rebuild
  import opened Flatten
  import opened RoundTrip
  import opened Merge
  import opened Toml
  import opened Formats

  datatype Error =
    | StoreFailure
    | UnsupportedFileType
    | IncompatibleFileTypes
    | ConfigStoreError
    | SerializationError

  datatype Result<+T> = Ok(value: T) | Err(error: Error)

  datatype ConfigFormat =
    | Json(json: Value)
    | TomlDoc(toml: TomlValue)
    | Yaml(yaml: Value)
    | Properties(pairs: map<string, string>)
    | EnvFile(vars: map<string, string>)

  datatype FileType = JsonType | Json5Type | TomlType | YamlType | EnvType | PropertiesType

  /** `merge_configs`. A YAML document is taken to have string keys only, and is merged like JSON. */
  function MergeConfigs(a: ConfigFormat, b: ConfigFormat): Result<ConfigFormat> {
    match (a, b)
    case (Json(x), Json(y)) => Ok(Json(Merged(x, y)))
    case (TomlDoc(x), TomlDoc(y)) => Ok(TomlDoc(MergedToml(x, y)))
    case (Yaml(x), Yaml(y)) => Ok(Yaml(Merged(x, y)))
    case (Properties(x), Properties(y)) => Ok(Properties(x + y))
    case (EnvFile(x), EnvFile(y)) => Ok(EnvFile(x + y))
    case _ => Err(IncompatibleFileTypes)
  }

  /** `to_file_type`. */
  function TypeOf(config: ConfigFormat): FileType {
    match config
    case Json(_) => JsonType
    case TomlDoc(_) => TomlType
    case Yaml(_) => YamlType
    case Properties(_) => PropertiesType
    case EnvFile(_) => EnvType
  }

  /** Two configurations merge exactly when they have one type, which the merge keeps; the only failure is that they differ. */
  lemma MergeKeepsType(a: ConfigFormat, b: ConfigFormat)
    ensures MergeConfigs(a, b).Ok? <==> TypeOf(a) == TypeOf(b)
    ensures MergeConfigs(a, b).Ok? ==> TypeOf(MergeConfigs(a, b).value) == TypeOf(a)
    ensures MergeConfigs(a, b).Err? ==> MergeConfigs(a, b).error == IncompatibleFileTypes
  {
  }

  /** The text after the last dot of a name without directories; a leading dot alone starts no extension. */
  function Extension(name: string): Option<string> {
    if name == ".." then None else ExtensionFrom(name, |name|)
  }

  function ExtensionFrom(name: string, i: nat): Option<string>
    requires i <= |name|
  {
    if i <= 1 then None
    else if name[i - 1] == '.' then Some(name[i..])
    else ExtensionFrom(name, i - 1)
  }

  /** `to_file_type_from_filename`. */
  function TypeFromName(name: string): Option<FileType> {
    match Extension(name)
    case None => None
    case Some(ext) =>
      if ext == "json" then Some(JsonType)
      else if ext == "json5" then Some(Json5Type)
      else if ext == "toml" then Some(TomlType)
      else if ext == "yaml" || ext == "yml" then Some(YamlType)
      else if ext == "properties" then Some(PropertiesType)
      else if ext == "env" then Some(EnvType)
      else None
  }

  /**
   * The text writers. The library's JSON, TOML and YAML writers may fail. Properties and env files are the
   * lines of the pairs that `flatten` returns; `render` is the JSON text of containers inside arrays.
   */
  datatype Writers = Writers(
    json: Value -> Option<string>,
    toml: Value -> Option<string>,
    yaml: Value -> Option<string>,
    render: Value -> string,
    flatten: (Printer, Value) -> Option<map<string, string>>,
    lines: map<string, string> -> string)

  /** `flatten` answers as `JsonToKeyValuePairs` promises. */
  ghost predicate Flattens(writers: Writers) {
    forall printer, v ::
      && (writers.flatten(printer, v).Some? <==> v.Obj?)
      && (v.Obj? ==> FlattensTo(printer, v, writers.flatten(printer, v).value))
  }

  function OrFail(text: Option<string>): Result<string> {
    match text
    case Some(s) => Ok(s)
    case None => Err(SerializationError)
  }

  function PairsText(writers: Writers, pairs: Option<map<string, string>>): Result<string> {
    match pairs
    case Some(found) => Ok(writers.lines(found))
    case None => Err(SerializationError)
  }

  /** `convert_to_format`: only JSON is printed, and only an object as properties or env lines. */
  function ConvertToFormat(writers: Writers, config: ConfigFormat, fileType: FileType): Result<string> {
    if !config.Json? then Err(UnsupportedFileType)
    else
      match fileType
      case JsonType => OrFail(writers.json(config.json))
      case Json5Type => OrFail(writers.json(config.json))
      case TomlType => OrFail(writers.toml(config.json))
      case YamlType => OrFail(writers.yaml(config.json))
      case PropertiesType => PairsText(writers, writers.flatten(PropertiesPrinter(writers.render), config.json))
      case EnvType => PairsText(writers, writers.flatten(EnvPrinter(writers.render), config.json))
  }

  // Parsing

  /** The library parsers, and the order in which a hash map with given keys happens to be iterated. */
  datatype Readers = Readers(
    json: string -> Option<Value>,
    json5: string -> Option<Value>,
    env: string -> Option<map<string, string>>,
    toml: string -> Option<Value>,
    yaml: string -> Option<Value>,
    properties: string -> Option<map<string, string>>,
    order: set<string> -> seq<string>)

  ghost predicate OrdersMaps(readers: Readers) {
    forall keys :: Enumerates(readers.order(keys), keys)
  }

  /** A parser result that is kept only when it is an object. */
  function ObjectOnly(v: Option<Value>): Option<Value> {
    if v.Some? && v.value.Obj? then v else None
  }

  ghost function RebuiltFrom(readers: Readers, parser: Parser, pairs: map<string, string>): Outcome<Object>
    requires OrdersMaps(readers)
  {
    RebuildInOrder(parser, readers.order(pairs.Keys), pairs)
  }

  /** `try_parse_file_to_json`: JSON, JSON5, env, TOML, YAML, properties; the first that succeeds wins, and a panic ends it all. */
  ghost function TryParse(readers: Readers, content: string): Outcome<Result<ConfigFormat>>
    requires OrdersMaps(readers)
  {
    var json, json5 := ObjectOnly(readers.json(content)), ObjectOnly(readers.json5(content));
    var toml, yaml := ObjectOnly(readers.toml(content)), ObjectOnly(readers.yaml(content));
    var env, properties := readers.env(content), readers.properties(content);
    if json.Some? then Done(Ok(Json(json.value)))
    else if json5.Some? then Done(Ok(Json(json5.value)))
    else if env.Some? then
      var m :- RebuiltFrom(readers, EnvParser(), env.value);
      Done(Ok(Json(Obj(m))))
    else if toml.Some? then Done(Ok(Json(toml.value)))
    else if yaml.Some? then Done(Ok(Json(yaml.value)))
    else if properties.Some? then
      var m :- RebuiltFrom(readers, PropertiesParser(), properties.value);
      Done(Ok(Json(Obj(m))))
    else Done(Err(UnsupportedFileType))
  }

  /** Nothing but JSON is printed, in whatever format. */
  lemma OnlyJsonPrints(writers: Writers, config: ConfigFormat, fileType: FileType)
    ensures !config.Json? ==> ConvertToFormat(writers, config, fileType) == Err(UnsupportedFileType)
    ensures ConvertToFormat(writers, config, fileType).Err? && config.Json? ==>
      ConvertToFormat(writers, config, fileType).error == SerializationError
  {
  }

  // Conversion to JSON

  /** Key-value pairs as one flat object: unlike a parsed text's, their keys are not split. */
  function Flat(pairs: map<string, string>): Value {
    Obj(map k | k in pairs :: Str(pairs[k]))
  }

  /** `convert_to_json`. */
  function ConvertToJson(config: ConfigFormat): ConfigFormat {
    match config
    case Json(json) => Json(json)
    case TomlDoc(toml) => Json(ToJson(toml))
    case Yaml(yaml) => Json(yaml)
    case EnvFile(vars) => Json(Flat(vars))
    case Properties(pairs) => Json(Flat(pairs))
  }

  /**
   * Converting the merge of two configurations of one format gives the merge of the two converted ones,
   * whatever the format, except that TOML documents must have their date-times covered, and only then.
   */
  lemma MergeThenConvert(a: ConfigFormat, b: ConfigFormat)
    requires MergeConfigs(a, b).Ok?
    requires a.TomlDoc? ==> a.toml.Table? && b.toml.Table?
    ensures Ok(ConvertToJson(MergeConfigs(a, b).value)) == MergeConfigs(ConvertToJson(a), ConvertToJson(b))
      <==> (a.TomlDoc? ==> DatetimesCovered(a.toml, b.toml))
  {
    match (a, b)
    case (TomlDoc(x), TomlDoc(y)) => ConversionCommutes(x, y);
    case (Properties(x), Properties(y)) => FlatMerge(x, y);
    case (EnvFile(x), EnvFile(y)) => FlatMerge(x, y);
    case _ =>
  }

  /** A flat object has the text of each key under that key, unsplit, and nothing else. */
  lemma FlatReads(pairs: map<string, string>, p: Path, v: Value)
    requires p != []
    ensures Lookup(Flat(pairs), p) == Some(v) <==> |p| == 1 && p[0] in pairs && v == Str(pairs[p[0]])
  {
  }

  /** Conversion always gives JSON, and leaves JSON and YAML trees as they are. */
  lemma ConversionKeepsTrees(config: ConfigFormat)
    ensures ConvertToJson(config).Json?
    ensures config.Json? ==> ConvertToJson(config) == config
    ensures config.Yaml? ==> ConvertToJson(config).json == config.yaml
    ensures config.Properties? ==> ConvertToJson(config).json == Flat(config.pairs)
    ensures config.EnvFile? ==> ConvertToJson(config).json == Flat(config.vars)
  {
  }

  lemma FlatMerge(x: map<string, string>, y: map<string, string>)
    ensures Merged(Flat(x), Flat(y)) == Flat(x + y)
  {
    assert Merged(Flat(x), Flat(y)).members == Flat(x + y).members;
  }

  /** `process_store_ref`, from the store's answer on: a failure, or the text parsed and converted. */
  ghost function ProcessStoreRef(readers: Readers, answer: Result<string>): Outcome<Result<ConfigFormat>>
    requires OrdersMaps(readers)
  {
    if answer.Err? then Done(Err(answer.error))
    else
      var parsed :- TryParse(readers, answer.value);
      Done(if parsed.Err? then parsed else Ok(ConvertToJson(parsed.value)))
  }

  predicate IsJsonObject(config: ConfigFormat) {
    config.Json? && config.json.Obj?
  }

  /** Whatever a store contributes is a JSON object, exactly as its text was parsed. */
  lemma ProcessedIsObject(readers: Readers, answer: Result<string>)
    requires OrdersMaps(readers)
    requires ProcessStoreRef(readers, answer).Done? && ProcessStoreRef(readers, answer).value.Ok?
    ensures answer.Ok? && ProcessStoreRef(readers, answer) == TryParse(readers, answer.value)
    ensures IsJsonObject(ProcessStoreRef(readers, answer).value.value)
  {
  }
}
