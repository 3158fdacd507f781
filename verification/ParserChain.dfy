/** The chain of parsers: which reader decides, and what a file that the operator printed is read back as. */
module ParserChain {
  import opened Values
  import opened Keys
  import opened Rebuild
  import opened Flatten
  import opened RoundTrip
  import opened Exactness
  import opened Formats
  import opened Formatting

  datatype Format = JsonText | Json5Text | EnvText | TomlText | YamlText | PropertiesText

  /** The order in which formats are tried. */
  const CHAIN: seq<Format> := [JsonText, Json5Text, EnvText, TomlText, YamlText, PropertiesText]

  predicate IsObject(v: Option<Value>) {
    v.Some? && v.value.Obj?
  }

  /** The library's parser accepts the text, as an object where it could be anything else. */
  predicate Accepts(readers: Readers, format: Format, content: string) {
    match format
    case JsonText => IsObject(readers.json(content))
    case Json5Text => IsObject(readers.json5(content))
    case EnvText => readers.env(content).Some?
    case TomlText => IsObject(readers.toml(content))
    case YamlText => IsObject(readers.yaml(content))
    case PropertiesText => readers.properties(content).Some?
  }

  /** The parse is this tree, or the panic of rebuilding these pairs. */
  ghost predicate ReadsAs(readers: Readers, format: Format, content: string, parsed: Outcome<Result<ConfigFormat>>)
    requires OrdersMaps(readers) && Accepts(readers, format, content)
  {
    match format
    case JsonText => parsed == Done(Ok(Json(readers.json(content).value)))
    case Json5Text => parsed == Done(Ok(Json(readers.json5(content).value)))
    case TomlText => parsed == Done(Ok(Json(readers.toml(content).value)))
    case YamlText => parsed == Done(Ok(Json(readers.yaml(content).value)))
    case EnvText => RebuiltAs(readers, EnvParser(), readers.env(content).value, parsed)
    case PropertiesText => RebuiltAs(readers, PropertiesParser(), readers.properties(content).value, parsed)
  }

  ghost predicate RebuiltAs(readers: Readers, parser: Parser, pairs: map<string, string>, parsed: Outcome<Result<ConfigFormat>>)
    requires OrdersMaps(readers)
  {
    match RebuildInOrder(parser, readers.order(pairs.Keys), pairs)
    case Panic => parsed == Panic
    case Done(m) => parsed == Done(Ok(Json(Obj(m))))
  }

  ghost predicate EarlierRefuse(readers: Readers, i: nat, content: string) {
    forall j :: 0 <= j < i && j < |CHAIN| ==> !Accepts(readers, CHAIN[j], content)
  }

  lemma RefusedBefore(readers: Readers, i: nat, content: string)
    requires EarlierRefuse(readers, i, content)
    ensures i > 0 ==> !IsObject(readers.json(content))
    ensures i > 1 ==> !IsObject(readers.json5(content))
    ensures i > 2 ==> readers.env(content).None?
    ensures i > 3 ==> !IsObject(readers.toml(content))
    ensures i > 4 ==> !IsObject(readers.yaml(content))
    ensures i > 5 ==> readers.properties(content).None?
  {
    assert i > 0 ==> !Accepts(readers, CHAIN[0], content);
    assert i > 1 ==> !Accepts(readers, CHAIN[1], content);
    assert i > 2 ==> !Accepts(readers, CHAIN[2], content);
    assert i > 3 ==> !Accepts(readers, CHAIN[3], content);
    assert i > 4 ==> !Accepts(readers, CHAIN[4], content);
    assert i > 5 ==> !Accepts(readers, CHAIN[5], content);
  }

  /** The first format of the chain that accepts the text decides, and a panic of its rebuild is not caught. */
  lemma FirstReaderWins(readers: Readers, i: nat, content: string)
    requires OrdersMaps(readers) && i < |CHAIN| && EarlierRefuse(readers, i, content)
    requires Accepts(readers, CHAIN[i], content)
    ensures ReadsAs(readers, CHAIN[i], content, TryParse(readers, content))
  {
    hide RebuildInOrder;
    RefusedBefore(readers, i, content);
  }

  /** A text that no format accepts is of no supported type. */
  lemma NoReaderAccepts(readers: Readers, content: string)
    requires OrdersMaps(readers) && EarlierRefuse(readers, |CHAIN|, content)
    ensures TryParse(readers, content) == Done(Err(UnsupportedFileType))
  {
    hide RebuildInOrder;
    RefusedBefore(readers, |CHAIN|, content);
  }

  /**
   * An env file comes back through the chain: when the library reads the printed lines as the pairs that were
   * flattened and no JSON reader takes them for an object, the text of a tree with camel-case keys, nothing
   * hollow and scalars first is parsed to the wrapped tree, whatever the order of the hash map.
   */
  lemma EnvFileComesBack(readers: Readers, writers: Writers, v: Value)
    requires OrdersMaps(readers) && Flattens(writers)
    requires v.Obj? && CamelKeys(v) && Filled(v) && ScalarsFirst(v)
    ensures ConvertToFormat(writers, Json(v), EnvType).Ok?
    ensures
      var text := ConvertToFormat(writers, Json(v), EnvType).value;
      !IsObject(readers.json(text)) && !IsObject(readers.json5(text))
      && readers.env(text) == writers.flatten(EnvPrinter(writers.render), v) ==>
        TryParse(readers, text) == Done(Ok(Json(Wrapped(EnvPrinter(writers.render), v))))
  {
    hide FlattensTo, CamelKeys, Filled, ScalarsFirst, RebuildInOrder;
    var pairs := writers.flatten(EnvPrinter(writers.render), v).value;
    EnvRoundTrip(writers.render, v, pairs);
    assert Enumerates(readers.order(pairs.Keys), pairs.Keys);
  }

  /** The same for a properties file, which every other reader of the chain must refuse. */
  lemma PropertiesFileComesBack(readers: Readers, writers: Writers, v: Value)
    requires OrdersMaps(readers) && Flattens(writers)
    requires v.Obj? && DotFree(v) && NamedKeys(v) && Indexable(v) && Filled(v) && ScalarsFirst(v)
    requires "" in v.members ==> !v.members[""].Obj?
    ensures ConvertToFormat(writers, Json(v), PropertiesType).Ok?
    ensures
      var text := ConvertToFormat(writers, Json(v), PropertiesType).value;
      EarlierRefuse(readers, 5, text)
      && readers.properties(text) == writers.flatten(PropertiesPrinter(writers.render), v) ==>
        TryParse(readers, text) == Done(Ok(Json(Wrapped(PropertiesPrinter(writers.render), v))))
  {
    hide FlattensTo, DotFree, NamedKeys, Indexable, Filled, ScalarsFirst, RebuildInOrder;
    var text := ConvertToFormat(writers, Json(v), PropertiesType).value;
    var pairs := writers.flatten(PropertiesPrinter(writers.render), v).value;
    PropertiesRoundTrip(writers.render, v, pairs);
    assert Enumerates(readers.order(pairs.Keys), pairs.Keys);
    if EarlierRefuse(readers, 5, text) {
      RefusedBefore(readers, 5, text);
    }
  }

  /** A store that fails contributes its own failure, and nothing is parsed. */
  lemma StoreFailureStays(readers: Readers, answer: Result<string>)
    requires OrdersMaps(readers) && answer.Err?
    ensures ProcessStoreRef(readers, answer) == Done(Err(answer.error))
  {
  }
}
