/** Composing the files of a claim from its stores: `configuration_discoverer.rs` and the claim loop of `claim.rs`. */
module Discoverer {
  import opened Values
  import opened Merge
  import opened Flatten
  import opened RoundTrip
  import opened Formats
  import opened Formatting

  datatype Strategy = MergeStores | Fallback

  /** What the stores of one file answer, in the claim's order, and the strategy, if the claim names one. */
  datatype ClaimRef = ClaimRef(answers: seq<Result<ConfigFormat>>, strategy: Option<Strategy>)

  /** The merge fold: the first failure, of a store or of a merge, ends it. */
  function Folded(answers: seq<Result<ConfigFormat>>): Result<Option<ConfigFormat>> {
    if answers == [] then Ok(None)
    else
      var before := Folded(answers[..|answers| - 1]);
      var last := answers[|answers| - 1];
      if before.Err? then before
      else if last.Err? then Err(last.error)
      else if before.value.None? then Ok(Some(last.value))
      else
        var merged := MergeConfigs(before.value.value, last.value);
        if merged.Err? then Err(merged.error) else Ok(Some(merged.value))
  }

  /** The file type to print: by name, or else the first store's. */
  function OutputType(file: string, answers: seq<Result<ConfigFormat>>): Option<FileType> {
    if TypeFromName(file).Some? then TypeFromName(file)
    else if answers != [] && answers[0].Ok? then Some(TypeOf(answers[0].value))
    else None
  }

  /** The text the merge strategy writes, if any; a claim without stores writes none. */
  function MergedText(writers: Writers, file: string, answers: seq<Result<ConfigFormat>>): Result<Option<string>> {
    var folded := Folded(answers);
    if folded.Err? then Err(folded.error)
    else if folded.value.None? then Ok(None)
    else
      var fileType := OutputType(file, answers);
      if fileType.None? then Err(UnsupportedFileType)
      else
        var text := ConvertToFormat(writers, folded.value.value, fileType.value);
        if text.Err? then Err(text.error) else Ok(Some(text.value))
  }

  /** The text the fallback strategy writes: the first store that answers, as JSON whatever the file's name. */
  function FallbackText(writers: Writers, answers: seq<Result<ConfigFormat>>): Result<Option<string>> {
    if answers == [] then Err(ConfigStoreError)
    else if answers[0].Err? then FallbackText(writers, answers[1..])
    else
      var text := ConvertToFormat(writers, answers[0].value, JsonType);
      if text.Err? then Err(text.error) else Ok(Some(text.value))
  }

  function ComposedText(writers: Writers, file: string, claim: ClaimRef): Result<Option<string>> {
    if claim.strategy == Some(MergeStores) then MergedText(writers, file, claim.answers)
    else FallbackText(writers, claim.answers)
  }

  function Inserted(data: map<string, string>, file: string, text: Result<Option<string>>): map<string, string> {
    if text.Ok? && text.value.Some? then data[file := text.value.value] else data
  }

  /** The data map of the resource under construction. */
  class ResourceData {
    var data: map<string, string>

    constructor ()
      ensures data == map[]
    {
      data := map[];
    }

    method ApplyMergeStrategy(writers: Writers, file: string, answers: seq<Result<ConfigFormat>>) returns (result: Result<()>)
      modifies this
      ensures data == Inserted(old(data), file, MergedText(writers, file, answers))
      ensures result.Ok? <==> MergedText(writers, file, answers).Ok?
      ensures result.Err? ==> result.error == MergedText(writers, file, answers).error
    {
      var mergedConfig: Option<ConfigFormat> := None;
      var firstFileFormat := TypeFromName(file);
      for i := 0 to |answers|
        invariant Folded(answers[..i]) == Ok(mergedConfig)
        invariant mergedConfig.Some? <==> i > 0
        invariant i > 0 ==> answers[0].Ok?
        invariant firstFileFormat == if i > 0 then OutputType(file, answers) else TypeFromName(file)
        invariant data == old(data)
      {
        assert answers[..i + 1][..i] == answers[..i];
        var answer := answers[i];
        if answer.Err? {
          FoldStops(answers, i + 1);
          return Err(answer.error);
        }
        if firstFileFormat.None? {
          firstFileFormat := Some(TypeOf(answer.value));
        }
        if mergedConfig.Some? {
          var merged := MergeConfigs(mergedConfig.value, answer.value);
          if merged.Err? {
            FoldStops(answers, i + 1);
            return Err(merged.error);
          }
          mergedConfig := Some(merged.value);
        } else {
          mergedConfig := Some(answer.value);
        }
      }
      assert answers[..|answers|] == answers;
      if mergedConfig.Some? {
        if firstFileFormat.Some? {
          var text := ConvertToFormat(writers, mergedConfig.value, firstFileFormat.value);
          if text.Err? {
            return Err(text.error);
          }
          data := data[file := text.value];
        } else {
          return Err(UnsupportedFileType);
        }
      }
      return Ok(());
    }

    method ApplyFallbackStrategy(writers: Writers, file: string, answers: seq<Result<ConfigFormat>>) returns (result: Result<()>)
      modifies this
      ensures data == Inserted(old(data), file, FallbackText(writers, answers))
      ensures result.Ok? <==> FallbackText(writers, answers).Ok?
      ensures result.Err? ==> result.error == FallbackText(writers, answers).error
    {
      for i := 0 to |answers|
        invariant FallbackText(writers, answers) == FallbackText(writers, answers[i..])
        invariant data == old(data)
      {
        assert answers[i..][0] == answers[i] && answers[i..][1..] == answers[i + 1..];
        if answers[i].Ok? {
          var text := ConvertToFormat(writers, answers[i].value, JsonType);
          if text.Err? {
            return Err(text.error);
          }
          data := data[file := text.value];
          return Ok(());
        }
      }
      return Err(ConfigStoreError);
    }

    method ComposeFile(writers: Writers, file: string, claim: ClaimRef) returns (result: Result<()>)
      modifies this
      ensures data == Inserted(old(data), file, ComposedText(writers, file, claim))
      ensures result.Ok? <==> ComposedText(writers, file, claim).Ok?
      ensures result.Err? ==> result.error == ComposedText(writers, file, claim).error
    {
      if claim.strategy == Some(MergeStores) {
        result := ApplyMergeStrategy(writers, file, claim.answers);
      } else {
        result := ApplyFallbackStrategy(writers, file, claim.answers);
      }
    }
  }

  lemma {:induction false} FoldStops(answers: seq<Result<ConfigFormat>>, n: nat)
    requires n <= |answers| && Folded(answers[..n]).Err?
    ensures Folded(answers) == Folded(answers[..n])
    decreases |answers| - n
  {
    if n < |answers| {
      assert answers[..n + 1][..n] == answers[..n];
      FoldStops(answers, n + 1);
    } else {
      assert answers[..n] == answers;
    }
  }

  /** Every file of the claim composes. */
  predicate Composes(writers: Writers, claims: map<string, ClaimRef>) {
    forall file :: file in claims ==> ComposedText(writers, file, claims[file]).Ok?
  }

  /** The desired data: every file that a composition writes, with its text. */
  function DesiredData(writers: Writers, claims: map<string, ClaimRef>): map<string, string>
    requires Composes(writers, claims)
  {
    map file | file in claims && ComposedText(writers, file, claims[file]).value.Some? ::
      ComposedText(writers, file, claims[file]).value.value
  }

  /**
   * The loop over a claim's files, in whatever order their hash map yields them: whether it succeeds,
   * and on success the data, depend on the claim and the stores only.
   */
  method CreateResourceSpec(writers: Writers, claims: map<string, ClaimRef>) returns (result: Result<map<string, string>>)
    ensures result.Ok? <==> Composes(writers, claims)
    ensures result.Ok? ==> result.value == DesiredData(writers, claims)
  {
    var resource := new ResourceData();
    var todo := claims.Keys;
    while todo != {}
      invariant todo <= claims.Keys
      invariant forall file :: file in claims && file !in todo ==> ComposedText(writers, file, claims[file]).Ok?
      invariant resource.data == map file | file in claims && file !in todo && ComposedText(writers, file, claims[file]).value.Some? ::
        ComposedText(writers, file, claims[file]).value.value
    {
      var file :| file in todo;
      var composed := resource.ComposeFile(writers, file, claims[file]);
      if composed.Err? {
        return Err(composed.error);
      }
      todo := todo - {file};
    }
    result := Ok(resource.data);
  }

  // What the pipeline guarantees

  /** Every store answered with a JSON object, as every parsed configuration is. */
  predicate AllObjects(answers: seq<Result<ConfigFormat>>) {
    forall i :: 0 <= i < |answers| ==> answers[i].Ok? && IsJsonObject(answers[i].value)
  }

  function JsonOf(answers: seq<Result<ConfigFormat>>): seq<Value>
    requires AllObjects(answers)
  {
    seq(|answers|, i requires 0 <= i < |answers| => answers[i].value.json)
  }

  /** When every store answers, every prefix folds to the object that merging the stores in order gives. */
  lemma {:induction false} FoldKeepsObjects(answers: seq<Result<ConfigFormat>>)
    requires answers != [] && AllObjects(answers)
    ensures MergeAll(JsonOf(answers)).Obj?
    ensures Folded(answers) == Ok(Some(Json(MergeAll(JsonOf(answers)))))
  {
    var n := |answers| - 1;
    MergeAllIsObject(JsonOf(answers));
    if n > 0 {
      var before := answers[..n];
      FoldKeepsObjects(before);
      assert JsonOf(answers)[..n] == JsonOf(before);
    } else {
      assert Folded(answers[..0]) == Ok(None);
    }
  }

  /** The text is the lines of what flattening the object gives. */
  ghost predicate PrintsPairs(writers: Writers, printer: Printer, v: Value, text: Result<Option<string>>)
    requires v.Obj?
  {
    exists pairs :: FlattensTo(printer, v, pairs) && text == Ok(Some(writers.lines(pairs)))
  }

  function OrFails(text: Option<string>): Result<Option<string>> {
    if text.Some? then Ok(text) else Err(SerializationError)
  }

  /** What the file holds when `merged` is printed as its name asks: pairs always, and otherwise what a writer gives. */
  ghost predicate PrintsMerged(writers: Writers, file: string, merged: Value, text: Result<Option<string>>)
    requires merged.Obj?
  {
    match TypeFromName(file)
    case Some(PropertiesType) => PrintsPairs(writers, PropertiesPrinter(writers.render), merged, text)
    case Some(EnvType) => PrintsPairs(writers, EnvPrinter(writers.render), merged, text)
    case Some(TomlType) => text == OrFails(writers.toml(merged))
    case Some(YamlType) => text == OrFails(writers.yaml(merged))
    case _ => text == OrFails(writers.json(merged))
  }

  /**
   * When every store answers, merging fails only in the JSON, TOML or YAML writer: the formats are never
   * incompatible, a type is always known, and flattening to properties and env pairs always succeeds.
   */
  lemma MergeFailsOnlyInWriters(writers: Writers, file: string, answers: seq<Result<ConfigFormat>>)
    requires answers != [] && AllObjects(answers) && Flattens(writers)
    ensures MergeAll(JsonOf(answers)).Obj?
    ensures PrintsMerged(writers, file, MergeAll(JsonOf(answers)), MergedText(writers, file, answers))
  {
    hide FlattensTo, MergeAll, Extension;
    FoldKeepsObjects(answers);
  }

  /** The store answers with a text that some parser of the chain accepts. */
  ghost predicate Parses(readers: Readers, answer: Result<string>)
    requires OrdersMaps(readers)
  {
    answer.Ok? && TryParse(readers, answer.value).Done? && TryParse(readers, answer.value).value.Ok?
  }

  ghost function TreeOf(readers: Readers, answer: Result<string>): Value
    requires OrdersMaps(readers) && Parses(readers, answer)
  {
    ProcessedIsObject(readers, answer);
    TryParse(readers, answer.value).value.value.json
  }

  /** The merge pipeline, from the stores' texts to the file: the parsed trees are merged in order, and printed. */
  lemma MergePipeline(readers: Readers, writers: Writers, file: string, texts: seq<Result<string>>)
    requires texts != [] && OrdersMaps(readers) && Flattens(writers)
    requires forall i :: 0 <= i < |texts| ==> Parses(readers, texts[i])
    ensures forall i :: 0 <= i < |texts| ==> ProcessStoreRef(readers, texts[i]).Done?
    ensures
      var trees := seq(|texts|, i requires 0 <= i < |texts| => TreeOf(readers, texts[i]));
      var answers := seq(|texts|, i requires 0 <= i < |texts| => ProcessStoreRef(readers, texts[i]).value);
      && MergeAll(trees).Obj?
      && Folded(answers) == Ok(Some(Json(MergeAll(trees))))
      && PrintsMerged(writers, file, MergeAll(trees), MergedText(writers, file, answers))
  {
    hide TryParse, OrdersMaps, Flattens, MergedText, PrintsMerged;
    forall i | 0 <= i < |texts|
      ensures ProcessStoreRef(readers, texts[i]).Done?
      ensures ProcessStoreRef(readers, texts[i]).value == Ok(Json(TreeOf(readers, texts[i]))) && TreeOf(readers, texts[i]).Obj?
    {
      ProcessedIsObject(readers, texts[i]);
    }
    var trees := seq(|texts|, i requires 0 <= i < |texts| => TreeOf(readers, texts[i]));
    var answers := seq(|texts|, i requires 0 <= i < |texts| => ProcessStoreRef(readers, texts[i]).value);
    assert AllObjects(answers) && JsonOf(answers) == trees;
    FoldKeepsObjects(answers);
    MergeFailsOnlyInWriters(writers, file, answers);
  }

  /** The fallback text is the first answering store's, and it is an error exactly when no store answers or that one cannot be printed. */
  lemma {:induction false} FallbackIsFirstAnswer(writers: Writers, answers: seq<Result<ConfigFormat>>, i: nat)
    requires i < |answers| && answers[i].Ok? && forall j :: 0 <= j < i ==> answers[j].Err?
    ensures FallbackText(writers, answers) ==
      var text := ConvertToFormat(writers, answers[i].value, JsonType);
      if text.Ok? then Ok(Some(text.value)) else Err(text.error)
    decreases i
  {
    if i > 0 {
      FallbackIsFirstAnswer(writers, answers[1..], i - 1);
    }
  }

  lemma {:induction false} FallbackNeedsAnAnswer(writers: Writers, answers: seq<Result<ConfigFormat>>)
    requires forall j :: 0 <= j < |answers| ==> answers[j].Err?
    ensures FallbackText(writers, answers) == Err(ConfigStoreError)
  {
    if answers != [] {
      FallbackNeedsAnAnswer(writers, answers[1..]);
    }
  }

  // Failures of the fold

  /** Store `i` fails, or answers in another format than the first store. */
  predicate Fails(answers: seq<Result<ConfigFormat>>, i: nat)
    requires i < |answers|
  {
    answers[i].Err? || (answers[0].Ok? && TypeOf(answers[i].value) != TypeOf(answers[0].value))
  }

  function FailureOf(answer: Result<ConfigFormat>): Error {
    if answer.Err? then answer.error else IncompatibleFileTypes
  }

  /** While no store fails, the fold goes on, in the first store's format. */
  lemma {:induction false} FoldGoesOn(answers: seq<Result<ConfigFormat>>)
    requires forall i :: 0 <= i < |answers| ==> !Fails(answers, i)
    ensures Folded(answers).Ok? && (Folded(answers).value.Some? <==> answers != [])
    ensures answers != [] ==> answers[0].Ok? && TypeOf(Folded(answers).value.value) == TypeOf(answers[0].value)
  {
    hide TypeOf, MergeConfigs;
    if answers != [] {
      var n := |answers| - 1;
      var before := answers[..n];
      assert !Fails(answers, n) && !Fails(answers, 0);
      forall i | 0 <= i < n ensures !Fails(before, i) {
        assert !Fails(answers, i);
      }
      FoldGoesOn(before);
      if n > 0 {
        MergeKeepsType(Folded(before).value.value, answers[n].value);
      }
    }
  }

  lemma FirstFailureFolds(answers: seq<Result<ConfigFormat>>, i: nat)
    requires i < |answers| && Fails(answers, i) && forall j :: 0 <= j < i ==> !Fails(answers, j)
    ensures Folded(answers) == Err(FailureOf(answers[i]))
  {
    hide TypeOf, MergeConfigs;
    var before, until := answers[..i], answers[..i + 1];
    forall j | 0 <= j < i ensures !Fails(before, j) {
      assert !Fails(answers, j);
    }
    FoldGoesOn(before);
    assert until[..|until| - 1] == before && until[|until| - 1] == answers[i];
    if i > 0 && answers[i].Ok? {
      MergeKeepsType(Folded(before).value.value, answers[i].value);
    }
    assert Folded(until) == Err(FailureOf(answers[i]));
    FoldStops(answers, i + 1);
  }

  /** The first failing store ends the merge with its error, and nothing is written, whatever comes before and after. */
  lemma FirstFailureEndsMerge(writers: Writers, file: string, answers: seq<Result<ConfigFormat>>, i: nat, data: map<string, string>)
    requires i < |answers| && Fails(answers, i) && forall j :: 0 <= j < i ==> !Fails(answers, j)
    ensures MergedText(writers, file, answers) == Err(FailureOf(answers[i]))
    ensures Inserted(data, file, MergedText(writers, file, answers)) == data
  {
    hide Folded, Fails;
    FirstFailureFolds(answers, i);
  }

  /** The fold fails exactly when some store does. */
  lemma FoldFailsExactly(answers: seq<Result<ConfigFormat>>)
    ensures Folded(answers).Err? <==> exists i :: 0 <= i < |answers| && Fails(answers, i)
  {
    hide Folded, Fails;
    if i :| 0 <= i < |answers| && Fails(answers, i) {
      var first := FirstFailure(answers, i);
      FirstFailureFolds(answers, first);
    } else {
      FoldGoesOn(answers);
    }
  }

  lemma {:induction false} FirstFailure(answers: seq<Result<ConfigFormat>>, i: nat) returns (first: nat)
    requires i < |answers| && Fails(answers, i)
    ensures first <= i && Fails(answers, first) && forall j :: 0 <= j < first ==> !Fails(answers, j)
    decreases i
  {
    if j :| 0 <= j < i && Fails(answers, j) {
      first := FirstFailure(answers, j);
    } else {
      first := i;
    }
  }

  // What one file's composition means

  /** A merge claim without stores succeeds and writes nothing. */
  lemma NoStoresNoFile(writers: Writers, file: string, claim: ClaimRef, data: map<string, string>)
    requires claim.strategy == Some(MergeStores) && claim.answers == []
    ensures ComposedText(writers, file, claim).Ok? && Inserted(data, file, ComposedText(writers, file, claim)) == data
  {
  }

  /** A claim that names no strategy falls back: the first answering store's tree as JSON, whatever the file's name. */
  lemma NoStrategyFallsBack(writers: Writers, file: string, claim: ClaimRef, i: nat)
    requires claim.strategy != Some(MergeStores)
    requires i < |claim.answers| && claim.answers[i].Ok? && claim.answers[i].value.Json?
    requires forall j :: 0 <= j < i ==> claim.answers[j].Err?
    ensures ComposedText(writers, file, claim) == OrFails(writers.json(claim.answers[i].value.json))
  {
    FallbackIsFirstAnswer(writers, claim.answers, i);
  }

  /** A merge claim merges, however early a store answers. */
  lemma MergeStrategyMerges(writers: Writers, file: string, claim: ClaimRef)
    requires claim.strategy == Some(MergeStores) && claim.answers != [] && AllObjects(claim.answers) && Flattens(writers)
    ensures MergeAll(JsonOf(claim.answers)).Obj?
    ensures PrintsMerged(writers, file, MergeAll(JsonOf(claim.answers)), ComposedText(writers, file, claim))
  {
    MergeFailsOnlyInWriters(writers, file, claim.answers);
  }

  /** The desired data holds exactly the files of the claim that compose to a text, each with that text. */
  lemma DesiredExactly(writers: Writers, claims: map<string, ClaimRef>, file: string, text: string)
    requires Composes(writers, claims)
    ensures file in DesiredData(writers, claims) && DesiredData(writers, claims)[file] == text <==>
      file in claims && ComposedText(writers, file, claims[file]) == Ok(Some(text))
  {
    hide ComposedText;
  }

  /** Composing a file binds that file to its text, if there is one, and leaves all other files alone. */
  lemma OnlyThisFile(data: map<string, string>, file: string, text: Result<Option<string>>, other: string)
    ensures
      var after := Inserted(data, file, text);
      && (other != file ==> (other in after <==> other in data) && (other in data ==> after[other] == data[other]))
      && (text.Ok? && text.value.Some? ==> file in after && after[file] == text.value.value)
      && (text.Err? || text.value.None? ==> after == data)
  {
  }
}
