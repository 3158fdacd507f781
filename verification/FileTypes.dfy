/** Which file names name which format. */
module FileTypes {
  import opened Values
  import opened Formatting

  /** The name is a non-empty stem, its last dot at `i`, and the extension after it. */
  predicate SplitsAt(name: string, i: int, ext: string) {
    && 0 < i < |name| && name[i] == '.' && name[i + 1..] == ext
    && forall j :: i < j < |name| ==> name[j] != '.'
  }

  lemma {:induction false} ExtensionFromExactly(name: string, i: nat, ext: string)
    requires i <= |name| && forall j :: i <= j < |name| ==> name[j] != '.'
    ensures ExtensionFrom(name, i) == Some(ext) <==> exists j :: SplitsAt(name, j, ext)
    decreases i
  {
    if i > 1 {
      if name[i - 1] == '.' {
        assert SplitsAt(name, i - 1, name[i..]);
      } else {
        ExtensionFromExactly(name, i - 1, ext);
      }
    }
  }

  /** The extension is what follows the last dot, when a stem comes before that dot; two dots alone have none. */
  lemma ExtensionExactly(name: string, ext: string)
    ensures Extension(name) == Some(ext) <==> name != ".." && exists i :: SplitsAt(name, i, ext)
  {
    ExtensionFromExactly(name, |name|, ext);
  }

  /** The extensions of each format. */
  predicate NamesType(ext: string, fileType: FileType) {
    match fileType
    case JsonType => ext == "json"
    case Json5Type => ext == "json5"
    case TomlType => ext == "toml"
    case YamlType => ext == "yaml" || ext == "yml"
    case PropertiesType => ext == "properties"
    case EnvType => ext == "env"
  }

  /** A stem, a dot and one of the seven extensions name that extension's format, and no other name names one. */
  lemma TypeFromNameExactly(name: string, fileType: FileType)
    ensures TypeFromName(name) == Some(fileType) <==> exists i, ext :: SplitsAt(name, i, ext) && NamesType(ext, fileType)
  {
    TypeByExtension(name, fileType);
    forall i, ext | SplitsAt(name, i, ext) && NamesType(ext, fileType) ensures Extension(name) == Some(ext) {
      ExtensionExactly(name, ext);
    }
    if Extension(name).Some? {
      ExtensionExactly(name, Extension(name).value);
    }
  }

  lemma TypeByExtension(name: string, fileType: FileType)
    ensures TypeFromName(name) == Some(fileType) <==> Extension(name).Some? && NamesType(Extension(name).value, fileType)
  {
    hide Extension;
  }

  /** A document has the type that the usual extension of its format names. */
  lemma TypeOfFormat(config: ConfigFormat)
    ensures
      var ext := match config
        case Json(_) => "json"
        case TomlDoc(_) => "toml"
        case Yaml(_) => "yaml"
        case Properties(_) => "properties"
        case EnvFile(_) => "env";
      NamesType(ext, TypeOf(config))
  {
  }
}
