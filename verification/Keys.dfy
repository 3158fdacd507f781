/** Splitting configuration keys into parts, and joining parts into keys. */
module Keys {
  import opened Values

  /** `parts` with `s` put in front of its first part. */
  function Glue(s: string, parts: Path): (r: Path)
    requires parts != []
    ensures |r| == |parts|
  {
    [s + parts[0]] + parts[1..]
  }

  /** `str::split` on one character. */
  function Split(s: string, separator: char): (parts: Path)
    ensures parts != []
  {
    if s == [] then [""]
    else if s[0] == separator then [""] + Split(s[1..], separator)
    else Glue([s[0]], Split(s[1..], separator))
  }

  /** Splitting where an escape character directly before a separator makes that separator literal. */
  function SplitEscaped(s: string, separator: char, escape: char): (parts: Path)
    ensures parts != []
    decreases |s|
  {
    if s == [] then [""]
    else if |s| > 1 && s[0] == escape && s[1] == separator then Glue([separator], SplitEscaped(s[2..], separator, escape))
    else if s[0] == separator then [""] + SplitEscaped(s[1..], separator, escape)
    else Glue([s[0]], SplitEscaped(s[1..], separator, escape))
  }

  function Join(parts: Path, separator: char): string
    requires parts != []
  {
    if |parts| == 1 then parts[0] else parts[0] + [separator] + Join(parts[1..], separator)
  }

  /** `str::replace` of one character by a string. */
  function Replace(s: string, c: char, with: string): string {
    if s == [] then "" else (if s[0] == c then with else [s[0]]) + Replace(s[1..], c, with)
  }

  /**
   * How the keys of one file format are cut into parts: the separator, the optional escape
   * character, and the case conversions applied in turn to every part.
   */
  datatype Parser = Parser(separator: char, escape: Option<char>, keyCase: string -> string)

  function Parts(parser: Parser, key: string): (parts: Path)
    ensures parts != []
  {
    var raw :=
      if parser.escape.Some? then SplitEscaped(key, parser.separator, parser.escape.value)
      else Split(key, parser.separator);
    seq(|raw|, i requires 0 <= i < |raw| => parser.keyCase(raw[i]))
  }

  /** What is left to split at position `i`, where a pending escape stands for one literal separator. */
  function Remaining(s: string, i: nat, escapeNext: bool, separator: char, escape: char): (parts: Path)
    requires if escapeNext then i < |s| else i <= |s|
    ensures parts != []
  {
    if escapeNext then Glue([separator], SplitEscaped(s[i + 1..], separator, escape))
    else SplitEscaped(s[i..], separator, escape)
  }

  lemma RemainingStep(s: string, i: nat, separator: char, escape: char)
    requires i < |s|
    ensures
      var rest := Remaining(s, i, false, separator, escape);
      if s[i] == escape && i + 1 < |s| && s[i + 1] == separator then rest == Remaining(s, i + 1, true, separator, escape)
      else if s[i] == separator then rest == [""] + Remaining(s, i + 1, false, separator, escape)
      else rest == Glue([s[i]], Remaining(s, i + 1, false, separator, escape))
  {
    assert s[i..][1..] == s[i + 1..];
    if i + 1 < |s| {
      assert s[i..][2..] == s[i + 2..];
    }
  }

  /** The character loop of `split_with_escape`, with its one-character lookahead and its escape flag. */
  method SplitWithEscape(s: string, separator: char, escape: char) returns (result: Path)
    ensures result == SplitEscaped(s, separator, escape)
  {
    hide SplitEscaped, Glue;
    result := [];
    var current := "";
    var escapeNext := false;
    var i := 0;
    GlueEmpty(SplitEscaped(s, separator, escape));
    assert s[0..] == s;
    while i < |s|
      invariant 0 <= i <= |s|
      invariant escapeNext ==> i < |s| && s[i] == separator
      invariant SplitEscaped(s, separator, escape) == result + Glue(current, Remaining(s, i, escapeNext, separator, escape))
    {
      var c := s[i];
      var nextIsSeparator := i + 1 < |s| && s[i + 1] == separator;
      i := i + 1;
      if escapeNext {
        GlueGlue(current, [c], Remaining(s, i, false, separator, escape));
        current := current + [c];
        escapeNext := false;
      } else {
        RemainingStep(s, i - 1, separator, escape);
        if c == escape && nextIsSeparator {
          escapeNext := true;
        } else if c == separator {
          GlueBreak(current, Remaining(s, i, false, separator, escape));
          GlueEmpty(Remaining(s, i, false, separator, escape));
          result := result + [current];
          current := "";
        } else {
          GlueGlue(current, [c], Remaining(s, i, false, separator, escape));
          current := current + [c];
        }
      }
    }
    assert Remaining(s, i, false, separator, escape) == [""] by {
      assert s[|s|..] == "";
      NothingToSplit(separator, escape);
    }
    GlueBreak(current, []);
    assert [""] + [] == [""] && [current] + [] == [current];
    result := result + [current];
  }

  lemma NothingToSplit(separator: char, escape: char)
    ensures SplitEscaped("", separator, escape) == [""]
  {
  }

  lemma GlueEmpty(parts: Path)
    requires parts != []
    ensures Glue("", parts) == parts
  {
    assert "" + parts[0] == parts[0];
  }

  lemma GlueBreak(s: string, rest: Path)
    ensures Glue(s, [""] + rest) == [s] + rest
  {
    assert s + "" == s;
    assert ([""] + rest)[1..] == rest;
  }

  lemma GlueGlue(a: string, b: string, parts: Path)
    requires parts != []
    ensures Glue(a, Glue(b, parts)) == Glue(a + b, parts)
  {
    assert a + (b + parts[0]) == a + b + parts[0];
  }

  /** Joining undoes plain splitting, for every string. */
  lemma {:induction false} JoinSplit(s: string, separator: char)
    ensures Join(Split(s, separator), separator) == s
  {
    if s != [] {
      JoinSplit(s[1..], separator);
      var rest := Split(s[1..], separator);
      if s[0] != separator {
        JoinGlue([s[0]], rest, separator);
      }
    }
  }

  lemma JoinGlue(s: string, parts: Path, separator: char)
    requires parts != []
    ensures Join(Glue(s, parts), separator) == s + Join(parts, separator)
  {
  }

  /** Plain splitting undoes joining exactly when no part contains the separator. */
  lemma {:induction false} SplitJoin(parts: Path, separator: char)
    requires parts != []
    ensures Split(Join(parts, separator), separator) == parts <==> forall i :: 0 <= i < |parts| ==> separator !in parts[i]
  {
    if forall i :: 0 <= i < |parts| ==> separator !in parts[i] {
      SplitOfJoined(parts, separator);
    } else if Split(Join(parts, separator), separator) == parts {
      SplitPartsClean(Join(parts, separator), separator);
      assert false;
    }
  }

  lemma {:induction false} SplitOfJoined(parts: Path, separator: char)
    requires parts != []
    requires forall i :: 0 <= i < |parts| ==> separator !in parts[i]
    ensures Split(Join(parts, separator), separator) == parts
  {
    if |parts| == 1 {
      SplitPrefix(parts[0], "", separator);
      assert parts[0] + "" == parts[0];
      GlueBreak(parts[0], []);
    } else {
      SplitOfJoined(parts[1..], separator);
      var tail := [separator] + Join(parts[1..], separator);
      SplitPrefix(parts[0], tail, separator);
      assert tail[1..] == Join(parts[1..], separator);
      assert parts[0] + tail == Join(parts, separator);
      GlueBreak(parts[0], parts[1..]);
    }
  }

  lemma {:induction false} SplitPrefix(s: string, t: string, separator: char)
    requires separator !in s
    ensures Split(s + t, separator) == Glue(s, Split(t, separator))
  {
    if s == [] {
      assert s + t == t;
      GlueEmpty(Split(t, separator));
    } else {
      assert (s + t)[1..] == s[1..] + t;
      SplitPrefix(s[1..], t, separator);
      GlueGlue([s[0]], s[1..], Split(t, separator));
      assert [s[0]] + s[1..] == s;
    }
  }

  lemma {:induction false} SplitPartsClean(s: string, separator: char)
    ensures forall i :: 0 <= i < |Split(s, separator)| ==> separator !in Split(s, separator)[i]
  {
    if s != [] {
      SplitPartsClean(s[1..], separator);
    }
  }

  /** The joined form in which every separator inside a part is escaped. */
  function JoinEscaped(parts: Path, separator: char, escape: char): string
    requires parts != []
  {
    var first := Replace(parts[0], separator, [escape, separator]);
    if |parts| == 1 then first else first + [separator] + JoinEscaped(parts[1..], separator, escape)
  }

  /** The joined form in which `c` separates parts and is doubled inside them. */
  function JoinDoubled(parts: Path, c: char): string
    requires parts != []
  {
    JoinEscaped(parts, c, c)
  }

  /** After the first part: none starts with the separator, and none is empty except possibly the last. */
  ghost predicate Separable(parts: Path, c: char) {
    forall i :: 0 < i < |parts| ==>
      if parts[i] == "" then i == |parts| - 1 else parts[i][0] != c
  }

  /** Joining with escapes undoes escape splitting, for every string, separator and escape character. */
  lemma {:induction false} JoinSplitEscaped(s: string, separator: char, escape: char)
    ensures JoinEscaped(SplitEscaped(s, separator, escape), separator, escape) == s
    decreases |s|
  {
    if s != [] {
      if |s| > 1 && s[0] == escape && s[1] == separator {
        JoinSplitEscaped(s[2..], separator, escape);
        JoinEscapedGlue(separator, SplitEscaped(s[2..], separator, escape), separator, escape);
        assert s == [escape, separator] + s[2..];
      } else if s[0] == separator {
        JoinSplitEscaped(s[1..], separator, escape);
        assert s == [separator] + s[1..];
      } else {
        JoinSplitEscaped(s[1..], separator, escape);
        JoinEscapedGlue(s[0], SplitEscaped(s[1..], separator, escape), separator, escape);
        assert s == [s[0]] + s[1..];
      }
    }
  }

  lemma JoinEscapedGlue(x: char, parts: Path, separator: char, escape: char)
    requires parts != []
    ensures JoinEscaped(Glue([x], parts), separator, escape) ==
            (if x == separator then [escape, separator] else [x]) + JoinEscaped(parts, separator, escape)
  {
    var first := [x] + parts[0];
    assert first[1..] == parts[0];
    assert Glue([x], parts)[1..] == parts[1..];
  }

  /** Joining with doubling undoes escape splitting, for every string. */
  lemma JoinSplitDoubled(s: string, c: char)
    ensures JoinDoubled(SplitEscaped(s, c, c), c) == s
  {
    JoinSplitEscaped(s, c, c);
  }

  /** No part but the last ends with the escape character. */
  ghost predicate Unescaped(parts: Path, escape: char) {
    forall i :: 0 <= i < |parts| - 1 ==> parts[i] == "" || parts[i][|parts[i]| - 1] != escape
  }

  /** With an escape other than the separator, splitting undoes joining exactly when no part but the last ends with the escape. */
  lemma SplitJoinEscaped(parts: Path, separator: char, escape: char)
    requires parts != [] && escape != separator
    ensures SplitEscaped(JoinEscaped(parts, separator, escape), separator, escape) == parts <==> Unescaped(parts, escape)
  {
    if Unescaped(parts, escape) {
      SplitOfJoinedEscaped(parts, separator, escape);
    }
    SplitUnescaped(JoinEscaped(parts, separator, escape), separator, escape);
  }

  lemma {:induction false} SplitOfJoinedEscaped(parts: Path, separator: char, escape: char)
    requires parts != [] && escape != separator && Unescaped(parts, escape)
    ensures SplitEscaped(JoinEscaped(parts, separator, escape), separator, escape) == parts
  {
    var first := Replace(parts[0], separator, [escape, separator]);
    if |parts| == 1 {
      SplitEscapedPrefix(parts[0], "", separator, escape);
      assert first + "" == first;
      GlueBreak(parts[0], []);
    } else {
      SplitOfJoinedEscaped(parts[1..], separator, escape);
      var tail := [separator] + JoinEscaped(parts[1..], separator, escape);
      assert tail[1..] == JoinEscaped(parts[1..], separator, escape);
      assert SplitEscaped(tail, separator, escape) == [""] + parts[1..];
      SplitEscapedPrefix(parts[0], tail, separator, escape);
      assert first + tail == JoinEscaped(parts, separator, escape);
      GlueBreak(parts[0], parts[1..]);
    }
  }

  lemma {:induction false} SplitEscapedPrefix(s: string, t: string, separator: char, escape: char)
    requires escape != separator
    requires s == "" || t == "" || s[|s| - 1] != escape || t[0] != separator
    ensures SplitEscaped(Replace(s, separator, [escape, separator]) + t, separator, escape) == Glue(s, SplitEscaped(t, separator, escape))
  {
    hide Glue;
    if s == [] {
      assert "" + t == t;
      GlueEmpty(SplitEscaped(t, separator, escape));
    } else {
      var rest := Replace(s[1..], separator, [escape, separator]) + t;
      SplitEscapedPrefix(s[1..], t, separator, escape);
      GlueGlue([s[0]], s[1..], SplitEscaped(t, separator, escape));
      assert [s[0]] + s[1..] == s;
      var head := if s[0] == separator then [escape, separator] else [s[0]];
      assert Replace(s, separator, [escape, separator]) + t == head + rest;
      if s[0] == separator {
        assert (head + rest)[2..] == rest;
      } else {
        assert (head + rest)[1..] == rest;
      }
    }
  }

  lemma {:induction false} SplitUnescaped(s: string, separator: char, escape: char)
    requires escape != separator
    ensures Unescaped(SplitEscaped(s, separator, escape), escape)
    decreases |s|
  {
    if s != [] {
      if |s| > 1 && s[0] == escape && s[1] == separator {
        SplitUnescaped(s[2..], separator, escape);
      } else {
        SplitUnescaped(s[1..], separator, escape);
        assert |SplitEscaped(s[1..], separator, escape)| > 1 && SplitEscaped(s[1..], separator, escape)[0] == "" ==> s[1] == separator;
      }
    }
  }

  /** Escape splitting undoes joining exactly on the separable lists. */
  lemma {:induction false} SplitJoinDoubled(parts: Path, c: char)
    requires parts != []
    ensures SplitEscaped(JoinDoubled(parts, c), c, c) == parts <==> Separable(parts, c)
  {
    if Separable(parts, c) {
      SplitOfJoinedDoubled(parts, c);
    } else if SplitEscaped(JoinDoubled(parts, c), c, c) == parts {
      SplitSeparable(JoinDoubled(parts, c), c);
      assert false;
    }
  }

  lemma {:induction false} SplitOfJoinedDoubled(parts: Path, c: char)
    requires parts != [] && Separable(parts, c)
    ensures SplitEscaped(JoinDoubled(parts, c), c, c) == parts
  {
    if |parts| == 1 {
      SplitDoubledPrefix(parts[0], "", c);
      assert Replace(parts[0], c, [c, c]) + "" == Replace(parts[0], c, [c, c]);
      GlueBreak(parts[0], []);
    } else {
      forall i | 0 < i < |parts| - 1 ensures if parts[1..][i] == "" then i == |parts| - 2 else parts[1..][i][0] != c {
        assert parts[1..][i] == parts[i + 1];
      }
      SplitOfJoinedDoubled(parts[1..], c);
      var rest := JoinDoubled(parts[1..], c);
      var tail := [c] + rest;
      assert rest == "" || rest[0] != c;
      assert tail[1..] == rest;
      assert SplitEscaped(tail, c, c) == [""] + parts[1..];
      SplitDoubledPrefix(parts[0], tail, c);
      assert Replace(parts[0], c, [c, c]) + tail == JoinDoubled(parts, c);
      GlueBreak(parts[0], parts[1..]);
    }
  }

  /** The first character of a doubled text is read back as itself. */
  lemma SplitFirst(s: string, rest: string, c: char)
    requires s != []
    requires rest == [] || s[0] == c || [s[0], rest[0]] != [c, c]
    ensures SplitEscaped((if s[0] == c then [c, c] else [s[0]]) + rest, c, c) == Glue([s[0]], SplitEscaped(rest, c, c))
  {
    if s[0] == c {
      assert ([c, c] + rest)[2..] == rest;
    } else {
      assert ([s[0]] + rest)[1..] == rest;
    }
  }

  lemma {:induction false} SplitDoubledPrefix(s: string, t: string, c: char)
    ensures SplitEscaped(Replace(s, c, [c, c]) + t, c, c) == Glue(s, SplitEscaped(t, c, c))
  {
    hide SplitEscaped, Glue;
    if s == [] {
      assert "" + t == t;
      GlueEmpty(SplitEscaped(t, c, c));
    } else {
      var rest := Replace(s[1..], c, [c, c]) + t;
      SplitDoubledPrefix(s[1..], t, c);
      SplitFirst(s, rest, c);
      GlueGlue([s[0]], s[1..], SplitEscaped(t, c, c));
      assert [s[0]] + s[1..] == s;
      assert Replace(s, c, [c, c]) + t == (if s[0] == c then [c, c] else [s[0]]) + rest;
    }
  }

  lemma {:induction false} SplitSeparable(s: string, c: char)
    ensures Separable(SplitEscaped(s, c, c), c)
    ensures s != "" && s[0] != c ==> SplitEscaped(s, c, c)[0] != "" && SplitEscaped(s, c, c)[0][0] == s[0]
    decreases |s|
  {
    if s != [] {
      if |s| > 1 && s[0] == c && s[1] == c {
        SplitSeparable(s[2..], c);
      } else {
        SplitSeparable(s[1..], c);
      }
    }
  }
}
