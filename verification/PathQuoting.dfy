/** The quoted path in the .bashrc block, read back by the shell. */
module PathQuoting {
  import opened Wrappers
  import opened ShellWords
  import B = BashrcBlock

  const QUOTED_QUOTE := Double([Literal('\'')])

  // The structure of a quoted path, `done` being the part of the open single-quoted run already read.
  function Structure(done: string, path: string): Pieces
    decreases path
  {
    if path == "" then [Single(done)]
    else if path[0] == '\'' then [Single(done), QUOTED_QUOTE] + Structure("", path[1..])
    else Structure(done + [path[0]], path[1..])
  }

  lemma {:induction false} StructureIsOk(done: string, path: string)
    requires '\'' !in done
    ensures PiecesOk(Structure(done, path))
    decreases path
  {
    if path != "" {
      if path[0] == '\'' {
        StructureIsOk("", path[1..]);
      } else {
        StructureIsOk(done + [path[0]], path[1..]);
      }
    }
  }

  lemma TextOfCons(piece: Piece, pieces: Pieces)
    ensures Text([piece] + pieces) == PieceText(piece) + Text(pieces)
  {
    assert ([piece] + pieces)[1..] == pieces;
  }

  lemma Rejoined(done: string, escaped: string)
    ensures ("'" + done + "'") + ("\"'\"" + ("'" + "" + escaped + "'")) == "'" + done + ("'\"'\"'" + escaped) + "'"
  {}

  lemma OneMoreCharacter(done: string, c: char, escaped: string)
    ensures "'" + (done + [c]) + escaped + "'" == "'" + done + ([c] + escaped) + "'"
  {}

  // A finished single-quoted run and the quoted quote after it.
  lemma TextOfQuote(done: string, rest: Pieces)
    ensures Text([Single(done), QUOTED_QUOTE] + rest) == ("'" + done + "'") + ("\"'\"" + Text(rest))
  {
    QuoteText();
    TextOfCons(QUOTED_QUOTE, rest);
    TextOfCons(Single(done), [QUOTED_QUOTE] + rest);
    assert [Single(done), QUOTED_QUOTE] + rest == [Single(done)] + ([QUOTED_QUOTE] + rest);
  }

  lemma {:induction false} TextOfStructure(done: string, path: string)
    ensures Text(Structure(done, path)) == "'" + done + B.Escaped(path) + "'"
    decreases path
  {
    if path == "" {
      TextOfCons(Single(done), []);
    } else if path[0] == '\'' {
      TextOfStructure("", path[1..]);
      TextOfQuote(done, Structure("", path[1..]));
      Rejoined(done, B.Escaped(path[1..]));
    } else {
      TextOfStructure(done + [path[0]], path[1..]);
      OneMoreCharacter(done, path[0], B.Escaped(path[1..]));
    }
  }

  lemma QuoteText()
    ensures PieceText(QUOTED_QUOTE) == "\"'\"" && Value(Posix, QUOTED_QUOTE) == "'"
  {
    var parts := [Literal('\'')];
    assert parts[1..] == [];
    assert PartsText(parts) == "'" + PartsText(parts[1..]);
    assert PartsValue(Posix, parts) == "'" + PartsValue(Posix, parts[1..]);
  }

  lemma {:induction false} StructureIsOneWord(done: string, path: string, word: Option<string>)
    ensures Words(Posix, Structure(done, path), word) == [Begun(word) + done + path]
    decreases path
  {
    var pieces := Structure(done, path);
    if path == "" {
      assert pieces[1..] == [];
      assert Begun(word) + done == Begun(word) + done + path;
    } else if path[0] == '\'' {
      var rest := Structure("", path[1..]);
      QuoteText();
      assert pieces[1..] == [QUOTED_QUOTE] + rest && pieces[1..][1..] == rest;
      var next := Begun(word) + done + "'";
      StructureIsOneWord("", path[1..], Some(next));
      assert next + "" + path[1..] == Begun(word) + done + path;
    } else {
      StructureIsOneWord(done + [path[0]], path[1..], word);
      assert Begun(word) + (done + [path[0]]) + path[1..] == Begun(word) + done + path;
    }
  }

  lemma TextOfQuotedPath(path: string)
    ensures Text(Structure("", path)) == B.ShellQuote(path)
  {
    TextOfStructure("", path);
    assert "'" + "" + B.Escaped(path) + "'" == "'" + B.Escaped(path) + "'";
  }

  lemma WordsOfQuotedPath(path: string)
    ensures Words(Posix, Structure("", path), None) == [path]
  {
    StructureIsOneWord("", path, None);
    assert "" + "" + path == path;
  }

  /** The shell reads the quoted path as one word, the path itself, whatever characters it holds. */
  lemma QuotedPathIsOneWord(path: string)
    ensures var pieces := Parse(B.ShellQuote(path));
            pieces.Some? && Words(Posix, pieces.value, None) == [path]
  {
    StructureIsOk("", path);
    TextOfQuotedPath(path);
    ParseOfText(Structure("", path));
    WordsOfQuotedPath(path);
  }

  // ----- the line that sources the integration -----

  function Plains(text: string): (pieces: Pieces)
    ensures |pieces| == |text| && forall i :: 0 <= i < |text| ==> pieces[i] == Plain(text[i])
  {
    seq(|text|, i requires 0 <= i < |text| => Plain(text[i]))
  }

  // A character a word may be made of without quotes.
  predicate IsBare(c: char) {
    c != ' ' && c != '\t' && c != '\'' && c != '"' && c != '\\'
  }

  lemma {:induction false} TextOfPlains(text: string)
    ensures Text(Plains(text)) == text
  {
    if text != "" {
      assert Plains(text)[1..] == Plains(text[1..]);
      TextOfPlains(text[1..]);
    }
  }

  lemma {:induction false} TextOfBoth(a: Pieces, b: Pieces)
    ensures Text(a + b) == Text(a) + Text(b)
  {
    if a == [] {
      assert a + b == b;
    } else {
      assert (a + b)[1..] == a[1..] + b;
      TextOfBoth(a[1..], b);
      assert PieceText(a[0]) + (Text(a[1..]) + Text(b)) == PieceText(a[0]) + Text(a[1..]) + Text(b);
    }
  }

  lemma ReadBareChar(c: char, rest: Pieces, begun: Option<string>)
    requires IsBare(c)
    ensures Words(Posix, [Plain(c)] + rest, begun) == Words(Posix, rest, Some(Begun(begun) + [c]))
  {
    assert ([Plain(c)] + rest)[1..] == rest;
  }

  lemma PlainsSplit(word: string, rest: Pieces)
    requires word != ""
    ensures Plains(word) + rest == [Plain(word[0])] + (Plains(word[1..]) + rest)
  {
    assert Plains(word) == [Plain(word[0])] + Plains(word[1..]);
  }

  lemma WordSplit(begun: string, word: string)
    requires word != ""
    ensures begun + [word[0]] + word[1..] == begun + word
  {
    assert word == [word[0]] + word[1..];
  }

  lemma {:induction false} ReadBare(word: string, rest: Pieces, begun: Option<string>)
    requires forall i :: 0 <= i < |word| ==> IsBare(word[i])
    requires word != "" || begun.Some?
    ensures Words(Posix, Plains(word) + rest, begun) == Words(Posix, rest, Some(Begun(begun) + word))
    decreases |word|
  {
    if word == "" {
      assert Plains(word) + rest == rest && begun.value + word == begun.value;
    } else {
      PlainsSplit(word, rest);
      ReadBareChar(word[0], Plains(word[1..]) + rest, begun);
      ReadBare(word[1..], rest, Some(Begun(begun) + [word[0]]));
      WordSplit(Begun(begun), word);
    }
  }

  // A bare word and the blank after it.
  lemma ReadBareWord(word: string, rest: Pieces)
    requires word != "" && forall i :: 0 <= i < |word| ==> IsBare(word[i])
    ensures Words(Posix, Plains(word) + ([Plain(' ')] + rest), None) == [word] + Words(Posix, rest, None)
  {
    ReadBare(word, [Plain(' ')] + rest, None);
    assert "" + word == word && ([Plain(' ')] + rest)[1..] == rest;
  }

  lemma ReadSingle(done: string, rest: Pieces, begun: Option<string>)
    ensures Words(Posix, [Single(done)] + rest, begun) == Words(Posix, rest, Some(Begun(begun) + done))
  {
    assert ([Single(done)] + rest)[1..] == rest;
  }

  lemma ReadQuotedQuote(rest: Pieces, begun: string)
    ensures Words(Posix, [QUOTED_QUOTE] + rest, Some(begun)) == Words(Posix, rest, Some(begun + "'"))
  {
    QuoteText();
    assert ([QUOTED_QUOTE] + rest)[1..] == rest;
  }

  lemma {:induction false} ReadStructure(done: string, path: string, rest: Pieces, begun: Option<string>)
    ensures Words(Posix, Structure(done, path) + rest, begun) == Words(Posix, rest, Some(Begun(begun) + done + path))
    decreases path
  {
    if path == "" {
      ReadSingle(done, rest, begun);
      assert Begun(begun) + done == Begun(begun) + done + path;
    } else if path[0] == '\'' {
      var more := Structure("", path[1..]) + rest;
      assert Structure(done, path) + rest == [Single(done)] + ([QUOTED_QUOTE] + more);
      ReadSingle(done, [QUOTED_QUOTE] + more, begun);
      ReadQuotedQuote(more, Begun(begun) + done);
      ReadStructure("", path[1..], rest, Some(Begun(begun) + done + "'"));
      WordSplit(Begun(begun) + done, path);
      assert Begun(begun) + done + "'" + "" == Begun(begun) + done + "'";
    } else {
      ReadStructure(done + [path[0]], path[1..], rest, begun);
      WordSplit(Begun(begun) + done, path);
      assert Begun(begun) + (done + [path[0]]) == Begun(begun) + done + [path[0]];
    }
  }

  // A quoted path and the blank after it.
  lemma ReadPath(path: string, rest: Pieces)
    ensures Words(Posix, Structure("", path) + ([Plain(' ')] + rest), None) == [path] + Words(Posix, rest, None)
  {
    ReadStructure("", path, [Plain(' ')] + rest, None);
    assert "" + "" + path == path && ([Plain(' ')] + rest)[1..] == rest;
  }

  function Spaced(word: string, rest: Pieces): Pieces {
    Plains(word) + ([Plain(' ')] + rest)
  }

  function AfterPath(path: string): Pieces {
    Spaced("]", Spaced("&&", Spaced(".", Structure("", path))))
  }

  function SourceStructure(path: string): Pieces {
    Spaced("[", Spaced("-f", Structure("", path) + ([Plain(' ')] + AfterPath(path))))
  }

  lemma TextOfSpaced(word: string, rest: Pieces)
    ensures Text(Spaced(word, rest)) == word + " " + Text(rest)
  {
    TextOfPlains(word);
    TextOfCons(Plain(' '), rest);
    TextOfBoth(Plains(word), [Plain(' ')] + rest);
    assert word + (" " + Text(rest)) == word + " " + Text(rest);
  }

  lemma TextAfterPath(path: string)
    ensures Text(AfterPath(path)) == "] && . " + B.ShellQuote(path)
  {
    TextOfQuotedPath(path);
    TextOfSpaced(".", Structure("", path));
    TextOfSpaced("&&", Spaced(".", Structure("", path)));
    TextOfSpaced("]", Spaced("&&", Spaced(".", Structure("", path))));
    TogetherAfter(B.ShellQuote(path));
  }

  lemma TogetherAfter(quoted: string)
    ensures "]" + " " + ("&&" + " " + ("." + " " + quoted)) == "] && . " + quoted
  {
    assert "." + " " == ". " && "&&" + " " == "&& " && "]" + " " == "] ";
    assert "&& " + (". " + quoted) == "&& . " + quoted;
  }

  lemma TextOfSource(path: string)
    ensures Text(SourceStructure(path)) == "[ -f " + B.ShellQuote(path) + " ] && . " + B.ShellQuote(path)
  {
    var after := [Plain(' ')] + AfterPath(path);
    TextAfterPath(path);
    TextOfCons(Plain(' '), AfterPath(path));
    TextOfQuotedPath(path);
    TextOfBoth(Structure("", path), after);
    TextOfSpaced("-f", Structure("", path) + after);
    TextOfSpaced("[", Spaced("-f", Structure("", path) + after));
    Together(B.ShellQuote(path));
  }

  lemma Together(quoted: string)
    ensures "[" + " " + ("-f" + " " + (quoted + (" " + ("] && . " + quoted)))) == "[ -f " + quoted + " ] && . " + quoted
  {}

  lemma WordsAfterPath(path: string)
    ensures Words(Posix, AfterPath(path), None) == ["]", "&&", ".", path]
  {
    WordsOfQuotedPath(path);
    ReadBareWord(".", Structure("", path));
    ReadBareWord("&&", Spaced(".", Structure("", path)));
    ReadBareWord("]", Spaced("&&", Spaced(".", Structure("", path))));
  }

  lemma WordsOfSource(path: string)
    ensures Words(Posix, SourceStructure(path), None) == ["[", "-f", path, "]", "&&", ".", path]
  {
    var after := Structure("", path) + ([Plain(' ')] + AfterPath(path));
    WordsAfterPath(path);
    ReadPath(path, AfterPath(path));
    ReadBareWord("-f", after);
    ReadBareWord("[", Spaced("-f", after));
  }

  lemma PlainsAreOk(text: string)
    requires forall i :: 0 <= i < |text| ==> IsBare(text[i])
    ensures PiecesOk(Plains(text))
  {}

  lemma SourceIsOk(path: string)
    ensures PiecesOk(SourceStructure(path))
  {
    StructureIsOk("", path);
    PlainsAreOk("[");
    PlainsAreOk("-f");
    PlainsAreOk("]");
    PlainsAreOk("&&");
    PlainsAreOk(".");
  }

  /** The shell reads the line of the block as a test for the file and, if it is there, the command that sources it: the
      path is one word of each, whatever characters it holds. */
  lemma SourceLineReadsAsMeant(path: string, line: string)
    requires B.SourceLine(path) == line + "\n"
    ensures Parse(line).Some? && Words(Posix, Parse(line).value, None) == ["[", "-f", path, "]", "&&", ".", path]
  {
    TextOfSource(path);
    assert line == B.SourceLine(path)[..|B.SourceLine(path)| - 1];
    SourceIsOk(path);
    ParseOfText(SourceStructure(path));
    WordsOfSource(path);
  }

  /** And the line of the older block as the command that sources it. */
  lemma OlderLineReadsAsMeant(path: string, line: string)
    requires B.LegacyBlock(path) == B.LEGACY_BEGIN + line + "\n" + B.LEGACY_END
    ensures Parse(line).Some? && Words(Posix, Parse(line).value, None) == ["source", path]
  {
    var quoted, structure := B.ShellQuote(path), Spaced("source", Structure("", path));
    TextOfQuotedPath(path);
    TextOfSpaced("source", Structure("", path));
    assert "source" + " " + quoted == "source " + quoted;
    Regrouped(B.LEGACY_BEGIN, line, B.LEGACY_END);
    LegacyRegrouped(path);
    SameMiddle(B.LEGACY_BEGIN, line, "source " + quoted, "\n" + B.LEGACY_END);
    StructureIsOk("", path);
    PlainsAreOk("source");
    ParseOfText(structure);
    WordsOfQuotedPath(path);
    ReadBareWord("source", Structure("", path));
  }

  lemma Regrouped(before: string, line: string, after: string)
    ensures before + line + "\n" + after == before + line + ("\n" + after)
  {}

  lemma LegacyRegrouped(path: string)
    ensures B.LegacyBlock(path) == B.LEGACY_BEGIN + ("source " + B.ShellQuote(path)) + ("\n" + B.LEGACY_END)
  {}

  lemma SameMiddle(before: string, a: string, b: string, after: string)
    requires before + a + after == before + b + after
    ensures a == b
  {
    assert a == (before + a + after)[|before|..|before| + |a|];
    assert b == (before + b + after)[|before|..|before| + |b|];
  }
}
