/**
 What the command parser lets through and what it keeps out, measured against the shell's own lists: its operators, its
 parameters and its assignments.
 */
module CommandPolicy {
  import opened Wrappers
  import opened ShellWords
  import opened QuoteScanner

  // ----- operators -----

  /** The control and redirection operators of the Shell Command Language of POSIX.1-2017. */
  const OPERATORS: seq<string> := [
    "&", "&&", "(", ")", ";", ";;", "\n", "|", "||",
    "<", ">", ">|", "<<", ">>", "<&", ">&", "<<-", "<>"]

  /** The scanner looks for exactly the characters operators begin with. */
  lemma OperatorsExactly(c: char)
    ensures IsOperator(c) <==> exists k :: 0 <= k < |OPERATORS| && OPERATORS[k][0] == c
  {
    var ops := OPERATORS;
    assert ops[0][0] == '&' && ops[2][0] == '(' && ops[3][0] == ')' && ops[4][0] == ';' && ops[6][0] == '\n';
    assert ops[7][0] == '|' && ops[9][0] == '<' && ops[10][0] == '>';
  }

  /** No operator stands unquoted in an accepted command, and no backslash hides one. */
  lemma NoOperators(command: string, piece: Piece, k: nat)
    requires Parsed(command).Some? && piece in Parse(command).value && k < |OPERATORS|
    ensures piece.Plain? || piece.Escaped? ==> piece.c != OPERATORS[k][0]
  {
    assert HarmlessPiece(piece);
    if piece.Plain? || piece.Escaped? {
      OperatorsExactly(piece.c);
    }
  }

  // ----- expansions -----

  /** What may follow a dollar sign to name a parameter without braces: a special parameter, a digit or a name. */
  predicate NamesParameter(c: char) {
    c in "@*#?-$!" || '0' <= c <= '9' || 'a' <= c <= 'z' || 'A' <= c <= 'Z' || c == '_'
  }

  /** Nothing in an accepted command, quoted or not, is a parameter expansion or a pattern. */
  lemma NothingExpands(command: string, i: nat)
    requires Parsed(command).Some? && i < |command|
    ensures command[i] !in "*?["
    ensures command[i] == '$' && i + 1 < |command| ==>
              !NamesParameter(command[i + 1]) && (command[i + 1] == '{' ==> '}' !in command[i + 1..])
  {
    assert command[i] in command;
    assert !ExpandsAt(command, i);
    if command[i] == '$' && i + 1 < |command| && command[i + 1] == '{' {
      assert command[i + 1..] == [command[i + 1]] + command[i + 2..];
    }
  }

  // ----- blanks and ends -----

  // The white space of Unicode, with the four separators of ASCII.
  const NARROW_SPACE: string := "\t\n\U{b}\U{c}\r\U{1c}\U{1d}\U{1e}\U{1f} \U{85}\U{a0}"
  const QUAD_SPACE: string :=
    "\U{2000}\U{2001}\U{2002}\U{2003}\U{2004}\U{2005}\U{2006}\U{2007}\U{2008}\U{2009}\U{200a}"
  const WIDE_SPACE: string := "\U{1680}\U{2028}\U{2029}\U{202f}\U{205f}\U{3000}"

  predicate IsWhiteSpace(c: char) {
    c in NARROW_SPACE || c in QUAD_SPACE || c in WIDE_SPACE
  }

  lemma NarrowSpace(c: char)
    ensures c in NARROW_SPACE
       <==> '\t' <= c <= '\r' || '\U{1c}' <= c <= ' ' || c == '\U{85}' || c == '\U{a0}'
  {}

  lemma QuadSpace(c: char)
    ensures c in QUAD_SPACE <==> '\U{2000}' <= c <= '\U{200a}'
  {}

  lemma WideSpace(c: char)
    ensures c in WIDE_SPACE
       <==> c == '\U{1680}' || c == '\U{2028}' || c == '\U{2029}' || c == '\U{202f}' || c == '\U{205f}' || c == '\U{3000}'
  {}

  lemma StrippedExactly(c: char)
    ensures IsStripped(c) <==> IsWhiteSpace(c)
  {
    NarrowSpace(c);
    QuadSpace(c);
    WideSpace(c);
  }

  /** An accepted command is more than white space, holds no NUL and does not end in a backslash, escaped or not. */
  lemma AcceptedText(command: string)
    requires Parsed(command).Some?
    ensures (exists c :: c in command && !IsWhiteSpace(c)) && '\0' !in command
    ensures command != "" && command[|command| - 1] != '\\'
  {
    var c :| c in command && !IsStripped(c);
    StrippedExactly(c);
  }

  // ----- assignments -----

  /** A variable name of the shell. */
  predicate IsName(name: string) {
    && name != "" && !('0' <= name[0] <= '9')
    && forall c :: c in name ==> 'a' <= c <= 'z' || 'A' <= c <= 'Z' || '0' <= c <= '9' || c == '_'
  }

  /** The word gives this variable this value. */
  predicate Assigns(word: string, name: string, value: string) {
    word == name + "=" + value && IsName(name) && '\n' !in value
  }

  lemma AssignmentSplits(word: string, k: nat)
    requires 0 < k < |word| && AssignsAt(word, k)
    ensures Assigns(word, word[..k], word[k + 1..])
  {
    var name := word[..k];
    assert word == name + "=" + word[k + 1..];
    assert name[0] == word[0] && forall i :: 0 <= i < k ==> name[i] == word[i];
  }

  lemma SplitAssigns(word: string, name: string, value: string)
    requires Assigns(word, name, value)
    ensures |name| < |word| && AssignsAt(word, |name|)
  {
    forall i | 0 <= i < |name|
      ensures IsNameChar(word[i])
    {
      assert name[i] in name && word[i] == name[i];
    }
    assert word[|name| + 1..] == value;
  }

  lemma AssignmentExactly(word: string)
    ensures IsAssignment(word) <==> exists name, value :: Assigns(word, name, value)
  {
    if IsAssignment(word) {
      var k :| 0 < k < |word| && AssignsAt(word, k);
      AssignmentSplits(word, k);
    }
    if name, value :| Assigns(word, name, value) {
      SplitAssigns(word, name, value);
    }
  }

  /** The first word of an accepted command is an assignment only if its value holds a newline. */
  lemma FirstWordAssignsNothing(command: string, name: string, value: string)
    requires Parsed(command).Some? && Parsed(command).value[0] == name + "=" + value && IsName(name)
    ensures '\n' in value
  {
    var word := name + "=" + value;
    AssignmentExactly(word);
    assert '\n' !in value ==> Assigns(word, name, value);
  }

  const ASSIGNING: Pieces := [Plain('A'), Plain('='), Single("\n"), Plain(' '), Plain('b')]

  /** And then it may: the pattern for assignments stops at a newline. */
  lemma NewlineAssignmentIsAccepted()
    ensures Text(ASSIGNING) == "A='\n' b" && Parsed(Text(ASSIGNING)) == Some(["A=\n", "b"])
  {
    TextOfAssigning();
    WordsOfAssigning();
    AssigningIsAdmissible();
    AssigningIsHarmless();
    NotRefusedAsAssignment();
    ParsedInto(ASSIGNING, ["A=\n", "b"]);
  }

  lemma ParsedInto(pieces: Pieces, words: seq<string>)
    requires PiecesOk(pieces) && Harmless(pieces) && Admissible(Text(pieces))
    requires Words(Shlex, pieces, None) == words && words != [] && !IsAssignment(words[0])
    ensures Parsed(Text(pieces)) == Some(words)
  {
    ParseOfText(pieces);
  }

  lemma AssigningIsHarmless()
    ensures PiecesOk(ASSIGNING) && Harmless(ASSIGNING)
  {}

  lemma AssigningIsAdmissible()
    ensures Admissible("A='\n' b")
  {
    var command := "A='\n' b";
    assert command[0] == 'A' && command[0] in command && !IsStripped('A');
    assert forall i :: 0 <= i < |command| ==> command[i] != '$';
  }

  lemma NotRefusedAsAssignment()
    ensures !IsAssignment("A=\n")
  {
    var word := "A=\n";
    assert word[2..][0] == '\n';
    assert word[2..][0] in word[2..];
    assert forall k :: 0 < k < |word| && word[k] == '=' ==> k == 1;
  }

  lemma TextOfAssigning()
    ensures Text(ASSIGNING) == "A='\n' b"
  {
    var pieces := ASSIGNING;
    assert Text(pieces[4..]) == "b" + Text(pieces[4..][1..]) && pieces[4..][1..] == [];
    assert Text(pieces[3..]) == " " + Text(pieces[4..]) by { assert pieces[3..][1..] == pieces[4..]; }
    assert Text(pieces[2..]) == "'" + "\n" + "'" + Text(pieces[3..]) by { assert pieces[2..][1..] == pieces[3..]; }
    assert Text(pieces[1..]) == "=" + Text(pieces[2..]) by { assert pieces[1..][1..] == pieces[2..]; }
  }

  lemma WordsOfAssigning()
    ensures Words(Shlex, ASSIGNING, None) == ["A=\n", "b"]
  {
    var pieces := ASSIGNING;
    assert pieces[1..][1..] == pieces[2..] && pieces[2..][1..] == pieces[3..] && pieces[3..][1..] == pieces[4..];
    assert pieces[4..][1..] == [];
    assert Words(Shlex, pieces, None) == Words(Shlex, pieces[1..], Some("" + "A"));
    assert Words(Shlex, pieces[1..], Some("A")) == Words(Shlex, pieces[2..], Some("A" + "="));
    assert Words(Shlex, pieces[2..], Some("A=")) == Words(Shlex, pieces[3..], Some("A=" + "\n"));
    assert Words(Shlex, pieces[3..], Some("A=\n")) == ["A=\n"] + Words(Shlex, pieces[4..], None);
    assert Words(Shlex, pieces[4..], None) == Words(Shlex, [], Some("" + "b"));
    assert "" + "b" == "b" && "" + "A" == "A" && "A" + "=" == "A=" && "A=" + "\n" == "A=\n";
    assert Words(Shlex, pieces[4..], None) == ["b"];
    assert ["A=\n"] + ["b"] == ["A=\n", "b"];
  }

  // ----- plain commands come through -----

  /** A character that means nothing to the shell. */
  predicate IsOrdinary(c: char) {
    '!' <= c <= '~' && c !in "&|;<>()`$\\\"'*?["
  }

  predicate IsOrdinaryWord(word: string) {
    word != "" && forall c :: c in word ==> IsOrdinary(c)
  }

  function Joined(words: seq<string>): string {
    if words == [] then ""
    else if |words| == 1 then words[0]
    else words[0] + " " + Joined(words[1..])
  }

  function Plains(text: string): (pieces: Pieces)
    ensures |pieces| == |text| && forall i :: 0 <= i < |text| ==> pieces[i] == Plain(text[i])
  {
    seq(|text|, i requires 0 <= i < |text| => Plain(text[i]))
  }

  predicate IsPlainText(text: string) {
    forall c :: c in text ==> c == ' ' || IsOrdinary(c)
  }

  lemma ParseOfPlainHead(text: string)
    requires text != "" && (text[0] == ' ' || IsOrdinary(text[0]))
    ensures Parse(text) == Cons(Plain(text[0]), Parse(text[1..])) && HarmlessPiece(Plain(text[0]))
  {}

  lemma PlainsOfMore(text: string)
    requires text != ""
    ensures Plains(text) == [Plain(text[0])] + Plains(text[1..])
  {}

  lemma {:induction false} ParseOfPlain(text: string)
    requires IsPlainText(text)
    ensures Parse(text) == Some(Plains(text)) && Harmless(Plains(text))
  {
    if text != "" {
      assert text[0] in text && forall c :: c in text[1..] ==> c in text;
      ParseOfPlain(text[1..]);
      ParseOfPlainHead(text);
      PlainsOfMore(text);
      ConsIsHarmless(Plain(text[0]), Parse(text[1..]));
    }
  }

  lemma {:induction false} JoinedIsPlain(words: seq<string>)
    requires forall w :: w in words ==> IsOrdinaryWord(w)
    ensures IsPlainText(Joined(words))
  {
    if |words| > 1 {
      assert words[0] in words && forall w :: w in words[1..] ==> w in words;
      JoinedIsPlain(words[1..]);
    } else if |words| == 1 {
      assert words[0] in words;
    }
  }

  lemma ReadChar(begun: Option<string>, c: char, more: string)
    requires IsOrdinary(c)
    ensures Words(Shlex, Plains([c] + more), begun) == Words(Shlex, Plains(more), Some(Begun(begun) + [c]))
  {
    assert Plains([c] + more)[0] == Plain(c) && Plains([c] + more)[1..] == Plains(more);
  }

  // An ordinary word is read into the word in progress.
  lemma {:induction false} ReadWord(begun: Option<string>, word: string, more: string)
    requires forall c :: c in word ==> IsOrdinary(c)
    requires word != "" || begun.Some?
    ensures Words(Shlex, Plains(word + more), begun) == Words(Shlex, Plains(more), Some(Begun(begun) + word))
    decreases |word|
  {
    if word == "" {
      assert word + more == more && Begun(begun) + word == begun.value;
    } else {
      assert word[0] in word && forall c :: c in word[1..] ==> c in word;
      assert word + more == [word[0]] + (word[1..] + more);
      ReadChar(begun, word[0], word[1..] + more);
      ReadWord(Some(Begun(begun) + [word[0]]), word[1..], more);
      assert Begun(begun) + [word[0]] + word[1..] == Begun(begun) + word;
    }
  }

  // A blank ends it.
  lemma ReadBlank(word: string, more: string)
    ensures Words(Shlex, Plains(" " + more), Some(word)) == [word] + Words(Shlex, Plains(more), None)
  {
    assert Plains(" " + more)[0] == Plain(' ') && Plains(" " + more)[1..] == Plains(more);
  }

  lemma ReadFirst(word: string, more: string)
    requires IsOrdinaryWord(word)
    ensures Words(Shlex, Plains(word + more), None) == Words(Shlex, Plains(more), Some(word))
  {
    ReadWord(None, word, more);
    assert "" + word == word;
  }

  lemma {:induction false} ReadJoined(words: seq<string>)
    requires words != [] && forall w :: w in words ==> IsOrdinaryWord(w)
    ensures Words(Shlex, Plains(Joined(words)), None) == words
  {
    assert words[0] in words && words == [words[0]] + words[1..];
    if |words| == 1 {
      ReadFirst(words[0], "");
      assert words[0] + "" == Joined(words) && Plains("") == [];
    } else {
      assert Joined(words) == words[0] + (" " + Joined(words[1..]));
      ReadFirst(words[0], " " + Joined(words[1..]));
      ReadBlank(words[0], Joined(words[1..]));
      ReadJoined(words[1..]);
    }
  }

  lemma PlainIsAdmissible(words: seq<string>)
    requires words != [] && forall w :: w in words ==> IsOrdinaryWord(w)
    ensures Admissible(Joined(words))
  {
    var text := Joined(words);
    JoinedIsPlain(words);
    assert words[0] in words && words[0][0] in words[0];
    assert text[0] == words[0][0] && text[0] in text && !IsStripped(text[0]);
    assert text[|text| - 1] in text;
    forall i | 0 <= i < |text|
      ensures !ExpandsAt(text, i)
    {
      assert text[i] in text;
    }
  }

  /** A command of ordinary words, one space between them, is accepted as these words, unless the first assigns. */
  lemma PlainCommandsAreAccepted(words: seq<string>)
    requires words != [] && forall w :: w in words ==> IsOrdinaryWord(w)
    ensures Parsed(Joined(words)) == if IsAssignment(words[0]) then None else Some(words)
  {
    JoinedIsPlain(words);
    ParseOfPlain(Joined(words));
    ReadJoined(words);
    PlainIsAdmissible(words);
  }
}
