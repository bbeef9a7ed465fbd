/**
 The command parser of classifier.py: a hand-written quote scanner in front of shlex, both measured against the
 quoting structure of the command.
 */
module QuoteScanner {
  import opened Wrappers
  import opened ShellWords

  // ----- the scanner -----

  datatype Quote = NoQuote | InSingle | InDouble

  datatype ScanState = ScanState(quote: Quote, escaped: bool)

  const CLEAN := ScanState(NoQuote, false)

  predicate IsOperator(c: char) {
    c in ";&|<>()\n"
  }

  predicate StartsSubstitution(s: string) {
    |s| >= 2 && s[0] == '$' && s[1] == '('
  }

  function Step(st: ScanState, c: char): ScanState {
    if st.quote.InSingle? then if c == '\'' then st.(quote := NoQuote) else st
    else if st.escaped then st.(escaped := false)
    else if c == '\\' then st.(escaped := true)
    else if st.quote.InDouble? then if c == '"' then st.(quote := NoQuote) else st
    else if c == '\'' then st.(quote := InSingle)
    else if c == '"' then st.(quote := InDouble)
    else st
  }

  /** The scanner refuses the command here, `s` being what is left of it. */
  predicate Refuses(st: ScanState, s: string)
    requires s != ""
  {
    var c := s[0];
    if st.quote.InSingle? then false
    else if st.escaped then st.quote.NoQuote? && IsOperator(c)
    else if c == '\\' then false
    else if st.quote.InDouble? then c != '"' && (c == '`' || StartsSubstitution(s))
    else if c == '\'' || c == '"' then false
    else c == '`' || StartsSubstitution(s) || IsOperator(c)
  }

  predicate Scan(st: ScanState, s: string)
    decreases s
  {
    if s == "" then st == CLEAN else !Refuses(st, s) && Scan(Step(st, s[0]), s[1..])
  }

  function ScanAfter(st: ScanState, s: string): ScanState
    decreases s
  {
    if s == "" then st else ScanAfter(Step(st, s[0]), s[1..])
  }

  // ----- shlex in POSIX mode, splitting on white space, without comments -----

  datatype Mode = Between | InWord | SingleQuoted | DoubleQuoted | EscapeInWord | EscapeInDouble

  datatype Lexer = Lexer(mode: Mode, token: string, quoted: bool)

  datatype LexError = NoClosingQuotation | NoEscapedCharacter

  const START := Lexer(Between, "", false)

  predicate IsSpace(c: char) {
    c in " \t\r\n"
  }

  predicate SplitsAt(mode: Mode, c: char) {
    (mode.Between? || mode.InWord?) && IsSpace(c)
  }

  function NextMode(mode: Mode, c: char): Mode {
    match mode
    case SingleQuoted => if c == '\'' then InWord else SingleQuoted
    case DoubleQuoted => if c == '"' then InWord else if c == '\\' then EscapeInDouble else DoubleQuoted
    case EscapeInWord => InWord
    case EscapeInDouble => DoubleQuoted
    case _ =>
      if IsSpace(c) then Between
      else if c == '\\' then EscapeInWord
      else if c == '\'' then SingleQuoted
      else if c == '"' then DoubleQuoted
      else InWord
  }

  function NextToken(mode: Mode, token: string, c: char): string {
    match mode
    case Between => if c == '\\' || c == '\'' || c == '"' then token else [c]
    case InWord => if c == '\\' || c == '\'' || c == '"' then token else token + [c]
    case SingleQuoted => if c == '\'' then token else token + [c]
    case DoubleQuoted => if c == '"' || c == '\\' then token else token + [c]
    case EscapeInWord => token + [c]
    case EscapeInDouble => if c == '"' || c == '\\' then token + [c] else token + ['\\', c]
  }

  function Consume(lx: Lexer, c: char): Lexer {
    Lexer(NextMode(lx.mode, c), NextToken(lx.mode, lx.token, c),
          lx.quoted || lx.mode.SingleQuoted? || lx.mode.DoubleQuoted?)
  }

  function Pending(lx: Lexer): seq<string> {
    if lx.token != "" || lx.quoted then [lx.token] else []
  }

  function Prepend(words: seq<string>, r: Result<seq<string>, LexError>): Result<seq<string>, LexError> {
    if r.Ok? then Ok(words + r.value) else r
  }

  /** shlex.split from a state onwards. */
  function Lex(lx: Lexer, s: string): Result<seq<string>, LexError>
    decreases s
  {
    if s == "" then
      match lx.mode
      case SingleQuoted => Err(NoClosingQuotation)
      case DoubleQuoted => Err(NoClosingQuotation)
      case EscapeInWord => Err(NoEscapedCharacter)
      case EscapeInDouble => Err(NoEscapedCharacter)
      case _ => Ok(Pending(lx))
    else if SplitsAt(lx.mode, s[0]) then Prepend(Pending(lx), Lex(START, s[1..]))
    else Lex(Consume(lx, s[0]), s[1..])
  }

  function Split(s: string): Result<seq<string>, LexError> {
    Lex(START, s)
  }

  function ModeAfter(mode: Mode, s: string): Mode
    decreases s
  {
    if s == "" then mode else ModeAfter(NextMode(mode, s[0]), s[1..])
  }

  // ----- in step -----

  predicate SameState(st: ScanState, mode: Mode) {
    match mode
    case SingleQuoted => st == ScanState(InSingle, false)
    case DoubleQuoted => st == ScanState(InDouble, false)
    case EscapeInWord => st == ScanState(NoQuote, true)
    case EscapeInDouble => st == ScanState(InDouble, true)
    case _ => st == CLEAN
  }

  lemma {:induction false} KeepInStep(st: ScanState, mode: Mode, s: string)
    requires SameState(st, mode)
    ensures SameState(ScanAfter(st, s), ModeAfter(mode, s))
    decreases s
  {
    if s != "" {
      KeepInStep(Step(st, s[0]), NextMode(mode, s[0]), s[1..]);
    }
  }

  /** Scanner and shlex agree on quotes and escapes at every position of every text. */
  lemma InStepEverywhere(s: string, i: nat)
    requires i <= |s|
    ensures SameState(ScanAfter(CLEAN, s[..i]), ModeAfter(Between, s[..i]))
  {
    KeepInStep(CLEAN, Between, s[..i]);
  }

  // ----- what the scanner accepts -----

  /** In double quotes: an active backquote, or the start of an active `$(`. */
  predicate Active(parts: seq<Part>, i: nat)
    requires i < |parts|
  {
    || parts[i] == Literal('`')
    || (parts[i] == Literal('$') && i + 1 < |parts| && parts[i + 1] == Literal('('))
  }

  predicate HarmlessPiece(piece: Piece) {
    match piece
    case Plain(c) => c != '`' && !IsOperator(c)
    case Escaped(c) => !IsOperator(c)
    case Single(_) => true
    case Double(parts) => forall i | 0 <= i < |parts| :: !Active(parts, i)
  }

  predicate Harmless(pieces: Pieces) {
    forall p :: p in pieces ==> HarmlessPiece(p)
  }

  lemma {:induction false} ScanInSingle(s: string)
    ensures Scan(ScanState(InSingle, false), s)
       <==> ParseSingle(s).Some? && Scan(CLEAN, ParseSingle(s).value.1)
  {
    if s != "" && s[0] != '\'' {
      ScanInSingle(s[1..]);
    }
  }

  lemma HarmlessCons(part: Part, parts: seq<Part>)
    ensures HarmlessPiece(Double([part] + parts))
       <==> HarmlessPiece(Double(parts)) && part != Literal('`')
            && !(part == Literal('$') && parts != [] && parts[0] == Literal('('))
  {
    var all := [part] + parts;
    assert forall i | 0 <= i < |parts| :: Active(parts, i) <==> Active(all, i + 1);
    assert forall i | 0 < i < |all| :: Active(all, i) <==> Active(parts, i - 1);
    assert Active(all, 0) <==> part == Literal('`') || (part == Literal('$') && parts != [] && parts[0] == Literal('('));
  }

  lemma {:induction false} ScanInDouble(s: string)
    ensures Scan(ScanState(InDouble, false), s)
       <==> ParseDouble(s).Some? && HarmlessPiece(Double(ParseDouble(s).value.0))
            && Scan(CLEAN, ParseDouble(s).value.1)
  {
    if s == "" || s[0] == '"' {
    } else if s[0] == '\\' {
      if |s| > 1 {
        ScanInDouble(s[2..]);
        assert s[1..][1..] == s[2..];
        if ParseDouble(s[2..]).Some? {
          HarmlessCons(Backslashed(s[1]), ParseDouble(s[2..]).value.0);
        }
      }
    } else {
      ScanInDouble(s[1..]);
      if ParseDouble(s[1..]).Some? {
        HarmlessCons(Literal(s[0]), ParseDouble(s[1..]).value.0);
        NextPart(s[1..]);
      }
    }
  }

  // An opening parenthesis follows in the text exactly when it is the next part.
  lemma NextPart(s: string)
    requires ParseDouble(s).Some?
    ensures var parts := ParseDouble(s).value.0;
            s[0] == '(' <==> parts != [] && parts[0] == Literal('(')
  {}

  lemma ConsIsHarmless(piece: Piece, rest: Option<Pieces>)
    ensures Cons(piece, rest).Some? && Harmless(Cons(piece, rest).value)
       <==> HarmlessPiece(piece) && rest.Some? && Harmless(rest.value)
  {
    if rest.Some? {
      assert piece in Cons(piece, rest).value;
      assert forall p :: p in rest.value ==> p in Cons(piece, rest).value;
    }
  }

  /** The scanner accepts exactly the texts whose quotes are closed and that hold no unquoted operator, escaped or not,
      and no active backquote or command substitution. */
  lemma {:induction false} ScanAcceptsHarmless(s: string)
    ensures Scan(CLEAN, s) <==> Parse(s).Some? && Harmless(Parse(s).value)
    decreases |s|
  {
    if s == "" {
    } else if s[0] == '\\' {
      if |s| > 1 {
        assert s[1..][1..] == s[2..];
        ScanAcceptsHarmless(s[2..]);
        ConsIsHarmless(Escaped(s[1]), Parse(s[2..]));
      }
    } else if s[0] == '\'' {
      ScanInSingle(s[1..]);
      if ParseSingle(s[1..]).Some? {
        var (body, rest) := ParseSingle(s[1..]).value;
        ScanAcceptsHarmless(rest);
        ConsIsHarmless(Single(body), Parse(rest));
      }
    } else if s[0] == '"' {
      ScanInDouble(s[1..]);
      if ParseDouble(s[1..]).Some? {
        var (parts, rest) := ParseDouble(s[1..]).value;
        ScanAcceptsHarmless(rest);
        ConsIsHarmless(Double(parts), Parse(rest));
      }
    } else {
      ScanAcceptsHarmless(s[1..]);
      ConsIsHarmless(Plain(s[0]), Parse(s[1..]));
      if StartsSubstitution(s) {
        assert Refuses(CLEAN, s[1..]);
      }
    }
  }

  // ----- what shlex reads -----

  lemma {:induction false} LexInSingle(lx: Lexer, s: string)
    requires lx.mode.SingleQuoted?
    ensures var r := ParseSingle(s);
            if r.None? then Lex(lx, s).Err?
            else Lex(lx, s) == Lex(Lexer(InWord, lx.token + r.value.0, true), r.value.1)
    decreases s
  {
    if s != "" {
      if s[0] == '\'' {
        assert lx.token + "" == lx.token;
      } else {
        LexInSingle(Consume(lx, s[0]), s[1..]);
        if ParseSingle(s[1..]).Some? {
          var body := ParseSingle(s[1..]).value.0;
          assert lx.token + [s[0]] + body == lx.token + ([s[0]] + body);
        }
      }
    }
  }

  lemma {:induction false} LexInDouble(lx: Lexer, s: string)
    requires lx.mode.DoubleQuoted?
    ensures var r := ParseDouble(s);
            if r.None? then Lex(lx, s).Err?
            else Lex(lx, s) == Lex(Lexer(InWord, lx.token + PartsValue(Shlex, r.value.0), true), r.value.1)
    decreases |s|
  {
    if s == "" {
    } else if s[0] == '"' {
      assert lx.token + "" == lx.token;
    } else if s[0] == '\\' {
      if |s| > 1 {
        assert s[1..][1..] == s[2..];
        var next := Consume(Consume(lx, s[0]), s[1]);
        assert Lex(lx, s) == Lex(next, s[2..]);
        LexInDouble(next, s[2..]);
        LongerValue(lx.token, Backslashed(s[1]), ParseDouble(s[2..]));
      }
    } else {
      LexInDouble(Consume(lx, s[0]), s[1..]);
      LongerValue(lx.token, Literal(s[0]), ParseDouble(s[1..]));
    }
  }

  lemma LongerValue(token: string, part: Part, r: Option<(seq<Part>, string)>)
    ensures r.Some? ==> (token + PartValue(Shlex, part) + PartsValue(Shlex, r.value.0)
                         == token + PartsValue(Shlex, [part] + r.value.0))
  {
    if r.Some? {
      assert ([part] + r.value.0)[1..] == r.value.0;
    }
  }

  // The word in progress that a state of the lexer stands for.
  predicate Reading(lx: Lexer, word: Option<string>) {
    if lx.mode.Between? then lx == START && word.None?
    else lx.mode.InWord? && word == Some(lx.token) && (lx.token != "" || lx.quoted)
  }

  /** shlex.split fails exactly on open quotes and a final backslash, and otherwise yields the words of the text. */
  lemma {:induction false} LexReadsWords(lx: Lexer, word: Option<string>, s: string)
    requires Reading(lx, word)
    ensures if Parse(s).None? then Lex(lx, s).Err?
            else Lex(lx, s) == Ok(Words(Shlex, Parse(s).value, word))
    decreases |s|
  {
    if s == "" {
    } else if s[0] == '\\' {
      LexEscaped(lx, word, s);
      if |s| > 1 {
        LexReadsWords(Lexer(InWord, lx.token + [s[1]], lx.quoted), Some(Begun(word) + [s[1]]), s[2..]);
      }
    } else if s[0] == '\'' {
      LexInSingle(Consume(lx, s[0]), s[1..]);
      if ParseSingle(s[1..]).Some? {
        var (body, rest) := ParseSingle(s[1..]).value;
        LexReadsWords(Lexer(InWord, lx.token + body, true), Some(Begun(word) + body), rest);
      }
    } else if s[0] == '"' {
      LexInDouble(Consume(lx, s[0]), s[1..]);
      if ParseDouble(s[1..]).Some? {
        var (parts, rest) := ParseDouble(s[1..]).value;
        var value := PartsValue(Shlex, parts);
        LexReadsWords(Lexer(InWord, lx.token + value, true), Some(Begun(word) + value), rest);
      }
    } else if IsSpace(s[0]) {
      LexReadsWords(START, None, s[1..]);
    } else {
      assert Begun(word) + [s[0]] == Consume(lx, s[0]).token;
      LexReadsWords(Consume(lx, s[0]), Some(Begun(word) + [s[0]]), s[1..]);
    }
  }

  lemma LexEscaped(lx: Lexer, word: Option<string>, s: string)
    requires Reading(lx, word) && s != "" && s[0] == '\\'
    ensures if |s| == 1 then Lex(lx, s).Err?
            else Lex(lx, s) == Lex(Lexer(InWord, lx.token + [s[1]], lx.quoted), s[2..])
  {
    if |s| > 1 {
      assert s[1..][1..] == s[2..];
    }
  }

  // ----- the parser -----

  /** What str.strip removes. */
  predicate IsStripped(c: char) {
    || '\t' <= c <= '\r' || '\U{1c}' <= c <= ' ' || c == '\U{85}' || c == '\U{a0}' || c == '\U{1680}'
    || '\U{2000}' <= c <= '\U{200a}' || c == '\U{2028}' || c == '\U{2029}' || c == '\U{202f}'
    || c == '\U{205f}' || c == '\U{3000}'
  }

  predicate IsNameStart(c: char) {
    'A' <= c <= 'Z' || 'a' <= c <= 'z' || c == '_'
  }

  predicate IsNameChar(c: char) {
    IsNameStart(c) || '0' <= c <= '9'
  }

  predicate ExpandsAt(s: string, i: nat) {
    && i + 1 < |s| && s[i] == '$'
    && ((s[i + 1] == '{' && '}' in s[i + 2..]) || s[i + 1] in "@#!?$*-" || IsNameChar(s[i + 1]))
  }

  /** The checks made on the raw text, quoted or not. */
  predicate Admissible(s: string) {
    && (exists c :: c in s && !IsStripped(c))
    && '\0' !in s && !(s != "" && s[|s| - 1] == '\\')
    && '*' !in s && '?' !in s && '[' !in s
    && !exists i :: 0 <= i < |s| && ExpandsAt(s, i)
  }

  /** NAME=value, the value without a newline. */
  predicate IsAssignment(word: string) {
    exists k :: 0 < k < |word| && AssignsAt(word, k)
  }

  predicate AssignsAt(word: string, k: nat)
    requires 0 < k < |word|
  {
    && word[k] == '=' && IsNameStart(word[0]) && (forall i :: 0 <= i < k ==> IsNameChar(word[i]))
    && '\n' !in word[k + 1..]
  }

  /** A command is taken apart into its words exactly when its raw text is admissible, its structure harmless, and its
      first word no assignment. */
  ghost function Parsed(command: string): Option<seq<string>> {
    if Admissible(command) && Parse(command).Some? && Harmless(Parse(command).value) then
      var words := Words(Shlex, Parse(command).value, None);
      if words != [] && !IsAssignment(words[0]) then Some(words) else None
    else None
  }

  lemma {:induction false} BlankStructure(s: string, c: char)
    requires Parse(s).Some? && c in s && !IsSpace(c)
    ensures exists p :: p in Parse(s).value && !IsBlank(Shlex, p)
    decreases |s|
  {
    var pieces := Parse(s).value;
    if s[0] == '\\' || s[0] == '\'' || s[0] == '"' || !IsSpace(s[0]) {
      assert pieces[0] in pieces && !IsBlank(Shlex, pieces[0]);
    } else {
      assert s == [s[0]] + s[1..];
      BlankStructure(s[1..], c);
      assert pieces == [pieces[0]] + Parse(s[1..]).value;
    }
  }

  /** Whatever passes the scanner, shlex splits without error into at least one word. */
  lemma AcceptedSplits(command: string)
    requires Admissible(command) && Scan(CLEAN, command)
    ensures Parse(command).Some? && Split(command) == Ok(Words(Shlex, Parse(command).value, None)) && Split(command).value != []
  {
    ScanAcceptsHarmless(command);
    LexReadsWords(START, None, command);
    var c :| c in command && !IsStripped(c);
    BlankStructure(command, c);
    WordsAreSome(Shlex, Parse(command).value, None);
  }

  method ParseOneSimpleCommand(command: string) returns (r: Option<seq<string>>)
    ensures r == Parsed(command)
  {
    ScanAcceptsHarmless(command);
    if !Admissible(command) {
      return None;
    }
    var st, index := CLEAN, 0;
    while index < |command|
      invariant 0 <= index <= |command| && Scan(CLEAN, command) == Scan(st, command[index..])
    {
      ghost var before, left := st, command[index..];
      assert left[1..] == command[index + 1..];
      var c := command[index];
      var substitution := index + 1 < |command| && c == '$' && command[index + 1] == '(';
      if st.quote.InSingle? {
        if c == '\'' { st := st.(quote := NoQuote); }
      } else if st.escaped {
        if st.quote.NoQuote? && IsOperator(c) { return None; }
        st := st.(escaped := false);
      } else if c == '\\' {
        st := st.(escaped := true);
      } else if st.quote.InDouble? {
        if c == '"' {
          st := st.(quote := NoQuote);
        } else if c == '`' || substitution {
          return None;
        }
      } else if c == '\'' {
        st := st.(quote := InSingle);
      } else if c == '"' {
        st := st.(quote := InDouble);
      } else if c == '`' || substitution || IsOperator(c) {
        return None;
      }
      index := index + 1;
    }
    if st != CLEAN {
      return None;
    }
    AcceptedSplits(command);
    var words := Split(command);
    if words.Err? || words.value == [] || IsAssignment(words.value[0]) {
      return None;
    }
    r := Some(words.value);
  }

  // ----- the two readings -----

  /** A carriage return is no blank to the standard, and a backslash in double quotes escapes `$`, a backquote and a
      newline only there. */
  predicate SameInBoth(piece: Piece) {
    match piece
    case Plain(c) => c != '\r'
    case Double(parts) => forall p :: p in parts && p.Backslashed? ==> p.c != '$' && p.c != '`' && p.c != '\n'
    case _ => true
  }

  predicate Faithful(pieces: Pieces) {
    forall p :: p in pieces ==> SameInBoth(p)
  }

  lemma {:induction false} SamePartsValue(parts: seq<Part>)
    requires SameInBoth(Double(parts))
    ensures PartsValue(Posix, parts) == PartsValue(Shlex, parts)
  {
    if parts != [] {
      assert parts[0] in parts && forall p :: p in parts[1..] ==> p in parts;
      SamePartsValue(parts[1..]);
    }
  }

  lemma {:induction false} FaithfulReadsTheSame(pieces: Pieces, word: Option<string>)
    requires Harmless(pieces) && Faithful(pieces)
    ensures Words(Posix, pieces, word) == Words(Shlex, pieces, word)
  {
    if pieces != [] {
      var piece := pieces[0];
      assert piece in pieces && forall p :: p in pieces[1..] ==> p in pieces;
      if piece.Double? {
        SamePartsValue(piece.parts);
      }
      var next := if IsBlank(Shlex, piece) then None else Some(Begun(word) + Value(Shlex, piece));
      FaithfulReadsTheSame(pieces[1..], next);
    }
  }

  // All words written together.
  function Flat(words: seq<string>): string {
    if words == [] then "" else words[0] + Flat(words[1..])
  }

  function Residue(dialect: Dialect, piece: Piece): string {
    if IsBlank(dialect, piece) then "" else Value(dialect, piece)
  }

  function Residues(dialect: Dialect, pieces: Pieces): string {
    if pieces == [] then "" else Residue(dialect, pieces[0]) + Residues(dialect, pieces[1..])
  }

  lemma FlatFinished(word: Option<string>, more: seq<string>)
    ensures Flat(Finished(word) + more) == Begun(word) + Flat(more)
  {
    assert word.Some? ==> (Finished(word) + more)[1..] == more;
    assert word.None? ==> Finished(word) + more == more && Begun(word) + Flat(more) == Flat(more);
  }

  lemma Associative(a: string, b: string, c: string)
    ensures (a + b) + c == a + (b + c)
  {}

  lemma EmptyBefore(a: string)
    ensures "" + a == a
  {}

  lemma {:induction false} FlatWords(dialect: Dialect, pieces: Pieces, word: Option<string>)
    ensures Flat(Words(dialect, pieces, word)) == Begun(word) + Residues(dialect, pieces)
  {
    if pieces == [] {
      FlatFinished(word, []);
      assert Finished(word) + [] == Finished(word);
    } else if IsBlank(dialect, pieces[0]) {
      FlatWords(dialect, pieces[1..], None);
      FlatFinished(word, Words(dialect, pieces[1..], None));
      EmptyBefore(Residues(dialect, pieces[1..]));
    } else {
      var value := Value(dialect, pieces[0]);
      FlatWords(dialect, pieces[1..], Some(Begun(word) + value));
      Associative(Begun(word), value, Residues(dialect, pieces[1..]));
    }
  }

  function Returns(s: string): nat {
    if s == "" then 0 else (if s[0] == '\r' then 1 else 0) + Returns(s[1..])
  }

  lemma {:induction false} ReturnsOfBoth(a: string, b: string)
    ensures Returns(a + b) == Returns(a) + Returns(b)
  {
    if a == "" {
      assert a + b == b;
    } else {
      assert (a + b)[1..] == a[1..] + b;
      ReturnsOfBoth(a[1..], b);
    }
  }

  // How a part or piece compares: its carriage returns and its length under either reading.
  predicate Compared(posix: string, shlex: string, same: bool) {
    && Returns(posix) >= Returns(shlex)
    && (Returns(posix) == Returns(shlex) ==> |posix| <= |shlex| && (!same ==> |posix| < |shlex|))
  }

  lemma ComparedBoth(p: string, s: string, same: bool, ps: string, ss: string, sames: bool)
    requires Compared(p, s, same) && Compared(ps, ss, sames)
    ensures Compared(p + ps, s + ss, same && sames)
  {
    ReturnsOfBoth(p, ps);
    ReturnsOfBoth(s, ss);
  }

  lemma PartCompared(part: Part)
    ensures Compared(PartValue(Posix, part), PartValue(Shlex, part), SameInBoth(Double([part])))
    ensures Returns(PartValue(Posix, part)) == Returns(PartValue(Shlex, part))
  {
    assert part in [part];
    if part.Backslashed? {
      assert ['\\', part.c][1..] == [part.c];
      assert [part.c][1..] == "";
    }
  }

  // Shlex never keeps fewer characters of a double-quoted text, and more if the readings differ.
  lemma {:induction false} PartsCompared(parts: seq<Part>)
    ensures Compared(PartsValue(Posix, parts), PartsValue(Shlex, parts), SameInBoth(Double(parts)))
  {
    if parts != [] {
      var part, rest := parts[0], parts[1..];
      PartCompared(part);
      PartsCompared(rest);
      ComparedBoth(PartValue(Posix, part), PartValue(Shlex, part), SameInBoth(Double([part])),
                   PartsValue(Posix, rest), PartsValue(Shlex, rest), SameInBoth(Double(rest)));
      assert parts == [part] + rest;
      assert SameInBoth(Double([part])) && SameInBoth(Double(rest)) ==> SameInBoth(Double(parts));
    }
  }

  lemma PieceCompared(piece: Piece)
    requires HarmlessPiece(piece)
    ensures Compared(Residue(Posix, piece), Residue(Shlex, piece), SameInBoth(piece))
  {
    if piece.Double? {
      PartsCompared(piece.parts);
    }
  }

  // Differences add up: returns kept only by the standard, other characters only by shlex.
  lemma {:induction false} ResiduesCompared(pieces: Pieces)
    requires Harmless(pieces)
    ensures Compared(Residues(Posix, pieces), Residues(Shlex, pieces), Faithful(pieces))
  {
    if pieces != [] {
      var piece, rest := pieces[0], pieces[1..];
      assert pieces == [piece] + rest;
      assert piece in pieces;
      PieceCompared(piece);
      ResiduesCompared(rest);
      ComparedBoth(Residue(Posix, piece), Residue(Shlex, piece), SameInBoth(piece),
                   Residues(Posix, rest), Residues(Shlex, rest), Faithful(rest));
      assert SameInBoth(piece) && Faithful(rest) ==> Faithful(pieces);
    }
  }

  lemma ResiduesDiffer(pieces: Pieces)
    requires Harmless(pieces) && !Faithful(pieces)
    ensures Residues(Posix, pieces) != Residues(Shlex, pieces)
  {
    ResiduesCompared(pieces);
  }

  lemma WordsHoldResidues(dialect: Dialect, pieces: Pieces)
    ensures Flat(Words(dialect, pieces, None)) == Residues(dialect, pieces)
  {
    FlatWords(dialect, pieces, None);
    assert "" + Residues(dialect, pieces) == Residues(dialect, pieces);
  }

  /** Of the commands the scanner accepts, shlex and the standard read the same words from exactly the faithful ones. */
  lemma ReadingsAgree(pieces: Pieces)
    requires Harmless(pieces)
    ensures Words(Shlex, pieces, None) == Words(Posix, pieces, None) <==> Faithful(pieces)
  {
    if Faithful(pieces) {
      FaithfulReadsTheSame(pieces, None);
    } else {
      WordsHoldResidues(Posix, pieces);
      WordsHoldResidues(Shlex, pieces);
      ResiduesDiffer(pieces);
    }
  }

  const EXAMPLE: Pieces := [Plain('a'), Plain(' '), Double([Backslashed('$'), Literal(' ')])]

  /** A command the parser accepts that the shell reads otherwise: the words are `a` and a dollar sign with a space after
      it, but shlex keeps the backslash before it. */
  lemma AcceptedButReadOtherwise()
    ensures Text(EXAMPLE) == "a \"\\$ \""
    ensures Parsed(Text(EXAMPLE)) == Some(Words(Shlex, EXAMPLE, None))
    ensures Words(Shlex, EXAMPLE, None) != Words(Posix, EXAMPLE, None)
  {
    TextOfExample();
    ExampleIsHarmless();
    ParseOfText(EXAMPLE);
    ExampleIsAdmissible();
    WordsOfExample();
    ReadingsAgree(EXAMPLE);
  }

  lemma ExampleIsHarmless()
    ensures PiecesOk(EXAMPLE) && Harmless(EXAMPLE) && !Faithful(EXAMPLE)
  {
    var double := EXAMPLE[2];
    assert !Active(double.parts, 0) && !Active(double.parts, 1);
    assert Backslashed('$') in double.parts;
    assert HarmlessPiece(double) && PieceOk(double) && !SameInBoth(double);
    assert double in EXAMPLE;
  }

  lemma ExampleIsAdmissible()
    ensures Admissible("a \"\\$ \"")
  {
    var command := "a \"\\$ \"";
    assert command[0] == 'a' && !IsStripped('a');
    assert forall i :: 0 <= i < |command| && command[i] == '$' ==> i == 4;
    assert !ExpandsAt(command, 4);
  }

  lemma TextOfExample()
    ensures Text(EXAMPLE) == "a \"\\$ \""
  {
    var parts := [Backslashed('$'), Literal(' ')];
    assert parts[1..] == [Literal(' ')] && parts[1..][1..] == [];
    assert PartsText(parts[1..]) == " ";
    assert PartsText(parts) == "\\$ ";
    var pieces := [Plain('a'), Plain(' '), Double(parts)];
    assert pieces[1..] == [Plain(' '), Double(parts)] && pieces[2..] == [Double(parts)];
    assert Text([Double(parts)]) == "\"\\$ \"" + Text([]);
    assert Text(pieces[1..]) == " " + Text(pieces[2..]) by {
      assert pieces[1..][1..] == pieces[2..];
    }
  }

  lemma WordsOfExample()
    ensures var words := Words(Shlex, EXAMPLE, None);
            words != [] && words[0] == "a" && !IsAssignment(words[0])
  {
    var pieces := EXAMPLE;
    assert pieces[1..][0] == Plain(' ');
    assert Words(Shlex, pieces, None) == Words(Shlex, pieces[1..], Some("" + "a"));
    assert Words(Shlex, pieces[1..], Some("a")) == ["a"] + Words(Shlex, pieces[1..][1..], None);
  }
}
