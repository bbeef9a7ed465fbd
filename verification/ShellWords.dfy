/**
 The quoting structure of a command line, by section 2.2 (Quoting) of POSIX.1-2017 Shell Command Language, and the two
 readings of it that matter here: the standard's own and that of Python's shlex in POSIX mode.
 */
module ShellWords {
  import opened Wrappers

  // Inside double quotes: an ordinary character, or a backslash with the one after it.
  datatype Part = Literal(c: char) | Backslashed(c: char)

  datatype Piece = Plain(c: char) | Escaped(c: char) | Single(body: string) | Double(parts: seq<Part>)

  type Pieces = seq<Piece>

  predicate PartOk(part: Part) {
    part.Literal? ==> part.c != '"' && part.c != '\\'
  }

  predicate PieceOk(piece: Piece) {
    match piece
    case Plain(c) => c != '\'' && c != '"' && c != '\\'
    case Escaped(_) => true
    case Single(body) => '\'' !in body
    case Double(parts) => forall p :: p in parts ==> PartOk(p)
  }

  predicate PiecesOk(pieces: Pieces) {
    forall p :: p in pieces ==> PieceOk(p)
  }

  // ----- the text of a structure -----

  function PartText(part: Part): string {
    match part
    case Literal(c) => [c]
    case Backslashed(c) => ['\\', c]
  }

  function PartsText(parts: seq<Part>): string {
    if parts == [] then "" else PartText(parts[0]) + PartsText(parts[1..])
  }

  function PieceText(piece: Piece): string {
    match piece
    case Plain(c) => [c]
    case Escaped(c) => ['\\', c]
    case Single(body) => "'" + body + "'"
    case Double(parts) => "\"" + PartsText(parts) + "\""
  }

  function Text(pieces: Pieces): string {
    if pieces == [] then "" else PieceText(pieces[0]) + Text(pieces[1..])
  }

  // ----- and the structure of a text -----

  // The parts up to the closing quote and what follows it.
  function ParseDouble(s: string): (r: Option<(seq<Part>, string)>)
    ensures r.Some? ==> |r.value.1| < |s| && forall p :: p in r.value.0 ==> PartOk(p)
  {
    if s == "" then None
    else if s[0] == '"' then Some(([], s[1..]))
    else if s[0] == '\\' then
      if |s| == 1 then None
      else match ParseDouble(s[2..])
        case None => None
        case Some((parts, rest)) => Some(([Backslashed(s[1])] + parts, rest))
    else match ParseDouble(s[1..])
      case None => None
      case Some((parts, rest)) => Some(([Literal(s[0])] + parts, rest))
  }

  function ParseSingle(s: string): (r: Option<(string, string)>)
    ensures r.Some? ==> |r.value.1| < |s| && '\'' !in r.value.0
  {
    if s == "" then None
    else if s[0] == '\'' then Some(("", s[1..]))
    else match ParseSingle(s[1..])
      case None => None
      case Some((body, rest)) => Some(([s[0]] + body, rest))
  }

  function Cons(piece: Piece, rest: Option<Pieces>): Option<Pieces> {
    if rest.None? then None else Some([piece] + rest.value)
  }

  /** None if a quote is left open or the text ends in a lone backslash. */
  function Parse(s: string): (r: Option<Pieces>)
    ensures r.Some? ==> PiecesOk(r.value)
    decreases |s|
  {
    if s == "" then Some([])
    else if s[0] == '\\' then if |s| == 1 then None else Cons(Escaped(s[1]), Parse(s[2..]))
    else if s[0] == '\'' then
      var single := ParseSingle(s[1..]);
      if single.None? then None else Cons(Single(single.value.0), Parse(single.value.1))
    else if s[0] == '"' then
      var double := ParseDouble(s[1..]);
      if double.None? then None else Cons(Double(double.value.0), Parse(double.value.1))
    else Cons(Plain(s[0]), Parse(s[1..]))
  }

  lemma {:induction false} ParseDoubleOfText(parts: seq<Part>, rest: string)
    requires forall p :: p in parts ==> PartOk(p)
    ensures ParseDouble(PartsText(parts) + "\"" + rest) == Some((parts, rest))
  {
    var s := PartsText(parts) + "\"" + rest;
    if parts == [] {
      assert s == "\"" + rest;
    } else {
      var more := PartsText(parts[1..]) + "\"" + rest;
      assert s == PartText(parts[0]) + more;
      assert parts[0] in parts && parts == [parts[0]] + parts[1..];
      ParseDoubleOfText(parts[1..], rest);
    }
  }

  lemma {:induction false} ParseSingleOfText(body: string, rest: string)
    requires '\'' !in body
    ensures ParseSingle(body + "'" + rest) == Some((body, rest))
  {
    var s := body + "'" + rest;
    if body == "" {
      assert s == "'" + rest;
    } else {
      assert s == [body[0]] + (body[1..] + "'" + rest);
      assert body == [body[0]] + body[1..];
      ParseSingleOfText(body[1..], rest);
    }
  }

  lemma ParseOne(piece: Piece, more: string)
    requires PieceOk(piece)
    ensures Parse(PieceText(piece) + more) == Cons(piece, Parse(more))
  {
    var s := PieceText(piece) + more;
    match piece {
      case Plain(c) =>
        assert s[1..] == more;
      case Escaped(c) =>
        assert s[2..] == more;
      case Single(body) =>
        assert s[1..] == body + "'" + more;
        ParseSingleOfText(body, more);
      case Double(parts) =>
        assert s[1..] == PartsText(parts) + "\"" + more;
        ParseDoubleOfText(parts, more);
    }
  }

  /** Every structure is found again in its text ... */
  lemma {:induction false} ParseOfText(pieces: Pieces)
    requires PiecesOk(pieces)
    ensures Parse(Text(pieces)) == Some(pieces)
  {
    if pieces != [] {
      assert pieces[0] in pieces && pieces == [pieces[0]] + pieces[1..];
      ParseOfText(pieces[1..]);
      ParseOne(pieces[0], Text(pieces[1..]));
    }
  }

  lemma {:induction false} TextOfParseDouble(s: string)
    requires ParseDouble(s).Some?
    ensures s == PartsText(ParseDouble(s).value.0) + "\"" + ParseDouble(s).value.1
  {
    if s[0] == '"' {
    } else if s[0] == '\\' {
      TextOfParseDouble(s[2..]);
    } else {
      TextOfParseDouble(s[1..]);
    }
  }

  lemma {:induction false} TextOfParseSingle(s: string)
    requires ParseSingle(s).Some?
    ensures s == ParseSingle(s).value.0 + "'" + ParseSingle(s).value.1
  {
    if s[0] != '\'' {
      TextOfParseSingle(s[1..]);
    }
  }

  /** ... and every text with its quotes closed is the text of the structure found in it. */
  lemma {:induction false} TextOfParse(s: string)
    requires Parse(s).Some?
    ensures Text(Parse(s).value) == s
    decreases |s|
  {
    if s == "" {
    } else if s[0] == '\\' {
      TextOfParse(s[2..]);
    } else if s[0] == '\'' {
      TextOfParseSingle(s[1..]);
      TextOfParse(ParseSingle(s[1..]).value.1);
    } else if s[0] == '"' {
      TextOfParseDouble(s[1..]);
      TextOfParse(ParseDouble(s[1..]).value.1);
    } else {
      TextOfParse(s[1..]);
    }
  }

  // ----- words -----

  datatype Dialect = Posix | Shlex

  predicate IsBlank(dialect: Dialect, piece: Piece) {
    piece.Plain? && (piece.c == ' ' || piece.c == '\t' || (dialect.Shlex? && (piece.c == '\r' || piece.c == '\n')))
  }

  // What a backslash in double quotes leaves: only certain characters can be escaped there.
  function PartValue(dialect: Dialect, part: Part): string {
    match part
    case Literal(c) => [c]
    case Backslashed(c) =>
      if c == '"' || c == '\\' then [c]
      else if dialect.Posix? && (c == '$' || c == '`') then [c]
      else if dialect.Posix? && c == '\n' then ""
      else ['\\', c]
  }

  function PartsValue(dialect: Dialect, parts: seq<Part>): string {
    if parts == [] then "" else PartValue(dialect, parts[0]) + PartsValue(dialect, parts[1..])
  }

  /** Quote removal. */
  function Value(dialect: Dialect, piece: Piece): string {
    match piece
    case Plain(c) => [c]
    case Escaped(c) => [c]
    case Single(body) => body
    case Double(parts) => PartsValue(dialect, parts)
  }

  function Finished(word: Option<string>): seq<string> {
    if word.Some? then [word.value] else []
  }

  function Begun(word: Option<string>): string {
    if word.Some? then word.value else ""
  }

  /** Unquoted blanks separate words; adjacent pieces make one. `word` is the one in progress. */
  function Words(dialect: Dialect, pieces: Pieces, word: Option<string>): seq<string> {
    if pieces == [] then Finished(word)
    else if IsBlank(dialect, pieces[0]) then Finished(word) + Words(dialect, pieces[1..], None)
    else Words(dialect, pieces[1..], Some(Begun(word) + Value(dialect, pieces[0])))
  }

  lemma {:induction false} WordsAreSome(dialect: Dialect, pieces: Pieces, word: Option<string>)
    requires word.Some? || exists p :: p in pieces && !IsBlank(dialect, p)
    ensures Words(dialect, pieces, word) != []
  {
    if pieces != [] && !(IsBlank(dialect, pieces[0]) && word.Some?) {
      var next := if IsBlank(dialect, pieces[0]) then None else Some(Begun(word) + Value(dialect, pieces[0]));
      assert pieces == [pieces[0]] + pieces[1..];
      WordsAreSome(dialect, pieces[1..], next);
    }
  }
}
