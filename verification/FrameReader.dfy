/**
 The bounded reader in front of the bridge (bridge.py): it cuts the shell's byte stream into frames, and after an
 oversized line finds its way back to the next one. Bytes are characters here.
 */
module FrameReader {
  const MAX_LOCAL_FRAME_BYTES: nat := 4096

  predicate HasNewline(s: string) {
    '\n' in s
  }

  /** One line with its newline. */
  predicate IsLine(s: string) {
    s != "" && s[|s| - 1] == '\n' && '\n' !in s[..|s| - 1]
  }

  /** The length of the first line, its newline included. */
  function FirstLine(s: string): (n: nat)
    requires HasNewline(s)
    ensures 0 < n <= |s| && IsLine(s[..n])
  {
    if s[0] == '\n' then 1
    else
      var n := 1 + FirstLine(s[1..]);
      assert s[..n] == [s[0]] + s[1..][..n - 1];
      n
  }

  /** The terminated lines of a text, in order; an unterminated last line is not among them. */
  function Lines(s: string): (lines: seq<string>)
    ensures forall line :: line in lines ==> IsLine(line)
    decreases |s|
  {
    if HasNewline(s) then [s[..FirstLine(s)]] + Lines(s[FirstLine(s)..]) else []
  }

  predicate Fits(line: string) {
    |line| <= MAX_LOCAL_FRAME_BYTES
  }

  function Fitting(lines: seq<string>): (frames: seq<string>)
    ensures forall line :: line in frames <==> line in lines && Fits(line)
  {
    if lines == [] then []
    else (if Fits(lines[0]) then [lines[0]] else []) + Fitting(lines[1..])
  }

  /** What is left after the first line, or nothing. */
  function AfterLine(s: string): string {
    if HasNewline(s) then s[FirstLine(s)..] else ""
  }

  function Joined(lines: seq<string>): string {
    if lines == [] then "" else lines[0] + Joined(lines[1..])
  }

  /** `Lines` is the only way to cut a text into lines and a rest without a newline. */
  lemma {:induction false} LinesAreTheOnlyCut(lines: seq<string>, rest: string)
    requires (forall line :: line in lines ==> IsLine(line)) && !HasNewline(rest)
    ensures Lines(Joined(lines) + rest) == lines
  {
    if lines == [] {
      assert Joined(lines) + rest == rest;
    } else {
      var s := Joined(lines) + rest;
      assert s == lines[0] + (Joined(lines[1..]) + rest);
      FirstLineIs(lines[0], Joined(lines[1..]) + rest);
      LinesAreTheOnlyCut(lines[1..], rest);
    }
  }

  lemma {:induction false} FirstLineIs(line: string, more: string)
    requires IsLine(line)
    ensures HasNewline(line + more) && FirstLine(line + more) == |line|
    ensures (line + more)[..|line|] == line && (line + more)[|line|..] == more
  {
    var s := line + more;
    assert s[|line| - 1] == '\n';
    if |line| > 1 {
      assert s[0] == line[..|line| - 1][0];
      assert s[1..] == line[1..] + more;
      assert line[1..][..|line| - 2] == line[..|line| - 1][1..];
      FirstLineIs(line[1..], more);
    }
  }

  lemma JoinedCons(line: string, lines: seq<string>, rest: string)
    ensures Joined([line] + lines) + rest == line + (Joined(lines) + rest)
  {
    assert ([line] + lines)[1..] == lines;
  }

  /** And together with some rest they make up the whole text. */
  lemma {:induction false} LinesMakeUpTheText(s: string) returns (rest: string)
    ensures s == Joined(Lines(s)) + rest && !HasNewline(rest)
    decreases |s|
  {
    if HasNewline(s) {
      var line, more := s[..FirstLine(s)], s[FirstLine(s)..];
      rest := LinesMakeUpTheText(more);
      assert s == line + more;
      JoinedCons(line, Lines(more), rest);
    } else {
      rest := s;
    }
  }

  /** The frames handed over are the lines of at most 4096 bytes, newline included ... */
  lemma FramesAreTheFitting(lines: seq<string>, line: string)
    ensures line in Fitting(lines) <==> line in lines && |line| <= 4096
  {}

  /** ... in their order. */
  lemma {:induction false} FramesInOrder(lines: seq<string>, more: seq<string>)
    ensures Fitting(lines + more) == Fitting(lines) + Fitting(more)
  {
    if lines == [] {
      assert lines + more == more;
    } else {
      var first := if Fits(lines[0]) then [lines[0]] else [];
      assert (lines + more)[1..] == lines[1..] + more;
      FramesInOrder(lines[1..], more);
      assert first + (Fitting(lines[1..]) + Fitting(more)) == first + Fitting(lines[1..]) + Fitting(more);
    }
  }

  // ----- bounded reads -----

  // How much one bounded readline returns.
  function ReadLength(s: string, limit: nat): (n: nat)
    ensures n <= |s| && n <= limit
  {
    if HasNewline(s) && FirstLine(s) <= limit then FirstLine(s)
    else if |s| < limit then |s|
    else limit
  }

  lemma {:induction false} FirstLineOnwards(s: string, n: nat)
    requires n <= |s| && '\n' !in s[..n]
    ensures HasNewline(s) <==> HasNewline(s[n..])
    ensures HasNewline(s) ==> FirstLine(s) == n + FirstLine(s[n..])
    ensures AfterLine(s) == AfterLine(s[n..])
  {
    if n == 0 {
      assert s[0..] == s;
    } else {
      assert s[0] == s[..n][0] && s[1..][..n - 1] == s[..n][1..];
      assert s == [s[0]] + s[1..] && s[1..][n - 1..] == s[n..];
      FirstLineOnwards(s[1..], n - 1);
      AfterLineOnwards(s);
    }
  }

  lemma AfterLineOnwards(s: string)
    requires s != "" && s[0] != '\n'
    ensures AfterLine(s) == AfterLine(s[1..])
  {
    assert s == [s[0]] + s[1..];
    if HasNewline(s) {
      assert s[FirstLine(s)..] == s[1..][FirstLine(s[1..])..];
    }
  }

  lemma ShortReadHasNoNewline(s: string, limit: nat)
    requires !(HasNewline(s) && FirstLine(s) <= limit)
    ensures '\n' !in s[..ReadLength(s, limit)]
  {
    if HasNewline(s) {
      var n := FirstLine(s);
      assert s[..limit] == s[..n][..n - 1][..limit];
    }
  }

  class Reader {
    var input: string // what the stream still holds
    var frames: seq<string> // handed to process_frame, in order
    var closed: bool

    constructor (input: string)
      ensures this.input == input && frames == [] && !closed
    {
      this.input := input;
      frames := [];
      closed := false;
    }

    /** BinaryIO.readline with a size limit: up to a newline, the limit or the end of the stream. */
    method ReadLine(limit: nat) returns (raw: string)
      requires limit > 0
      modifies this`input
      ensures raw + input == old(input)
      ensures raw == "" <==> old(input) == ""
      ensures |raw| == ReadLength(old(input), limit)
    {
      var n := 0;
      var found := false;
      while n < limit && n < |input| && !found
        invariant n <= |input| && n <= limit && (n == 0 ==> !found)
        invariant found ==> input[n - 1] == '\n' && '\n' !in input[..n - 1]
        invariant !found ==> '\n' !in input[..n]
        decreases |input| - n, !found
      {
        found := input[n] == '\n';
        n := n + 1;
      }
      if found {
        FirstLineIs(input[..n], input[n..]);
        assert input[..n][..n - 1] == input[..n - 1];
        assert input == input[..n] + input[n..];
      } else {
        FirstLineOnwards(input, n);
      }
      raw, input := input[..n], input[n..];
    }

    method DiscardToNewline() returns (found: bool)
      modifies this`input
      ensures found == HasNewline(old(input)) && input == AfterLine(old(input))
    {
      while true
        invariant HasNewline(input) == HasNewline(old(input)) && AfterLine(input) == AfterLine(old(input))
        decreases |input|
      {
        ghost var before := input;
        var chunk := ReadLine(MAX_LOCAL_FRAME_BYTES + 1);
        if chunk == "" {
          return false;
        }
        ReadIs(before, chunk, input, MAX_LOCAL_FRAME_BYTES + 1);
        if chunk[|chunk| - 1] == '\n' {
          return true;
        }
      }
    }

    /** Hands over exactly the terminated lines that fit, in order, whatever stands between them, and ends. */
    method Run()
      modifies this
      ensures input == "" && closed
      ensures frames == old(frames) + Fitting(Lines(old(input)))
    {
      while true
        invariant frames + Fitting(Lines(input)) == old(frames) + Fitting(Lines(old(input)))
        decreases |input|
      {
        ghost var before := input;
        var raw := ReadLine(MAX_LOCAL_FRAME_BYTES + 1);
        if raw == "" {
          break;
        }
        if |raw| <= MAX_LOCAL_FRAME_BYTES && raw[|raw| - 1] == '\n' {
          WholeLine(before, raw, input);
          OneMoreFrame(frames, raw, Fitting(Lines(input)));
          frames := frames + [raw];
          continue;
        }
        if raw[|raw| - 1] == '\n' {
          WholeLine(before, raw, input);
          assert [] + Fitting(Lines(input)) == Fitting(Lines(input));
          continue;
        }
        PartOfLine(before, raw, input);
        var found := DiscardToNewline();
        if !found {
          break;
        }
      }
      closed := true;
    }
  }

  // The frames of a text are its first line, if that fits, and those of the rest.
  lemma FirstFrame(s: string)
    requires HasNewline(s)
    ensures Fitting(Lines(s)) == (if Fits(s[..FirstLine(s)]) then [s[..FirstLine(s)]] else []) + Fitting(Lines(AfterLine(s)))
  {
    var lines := [s[..FirstLine(s)]] + Lines(AfterLine(s));
    assert Lines(s) == lines && lines[1..] == Lines(AfterLine(s));
  }

  // A read that ends in a newline is the first line.
  lemma WholeLine(before: string, raw: string, after: string)
    requires raw + after == before && raw != "" && |raw| == ReadLength(before, MAX_LOCAL_FRAME_BYTES + 1)
    requires raw[|raw| - 1] == '\n'
    ensures Fitting(Lines(before)) == (if Fits(raw) then [raw] else []) + Fitting(Lines(after))
  {
    ReadIs(before, raw, after, MAX_LOCAL_FRAME_BYTES + 1);
    FirstFrame(before);
    assert before[..|raw|] == raw;
  }

  // One that does not is the beginning of a line that is too long or never ends.
  lemma PartOfLine(before: string, raw: string, after: string)
    requires raw + after == before && raw != "" && |raw| == ReadLength(before, MAX_LOCAL_FRAME_BYTES + 1)
    requires raw[|raw| - 1] != '\n'
    ensures Fitting(Lines(before)) == Fitting(Lines(AfterLine(after)))
  {
    ReadIs(before, raw, after, MAX_LOCAL_FRAME_BYTES + 1);
    if HasNewline(before) {
      FirstFrame(before);
    }
  }

  lemma OneMoreFrame(frames: seq<string>, frame: string, more: seq<string>)
    ensures frames + ([frame] + more) == (frames + [frame]) + more
  {}

  // What a bounded read says about the text it was taken from.
  lemma ReadIs(before: string, raw: string, after: string, limit: nat)
    requires raw + after == before && raw != "" && |raw| == ReadLength(before, limit)
    ensures raw[|raw| - 1] == '\n' ==>
              HasNewline(before) && FirstLine(before) == |raw| && AfterLine(before) == after
    ensures raw[|raw| - 1] != '\n' ==>
              && HasNewline(before) == HasNewline(after) && AfterLine(before) == AfterLine(after)
              && (HasNewline(before) ==> FirstLine(before) > limit)
  {
    assert before[..|raw|] == raw && before[|raw|..] == after;
    if !(HasNewline(before) && FirstLine(before) <= limit) {
      ShortReadHasNoNewline(before, limit);
      FirstLineOnwards(before, |raw|);
    }
  }
}
