/**
 The generation marker is written as JSON with every non-ASCII character escaped, but accepted for deletion only if it
 equals its own JSON without such escapes. Strings are sequences of code points.
 */
module MarkerEncoding {
  type CodePoint = c: int | 0 <= c < 0x110000

  type Text = seq<CodePoint>

  const QUOTE: CodePoint := 34
  const BACKSLASH: CodePoint := 92
  const TILDE: CodePoint := 126
  const LETTER_U: CodePoint := 117

  function HexDigit(d: int): CodePoint
    requires 0 <= d < 16
  {
    if d < 10 then 48 + d else 87 + d
  }

  function Unicode4(c: int): (t: Text)
    requires 0 <= c < 0x10000
    ensures |t| == 6
  {
    [BACKSLASH, LETTER_U, HexDigit(c / 4096), HexDigit(c / 256 % 16), HexDigit(c / 16 % 16), HexDigit(c % 16)]
  }

  // Escapes both encoders share: quotes, backslashes and the named control characters.
  function Named(c: CodePoint): Text {
    if c == QUOTE then [BACKSLASH, QUOTE]
    else if c == BACKSLASH then [BACKSLASH, BACKSLASH]
    else if c == 8 then [BACKSLASH, 98]
    else if c == 9 then [BACKSLASH, 116]
    else if c == 10 then [BACKSLASH, 110]
    else if c == 12 then [BACKSLASH, 102]
    else if c == 13 then [BACKSLASH, 114]
    else []
  }

  /** ensure_ascii=True: printable ASCII stays, everything else becomes one or two \u escapes. */
  function AsciiEscape(c: CodePoint): Text {
    if Named(c) != [] then Named(c)
    else if 32 <= c <= TILDE then [c]
    else if c < 0x10000 then Unicode4(c)
    else Unicode4(0xD800 + (c - 0x10000) / 1024) + Unicode4(0xDC00 + (c - 0x10000) % 1024)
  }

  /** ensure_ascii=False: only control characters are escaped. */
  function PlainEscape(c: CodePoint): Text {
    if Named(c) != [] then Named(c)
    else if c < 32 then Unicode4(c)
    else [c]
  }

  function AsciiJson(t: Text): Text {
    if t == [] then [] else AsciiEscape(t[0]) + AsciiJson(t[1..])
  }

  function PlainJson(t: Text): Text {
    if t == [] then [] else PlainEscape(t[0]) + PlainJson(t[1..])
  }

  /** What the marker was written with is what the check before deletion expects. */
  predicate Canonical(t: Text) {
    AsciiJson(t) == PlainJson(t)
  }

  predicate Printable(t: Text) {
    forall i :: 0 <= i < |t| ==> t[i] <= TILDE
  }

  lemma {:induction false} AsciiIsNoShorter(t: Text)
    ensures |AsciiJson(t)| >= |PlainJson(t)|
    ensures |AsciiJson(t)| == |PlainJson(t)| ==> Printable(t)
  {
    if t != [] {
      AsciiIsNoShorter(t[1..]);
      assert |AsciiEscape(t[0])| >= |PlainEscape(t[0])|;
      if |AsciiJson(t)| == |PlainJson(t)| {
        forall i | 0 <= i < |t|
          ensures t[i] <= TILDE
        {
          if i > 0 {
            assert t[i] == t[1..][i - 1];
          }
        }
      }
    }
  }

  lemma {:induction false} PrintableIsSame(t: Text)
    requires Printable(t)
    ensures AsciiJson(t) == PlainJson(t)
  {
    if t != [] {
      PrintableIsSame(t[1..]);
    }
  }

  /** A marker can be verified exactly when no character is DEL or beyond: being ASCII is not quite enough. */
  lemma CanonicalExactly(t: Text)
    ensures Canonical(t) <==> Printable(t)
  {
    AsciiIsNoShorter(t);
    if Printable(t) {
      PrintableIsSame(t);
    }
  }

  // ----- reading the strings back, by section 7 of RFC 8259 -----

  function HexValue(c: CodePoint): (d: int)
    ensures 0 <= d < 16
  {
    if 48 <= c <= 57 then c - 48
    else if 97 <= c <= 102 then c - 87
    else if 65 <= c <= 70 then c - 55
    else 0
  }

  predicate StartsUnicode(s: Text) {
    |s| >= 6 && s[0] == BACKSLASH && s[1] == LETTER_U
  }

  // The four digits after a backslash and a u.
  function UnicodeValue(s: Text): (c: int)
    requires StartsUnicode(s)
    ensures 0 <= c < 0x10000
  {
    4096 * HexValue(s[2]) + 256 * HexValue(s[3]) + 16 * HexValue(s[4]) + HexValue(s[5])
  }

  predicate IsHigh(c: int) {
    0xD800 <= c < 0xDC00
  }

  predicate IsLow(c: int) {
    0xDC00 <= c < 0xE000
  }

  predicate StartsPair(s: Text) {
    && StartsUnicode(s) && IsHigh(UnicodeValue(s))
    && StartsUnicode(s[6..]) && IsLow(UnicodeValue(s[6..]))
  }

  function Meaning(letter: CodePoint): CodePoint {
    if letter == 98 then 8
    else if letter == 102 then 12
    else if letter == 110 then 10
    else if letter == 114 then 13
    else if letter == 116 then 9
    else letter
  }

  /** The first character of a JSON string and what follows it. */
  function ReadOne(s: Text): (r: (CodePoint, Text))
    requires s != []
    ensures |r.1| < |s|
  {
    if s[0] != BACKSLASH || |s| == 1 then (s[0], s[1..])
    else if StartsPair(s) then
      (0x10000 + 1024 * (UnicodeValue(s) - 0xD800) + (UnicodeValue(s[6..]) - 0xDC00), s[12..])
    else if StartsUnicode(s) then (UnicodeValue(s), s[6..])
    else (Meaning(s[1]), s[2..])
  }

  function ReadJson(s: Text): Text
    decreases |s|
  {
    if s == [] then [] else [ReadOne(s).0] + ReadJson(ReadOne(s).1)
  }

  lemma HexReadsBack(d: int)
    requires 0 <= d < 16
    ensures HexValue(HexDigit(d)) == d
  {}

  lemma FourDigits(c: int)
    requires 0 <= c < 0x10000
    ensures 0 <= c / 4096 < 16
    ensures 4096 * (c / 4096) + 256 * (c / 256 % 16) + 16 * (c / 16 % 16) + c % 16 == c
  {
    assert c / 256 == c / 16 / 16 && c / 4096 == c / 256 / 16;
  }

  lemma Unicode4ReadsBack(c: int, more: Text)
    requires 0 <= c < 0x10000
    ensures StartsUnicode(Unicode4(c) + more) && UnicodeValue(Unicode4(c) + more) == c
    ensures (Unicode4(c) + more)[6..] == more
  {
    FourDigits(c);
    HexReadsBack(c / 4096);
    HexReadsBack(c / 256 % 16);
    HexReadsBack(c / 16 % 16);
    HexReadsBack(c % 16);
  }

  lemma NamedReadsBack(c: CodePoint, more: Text)
    requires Named(c) != []
    ensures ReadOne(Named(c) + more) == (c, more)
  {
    var s := Named(c) + more;
    assert s[1] == Named(c)[1] && s[2..] == more;
  }

  // Two halves of a pair written one after the other would read as one character.
  predicate MayFollow(c: CodePoint, more: Text) {
    IsHigh(c) && StartsUnicode(more) ==> !IsLow(UnicodeValue(more))
  }

  lemma AstralReadsBack(c: CodePoint, more: Text)
    requires c >= 0x10000
    ensures ReadOne(AsciiEscape(c) + more) == (c, more)
  {
    var high, low := 0xD800 + (c - 0x10000) / 1024, 0xDC00 + (c - 0x10000) % 1024;
    var s := AsciiEscape(c) + more;
    assert s == Unicode4(high) + (Unicode4(low) + more);
    Unicode4ReadsBack(high, Unicode4(low) + more);
    Unicode4ReadsBack(low, more);
    assert s[12..] == s[6..][6..];
  }

  lemma EscapeReadsBack(c: CodePoint, more: Text)
    requires MayFollow(c, more)
    ensures ReadOne(AsciiEscape(c) + more) == (c, more)
  {
    if Named(c) != [] {
      NamedReadsBack(c, more);
    } else if 32 <= c <= TILDE {
      assert ([c] + more)[1..] == more;
    } else if c < 0x10000 {
      Unicode4ReadsBack(c, more);
    } else {
      AstralReadsBack(c, more);
    }
  }

  lemma PlainReadsBack(c: CodePoint, more: Text)
    ensures ReadOne(PlainEscape(c) + more) == (c, more)
  {
    if Named(c) != [] {
      NamedReadsBack(c, more);
    } else if c < 32 {
      Unicode4ReadsBack(c, more);
    } else {
      assert ([c] + more)[1..] == more;
    }
  }

  /** No high surrogate stands directly before a low one; so it is in every text of valid characters. */
  predicate NoPairs(t: Text) {
    forall i :: 0 <= i < |t| - 1 ==> !(IsHigh(t[i]) && IsLow(t[i + 1]))
  }

  // What an escape begins with: the character itself or the first half of its pair.
  lemma EscapeValue(c: CodePoint, more: Text)
    requires Named(c) == [] && !(32 <= c <= TILDE)
    ensures StartsUnicode(AsciiEscape(c) + more)
    ensures UnicodeValue(AsciiEscape(c) + more) == if c < 0x10000 then c else 0xD800 + (c - 0x10000) / 1024
  {
    if c < 0x10000 {
      Unicode4ReadsBack(c, more);
    } else {
      var high, low := 0xD800 + (c - 0x10000) / 1024, 0xDC00 + (c - 0x10000) % 1024;
      assert AsciiEscape(c) + more == Unicode4(high) + (Unicode4(low) + more);
      Unicode4ReadsBack(high, Unicode4(low) + more);
    }
  }

  // An escape that reads as a low surrogate is that of one.
  lemma StartOfEscape(c: CodePoint, more: Text)
    requires StartsUnicode(AsciiEscape(c) + more) && IsLow(UnicodeValue(AsciiEscape(c) + more))
    ensures IsLow(c)
  {
    if Named(c) == [] && !(32 <= c <= TILDE) {
      EscapeValue(c, more);
    }
  }

  lemma HeadReadsBack(t: Text)
    requires t != [] && !(|t| > 1 && IsHigh(t[0]) && IsLow(t[1]))
    ensures ReadOne(AsciiJson(t)) == (t[0], AsciiJson(t[1..]))
  {
    var more := AsciiJson(t[1..]);
    if StartsUnicode(more) && IsLow(UnicodeValue(more)) {
      StartOfEscape(t[1], AsciiJson(t[1..][1..]));
    }
    EscapeReadsBack(t[0], more);
  }

  // A pair of surrogates reads as one character.
  lemma PairIsMerged(t: Text)
    requires |t| > 1 && IsHigh(t[0]) && IsLow(t[1])
    ensures ReadOne(AsciiJson(t)).1 == AsciiJson(t[2..])
  {
    var more := AsciiJson(t[2..]);
    assert t[1..][1..] == t[2..];
    assert AsciiJson(t) == Unicode4(t[0]) + (Unicode4(t[1]) + more);
    Unicode4ReadsBack(t[0], Unicode4(t[1]) + more);
    Unicode4ReadsBack(t[1], more);
    assert AsciiJson(t)[12..] == AsciiJson(t)[6..][6..];
  }

  lemma NoPairsInRest(t: Text)
    requires t != [] && !(|t| > 1 && IsHigh(t[0]) && IsLow(t[1]))
    ensures NoPairs(t) <==> NoPairs(t[1..])
  {
    assert forall i :: 0 <= i < |t[1..]| ==> t[1..][i] == t[i + 1];
    assert forall i :: 0 < i < |t| ==> t[i] == t[1..][i - 1];
  }

  lemma {:induction false} ReadsNoLonger(t: Text)
    ensures |ReadJson(AsciiJson(t))| <= |t|
    ensures |ReadJson(AsciiJson(t))| == |t| ==> NoPairs(t)
    decreases |t|
  {
    if t == [] {
    } else if |t| > 1 && IsHigh(t[0]) && IsLow(t[1]) {
      PairIsMerged(t);
      ReadsNoLonger(t[2..]);
    } else {
      HeadReadsBack(t);
      ReadsNoLonger(t[1..]);
      NoPairsInRest(t);
    }
  }

  lemma {:induction false} WithoutPairsReadsBack(t: Text)
    requires NoPairs(t)
    ensures ReadJson(AsciiJson(t)) == t
  {
    if t != [] {
      HeadReadsBack(t);
      NoPairsInRest(t);
      WithoutPairsReadsBack(t[1..]);
      assert t == [t[0]] + t[1..];
    }
  }

  lemma {:induction false} PlainJsonReadsBack(t: Text)
    ensures ReadJson(PlainJson(t)) == t
  {
    if t != [] {
      PlainReadsBack(t[0], PlainJson(t[1..]));
      PlainJsonReadsBack(t[1..]);
      assert t == [t[0]] + t[1..];
    }
  }

  /** A reader gets back every text from its plain form, and from its escaped form exactly those without such a pair. */
  lemma JsonReadsBack(t: Text)
    ensures ReadJson(PlainJson(t)) == t
    ensures ReadJson(AsciiJson(t)) == t <==> NoPairs(t)
  {
    PlainJsonReadsBack(t);
    ReadsNoLonger(t);
    if NoPairs(t) {
      WithoutPairsReadsBack(t);
    }
  }
}
