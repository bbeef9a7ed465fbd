/**
 The managed block in .bashrc (lifecycle_integrations.py): inserting it, migrating the older form, and taking it out
 again. Bytes are characters here; only equality of bytes matters.
 */
module BashrcBlock {
  import opened Wrappers

  datatype Desired = Enable | Disable | Preserve

  datatype Refusal = BothMarkers | MalformedV1 | MalformedLegacy | LegacyWithoutV1

  const V1_BEGIN := "# >>> termrecall v1 >>>\n"
  const V1_END := "# <<< termrecall v1 <<<\n"
  const LEGACY_BEGIN := "# BEGIN termrecall\n"
  const LEGACY_END := "# END termrecall\n"

  // ----- searching -----

  predicate At(s: string, i: int, p: string) {
    0 <= i <= |s| - |p| && s[i..i + |p|] == p
  }

  predicate Contains(s: string, p: string) {
    exists i :: 0 <= i <= |s| - |p| && At(s, i, p)
  }

  /** bytes.count: occurrences from the left, none overlapping the one before. */
  function Count(s: string, p: string): nat
    requires p != ""
  {
    if |s| < |p| then 0
    else if p <= s then 1 + Count(s[|p|..], p)
    else Count(s[1..], p)
  }

  /** bytes.index. */
  function Index(s: string, p: string): nat
    requires Contains(s, p)
  {
    if At(s, 0, p) then 0
    else
      ContainsTail(s, p);
      1 + Index(s[1..], p)
  }

  lemma AtTail(s: string, i: nat, p: string)
    requires s != "" && i > 0
    ensures At(s, i, p) <==> At(s[1..], i - 1, p)
  {
    if i + |p| <= |s| {
      assert s[1..][i - 1..i - 1 + |p|] == s[i..i + |p|];
    }
  }

  lemma ContainsTail(s: string, p: string)
    requires Contains(s, p) && !At(s, 0, p)
    ensures s != "" && Contains(s[1..], p)
  {
    var i :| 0 <= i <= |s| - |p| && At(s, i, p);
    AtTail(s, i, p);
  }

  /** It is the first occurrence. */
  lemma {:induction false} IndexIsFirst(s: string, p: string)
    requires Contains(s, p)
    ensures At(s, Index(s, p), p) && forall j :: 0 <= j < Index(s, p) ==> !At(s, j, p)
  {
    if !At(s, 0, p) {
      ContainsTail(s, p);
      IndexIsFirst(s[1..], p);
      AtTail(s, Index(s, p), p);
      forall j | 0 < j < Index(s, p)
        ensures !At(s, j, p)
      {
        AtTail(s, j, p);
      }
    }
  }

  lemma IndexInRange(s: string, p: string)
    requires Contains(s, p)
    ensures Index(s, p) + |p| <= |s|
  {
    IndexIsFirst(s, p);
  }

  // ----- the transform -----

  function Escaped(path: string): string {
    if path == "" then ""
    else (if path[0] == '\'' then "'\"'\"'" else [path[0]]) + Escaped(path[1..])
  }

  function ShellQuote(path: string): string {
    "'" + Escaped(path) + "'"
  }

  function SourceLine(path: string): string {
    "[ -f " + ShellQuote(path) + " ] && . " + ShellQuote(path) + "\n"
  }

  function V1Block(path: string): string {
    V1_BEGIN + SourceLine(path) + V1_END
  }

  function LegacyBlock(path: string): string {
    LEGACY_BEGIN + "source " + ShellQuote(path) + "\n" + LEGACY_END
  }

  predicate HasV1(raw: string) {
    Count(raw, V1_BEGIN) + Count(raw, V1_END) > 0
  }

  predicate HasLegacy(raw: string) {
    Count(raw, LEGACY_BEGIN) + Count(raw, LEGACY_END) > 0
  }

  predicate OneV1(raw: string, path: string) {
    Count(raw, V1_BEGIN) == 1 && Count(raw, V1_END) == 1 && Contains(raw, V1Block(path))
  }

  predicate OneLegacy(raw: string, path: string) {
    Count(raw, LEGACY_BEGIN) == 1 && Count(raw, LEGACY_END) == 1 && Contains(raw, LegacyBlock(path))
  }

  function Enabled(raw: string, path: string): Result<string, Refusal> {
    var v1, legacy := V1Block(path), LegacyBlock(path);
    if HasV1(raw) && HasLegacy(raw) then Err(BothMarkers)
    else if HasV1(raw) then if OneV1(raw, path) then Ok(raw) else Err(MalformedV1)
    else if HasLegacy(raw) then
      if OneLegacy(raw, path) then
        IndexInRange(raw, legacy);
        var i := Index(raw, legacy);
        Ok(raw[..i] + v1 + raw[i + |legacy|..])
      else Err(MalformedLegacy)
    else if raw == "" then Ok(v1)
    else Ok(raw + "\n" + v1)
  }

  // One owned separator newline goes with the block.
  function WithoutBlock(s: string, i: nat, n: nat): string
    requires i + n <= |s|
  {
    (if i > 0 && s[i - 1] == '\n' then s[..i - 1] else s[..i]) + s[i + n..]
  }

  function Disabled(raw: string, path: string): Result<string, Refusal> {
    var v1 := V1Block(path);
    if HasV1(raw) && HasLegacy(raw) then Err(BothMarkers)
    else if HasV1(raw) then
      if OneV1(raw, path) then
        IndexInRange(raw, v1);
        Ok(WithoutBlock(raw, Index(raw, v1), |v1|))
      else Err(MalformedV1)
    else if HasLegacy(raw) then Err(LegacyWithoutV1)
    else Ok(raw)
  }

  function Transform(raw: string, path: string, state: Desired): Result<string, Refusal> {
    match state
    case Preserve => Ok(raw)
    case Enable => Enabled(raw, path)
    case Disable => Disabled(raw, path)
  }

  // ----- counting across concatenation -----

  /** One line: its only newline ends it. */
  predicate IsLine(p: string) {
    p != "" && p[|p| - 1] == '\n' && forall i :: 0 <= i < |p| - 1 ==> p[i] != '\n'
  }

  predicate EndsLine(s: string) {
    s == "" || s[|s| - 1] == '\n'
  }

  // `b` cannot end an occurrence of the line `p` begun before it.
  predicate StartsClear(b: string, p: string) {
    forall i :: 0 <= i < |b| && i < |p| - 1 ==> b[i] != '\n'
  }

  lemma {:induction false} CountSplit(a: string, b: string, p: string)
    requires IsLine(p) && (EndsLine(a) || StartsClear(b, p))
    ensures Count(a + b, p) == Count(a, p) + Count(b, p)
  {
    if a == "" {
      assert a + b == b;
    } else if p <= a {
      assert (a + b)[|p|..] == a[|p|..] + b;
      assert p <= a + b;
      CountSplit(a[|p|..], b, p);
    } else {
      CountShort(a, p);
      if |a + b| >= |p| {
        if |a| >= |p| {
          assert (a + b)[..|p|] == a[..|p|];
        } else if EndsLine(a) {
          NotPrefix(a + b, p, |a| - 1);
        } else {
          NotPrefix(a + b, p, |p| - 1);
        }
        assert (a + b)[1..] == a[1..] + b;
        CountSplit(a[1..], b, p);
      }
    }
  }

  lemma NotPrefix(s: string, p: string, i: nat)
    requires i < |p| <= |s| && s[i] != p[i]
    ensures !(p <= s)
  {}

  lemma CountShort(a: string, p: string)
    requires a != "" && p != "" && !(p <= a)
    ensures Count(a, p) == Count(a[1..], p)
  {}

  lemma {:induction false} CountIsPositive(s: string, i: nat, p: string)
    requires p != "" && At(s, i, p)
    ensures Count(s, p) > 0
  {
    assert i == 0 ==> s[..|p|] == p;
    if !(p <= s) {
      assert s[1..][i - 1..i - 1 + |p|] == s[i..i + |p|];
      CountIsPositive(s[1..], i - 1, p);
    }
  }

  lemma {:induction false} PositiveIsContained(s: string, p: string)
    requires p != "" && Count(s, p) > 0
    ensures Contains(s, p)
  {
    if p <= s {
      assert At(s, 0, p);
    } else {
      PositiveIsContained(s[1..], p);
      var i :| 0 <= i <= |s| - 1 - |p| && At(s[1..], i, p);
      assert s[1..][i..i + |p|] == s[i + 1..i + 1 + |p|];
      assert At(s, i + 1, p);
    }
  }

  // A longer text has the occurrences of its parts.
  lemma CountOfPart(a: string, b: string, c: string, p: string)
    requires p != "" && Count(b, p) > 0
    ensures Count(a + b + c, p) > 0
  {
    PositiveIsContained(b, p);
    var i :| 0 <= i <= |b| - |p| && At(b, i, p);
    assert (a + b + c)[|a| + i..|a| + i + |p|] == b[i..i + |p|];
    CountIsPositive(a + b + c, |a| + i, p);
  }

  // Within one line, another line can only be its end.
  lemma {:induction false} CountInLine(s: string, p: string)
    requires IsLine(s) && IsLine(p)
    ensures Count(s, p) == if |p| <= |s| && s[|s| - |p|..] == p then 1 else 0
  {
    if |p| < |s| {
      NotPrefix(s, p, |p| - 1);
      assert s[1..][|s| - 1 - |p|..] == s[|s| - |p|..];
      CountInLine(s[1..], p);
    } else if |p| == |s| {
      assert s[0..] == s;
      assert s[|p|..] == "";
    }
  }

  // ----- the markers -----

  predicate IsMarker(p: string) {
    p == V1_BEGIN || p == V1_END || p == LEGACY_BEGIN || p == LEGACY_END
  }

  /** No marker line anywhere. */
  predicate Clean(s: string) {
    !HasV1(s) && !HasLegacy(s)
  }

  lemma MarkersAreLines(p: string)
    requires IsMarker(p)
    ensures IsLine(p) && |p| <= 24
  {}

  // Seen from the end, two characters tell the markers apart.
  function Signature(p: string): (char, char)
    requires |p| >= 14
  {
    (p[|p| - 2], p[|p| - 14])
  }

  lemma MarkerSignature(p: string)
    requires IsMarker(p)
    ensures |p| >= 14
    ensures p == V1_BEGIN ==> Signature(p).0 == '>'
    ensures p == V1_END ==> Signature(p).0 == '<'
    ensures p == LEGACY_BEGIN ==> Signature(p) == ('l', 'I')
    ensures p == LEGACY_END ==> Signature(p) == ('l', 'N')
  {}

  lemma SuffixSignature(p: string, n: nat)
    requires 14 <= n <= |p|
    ensures Signature(p[|p| - n..]) == Signature(p)
  {}

  lemma MarkersDiffer(p: string, q: string)
    requires IsMarker(p) && IsMarker(q)
    ensures Count(p, q) == if p == q then 1 else 0
  {
    MarkersAreLines(p);
    MarkersAreLines(q);
    MarkerSignature(p);
    MarkerSignature(q);
    CountInLine(p, q);
    if |q| <= |p| {
      SuffixSignature(p, |q|);
    }
    assert p == q ==> p[0..] == q;
  }

  // ----- a text around the V1 block -----

  lemma BlockStartsClear(path: string, p: string)
    requires IsMarker(p)
    ensures StartsClear(V1Block(path), p)
  {
    MarkersAreLines(V1_BEGIN);
    MarkersAreLines(p);
    var block := V1Block(path);
    assert block == V1_BEGIN + (SourceLine(path) + V1_END);
    assert forall i :: 0 <= i < |V1_BEGIN| ==> block[i] == V1_BEGIN[i];
  }

  lemma BlockMarkers(path: string, p: string)
    requires IsMarker(p)
    ensures Count(V1Block(path), p)
         == Count(SourceLine(path), p) + if p == V1_BEGIN || p == V1_END then 1 else 0
  {
    MarkersAreLines(p);
    CountSplit(V1_BEGIN + SourceLine(path), V1_END, p);
    CountSplit(V1_BEGIN, SourceLine(path), p);
    MarkersDiffer(V1_BEGIN, p);
    MarkersDiffer(V1_END, p);
    assert V1_BEGIN != V1_END by {
      MarkerSignature(V1_BEGIN);
      MarkerSignature(V1_END);
    }
  }

  /** Whatever stands before and after the block, no marker line straddles its edges. */
  lemma AroundBlock(pre: string, post: string, path: string, p: string)
    requires IsMarker(p)
    ensures Count(pre + V1Block(path) + post, p)
         == Count(pre, p) + Count(post, p) + Count(SourceLine(path), p) + if p == V1_BEGIN || p == V1_END then 1 else 0
  {
    MarkersAreLines(p);
    BlockStartsClear(path, p);
    CountSplit(pre + V1Block(path), post, p);
    CountSplit(pre, V1Block(path), p);
    BlockMarkers(path, p);
  }

  /** With the block in it, a text is well formed exactly when nothing else in it is a marker line. */
  lemma BlockIsOnly(pre: string, post: string, path: string)
    ensures var s := pre + V1Block(path) + post;
            && HasV1(s)
            && ((!HasLegacy(s) && OneV1(s, path)) <==> Clean(pre) && Clean(post) && Clean(SourceLine(path)))
  {
    AroundBlock(pre, post, path, V1_BEGIN);
    AroundBlock(pre, post, path, V1_END);
    AroundBlock(pre, post, path, LEGACY_BEGIN);
    AroundBlock(pre, post, path, LEGACY_END);
    MarkersAreDistinct();
    HoldsBlock(pre, post, path);
  }

  lemma MarkersAreDistinct()
    ensures V1_BEGIN != V1_END && LEGACY_BEGIN != V1_BEGIN && LEGACY_BEGIN != V1_END
    ensures LEGACY_END != V1_BEGIN && LEGACY_END != V1_END
  {
    MarkerSignature(V1_BEGIN);
    MarkerSignature(V1_END);
    MarkerSignature(LEGACY_BEGIN);
    MarkerSignature(LEGACY_END);
  }

  lemma HoldsBlock(pre: string, post: string, path: string)
    ensures Contains(pre + V1Block(path) + post, V1Block(path))
  {
    assert (pre + V1Block(path) + post)[|pre|..|pre| + |V1Block(path)|] == V1Block(path);
    assert At(pre + V1Block(path) + post, |pre|, V1Block(path));
  }

  lemma BlockBegins(path: string)
    ensures V1_BEGIN <= V1Block(path) && LEGACY_BEGIN <= LegacyBlock(path)
  {
    assert V1Block(path) == V1_BEGIN + (SourceLine(path) + V1_END);
    assert LegacyBlock(path) == LEGACY_BEGIN + ("source " + ShellQuote(path) + "\n" + LEGACY_END);
  }

  lemma OnlyIndex(pre: string, block: string, post: string, m: string)
    requires IsLine(m) && m <= block && Count(pre, m) == 0
    ensures var s := pre + block + post; Contains(s, block) && Index(s, block) == |pre|
  {
    var s := pre + block + post;
    assert s[|pre|..|pre| + |block|] == block;
    assert At(s, |pre|, block);
    IndexIsFirst(s, block);
    var i := Index(s, block);
    if i < |pre| {
      EarlierBlock(pre, block, post, m, i);
    }
  }

  lemma SliceOfSlice(s: string, i: nat, m: nat, n: nat)
    requires n <= m && i + m <= |s|
    ensures s[i..i + m][..n] == s[i..i + n]
  {}

  lemma EarlierBlock(pre: string, block: string, post: string, m: string, i: nat)
    requires IsLine(m) && m <= block && i < |pre| && At(pre + block + post, i, block)
    ensures Count(pre, m) > 0
  {
    var s, n := pre + block + post, |m|;
    SliceOfSlice(s, i, |block|, n);
    assert block[..n] == m;
    if i + n <= |pre| {
      assert pre[i..i + n] == s[i..i + n];
      CountIsPositive(pre, i, m);
    } else {
      NoStraddle(pre, block, post, m, i);
    }
  }

  // The newline ending an earlier line would fall inside the first line of the block.
  lemma NoStraddle(pre: string, block: string, post: string, m: string, i: nat)
    requires IsLine(m) && m <= block && i < |pre| < i + |m|
    ensures (pre + block + post)[i..i + |m|] != m
  {
    var s, n := pre + block + post, |m|;
    assert s[i..i + n][n - 1] == block[i + n - 1 - |pre|] == m[i + n - 1 - |pre|];
  }

  // ----- the source line -----

  lemma {:induction false} EscapedHasNoNewline(path: string)
    requires '\n' !in path
    ensures '\n' !in Escaped(path)
  {
    if path != "" {
      EscapedHasNoNewline(path[1..]);
    }
  }

  /** Unless the path itself holds a newline, the source line is no marker and holds none. */
  lemma SourceLineIsClean(path: string)
    requires '\n' !in path
    ensures Clean(SourceLine(path))
  {
    var line := SourceLine(path);
    EscapedHasNoNewline(path);
    assert '\n' !in ShellQuote(path);
    assert forall i :: 0 <= i < |line| - 1 ==> line[i] != '\n';
    assert IsLine(line) && line[|line| - 2] == '\'';
    QuotedLineIsNoMarker(line, V1_BEGIN);
    QuotedLineIsNoMarker(line, V1_END);
    QuotedLineIsNoMarker(line, LEGACY_BEGIN);
    QuotedLineIsNoMarker(line, LEGACY_END);
  }

  lemma QuotedLineIsNoMarker(line: string, p: string)
    requires IsLine(line) && |line| >= 2 && line[|line| - 2] == '\'' && IsMarker(p)
    ensures Count(line, p) == 0
  {
    MarkersAreLines(p);
    MarkerSignature(p);
    CountInLine(line, p);
    assert |p| <= |line| ==> line[|line| - |p|..][|p| - 2] == '\'';
  }

  // ----- the round trip -----

  predicate HasMarkers(raw: string) {
    HasV1(raw) || HasLegacy(raw)
  }

  lemma EmptyIsClean()
    ensures Clean("") && Clean("\n")
  {
    MarkerSignature(V1_BEGIN);
    MarkerSignature(V1_END);
    MarkerSignature(LEGACY_BEGIN);
    MarkerSignature(LEGACY_END);
  }

  // What enabling appends to a text without markers.
  function Separated(raw: string): string {
    if raw == "" then "" else raw + "\n"
  }

  lemma SeparatedIsClean(raw: string)
    ensures Clean(Separated(raw)) <==> Clean(raw + "\n")
  {
    EmptyIsClean();
    assert "" + "\n" == "\n";
  }

  lemma UncleanPart(raw: string, tail: string, p: string)
    requires p != "" && Count(raw, p) > 0
    ensures Count(raw + tail, p) > 0
  {
    CountOfPart("", raw, tail, p);
    assert "" + raw + tail == raw + tail;
  }

  lemma CleanPrefix(raw: string, tail: string)
    requires Clean(raw + tail)
    ensures Clean(raw)
  {
    if Count(raw, V1_BEGIN) > 0 { UncleanPart(raw, tail, V1_BEGIN); }
    if Count(raw, V1_END) > 0 { UncleanPart(raw, tail, V1_END); }
    if Count(raw, LEGACY_BEGIN) > 0 { UncleanPart(raw, tail, LEGACY_BEGIN); }
    if Count(raw, LEGACY_END) > 0 { UncleanPart(raw, tail, LEGACY_END); }
  }

  /** Taking the block out always shortens a text that has V1 markers. */
  lemma DisablingShortens(raw: string, path: string)
    requires HasV1(raw) && Disabled(raw, path).Ok?
    ensures |Disabled(raw, path).value| <= |raw| - |V1Block(path)|
  {
    IndexInRange(raw, V1Block(path));
  }

  lemma BlockIsLonger(path: string)
    ensures |LegacyBlock(path)| > 0 && |V1Block(path)| > 0
  {}

  // Where the block is the only marked part, taking it out leaves what is around it, less one separator.
  lemma TakenOut(pre: string, tail: string, path: string)
    requires Clean(pre) && Clean(tail) && Clean(SourceLine(path))
    ensures Disabled(pre + V1Block(path) + tail, path)
         == Ok((if pre != "" && pre[|pre| - 1] == '\n' then pre[..|pre| - 1] else pre) + tail)
  {
    var s := pre + V1Block(path) + tail;
    BlockIsOnly(pre, tail, path);
    MarkersAreLines(V1_BEGIN);
    BlockBegins(path);
    OnlyIndex(pre, V1Block(path), tail, V1_BEGIN);
    SlicesAround(pre, V1Block(path), tail);
    assert Disabled(s, path) == Ok(WithoutBlock(s, |pre|, |V1Block(path)|));
  }

  lemma SlicesAround(pre: string, block: string, tail: string)
    ensures var s := pre + block + tail;
            && s[|pre| + |block|..] == tail && s[..|pre|] == pre
            && (pre != "" ==> s[|pre| - 1] == pre[|pre| - 1] && s[..|pre| - 1] == pre[..|pre| - 1])
  {}

  /** Appending the block and, later, taking it out again with any text added after it: the original text comes back
      exactly when nothing else is a marker line. A separating newline can complete an unterminated marker. */
  lemma AppendedRoundTrip(raw: string, tail: string, path: string)
    requires Clean(raw)
    ensures Enabled(raw, path) == Ok(Separated(raw) + V1Block(path))
    ensures Disabled(Separated(raw) + V1Block(path) + tail, path) == Ok(raw + tail)
       <==> Clean(raw + "\n") && Clean(tail) && Clean(SourceLine(path))
  {
    var pre := Separated(raw);
    SeparatedIsClean(raw);
    assert "" + V1Block(path) == V1Block(path);
    if Clean(pre) && Clean(tail) && Clean(SourceLine(path)) {
      TakenOut(pre, tail, path);
      assert raw != "" ==> pre[..|pre| - 1] == raw;
    } else {
      BlockIsOnly(pre, tail, path);
    }
  }

  /** DISABLE(ENABLE(raw) ++ tail) == raw ++ tail, for all texts and all paths, exactly when no marker line stands in
      `raw` with a newline added, in `tail`, or in the source line. */
  lemma RoundTrip(raw: string, tail: string, path: string)
    ensures var enabled := Transform(raw, path, Enable);
            (enabled.Ok? && Transform(enabled.value + tail, path, Disable) == Ok(raw + tail))
            <==> Clean(raw + "\n") && Clean(tail) && Clean(SourceLine(path))
  {
    if Clean(raw) {
      AppendedRoundTrip(raw, tail, path);
    } else {
      if Clean(raw + "\n") {
        CleanPrefix(raw, "\n");
      }
      if Enabled(raw, path).Ok? {
        DirtyDoesNotRoundTrip(raw, tail, path);
      }
    }
  }

  lemma DirtyDoesNotRoundTrip(raw: string, tail: string, path: string)
    requires !Clean(raw) && Enabled(raw, path).Ok?
    ensures Disabled(Enabled(raw, path).value + tail, path) != Ok(raw + tail)
  {
    var pre, rest := AroundEnabled(raw, path);
    assert pre + V1Block(path) + rest + tail == pre + V1Block(path) + (rest + tail);
    RemovesBlock(pre, rest + tail, path);
  }

  lemma RemovesBlock(pre: string, post: string, path: string)
    ensures var disabled := Disabled(pre + V1Block(path) + post, path);
            disabled.Ok? ==> |disabled.value| <= |pre| + |post|
  {
    BlockIsOnly(pre, post, path);
    if Disabled(pre + V1Block(path) + post, path).Ok? {
      DisablingShortens(pre + V1Block(path) + post, path);
    }
  }

  lemma Around(raw: string, p: string) returns (pre: string, post: string)
    requires Contains(raw, p)
    ensures raw == pre + p + post && |pre| == Index(raw, p)
    ensures pre == raw[..Index(raw, p)] && Index(raw, p) + |p| <= |raw| && post == raw[Index(raw, p) + |p|..]
  {
    IndexIsFirst(raw, p);
    var i := Index(raw, p);
    pre, post := raw[..i], raw[i + |p|..];
  }

  // Enabling a marked text leaves the block, with less around it than the text it came from.
  lemma AroundEnabled(raw: string, path: string) returns (pre: string, post: string)
    requires !Clean(raw) && Enabled(raw, path).Ok?
    ensures Enabled(raw, path).value == pre + V1Block(path) + post && |pre| + |post| < |raw|
  {
    BlockIsLonger(path);
    if HasV1(raw) {
      pre, post := Around(raw, V1Block(path));
    } else {
      pre, post := Around(raw, LegacyBlock(path));
    }
  }

  /** Enabling twice is enabling once, exactly when the source line holds no marker and, if the block was appended,
      the newline before it completed none. */
  lemma EnableIsIdempotent(raw: string, path: string)
    requires Transform(raw, path, Enable).Ok?
    ensures var once := Transform(raw, path, Enable).value;
            Transform(once, path, Enable) == Ok(once) <==> Clean(SourceLine(path)) && (HasMarkers(raw) || Clean(raw + "\n"))
  {
    var once := Enabled(raw, path).value;
    if Clean(raw) {
      SeparatedIsClean(raw);
      EmptyIsClean();
      assert once == Separated(raw) + V1Block(path) + "" by {
        assert "" + V1Block(path) == V1Block(path);
      }
      EnabledAgain(Separated(raw), "", path);
    } else if HasV1(raw) {
      var pre, post := AroundEnabled(raw, path);
      EnabledAgain(pre, post, path);
      BlockIsOnly(pre, post, path);
    } else {
      var pre, post := AroundMigrated(raw, path);
      EnabledAgain(pre, post, path);
    }
  }

  lemma EnabledAgain(pre: string, post: string, path: string)
    ensures var s := pre + V1Block(path) + post;
            Enabled(s, path) == Ok(s) <==> Clean(pre) && Clean(post) && Clean(SourceLine(path))
  {
    BlockIsOnly(pre, post, path);
  }

  lemma AroundMigrated(raw: string, path: string) returns (pre: string, post: string)
    requires !HasV1(raw) && HasLegacy(raw) && Enabled(raw, path).Ok?
    ensures Enabled(raw, path).value == pre + V1Block(path) + post && Clean(pre) && Clean(post)
  {
    pre, post := Around(raw, LegacyBlock(path));
    LegacyWasOnly(pre, post, path);
  }

  // Around the one legacy block of a well-formed text there are no markers.
  lemma LegacyWasOnly(pre: string, post: string, path: string)
    requires var raw := pre + LegacyBlock(path) + post; !HasV1(raw) && OneLegacy(raw, path)
    ensures Clean(pre) && Clean(post)
  {
    var legacy := LegacyBlock(path);
    var raw := pre + legacy + post;
    NoneBeside(pre, post, path, V1_BEGIN);
    NoneBeside(pre, post, path, V1_END);
    LegacySplit(pre, post, path, LEGACY_BEGIN);
    LegacySplit(pre, post, path, LEGACY_END);
  }

  lemma NoneBeside(pre: string, post: string, path: string, p: string)
    requires p != "" && Count(pre + LegacyBlock(path) + post, p) == 0
    ensures Count(pre, p) == 0 && Count(post, p) == 0
  {
    var legacy := LegacyBlock(path);
    assert pre + (legacy + post) == pre + legacy + post;
    assert pre + legacy + post + "" == pre + legacy + post;
    if Count(pre, p) > 0 {
      UncleanPart(pre, legacy + post, p);
    }
    if Count(post, p) > 0 {
      CountOfPart(pre + legacy, post, "", p);
    }
  }

  lemma LegacyStartsClear(path: string, p: string)
    requires p == LEGACY_BEGIN || p == LEGACY_END
    ensures StartsClear(LegacyBlock(path), p)
  {
    MarkersAreLines(LEGACY_BEGIN);
    var legacy := LegacyBlock(path);
    assert legacy == LEGACY_BEGIN + ("source " + ShellQuote(path) + "\n" + LEGACY_END);
    assert forall i :: 0 <= i < |LEGACY_BEGIN| ==> legacy[i] == LEGACY_BEGIN[i];
  }

  lemma LegacyMarkers(path: string, p: string)
    requires p == LEGACY_BEGIN || p == LEGACY_END
    ensures Count(LegacyBlock(path), p) >= 1
  {
    var source := "source " + ShellQuote(path) + "\n";
    assert LegacyBlock(path) == LEGACY_BEGIN + source + LEGACY_END;
    MarkersAreLines(p);
    CountSplit(LEGACY_BEGIN + source, LEGACY_END, p);
    CountSplit(LEGACY_BEGIN, source, p);
    MarkersDiffer(p, p);
  }

  lemma LegacySplit(pre: string, post: string, path: string, p: string)
    requires p == LEGACY_BEGIN || p == LEGACY_END
    ensures Count(pre + LegacyBlock(path) + post, p) >= Count(pre, p) + 1 + Count(post, p)
  {
    var legacy := LegacyBlock(path);
    MarkersAreLines(p);
    LegacyMarkers(path, p);
    LegacyStartsClear(path, p);
    CountSplit(pre + legacy, post, p);
    CountSplit(pre, legacy, p);
  }

  /** Without the condition the round trip fails: a last line that is a marker but for its newline. */
  lemma UnterminatedMarkerIsRefused(path: string)
    ensures var raw := V1_END[..|V1_END| - 1];
            && Transform(raw, path, Enable).Ok?
            && !Transform(Transform(raw, path, Enable).value, path, Disable).Ok?
  {
    var raw := V1_END[..|V1_END| - 1];
    UnterminatedIsClean();
    AppendedRoundTrip(raw, "", path);
    assert raw + "\n" == V1_END;
    MarkersDiffer(V1_END, V1_END);
    assert V1_END + V1Block(path) + "" == V1_END + V1Block(path);
    BlockIsOnly(V1_END, "", path);
  }

  lemma UnterminatedIsClean()
    ensures Clean(V1_END[..|V1_END| - 1])
  {
    var raw := V1_END[..|V1_END| - 1];
    MarkersAreLines(V1_END);
    MarkersAreLines(V1_BEGIN);
    MarkersAreLines(LEGACY_BEGIN);
    MarkersAreLines(LEGACY_END);
    assert forall i :: 0 <= i < |raw| ==> raw[i] != '\n';
    NoLineWithoutNewline(raw, V1_BEGIN);
    NoLineWithoutNewline(raw, V1_END);
    NoLineWithoutNewline(raw, LEGACY_BEGIN);
    NoLineWithoutNewline(raw, LEGACY_END);
  }

  lemma {:induction false} NoLineWithoutNewline(s: string, p: string)
    requires IsLine(p) && '\n' !in s
    ensures Count(s, p) == 0
  {
    if |s| >= |p| {
      NotPrefix(s, p, |p| - 1);
      NoLineWithoutNewline(s[1..], p);
    }
  }
}
