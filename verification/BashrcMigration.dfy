/**
 What the .bashrc transform accepts and what it then gives, said of all texts by how they are put together; migration of
 the older block in particular.
 */
module BashrcMigration {
  import opened Wrappers
  import opened BashrcBlock

  /** The line between the markers of the older block. */
  function LegacySource(path: string): string {
    "source " + ShellQuote(path) + "\n"
  }

  // ----- counting across a boundary at which a line begins -----

  // No occurrence of `p` reaches from before `line` to its end.
  predicate NotItsEnd(line: string, p: string) {
    |line| < |p| ==> p[|p| - |line|..] != line
  }

  lemma NoStraddlingPrefix(a: string, line: string, rest: string, p: string)
    requires IsLine(line) && IsLine(p) && NotItsEnd(line, p) && a != "" && |a| < |p| <= |a + line + rest|
    ensures !(p <= a + line + rest)
  {
    var s := a + line + rest;
    if |p| < |a| + |line| {
      NotPrefix(s, p, |p| - 1);
    } else if |p| > |a| + |line| {
      NotPrefix(s, p, |a| + |line| - 1);
    } else {
      assert s[..|p|][|a|..] == line;
      assert s[..|p|] != p;
    }
  }

  lemma {:induction false} CountSplitAtLine(a: string, line: string, rest: string, p: string)
    requires IsLine(line) && IsLine(p) && NotItsEnd(line, p)
    ensures Count(a + line + rest, p) == Count(a, p) + Count(line + rest, p)
  {
    var s := a + line + rest;
    if a == "" {
      assert s == line + rest;
    } else if p <= a {
      assert s[|p|..] == a[|p|..] + line + rest;
      assert p <= s;
      CountSplitAtLine(a[|p|..], line, rest, p);
    } else {
      CountShort(a, p);
      if |s| >= |p| {
        if |a| >= |p| {
          assert s[..|p|] == a[..|p|];
        } else {
          NoStraddlingPrefix(a, line, rest, p);
        }
        assert s[1..] == a[1..] + line + rest;
        CountSplitAtLine(a[1..], line, rest, p);
      } else {
        NothingToCount(line + rest, p);
      }
    }
  }

  lemma NothingToCount(s: string, p: string)
    requires |s| < |p|
    ensures Count(s, p) == 0
  {}

  // ----- around the older block -----

  lemma MarkerIsNoLegacyEnd(p: string)
    requires IsMarker(p)
    ensures NotItsEnd(LEGACY_BEGIN, p)
  {
    MarkerSignature(p);
    MarkerSignature(LEGACY_BEGIN);
    if |LEGACY_BEGIN| < |p| {
      SuffixSignature(p, |LEGACY_BEGIN|);
    }
  }

  lemma LegacyBlockMarkers(path: string, post: string, p: string)
    requires IsMarker(p)
    ensures Count(LegacyBlock(path) + post, p)
         == Count(LegacySource(path), p) + Count(post, p) + if p == LEGACY_BEGIN || p == LEGACY_END then 1 else 0
  {
    MarkersAreLines(p);
    MarkersAreLines(LEGACY_BEGIN);
    MarkersAreLines(LEGACY_END);
    var source := LegacySource(path);
    assert LegacyBlock(path) == LEGACY_BEGIN + source + LEGACY_END;
    CountSplit(LEGACY_BEGIN + source + LEGACY_END, post, p);
    CountSplit(LEGACY_BEGIN + source, LEGACY_END, p);
    CountSplit(LEGACY_BEGIN, source, p);
    MarkersDiffer(LEGACY_BEGIN, p);
    MarkersDiffer(LEGACY_END, p);
    LegacyMarkersDiffer();
  }

  lemma LegacyMarkersDiffer()
    ensures LEGACY_BEGIN != LEGACY_END
  {
    MarkerSignature(LEGACY_BEGIN);
    MarkerSignature(LEGACY_END);
  }

  // What follows the first line of the older block.
  function AfterBegin(path: string, post: string): string {
    LegacySource(path) + LEGACY_END + post
  }

  lemma LegacyInParts(pre: string, post: string, path: string)
    ensures LegacyBlock(path) + post == LEGACY_BEGIN + AfterBegin(path, post)
    ensures pre + LegacyBlock(path) + post == pre + LEGACY_BEGIN + AfterBegin(path, post)
  {
    var rest := AfterBegin(path, post);
    assert LegacyBlock(path) + post == LEGACY_BEGIN + rest;
    assert pre + LegacyBlock(path) + post == pre + (LegacyBlock(path) + post);
    assert pre + (LEGACY_BEGIN + rest) == pre + LEGACY_BEGIN + rest;
  }

  lemma AroundLegacy(pre: string, post: string, path: string, p: string)
    requires IsMarker(p)
    ensures Count(pre + LegacyBlock(path) + post, p)
         == Count(pre, p) + Count(post, p) + Count(LegacySource(path), p)
            + if p == LEGACY_BEGIN || p == LEGACY_END then 1 else 0
  {
    MarkersAreLines(p);
    MarkersAreLines(LEGACY_BEGIN);
    MarkerIsNoLegacyEnd(p);
    LegacyInParts(pre, post, path);
    CountSplitAtLine(pre, LEGACY_BEGIN, AfterBegin(path, post), p);
    LegacyBlockMarkers(path, post, p);
  }

  /** No marker line in the text but those of the block. */
  predicate CleanAround(pre: string, source: string, post: string) {
    Clean(pre) && Clean(source) && Clean(post)
  }

  lemma LegacyStandsThere(pre: string, post: string, path: string)
    ensures Contains(pre + LegacyBlock(path) + post, LegacyBlock(path))
  {
    var s := pre + LegacyBlock(path) + post;
    assert s[|pre|..|pre| + |LegacyBlock(path)|] == LegacyBlock(path);
    assert At(s, |pre|, LegacyBlock(path));
  }

  // How often each marker stands around and in the block.
  lemma LegacyCounts(pre: string, post: string, path: string)
    ensures var s := pre + LegacyBlock(path) + post;
            && Count(s, V1_BEGIN) == Count(pre, V1_BEGIN) + Count(post, V1_BEGIN) + Count(LegacySource(path), V1_BEGIN)
            && Count(s, V1_END) == Count(pre, V1_END) + Count(post, V1_END) + Count(LegacySource(path), V1_END)
            && Count(s, LEGACY_BEGIN)
               == Count(pre, LEGACY_BEGIN) + Count(post, LEGACY_BEGIN) + Count(LegacySource(path), LEGACY_BEGIN) + 1
            && Count(s, LEGACY_END)
               == Count(pre, LEGACY_END) + Count(post, LEGACY_END) + Count(LegacySource(path), LEGACY_END) + 1
  {
    AroundLegacy(pre, post, path, V1_BEGIN);
    AroundLegacy(pre, post, path, V1_END);
    AroundLegacy(pre, post, path, LEGACY_BEGIN);
    AroundLegacy(pre, post, path, LEGACY_END);
    MarkersAreDistinct();
  }

  /** With the older block in it, a text is accepted exactly when nothing else in it is a marker line. */
  lemma LegacyIsOnly(pre: string, post: string, path: string)
    ensures var s := pre + LegacyBlock(path) + post;
            && HasLegacy(s)
            && ((!HasV1(s) && OneLegacy(s, path)) <==> CleanAround(pre, LegacySource(path), post))
  {
    LegacyCounts(pre, post, path);
    LegacyStandsThere(pre, post, path);
  }

  // ----- migration -----

  /** Migration replaces the older block and keeps everything around it, for all texts, exactly when no other marker line
      stands in the text; else it is refused. */
  lemma MigratesExactly(pre: string, post: string, path: string)
    ensures var migrated := Transform(pre + LegacyBlock(path) + post, path, Enable);
            && (migrated == Ok(pre + V1Block(path) + post) <==> CleanAround(pre, LegacySource(path), post))
            && (migrated.Ok? <==> CleanAround(pre, LegacySource(path), post))
  {
    var s, legacy := pre + LegacyBlock(path) + post, LegacyBlock(path);
    LegacyIsOnly(pre, post, path);
    if CleanAround(pre, LegacySource(path), post) {
      MarkersAreLines(LEGACY_BEGIN);
      BlockBegins(path);
      OnlyIndex(pre, legacy, post, LEGACY_BEGIN);
      SlicesAround(pre, legacy, post);
    }
  }

  /** A text less the newline that ends it. */
  function Unterminated(s: string): string {
    if s != "" && s[|s| - 1] == '\n' then s[..|s| - 1] else s
  }

  /** Disabling takes the block and one separator newline out of any text, exactly when no other marker line stands in it;
      else it is refused. */
  lemma DisablesExactly(pre: string, post: string, path: string)
    ensures var disabled := Transform(pre + V1Block(path) + post, path, Disable);
            && (disabled.Ok? <==> CleanAround(pre, SourceLine(path), post))
            && (disabled.Ok? ==> disabled == Ok(Unterminated(pre) + post))
  {
    BlockIsOnly(pre, post, path);
    if CleanAround(pre, SourceLine(path), post) {
      TakenOut(pre, post, path);
    }
  }

  /** Migrating and then disabling leaves what stood around the older block, less one separator newline. */
  lemma MigratedThenDisabled(pre: string, post: string, path: string)
    requires CleanAround(pre, LegacySource(path), post) && Clean(SourceLine(path))
    ensures var migrated := Transform(pre + LegacyBlock(path) + post, path, Enable);
            migrated.Ok? && Transform(migrated.value, path, Disable) == Ok(Unterminated(pre) + post)
  {
    MigratesExactly(pre, post, path);
    DisablesExactly(pre, post, path);
  }

  // ----- everything the transform accepts -----

  ghost predicate HoldsOneBlock(raw: string, block: string, source: string) {
    exists pre, post :: raw == pre + block + post && CleanAround(pre, source, post)
  }

  /** The texts enabling accepts: without markers, or with one block of either kind and no other marker line. */
  lemma EnableAcceptsExactly(raw: string, path: string)
    ensures Transform(raw, path, Enable).Ok?
       <==> || Clean(raw)
            || HoldsOneBlock(raw, V1Block(path), SourceLine(path))
            || HoldsOneBlock(raw, LegacyBlock(path), LegacySource(path))
  {
    if Transform(raw, path, Enable).Ok? && HasV1(raw) {
      var pre, post := Around(raw, V1Block(path));
      BlockIsOnly(pre, post, path);
    } else if Transform(raw, path, Enable).Ok? && HasLegacy(raw) {
      var pre, post := Around(raw, LegacyBlock(path));
      LegacyIsOnly(pre, post, path);
    }
    if pre, post :| raw == pre + V1Block(path) + post && CleanAround(pre, SourceLine(path), post) {
      BlockIsOnly(pre, post, path);
    }
    if pre, post :| raw == pre + LegacyBlock(path) + post && CleanAround(pre, LegacySource(path), post) {
      LegacyIsOnly(pre, post, path);
    }
  }

  /** And what it gives for those without a block to migrate: the text itself where the block stands already, else the block
      appended after one separator newline. */
  lemma EnableGives(raw: string, path: string)
    ensures HoldsOneBlock(raw, V1Block(path), SourceLine(path)) ==> Transform(raw, path, Enable) == Ok(raw)
    ensures Clean(raw) ==>
              Transform(raw, path, Enable) == Ok((if raw == "" then "" else raw + "\n") + V1Block(path))
  {
    if pre, post :| raw == pre + V1Block(path) + post && CleanAround(pre, SourceLine(path), post) {
      BlockIsOnly(pre, post, path);
    }
    assert "" + V1Block(path) == V1Block(path);
  }

  /** Disabling accepts the texts without markers, which it leaves alone, and those with one block of its own; leaving
      things as they are is always possible. */
  lemma DisableAcceptsExactly(raw: string, path: string)
    ensures Transform(raw, path, Disable).Ok?
       <==> Clean(raw) || HoldsOneBlock(raw, V1Block(path), SourceLine(path))
    ensures Clean(raw) ==> Transform(raw, path, Disable) == Ok(raw)
    ensures Transform(raw, path, Preserve) == Ok(raw)
  {
    if Transform(raw, path, Disable).Ok? && HasV1(raw) {
      var pre, post := Around(raw, V1Block(path));
      BlockIsOnly(pre, post, path);
    }
    if pre, post :| raw == pre + V1Block(path) + post && CleanAround(pre, SourceLine(path), post) {
      BlockIsOnly(pre, post, path);
    }
  }

  lemma {:induction false} CountMeansContains(s: string, p: string)
    requires p != ""
    ensures Count(s, p) > 0 <==> Contains(s, p)
  {
    if |s| >= |p| {
      if p <= s {
        assert At(s, 0, p);
      } else {
        CountMeansContains(s[1..], p);
        if Contains(s, p) {
          ContainsTail(s, p);
        }
        if i :| 0 <= i <= |s[1..]| - |p| && At(s[1..], i, p) {
          AtTail(s, i + 1, p);
          assert At(s, i + 1, p);
        }
      }
    }
  }

  predicate Holds(raw: string, begin: string, end: string) {
    Contains(raw, begin) || Contains(raw, end)
  }

  /** A refused text is told: markers of both kinds; the block's markers but not one whole block; the same of the older
      block, or that there is nothing to disable but an older block. */
  lemma RefusedFor(raw: string, path: string, state: Desired)
    requires Transform(raw, path, state).Err?
    ensures Transform(raw, path, state).error
         == if Holds(raw, V1_BEGIN, V1_END) then
              if Holds(raw, LEGACY_BEGIN, LEGACY_END) then BothMarkers else MalformedV1
            else if state.Enable? then MalformedLegacy
            else LegacyWithoutV1
  {
    CountMeansContains(raw, V1_BEGIN);
    CountMeansContains(raw, V1_END);
    CountMeansContains(raw, LEGACY_BEGIN);
    CountMeansContains(raw, LEGACY_END);
  }
}
