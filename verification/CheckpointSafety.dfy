/** What pruning keeps, and what a crash anywhere in a checkpoint write leaves readable. */
module CheckpointSafety {
  import opened Wrappers
  import opened EngineState
  import opened CheckpointNames
  import opened CheckpointStore

  // ----- reading: the newest file that is not plainly invalid decides -----

  /** `n` is the newest recognized file that decodes or has an unsupported version. */
  ghost predicate Decides(dir: Directory, n: string) {
    && n in dir && Recognized(n) && !dir[n].Invalid?
    && forall m :: m in dir && Recognized(m) && Below(n, m) ==> dir[m].Invalid?
  }

  function Read(c: Checkpoint): LoadResult
    requires !c.Invalid?
  {
    if c.Valid? then Loaded(c.snapshot) else Unreadable
  }

  lemma {:induction false} LatestInDecided(dir: Directory, names: seq<string>, n: string)
    requires Descending(names) && (forall m :: m in names ==> m in dir && Recognized(m))
    requires n in names && !dir[n].Invalid? && forall m :: m in names && Below(n, m) ==> dir[m].Invalid?
    ensures LatestIn(dir, names) == Read(dir[n])
  {
    assert names == [names[0]] + names[1..];
    if n != names[0] {
      assert n in names[1..];
      var j :| 0 <= j < |names[1..]| && names[1..][j] == n;
      assert Below(names[1 + j], names[0]);
      LatestInDecided(dir, names[1..], n);
    }
  }

  lemma {:induction false} LatestInUndecided(dir: Directory, names: seq<string>)
    requires forall m :: m in names ==> m in dir && dir[m].Invalid?
    ensures LatestIn(dir, names) == Nothing
  {
    if names != [] {
      assert names[0] in names;
      LatestInUndecided(dir, names[1..]);
    }
  }

  /** Reading is settled by the deciding file alone. */
  lemma LatestIsDecided(dir: Directory, n: string)
    requires Decides(dir, n)
    ensures Latest(dir) == Read(dir[n])
  {
    LatestInDecided(dir, NamesOf(dir), n);
  }

  lemma {:induction false} SomeDecides(dir: Directory, names: seq<string>) returns (n: string)
    requires Descending(names) && (forall m :: m in names ==> m in dir && Recognized(m))
    requires exists m :: m in names && !dir[m].Invalid?
    ensures n in names && !dir[n].Invalid? && forall m :: m in names && Below(n, m) ==> dir[m].Invalid?
  {
    assert names == [names[0]] + names[1..];
    if !dir[names[0]].Invalid? {
      n := names[0];
      forall m | m in names
        ensures !Below(n, m)
      {
        BelowIsTotal(n, m);
      }
    } else {
      n := SomeDecides(dir, names[1..]);
    }
  }

  // ----- pruning -----

  /** The readable checkpoints newer than `n`. */
  ghost function NewerValid(dir: Directory, n: string): set<string> {
    set m | m in dir && Recognized(m) && dir[m].Valid? && Below(n, m)
  }

  lemma {:induction false} ValidInDescends(dir: Directory, names: seq<string>)
    requires Descending(names) && forall m :: m in names ==> m in dir
    ensures Descending(ValidIn(dir, names))
  {
    if names != [] {
      var front, last := names[..|names| - 1], names[|names| - 1];
      ValidInDescends(dir, front);
      forall n | n in front
        ensures Below(last, n)
      {
        var i :| 0 <= i < |front| && front[i] == n;
        assert Below(names[|names| - 1], names[i]);
      }
      assert forall i :: 0 <= i < |ValidIn(dir, front)| ==> ValidIn(dir, front)[i] in front;
    }
  }

  lemma {:induction false} DescendingSize(s: seq<string>)
    requires Descending(s)
    ensures |ToSet(s)| == |s|
  {
    if s != [] {
      var front, last := s[..|s| - 1], s[|s| - 1];
      DescendingSize(front);
      if last in front {
        BelowIsTotal(last, last);
      }
      assert ToSet(s) == ToSet(front) + {last};
    }
  }

  lemma NewerStandsBefore(dir: Directory, i: nat, m: string)
    requires i < |ValidIn(dir, NamesOf(dir))|
    ensures m in NewerValid(dir, ValidIn(dir, NamesOf(dir))[i]) <==> m in ValidIn(dir, NamesOf(dir))[..i]
  {
    var valid := ValidIn(dir, NamesOf(dir));
    ValidInDescends(dir, NamesOf(dir));
    if m in NewerValid(dir, valid[i]) {
      var j :| 0 <= j < |valid| && valid[j] == m;
      BelowIsTotal(valid[i], m);
      assert j < i;
      assert valid[..i][j] == m;
    }
    if m in valid[..i] {
      var j :| 0 <= j < i && valid[j] == m;
      assert m in valid && Below(valid[i], valid[j]);
    }
  }

  // The i-th readable checkpoint has i newer ones.
  lemma PositionCountsNewer(dir: Directory, i: nat)
    requires i < |ValidIn(dir, NamesOf(dir))|
    ensures |NewerValid(dir, ValidIn(dir, NamesOf(dir))[i])| == i
  {
    var valid := ValidIn(dir, NamesOf(dir));
    ValidInDescends(dir, NamesOf(dir));
    forall m
      ensures m in NewerValid(dir, valid[i]) <==> m in ToSet(valid[..i])
    {
      NewerStandsBefore(dir, i, m);
    }
    assert NewerValid(dir, valid[i]) == ToSet(valid[..i]);
    DescendingSize(valid[..i]);
  }

  lemma VictimsByPosition(dir: Directory, i: nat)
    requires i < |ValidIn(dir, NamesOf(dir))|
    ensures ValidIn(dir, NamesOf(dir))[i] in Victims(dir) <==> i >= MAX_CHECKPOINTS
  {
    var valid := ValidIn(dir, NamesOf(dir));
    ValidInDescends(dir, NamesOf(dir));
    if i >= MAX_CHECKPOINTS {
      assert Victims(dir)[i - MAX_CHECKPOINTS] == valid[i];
    } else if valid[i] in Victims(dir) {
      var k :| MAX_CHECKPOINTS <= k < |valid| && valid[k] == valid[i];
      BelowIsTotal(valid[i], valid[k]);
    }
  }

  /** Pruning deletes exactly the readable checkpoints that have ten newer readable ones; every other file stays. */
  lemma PruningKeepsTheNewest(dir: Directory, n: string)
    requires n in dir
    ensures n in Victims(dir) <==> Recognized(n) && dir[n].Valid? && |NewerValid(dir, n)| >= 10
    ensures n !in Victims(dir) ==> n in Without(dir, Victims(dir)) && Without(dir, Victims(dir))[n] == dir[n]
  {
    var valid := ValidIn(dir, NamesOf(dir));
    if n in valid {
      var i :| 0 <= i < |valid| && valid[i] == n;
      PositionCountsNewer(dir, i);
      VictimsByPosition(dir, i);
    }
  }

  lemma TopValidSurvives(dir: Directory, n: string)
    requires n in dir && Recognized(n) && dir[n].Valid?
    requires forall m :: m in dir && Recognized(m) && dir[m].Valid? ==> !Below(n, m)
    ensures n !in Victims(dir)
  {
    assert NewerValid(dir, n) == {};
    PruningKeepsTheNewest(dir, n);
  }

  // ----- writing -----

  /** No readable checkpoint is newer than this generation. */
  predicate NothingNewer(dir: Directory, generation: nat) {
    forall m :: m in dir && Recognized(m) && dir[m].Valid? ==> Generation(m) <= generation
  }

  // Dropping readable checkpoints other than the deciding file changes nothing for a reader.
  lemma DroppedFilesDoNotDecide(dir: Directory, dropped: seq<string>, n: string)
    requires Decides(dir, n) && n !in dropped
    ensures Decides(Without(dir, dropped), n) && Latest(Without(dir, dropped)) == Latest(dir)
  {
    LatestIsDecided(dir, n);
    LatestIsDecided(Without(dir, dropped), n);
  }

  // The file that decides what is read is never pruned.
  lemma DeciderSurvives(dir: Directory, n: string)
    requires Decides(dir, n)
    ensures n !in Victims(dir)
  {
    if dir[n].Valid? {
      TopValidSurvives(dir, n);
    } else {
      PruningKeepsTheNewest(dir, n);
    }
  }

  // After the replace, a cut leaves some of the victims unlinked.
  lemma CutIsSomePruning(dir: Directory, snapshot: Snapshot, cut: nat) returns (k: nat)
    requires cut > 0
    ensures k <= |Victims(Replaced(dir, snapshot))|
    ensures WriteAfter(dir, snapshot, cut)
         == Without(Replaced(dir, snapshot), Victims(Replaced(dir, snapshot))[..k])
  {
    var replaced := Replaced(dir, snapshot);
    var steps := WriteSteps(dir, snapshot);
    k := if cut <= |steps| then cut - 1 else |steps| - 1;
    if k == 0 {
      assert Without(replaced, []) == replaced;
    }
  }

  lemma {:induction false} SameFilesReadTheSame(a: Directory, b: Directory, names: seq<string>)
    requires forall n :: n in names ==> n in a && n in b && a[n] == b[n]
    ensures LatestIn(a, names) == LatestIn(b, names)
  {
    if names != [] {
      assert names[0] in names;
      SameFilesReadTheSame(a, b, names[1..]);
    }
  }

  /** A generation the padding does not cover is written, but no reader ever sees it. */
  lemma UncoveredGenerationIsNeverRead(dir: Directory, snapshot: Snapshot)
    requires snapshot.generation >= Pow10(DIGITS)
    ensures Latest(Replaced(dir, snapshot)) == Latest(dir)
  {
    var replaced, name := Replaced(dir, snapshot), Name(snapshot.generation);
    NameIsRecognized(snapshot.generation);
    DescendingIsUnique(NamesOf(replaced), NamesOf(dir));
    SameFilesReadTheSame(dir, replaced, NamesOf(dir));
  }

  predicate AllInvalid(dir: Directory) {
    forall m :: m in dir && Recognized(m) ==> dir[m].Invalid?
  }

  lemma AllInvalidReadsNothing(dir: Directory)
    requires AllInvalid(dir)
    ensures Latest(dir) == Nothing
  {
    LatestInUndecided(dir, NamesOf(dir));
  }

  lemma DroppedFilesStayInvalid(dir: Directory, dropped: seq<string>)
    requires AllInvalid(dir)
    ensures AllInvalid(Without(dir, dropped))
  {}

  // Unless every file is invalid, one of them decides.
  lemma Decider(dir: Directory) returns (n: string)
    requires !AllInvalid(dir)
    ensures Decides(dir, n)
  {
    var m :| m in dir && Recognized(m) && !dir[m].Invalid?;
    assert m in NamesOf(dir);
    n := SomeDecides(dir, NamesOf(dir));
  }

  /** From the replace on, every directory of the write reads the same, whatever was there before. */
  lemma PruningDoesNotChangeTheLatest(dir: Directory, snapshot: Snapshot, cut: nat)
    requires cut > 0
    ensures Latest(WriteAfter(dir, snapshot, cut)) == Latest(Replaced(dir, snapshot))
  {
    var replaced := Replaced(dir, snapshot);
    var k := CutIsSomePruning(dir, snapshot, cut);
    var dropped := Victims(replaced)[..k];
    if AllInvalid(replaced) {
      DroppedFilesStayInvalid(replaced, dropped);
      AllInvalidReadsNothing(replaced);
      AllInvalidReadsNothing(Without(replaced, dropped));
    } else {
      var n := Decider(replaced);
      DeciderSurvives(replaced, n);
      assert forall m :: m in dropped ==> m in Victims(replaced);
      DroppedFilesDoNotDecide(replaced, dropped, n);
    }
  }

  // A file other than the written one that decides after the replace decided before it.
  lemma OtherDeciderDecidedBefore(dir: Directory, snapshot: Snapshot, n: string)
    requires Decides(Replaced(dir, snapshot), n) && n != Name(snapshot.generation)
    ensures Latest(Replaced(dir, snapshot)) == Latest(dir)
  {
    var replaced, name := Replaced(dir, snapshot), Name(snapshot.generation);
    forall m | m in dir && Recognized(m) && Below(n, m)
      ensures dir[m].Invalid?
    {
      assert m in replaced;
      assert m != name;
    }
    LatestIsDecided(dir, n);
    LatestIsDecided(replaced, n);
  }

  /** What a replace leaves to be read: the written snapshot if its file decides, else what was read before. */
  lemma ReplaceGivesOldOrNew(dir: Directory, snapshot: Snapshot)
    ensures Latest(Replaced(dir, snapshot))
         == if Decides(Replaced(dir, snapshot), Name(snapshot.generation)) then Loaded(snapshot) else Latest(dir)
  {
    var replaced, name := Replaced(dir, snapshot), Name(snapshot.generation);
    NameIsRecognized(snapshot.generation);
    if snapshot.generation >= Pow10(DIGITS) {
      UncoveredGenerationIsNeverRead(dir, snapshot);
    } else {
      assert name in replaced && Recognized(name) && !replaced[name].Invalid?;
      var n := Decider(replaced);
      LatestIsDecided(replaced, n);
      if n == name {
        assert Decides(replaced, name);
      } else {
        OtherDeciderDecidedBefore(dir, snapshot, n);
        if Decides(replaced, name) {
          BelowIsTotal(n, name);
        }
      }
    }
  }

  /** A crash anywhere in a write leaves the old latest checkpoint or the new one to be read: for every generation and
      every directory. */
  lemma CrashGivesOldOrNew(dir: Directory, snapshot: Snapshot, cut: nat)
    ensures Latest(WriteAfter(dir, snapshot, cut)) in {Latest(dir), Loaded(snapshot)}
  {
    if cut > 0 {
      PruningDoesNotChangeTheLatest(dir, snapshot, cut);
      ReplaceGivesOldOrNew(dir, snapshot);
    }
  }
}
