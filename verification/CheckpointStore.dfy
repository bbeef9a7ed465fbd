/**
 The checkpoint half of store.py: one file per generation, written by atomic replace, then the oldest readable
 ones pruned down to ten. A file is given by what decoding it yields.
 */
module CheckpointStore {
  import opened Wrappers
  import opened EngineState
  import opened CheckpointNames

  const MAX_CHECKPOINTS: nat := 10

  datatype Checkpoint = Valid(snapshot: Snapshot) | Unsupported | Invalid

  type Directory = map<string, Checkpoint>

  // Unreadable means: the newest file that decodes at all has an unsupported schema version.
  datatype LoadResult = Loaded(snapshot: Snapshot) | Nothing | Unreadable

  predicate Descending(names: seq<string>) {
    forall i, j :: 0 <= i < j < |names| ==> Below(names[j], names[i])
  }

  /** `names` is what listing the directory for checkpoints gives: the recognized names, newest first. */
  ghost predicate Listing(dir: Directory, names: seq<string>) {
    && Descending(names)
    && forall n :: n in names <==> n in dir && Recognized(n)
  }

  function LatestIn(dir: Directory, names: seq<string>): LoadResult
    requires forall n :: n in names ==> n in dir
  {
    if names == [] then Nothing
    else
      match dir[names[0]]
      case Valid(snapshot) => Loaded(snapshot)
      case Unsupported => Unreadable
      case Invalid => LatestIn(dir, names[1..])
  }

  function ValidIn(dir: Directory, names: seq<string>): (valid: seq<string>)
    requires forall n :: n in names ==> n in dir
    ensures forall n :: n in valid <==> n in names && dir[n].Valid?
  {
    if names == [] then []
    else
      var front := ValidIn(dir, names[..|names| - 1]);
      var last := names[|names| - 1];
      assert names == names[..|names| - 1] + [last];
      if dir[last].Valid? then front + [last] else front
  }

  // ----- listing as a function of the directory -----

  function RecognizedNames(dir: Directory): set<string> {
    set n | n in dir && Recognized(n)
  }

  lemma {:induction false} GreatestExists(names: set<string>) returns (top: string)
    requires names != {}
    ensures top in names && forall n :: n in names && n != top ==> Below(n, top)
  {
    var some :| some in names;
    if names == {some} {
      top := some;
    } else {
      var rest := GreatestExists(names - {some});
      BelowIsTotal(some, rest);
      top := if Below(rest, some) then some else rest;
      forall n | n in names && n != top
        ensures Below(n, top)
      {
        if n != some && n != rest && top == some {
          BelowIsTransitive(n, rest, some);
        }
      }
    }
  }

  ghost function NewestFirst(names: set<string>): (sorted: seq<string>)
    ensures Descending(sorted) && forall n :: n in sorted <==> n in names
  {
    if names == {} then []
    else
      var top := GreatestName(names);
      [top] + NewestFirst(names - {top})
  }

  ghost function GreatestName(names: set<string>): (top: string)
    requires names != {}
    ensures top in names && forall n :: n in names && n != top ==> Below(n, top)
  {
    assert exists top :: top in names && forall n :: n in names && n != top ==> Below(n, top) by {
      var top := GreatestExists(names);
    }
    var top :| top in names && forall n :: n in names && n != top ==> Below(n, top);
    top
  }

  ghost function NamesOf(dir: Directory): (names: seq<string>)
    ensures Listing(dir, names)
  {
    NewestFirst(RecognizedNames(dir))
  }

  lemma HeadIsGreatest(names: seq<string>)
    requires Descending(names) && names != []
    ensures names[0] !in names[1..]
  {
    if names[0] in names[1..] {
      BelowIsTotal(names[0], names[0]);
    }
  }

  lemma {:induction false} DescendingIsUnique(a: seq<string>, b: seq<string>)
    requires Descending(a) && Descending(b) && forall n :: n in a <==> n in b
    ensures a == b
  {
    assert (a != [] ==> a[0] in a) && (b != [] ==> b[0] in b);
    if a != [] && b != [] {
      assert a[0] in b && b[0] in a;
      BelowIsTotal(a[0], b[0]);
      BelowIsTotal(a[0], a[0]);
      assert a == [a[0]] + a[1..] && b == [b[0]] + b[1..];
      HeadIsGreatest(a);
      HeadIsGreatest(b);
      forall n
        ensures n in a[1..] <==> n in b[1..]
      {
        assert n in a[1..] <==> n in a && n != a[0];
        assert n in b[1..] <==> n in b && n != b[0];
      }
      DescendingIsUnique(a[1..], b[1..]);
    }
  }

  ghost function Latest(dir: Directory): LoadResult {
    LatestIn(dir, NamesOf(dir))
  }

  // ----- writing -----

  ghost function Victims(dir: Directory): seq<string> {
    var valid := ValidIn(dir, NamesOf(dir));
    if |valid| <= MAX_CHECKPOINTS then [] else valid[MAX_CHECKPOINTS..]
  }

  function Without(dir: Directory, names: seq<string>): Directory {
    map n | n in dir && n !in names :: dir[n]
  }

  /** Unlinking `names` one by one. */
  function Unlinks(dir: Directory, names: seq<string>): (steps: seq<Directory>)
    ensures |steps| == |names|
    ensures forall i :: 0 <= i < |steps| ==> steps[i] == Without(dir, names[..i + 1])
  {
    seq(|names|, i requires 0 <= i < |names| => Without(dir, names[..i + 1]))
  }

  lemma OneMoreUnlink(dir: Directory, names: seq<string>, k: nat)
    requires k < |names|
    ensures Without(Without(dir, names[..k]), [names[k]]) == Without(dir, names[..k + 1])
    ensures Unlinks(dir, names[..k + 1]) == Unlinks(dir, names[..k]) + [Without(dir, names[..k + 1])]
  {
    assert names[..k + 1] == names[..k] + [names[k]];
    forall i | 0 <= i < k
      ensures Unlinks(dir, names[..k + 1])[i] == Unlinks(dir, names[..k])[i]
    {
      assert names[..k + 1][..i + 1] == names[..k][..i + 1];
    }
    assert names[..k + 1][..k + 1] == names[..k + 1];
  }

  ghost function PruneSteps(dir: Directory): (steps: seq<Directory>)
    ensures |steps| == |Victims(dir)|
    ensures forall i :: 0 <= i < |steps| ==> steps[i] == Without(dir, Victims(dir)[..i + 1])
  {
    Unlinks(dir, Victims(dir))
  }

  function Replaced(dir: Directory, snapshot: Snapshot): Directory {
    dir[Name(snapshot.generation) := Valid(snapshot)]
  }

  /** The directories that writing a snapshot goes through; a crash leaves the one before or any of these. */
  ghost function WriteSteps(dir: Directory, snapshot: Snapshot): seq<Directory> {
    [Replaced(dir, snapshot)] + PruneSteps(Replaced(dir, snapshot))
  }

  ghost function WriteAfter(dir: Directory, snapshot: Snapshot, cut: nat): Directory {
    var steps := WriteSteps(dir, snapshot);
    if cut == 0 then dir else if cut <= |steps| then steps[cut - 1] else steps[|steps| - 1]
  }

  lemma EndOfWrite(dir: Directory, snapshot: Snapshot)
    ensures WriteAfter(dir, snapshot, |WriteSteps(dir, snapshot)|)
         == Without(Replaced(dir, snapshot), Victims(Replaced(dir, snapshot)))
  {
    var replaced := Replaced(dir, snapshot);
    var victims := Victims(replaced);
    assert victims[..|victims|] == victims;
    assert victims == [] ==> Without(replaced, victims) == replaced;
  }

  lemma InsertedDescends(names: seq<string>, i: nat, name: string)
    requires Descending(names) && i <= |names| && (i < |names| ==> Below(names[i], name))
    requires forall j :: 0 <= j < i ==> Below(name, names[j])
    ensures var longer := names[..i] + [name] + names[i..];
            Descending(longer) && forall n :: n in longer <==> n in names || n == name
  {
    assert names == names[..i] + names[i..];
    forall j | i <= j < |names|
      ensures Below(names[j], name)
    {
      if j > i {
        BelowIsTransitive(names[j], names[i], name);
      }
    }
  }

  class CheckpointDirectory {
    var files: Directory
    ghost var trace: seq<Directory>

    constructor (files: Directory)
      ensures this.files == files && trace == []
    {
      this.files := files;
      trace := [];
    }

    /** Lists the directory in any order, keeps the recognized names and sorts them in reverse. */
    method ListNames() returns (names: seq<string>)
      ensures names == NamesOf(files)
    {
      names := [];
      var rest := files.Keys;
      while rest != {}
        invariant rest <= files.Keys
        invariant Descending(names)
        invariant forall n :: n in names <==> n in files && n !in rest && Recognized(n)
        decreases |rest|
      {
        var name :| name in rest;
        rest := rest - {name};
        if Recognized(name) {
          names := InsertDescending(names, name);
        }
      }
      DescendingIsUnique(names, NamesOf(files));
    }

    method InsertDescending(names: seq<string>, name: string) returns (longer: seq<string>)
      requires Descending(names) && name !in names
      ensures Descending(longer) && forall n :: n in longer <==> n in names || n == name
    {
      var i := 0;
      while i < |names| && Below(name, names[i])
        invariant 0 <= i <= |names|
        invariant forall j :: 0 <= j < i ==> Below(name, names[j])
      {
        i := i + 1;
      }
      if i < |names| {
        assert names[i] in names;
        BelowIsTotal(name, names[i]);
      }
      InsertedDescends(names, i, name);
      longer := names[..i] + [name] + names[i..];
    }

    method LoadLatest() returns (result: LoadResult)
      ensures result == Latest(files)
    {
      var names := ListNames();
      var valid: seq<Snapshot> := [];
      for i := 0 to |names|
        invariant valid == [] ==> LatestIn(files, names) == LatestIn(files, names[i..])
        invariant valid != [] ==> LatestIn(files, names) == Loaded(valid[0])
      {
        assert names[i..][1..] == names[i + 1..];
        assert names[i] in names;
        match files[names[i]]
        case Valid(snapshot) => valid := valid + [snapshot];
        case Unsupported =>
          if valid == [] {
            return Unreadable;
          }
        case Invalid =>
      }
      return if valid == [] then Nothing else Loaded(valid[0]);
    }

    method Unlink(name: string)
      modifies this
      ensures files == Without(old(files), [name])
      ensures trace == old(trace) + [files]
    {
      files := map n | n in files && n != name :: files[n];
      trace := trace + [files];
    }

    method UnlinkAll(names: seq<string>)
      modifies this
      ensures files == Without(old(files), names)
      ensures trace == old(trace) + Unlinks(old(files), names)
    {
      assert files == Without(files, names[..0]);
      for k := 0 to |names|
        invariant files == Without(old(files), names[..k])
        invariant trace == old(trace) + Unlinks(old(files), names[..k])
      {
        OneMoreUnlink(old(files), names, k);
        Unlink(names[k]);
      }
      assert names[..|names|] == names;
    }

    method ListValid() returns (valid: seq<string>)
      ensures valid == ValidIn(files, NamesOf(files))
    {
      var names := ListNames();
      valid := [];
      for i := 0 to |names|
        invariant valid == ValidIn(files, names[..i])
      {
        assert names[i] in names && names[..i + 1][..i] == names[..i];
        if files[names[i]].Valid? {
          valid := valid + [names[i]];
        }
      }
      assert names[..|names|] == names;
    }

    method Prune()
      modifies this
      ensures files == Without(old(files), Victims(old(files)))
      ensures trace == old(trace) + PruneSteps(old(files))
    {
      var valid := ListValid();
      UnlinkAll(if |valid| <= MAX_CHECKPOINTS then [] else valid[MAX_CHECKPOINTS..]);
    }

    method ReplaceAndPrune(snapshot: Snapshot)
      modifies this
      ensures trace == old(trace) + WriteSteps(old(files), snapshot)
      ensures files == WriteAfter(old(files), snapshot, |WriteSteps(old(files), snapshot)|)
    {
      files := files[Name(snapshot.generation) := Valid(snapshot)];
      trace := trace + [files];
      EndOfWrite(old(files), snapshot);
      Prune();
    }

    /** Replaces the file of this generation, then prunes. `fits` says whether a snapshot's JSON is within the limit;
        one that is not is refused before any file is touched. */
    method Write(snapshot: Snapshot, fits: Snapshot -> bool) returns (ok: bool)
      modifies this
      ensures ok == fits(snapshot)
      ensures ok ==> trace == old(trace) + WriteSteps(old(files), snapshot)
      ensures ok ==> files == WriteAfter(old(files), snapshot, |WriteSteps(old(files), snapshot)|)
      ensures !ok ==> trace == old(trace) && files == old(files)
    {
      ok := fits(snapshot);
      if ok {
        ReplaceAndPrune(snapshot);
      }
    }
  }
}
