/** The durable recovery record (model.py) and the one way it grows: committing an attempt (store.py). */
module RecoveryRecord {
  import opened Wrappers

  const MAX_ITEMS: nat := 256

  type WorkspaceId = string
  type ItemId = string

  /** The id of an attempt is a digest of these fields; a digest is taken to be injective, so the id is its fields. */
  datatype AttemptId = AttemptId(
    workspace: WorkspaceId,
    selected: set<ItemId>,
    approved: set<ItemId>,
    adapter: string,
    source: Option<AttemptId>)

  datatype OutcomeKind = Success | Warning | Skip | Failure

  datatype Outcome = Outcome(item: ItemId, kind: OutcomeKind, message: string)

  datatype Attempt = Attempt(
    id: AttemptId,
    workspace: WorkspaceId,
    selected: seq<ItemId>,
    approved: set<ItemId>, // kept sorted and distinct
    outcomes: seq<Outcome>)

  datatype Record = Record(
    workspace: WorkspaceId,
    generation: nat,
    items: seq<ItemId>,
    attempts: seq<Attempt>,
    completed: seq<ItemId>,
    detail: string) // the items' shells and reasons and the capture time, which never change

  datatype CommitError =
    | WorkspaceMismatch
    | AttemptExists
    | UnknownSelected
    | DuplicateOutcome
    | UnselectedOutcome
    | OutcomesDiffer
    | TooManyAttempts
    | TooLarge

  // An item whose launch ended this way is never offered again.
  predicate Terminal(k: OutcomeKind) {
    k == Success || k == Warning
  }

  function OutcomeItems(os: seq<Outcome>): (items: seq<ItemId>)
    ensures |items| == |os| && forall i :: 0 <= i < |os| ==> items[i] == os[i].item
  {
    seq(|os|, i requires 0 <= i < |os| => os[i].item)
  }

  function AttemptIds(attempts: seq<Attempt>): (ids: seq<AttemptId>)
    ensures |ids| == |attempts| && forall i :: 0 <= i < |attempts| ==> ids[i] == attempts[i].id
  {
    seq(|attempts|, i requires 0 <= i < |attempts| => attempts[i].id)
  }

  /** How many of these outcomes end `item` for good. */
  function OutcomeCount(os: seq<Outcome>, item: ItemId): nat {
    if os == [] then 0
    else
      var last := os[|os| - 1];
      OutcomeCount(os[..|os| - 1], item) + if last.item == item && Terminal(last.kind) then 1 else 0
  }

  /** How many times `item` ended for good over all attempts. */
  function TerminalCount(attempts: seq<Attempt>, item: ItemId): nat {
    if attempts == [] then 0
    else TerminalCount(attempts[..|attempts| - 1], item) + OutcomeCount(attempts[|attempts| - 1].outcomes, item)
  }

  /** What constructing a RestoreAttempt checks. */
  predicate WellFormedAttempt(a: Attempt) {
    && |a.selected| <= MAX_ITEMS && |a.approved| <= MAX_ITEMS && |a.outcomes| <= MAX_ITEMS
    && Unique(a.selected)
    && a.approved <= ToSet(a.selected)
    && ToSet(OutcomeItems(a.outcomes)) <= ToSet(a.selected)
    && Unique(OutcomeItems(a.outcomes))
  }

  /** What constructing a RecoveryRecord checks, whether from memory or from the file. */
  predicate WellFormed(r: Record) {
    && |r.items| <= MAX_ITEMS && |r.attempts| <= MAX_ITEMS && |r.completed| <= MAX_ITEMS
    && Unique(r.items)
    && Unique(AttemptIds(r.attempts))
    && Unique(r.completed)
    && ToSet(r.completed) <= ToSet(r.items)
    && (forall a :: a in r.attempts ==>
          WellFormedAttempt(a) && a.workspace == r.workspace && ToSet(a.selected) <= ToSet(r.items))
    && (forall i :: i in r.completed ==> TerminalCount(r.attempts, i) > 0)
  }

  /** Every item ended for good at most once, and the completed list names exactly those that did. */
  ghost predicate Settled(r: Record) {
    && WellFormed(r)
    && forall i :: TerminalCount(r.attempts, i) <= 1 && (i in r.completed <==> TerminalCount(r.attempts, i) == 1)
  }

  /** A record just built from a reconciled workspace. */
  predicate Fresh(r: Record) {
    WellFormed(r) && r.attempts == [] && r.completed == []
  }

  lemma FreshIsSettled(r: Record)
    requires Fresh(r)
    ensures Settled(r)
  {
    forall i ensures TerminalCount(r.attempts, i) == 0 {}
  }

  /** The completed list after these outcomes, in the order the commit loop meets them. */
  function AppendCompleted(completed: seq<ItemId>, os: seq<Outcome>): seq<ItemId> {
    if os == [] then completed
    else
      var before := AppendCompleted(completed, os[..|os| - 1]);
      var last := os[|os| - 1];
      if Terminal(last.kind) && last.item !in before then before + [last.item] else before
  }

  /** The record with one more attempt. */
  function Grown(r: Record, a: Attempt, os: seq<Outcome>): Record {
    r.(attempts := r.attempts + [a.(outcomes := os)], completed := AppendCompleted(r.completed, os))
  }

  /** `fits` says whether a record's JSON is within the size limit of the file. */
  function Commit(fits: Record -> bool, r: Record, w: WorkspaceId, a: Attempt, os: seq<Outcome>)
    : Result<Record, CommitError>
  {
    if w != r.workspace || a.workspace != w then Err(WorkspaceMismatch)
    else if a.id in AttemptIds(r.attempts) then Err(AttemptExists)
    else if !(ToSet(a.selected) <= ToSet(r.items)) then Err(UnknownSelected)
    else if !Unique(OutcomeItems(os)) then Err(DuplicateOutcome)
    else if !(ToSet(OutcomeItems(os)) <= ToSet(a.selected)) then Err(UnselectedOutcome)
    else if a.outcomes != [] && a.outcomes != os then Err(OutcomesDiffer)
    else if |r.attempts| == MAX_ITEMS then Err(TooManyAttempts)
    else if !fits(Grown(r, a, os)) then Err(TooLarge)
    else Ok(Grown(r, a, os))
  }

  // ----- the completed list -----

  lemma {:induction false} AppendCompletedMembers(completed: seq<ItemId>, os: seq<Outcome>)
    requires Unique(completed)
    ensures Unique(AppendCompleted(completed, os))
    ensures forall i :: i in AppendCompleted(completed, os) <==> i in completed || OutcomeCount(os, i) > 0
  {
    if os != [] {
      AppendCompletedMembers(completed, os[..|os| - 1]);
    }
  }

  lemma {:induction false} CountedOutcomesAreListed(os: seq<Outcome>, item: ItemId)
    requires OutcomeCount(os, item) > 0
    ensures exists o :: o in os && o.item == item && Terminal(o.kind)
  {
    var last := os[|os| - 1];
    if last.item == item && Terminal(last.kind) {
      assert last in os;
    } else {
      CountedOutcomesAreListed(os[..|os| - 1], item);
      var o :| o in os[..|os| - 1] && o.item == item && Terminal(o.kind);
      assert o in os;
    }
  }

  lemma {:induction false} ListedOutcomesAreCounted(os: seq<Outcome>, o: Outcome)
    requires o in os && Terminal(o.kind)
    ensures OutcomeCount(os, o.item) > 0
  {
    if os[|os| - 1] != o {
      assert o in os[..|os| - 1];
      ListedOutcomesAreCounted(os[..|os| - 1], o);
    }
  }

  lemma {:induction false} UniqueOutcomesCountOnce(os: seq<Outcome>, item: ItemId)
    requires Unique(OutcomeItems(os))
    ensures OutcomeCount(os, item) <= 1
  {
    if os != [] {
      var front, last := os[..|os| - 1], os[|os| - 1];
      assert forall i :: 0 <= i < |front| ==> OutcomeItems(front)[i] == OutcomeItems(os)[i];
      UniqueOutcomesCountOnce(front, item);
      if last.item == item && OutcomeCount(front, item) > 0 {
        CountedOutcomesAreListed(front, item);
      }
    }
  }

  lemma CommitCounts(fits: Record -> bool, r: Record, w: WorkspaceId, a: Attempt, os: seq<Outcome>, item: ItemId)
    requires Commit(fits, r, w, a, os).Ok?
    ensures TerminalCount(Commit(fits, r, w, a, os).value.attempts, item)
         == TerminalCount(r.attempts, item) + OutcomeCount(os, item)
  {
    var attempts := Commit(fits, r, w, a, os).value.attempts;
    assert attempts[..|attempts| - 1] == r.attempts;
  }

  lemma DistinctWithinBound<T>(s: seq<T>, bound: seq<T>)
    requires Unique(s) && ToSet(s) <= ToSet(bound)
    ensures |s| <= |bound|
  {
    SetSize(s);
    SetAtMost(bound);
    SubsetSize(ToSet(s), ToSet(bound));
  }

  lemma {:induction false} SetSize<T>(s: seq<T>)
    requires Unique(s)
    ensures |ToSet(s)| == |s|
  {
    if s != [] {
      var front, last := s[..|s| - 1], s[|s| - 1];
      SetSize(front);
      assert ToSet(s) == ToSet(front) + {last};
    }
  }

  lemma {:induction false} SetAtMost<T>(s: seq<T>)
    ensures |ToSet(s)| <= |s|
  {
    if s != [] {
      var front, last := s[..|s| - 1], s[|s| - 1];
      SetAtMost(front);
      assert ToSet(s) == ToSet(front) + {last};
    }
  }

  lemma SubsetSize<T>(a: set<T>, b: set<T>)
    requires a <= b
    ensures |a| <= |b|
  {
    assert b == a + (b - a);
  }

  /** A commit the guards let through builds a record that its constructor accepts: only the count can refuse it. */
  lemma CommitRevalidates(fits: Record -> bool, r: Record, w: WorkspaceId, a: Attempt, os: seq<Outcome>)
    requires WellFormed(r) && WellFormedAttempt(a) && Commit(fits, r, w, a, os).Ok?
    ensures WellFormed(Commit(fits, r, w, a, os).value)
  {
    var r' := Commit(fits, r, w, a, os).value;
    AppendCompletedMembers(r.completed, os);
    DistinctWithinBound(OutcomeItems(os), a.selected);
    forall i | i in r'.completed
      ensures TerminalCount(r'.attempts, i) > 0 && i in r.items
    {
      CommitCounts(fits, r, w, a, os, i);
      if i !in r.completed {
        CountedOutcomesAreListed(os, i);
        var o :| o in os && o.item == i && Terminal(o.kind);
        var j :| 0 <= j < |os| && os[j] == o;
        assert OutcomeItems(os)[j] == i;
        assert i in ToSet(OutcomeItems(os)) && i in ToSet(a.selected) && i in ToSet(r.items);
      } else {
        assert i in ToSet(r.completed) && i in ToSet(r.items);
      }
    }
    DistinctWithinBound(r'.completed, r.items);
    assert AttemptIds(r'.attempts)[..|r.attempts|] == AttemptIds(r.attempts);
  }

  /** The store alone does not keep a record settled; it does so exactly when no final outcome names a completed item. */
  lemma CommitKeepsSettled(fits: Record -> bool, r: Record, w: WorkspaceId, a: Attempt, os: seq<Outcome>)
    requires Settled(r) && WellFormedAttempt(a) && Commit(fits, r, w, a, os).Ok?
    ensures Settled(Commit(fits, r, w, a, os).value)
        <==> forall o :: o in os && Terminal(o.kind) ==> o.item !in r.completed
  {
    var r' := Commit(fits, r, w, a, os).value;
    CommitRevalidates(fits, r, w, a, os);
    AppendCompletedMembers(r.completed, os);
    forall i
      ensures TerminalCount(r'.attempts, i) == TerminalCount(r.attempts, i) + OutcomeCount(os, i)
      ensures OutcomeCount(os, i) <= 1
      ensures i in r'.completed <==> i in r.completed || OutcomeCount(os, i) > 0
    {
      CommitCounts(fits, r, w, a, os, i);
      UniqueOutcomesCountOnce(os, i);
    }
    if forall o :: o in os && Terminal(o.kind) ==> o.item !in r.completed {
      forall i
        ensures TerminalCount(r'.attempts, i) <= 1
      {
        if OutcomeCount(os, i) > 0 {
          CountedOutcomesAreListed(os, i);
        }
      }
    } else {
      var o :| o in os && Terminal(o.kind) && o.item in r.completed;
      ListedOutcomesAreCounted(os, o);
      assert TerminalCount(r'.attempts, o.item) == 2;
    }
  }

  /** Such a commit: an item that has ended is ended again, and the store accepts it. */
  lemma StoreAcceptsSecondSuccess()
    ensures var first := AttemptId("w", {"i"}, {}, "gnome-terminal", None);
            var second := AttemptId("w", {"i"}, {}, "gnome-terminal", Some(first));
            var os := [Outcome("i", Success, "")];
            var r := Record("w", 0, ["i"], [Attempt(first, "w", ["i"], {}, os)], ["i"], "");
            var a := Attempt(second, "w", ["i"], {}, []);
            var result := Commit(_ => true, r, "w", a, os);
            && Settled(r) && WellFormedAttempt(a) && result.Ok?
            && TerminalCount(result.value.attempts, "i") == 2 && !Settled(result.value)
  {
    var first := AttemptId("w", {"i"}, {}, "gnome-terminal", None);
    var second := AttemptId("w", {"i"}, {}, "gnome-terminal", Some(first));
    var os := [Outcome("i", Success, "")];
    var done := Attempt(first, "w", ["i"], {}, os);
    var r := Record("w", 0, ["i"], [done], ["i"], "");
    var a := Attempt(second, "w", ["i"], {}, []);
    forall item
      ensures OutcomeCount(os, item) == if item == "i" then 1 else 0
      ensures TerminalCount([done], item) == OutcomeCount(os, item)
    {
      assert os[..0] == [] && [done][..0] == [];
    }
    assert OutcomeItems(os) == ["i"] && OutcomeItems([]) == [];
    assert ToSet(["i"]) == {"i"};
    assert Settled(r);
    CommitCounts(_ => true, r, "w", a, os, "i");
  }
}
