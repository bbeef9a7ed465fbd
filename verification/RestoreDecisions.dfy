/**
 What a restore request decides from the record it loads, said without the functions that compute it: which items are
 launched, under which attempt id, and what repeating or retrying an attempt leads to.
 */
module RestoreDecisions {
  import opened Wrappers
  import opened RecoveryRecord
  import opened RecoveryStore
  import opened RestoreProtocol
  import opened RestoreSafety

  // ----- attempt ids -----

  /** Two attempts get the same id if and only if they agree on everything that identifies one. */
  lemma SameIdExactly(a: LaunchPlan, adapterA: string, b: LaunchPlan, adapterB: string)
    ensures BuildAttempt(a, adapterA).id == BuildAttempt(b, adapterB).id
       <==> && a.record.workspace == b.record.workspace
            && (forall i :: i in a.selected <==> i in b.selected)
            && a.approved == b.approved && adapterA == adapterB && a.source == b.source
  {
    SameElements(a.selected, b.selected);
  }

  lemma SameElements(a: seq<ItemId>, b: seq<ItemId>)
    ensures ToSet(a) == ToSet(b) <==> (forall i :: i in a <==> i in b)
  {
    assert forall i :: i in a <==> i in ToSet(a);
    assert forall i :: i in b <==> i in ToSet(b);
  }

  /** The attempt is that of this launch, as far as its id tells. */
  predicate Identifies(id: AttemptId, plan: LaunchPlan, adapter: string) {
    && id.workspace == plan.record.workspace && id.selected == ToSet(plan.selected)
    && id.approved == plan.approved && id.adapter == adapter && id.source == plan.source
  }

  /** A launch meets its own id in the record exactly if an earlier attempt had the same workspace, items, approvals and
      adapter and retried the same attempt, or like it none. */
  lemma IdIsTakenExactly(record: Record, plan: LaunchPlan, adapter: string)
    ensures BuildAttempt(plan, adapter).id in AttemptIds(record.attempts)
       <==> exists e :: e in record.attempts && Identifies(e.id, plan, adapter)
  {
    var id := BuildAttempt(plan, adapter).id;
    if id in AttemptIds(record.attempts) {
      var k :| 0 <= k < |record.attempts| && AttemptIds(record.attempts)[k] == id;
      assert record.attempts[k] in record.attempts && Identifies(record.attempts[k].id, plan, adapter);
    }
    if e :| e in record.attempts && Identifies(e.id, plan, adapter) {
      var k :| 0 <= k < |record.attempts| && record.attempts[k] == e;
      assert AttemptIds(record.attempts)[k] == id;
    }
  }

  /** A retry is refused for its id only if an earlier attempt was itself a retry of the same attempt. */
  lemma RetryIsRefusedOnlyAfterARetry(
    fits: Record -> bool, request: Request, adapter: string, record: Record, os: seq<Outcome>)
    requires request.RetryRequest? && AfterRetryLoad(request, Some(record)).Launching?
    requires var plan := AfterRetryLoad(request, Some(record)).plan;
             Commit(fits, record, record.workspace, BuildAttempt(plan, adapter), os) == Err(AttemptExists)
    ensures exists e :: e in record.attempts && e.id.source == Some(request.attempt)
  {
    var plan := AfterRetryLoad(request, Some(record)).plan;
    IdIsTakenExactly(record, plan, adapter);
    var e :| e in record.attempts && Identifies(e.id, plan, adapter);
    assert e.id.source == Some(request.attempt);
  }

  // ----- which items -----

  /** What is offered again: the items this attempt skipped or failed that have not been completed since. */
  lemma {:induction false} RetryableExactly(os: seq<Outcome>, completed: seq<ItemId>, item: ItemId)
    ensures item in Retryable(os, completed)
       <==> item !in completed && exists o :: o in os && o.item == item && (o.kind == Skip || o.kind == Failure)
  {
    if os != [] {
      var front, last := os[..|os| - 1], os[|os| - 1];
      assert os == front + [last];
      RetryableExactly(front, completed, item);
      assert last in os && forall o :: o in front ==> o in os;
    }
  }

  /** Nothing is dropped from a selection without completed items, and its order is kept. */
  lemma {:induction false} WithoutNothing(selected: seq<ItemId>, completed: seq<ItemId>)
    requires forall i :: i in selected ==> i !in completed
    ensures Without(selected, completed) == selected
  {
    if selected != [] {
      WithoutNothing(selected[..|selected| - 1], completed);
      assert selected == selected[..|selected| - 1] + [selected[|selected| - 1]];
    }
  }

  lemma {:induction false} WithoutEverything(selected: seq<ItemId>, completed: seq<ItemId>)
    requires forall i :: i in selected ==> i in completed
    ensures Without(selected, completed) == []
  {
    if selected != [] {
      assert selected[|selected| - 1] in selected;
      WithoutEverything(selected[..|selected| - 1], completed);
    }
  }

  /** The same for the retryable items of an attempt none of whose outcomes is final. */
  lemma {:induction false} RetryableOfFailures(os: seq<Outcome>, completed: seq<ItemId>)
    requires forall o :: o in os ==> (o.kind == Skip || o.kind == Failure) && o.item !in completed
    ensures Retryable(os, completed) == OutcomeItems(os)
  {
    if os != [] {
      var front, last := os[..|os| - 1], os[|os| - 1];
      assert last in os && forall o :: o in front ==> o in os;
      RetryableOfFailures(front, completed);
      assert OutcomeItems(os) == OutcomeItems(front) + [last.item];
    }
  }

  predicate AnswersFor(request: Request, found: Option<Record>)
    requires request.Scoped()
  {
    found.Some? && found.value.workspace == request.workspace
  }

  /** The request names known items, each once, and approves only items it names. */
  predicate WellAsked(request: Request, record: Record)
    requires request.ExecuteRequest?
  {
    && Unique(request.selected) && (forall i :: i in request.selected ==> i in record.items)
    && forall i :: i in request.approved ==> i in request.selected
  }

  /** Execute launches if and only if the workspace is the stored one, the request is well formed and some item of it is
      open; then exactly its open items, with exactly their approvals, as an attempt that retries nothing. */
  lemma ExecuteDecides(request: Request, adapter: Option<string>, found: Option<Record>)
    requires request.ExecuteRequest?
    ensures var pc := AfterExecuteLoad(request, adapter, found);
            && (pc.Launching? <==> && AnswersFor(request, found) && WellAsked(request, found.value)
                                   && exists i :: i in request.selected && i !in found.value.completed)
            && (pc.Launching? ==>
                  && pc.plan.record == found.value && pc.plan.source.None?
                  && (forall i :: i in pc.plan.selected <==> i in request.selected && i !in found.value.completed)
                  && (forall i :: i in pc.plan.approved <==> i in request.approved && i !in found.value.completed))
            && (!AnswersFor(request, found) ==> pc == Answered(WorkspaceMismatched))
            && (AnswersFor(request, found) && !WellAsked(request, found.value) ==> pc == Answered(UnknownItem))
  {
    if AnswersFor(request, found) {
      var record := found.value;
      var effective := Without(request.selected, record.completed);
      SubsetMeansElements(request.selected, record.items);
      assert request.approved <= ToSet(request.selected) <==> forall i :: i in request.approved ==> i in request.selected;
      forall i
        ensures i in effective <==> i in request.selected && i !in record.completed
      {
        assert i in effective <==> i in ToSet(effective);
      }
      assert effective != [] <==> exists i :: i in effective by {
        if effective != [] { assert effective[0] in effective; }
      }
    }
  }

  lemma SubsetMeansElements(a: seq<ItemId>, b: seq<ItemId>)
    ensures ToSet(a) <= ToSet(b) <==> forall i :: i in a ==> i in b
  {
    if ToSet(a) <= ToSet(b) {
      forall i | i in a ensures i in b { assert i in ToSet(a); }
    }
  }

  /** Retry launches if and only if the workspace is the stored one, the attempt is recorded, one of its items was skipped
      or failed and is still open, and no other items are approved; then exactly those items, as a retry of it. */
  lemma RetryDecides(request: Request, found: Option<Record>)
    requires request.RetryRequest? && (found.Some? ==> Unique(AttemptIds(found.value.attempts)))
    ensures var pc := AfterRetryLoad(request, found);
            && (pc.Launching? <==>
                  AnswersFor(request, found)
                  && exists a :: a in found.value.attempts && a.id == request.attempt && CanRetry(found.value, a, request))
            && (pc.Launching? ==>
                  && pc.plan.record == found.value && pc.plan.source == Some(request.attempt)
                  && pc.plan.approved == request.approved
                  && forall a, i :: a in found.value.attempts && a.id == request.attempt ==>
                       (i in pc.plan.selected <==> StillOpen(found.value, a, i)))
  {
    if AnswersFor(request, found) {
      var record := found.value;
      var source := FindAttempt(record.attempts, request.attempt);
      forall a | a in record.attempts && a.id == request.attempt
        ensures source == Some(a)
      {
        OnlyAttempt(record, a, request.attempt);
      }
      if source.Some? {
        var a := source.value;
        var items := Retryable(a.outcomes, record.completed);
        forall i
          ensures i in items <==> StillOpen(record, a, i)
        {
          RetryableExactly(a.outcomes, record.completed, i);
        }
        assert request.approved <= ToSet(items) <==> forall i :: i in request.approved ==> i in items;
        if items != [] { assert items[0] in items; }
      }
    }
  }

  /** A retry that launches nothing is told: another workspace; no such attempt; an approval of something else; nothing to
      retry, in this order. */
  lemma RetryRefusedFor(request: Request, found: Option<Record>)
    requires request.RetryRequest? && (found.Some? ==> Unique(AttemptIds(found.value.attempts)))
    requires !AfterRetryLoad(request, found).Launching?
    ensures AfterRetryLoad(request, found)
         == Answered(if !AnswersFor(request, found) then WorkspaceMismatched
                     else if forall a :: a in found.value.attempts ==> a.id != request.attempt then AttemptMismatch
                     else if exists a, i :: a in found.value.attempts && a.id == request.attempt && i in request.approved
                                            && !StillOpen(found.value, a, i) then UnknownItem
                     else AttemptMismatch)
  {
    if AnswersFor(request, found) && FindAttempt(found.value.attempts, request.attempt).Some? {
      var record, a := found.value, FindAttempt(found.value.attempts, request.attempt).value;
      forall b | b in record.attempts && b.id == request.attempt
        ensures b == a
      {
        OnlyAttempt(record, b, request.attempt);
      }
      var items := Retryable(a.outcomes, record.completed);
      forall i
        ensures i in items <==> StillOpen(record, a, i)
      {
        RetryableExactly(a.outcomes, record.completed, i);
      }
      assert request.approved <= ToSet(items) <==> forall i :: i in request.approved ==> i in items;
    } else if AnswersFor(request, found) {
      forall a | a in found.value.attempts
        ensures a.id != request.attempt
      {
        var k :| 0 <= k < |found.value.attempts| && found.value.attempts[k] == a;
        assert AttemptIds(found.value.attempts)[k] == a.id;
      }
    }
  }

  predicate StillOpen(record: Record, a: Attempt, item: ItemId) {
    item !in record.completed && exists o :: o in a.outcomes && o.item == item && (o.kind == Skip || o.kind == Failure)
  }

  ghost predicate CanRetry(record: Record, a: Attempt, request: Request)
    requires request.RetryRequest?
  {
    && (exists i :: StillOpen(record, a, i))
    && forall i :: i in request.approved ==> StillOpen(record, a, i)
  }

  lemma OnlyAttempt(record: Record, a: Attempt, id: AttemptId)
    requires Unique(AttemptIds(record.attempts)) && a in record.attempts && a.id == id
    ensures FindAttempt(record.attempts, id) == Some(a)
  {
    var k :| 0 <= k < |record.attempts| && record.attempts[k] == a;
    assert AttemptIds(record.attempts)[k] == id;
    var found := FindAttempt(record.attempts, id);
    if found.Some? {
      var j :| 0 <= j < |record.attempts| && record.attempts[j] == found.value;
      assert AttemptIds(record.attempts)[j] == id;
      assert AttemptIds(record.attempts)[j] == AttemptIds(record.attempts)[k];
    }
  }

  /** The attempt a repeated execute is answered with: the last one with this id, these items in any order, and these
      approvals, if there is one. */
  lemma {:induction false} LastMatchingExactly(
    attempts: seq<Attempt>, id: AttemptId, selected: seq<ItemId>, approved: set<ItemId>, k: nat)
    requires k < |attempts| && Matches(attempts[k], id, selected, approved)
    requires forall j :: k < j < |attempts| ==> !Matches(attempts[j], id, selected, approved)
    ensures LastMatching(attempts, id, selected, approved) == Some(attempts[k])
  {
    var n := |attempts| - 1;
    if k < n {
      assert !Matches(attempts[n], id, selected, approved);
      LastMatchingExactly(attempts[..n], id, selected, approved, k);
    }
  }

  predicate Matches(a: Attempt, id: AttemptId, selected: seq<ItemId>, approved: set<ItemId>) {
    a.id == id && multiset(a.selected) == multiset(selected) && a.approved == approved
  }

  ghost predicate HasMatch(attempts: seq<Attempt>, id: AttemptId, selected: seq<ItemId>, approved: set<ItemId>) {
    exists a :: a in attempts && Matches(a, id, selected, approved)
  }

  lemma {:induction false} MatchIsFound(attempts: seq<Attempt>, id: AttemptId, selected: seq<ItemId>, approved: set<ItemId>)
    ensures LastMatching(attempts, id, selected, approved).Some? <==> HasMatch(attempts, id, selected, approved)
  {
    if attempts != [] {
      var front, last := attempts[..|attempts| - 1], attempts[|attempts| - 1];
      assert attempts == front + [last] && last in attempts;
      MatchIsFound(front, id, selected, approved);
      assert HasMatch(attempts, id, selected, approved)
        <==> Matches(last, id, selected, approved) || HasMatch(front, id, selected, approved);
    }
  }

  /** An execute of completed items only answers with the attempt that completed them under the same approvals, finishing
      the workspace first if that was all of it; without such an attempt or an adapter it is refused. */
  lemma RepeatedExecuteDecides(request: Request, adapter: Option<string>, record: Record)
    requires request.ExecuteRequest? && AnswersFor(request, Some(record)) && WellAsked(request, record)
    requires forall i :: i in request.selected ==> i in record.completed
    ensures var pc := AfterExecuteLoad(request, adapter, Some(record));
            if adapter.None? then pc == Answered(UnknownItem)
            else
              var id := AttemptId(record.workspace, ToSet(request.selected), request.approved, adapter.value, None);
              if !HasMatch(record.attempts, id, request.selected, request.approved) then pc == Answered(UnknownItem)
              else if forall i :: i in record.items <==> i in record.completed then
                pc == WantStore(Ending(record, false, Restored(id)))
              else pc == Answered(Restored(id))
  {
    WithoutEverything(request.selected, record.completed);
    SubsetMeansElements(request.selected, record.items);
    assert forall i :: i in ToSet(request.selected) <==> i in request.selected;
    CompleteExactly(record);
    if adapter.Some? {
      MatchIsFound(
        record.attempts, AttemptId(record.workspace, ToSet(request.selected), request.approved, adapter.value, None),
        request.selected, request.approved);
    }
  }

  // ----- what the store does -----

  /** A record is complete when each of its items is completed. */
  lemma CompleteExactly(r: Record)
    ensures AllCompleted(r) <==> forall i :: i in r.items <==> i in r.completed
  {
    SameElements(r.completed, r.items);
  }

  /** A workspace is finished if and only if it is the one loaded and, unless it is discarded, each of its items is
      completed; if it is refused, for the first of these reasons. */
  lemma FinishesExactly(fits: Record -> bool, d: Disk, w: WorkspaceId, discard: bool)
    ensures var result, found := PlanOp(fits, d, FinishOp(w, discard)).result, Load(d);
            && (result == Finished <==>
                  && found.Some? && found.value.workspace == w
                  && (discard || forall i :: i in found.value.items <==> i in found.value.completed))
            && (result != Finished ==>
                  result == Refused(if found.None? then NoWorkspace
                                    else if found.value.workspace != w then WorkspaceChanged
                                    else Unfinished))
  {
    if Load(d).Some? {
      CompleteExactly(Load(d).value);
    }
  }

  /** A record is installed, or one is there already, unless it exceeds the size limit. */
  lemma InstallsExactly(fits: Record -> bool, d: Disk, candidate: Record)
    ensures var op := InstallOp(candidate);
            && (PlanOp(fits, d, op).result == Installed <==> d.recovery.Some? || fits(candidate))
            && (PlanOp(fits, d, op).result != Installed ==> PlanOp(fits, d, op).result == Refused(RecordTooLarge))
            && Done(fits, d, op) == (if d.recovery.None? && fits(candidate) then d.(recovery := Some(candidate)) else d)
  {}

  /** After any other operation no record that a tombstone names is left. */
  lemma NothingBuriedIsLeft(fits: Record -> bool, d: Disk, op: StoreOp)
    requires !op.InstallOp?
    ensures var d' := Done(fits, d, op); d'.recovery.Some? ==> Load(d') == d'.recovery
  {}

  // ----- what a commit completes -----

  /** After a commit the completed items are those before and those this attempt reported a success or warning of. */
  lemma CompletedExactly(fits: Record -> bool, r: Record, w: WorkspaceId, a: Attempt, os: seq<Outcome>, item: ItemId)
    requires Unique(r.completed) && Commit(fits, r, w, a, os).Ok?
    ensures item in Commit(fits, r, w, a, os).value.completed
       <==> item in r.completed || exists o :: o in os && o.item == item && (o.kind == Success || o.kind == Warning)
  {
    AppendCompletedMembers(r.completed, os);
    if OutcomeCount(os, item) > 0 {
      CountedOutcomesAreListed(os, item);
    }
    if o :| o in os && o.item == item && (o.kind == Success || o.kind == Warning) {
      ListedOutcomesAreCounted(os, o);
    }
  }

  /** The items these outcomes complete, in their order, that are not completed already. */
  function NewlyCompleted(os: seq<Outcome>, completed: seq<ItemId>): seq<ItemId> {
    if os == [] then []
    else
      (if (os[0].kind == Success || os[0].kind == Warning) && os[0].item !in completed then [os[0].item] else [])
      + NewlyCompleted(os[1..], completed)
  }

  lemma {:induction false} NewlyCompletedOfOneMore(front: seq<Outcome>, last: Outcome, completed: seq<ItemId>)
    ensures NewlyCompleted(front + [last], completed)
         == NewlyCompleted(front, completed) + NewlyCompleted([last], completed)
  {
    if front == [] {
      assert [] + [last] == [last];
    } else {
      assert (front + [last])[1..] == front[1..] + [last];
      NewlyCompletedOfOneMore(front[1..], last, completed);
    }
  }

  lemma {:induction false} NewlyCompletedAreNamed(os: seq<Outcome>, completed: seq<ItemId>, item: ItemId)
    requires item in NewlyCompleted(os, completed)
    ensures item in OutcomeItems(os)
  {
    if item in NewlyCompleted(os[1..], completed) {
      NewlyCompletedAreNamed(os[1..], completed, item);
      var k :| 0 <= k < |os[1..]| && OutcomeItems(os[1..])[k] == item;
      assert OutcomeItems(os)[k + 1] == item;
    } else {
      assert OutcomeItems(os)[0] == item;
    }
  }

  lemma AppendLast(completed: seq<ItemId>, front: seq<Outcome>, last: Outcome)
    requires AppendCompleted(completed, front) == completed + NewlyCompleted(front, completed)
    requires last.item !in OutcomeItems(front)
    ensures AppendCompleted(completed, front + [last])
         == completed + NewlyCompleted(front, completed) + NewlyCompleted([last], completed)
  {
    assert (front + [last])[..|front|] == front;
    assert [last][1..] == [];
    if last.item in NewlyCompleted(front, completed) {
      NewlyCompletedAreNamed(front, completed, last.item);
    }
  }

  lemma UniqueFront(front: seq<Outcome>, last: Outcome)
    requires Unique(OutcomeItems(front + [last]))
    ensures Unique(OutcomeItems(front)) && last.item !in OutcomeItems(front)
  {
    var items := OutcomeItems(front + [last]);
    assert forall k :: 0 <= k < |front| ==> OutcomeItems(front)[k] == items[k];
    assert items[|front|] == last.item;
  }

  /** The completed list grows at its end, in the order of the outcomes. */
  lemma {:induction false} CompletedInOrder(completed: seq<ItemId>, os: seq<Outcome>)
    requires Unique(OutcomeItems(os))
    ensures AppendCompleted(completed, os) == completed + NewlyCompleted(os, completed)
  {
    if os != [] {
      var front, last := os[..|os| - 1], os[|os| - 1];
      assert os == front + [last];
      UniqueFront(front, last);
      CompletedInOrder(completed, front);
      NewlyCompletedOfOneMore(front, last, completed);
      AppendLast(completed, front, last);
    }
  }

  lemma SelectionIsCovered(a: seq<ItemId>, os: seq<Outcome>)
    ensures ToSet(OutcomeItems(os)) <= ToSet(a) <==> forall o :: o in os ==> o.item in a
  {
    SubsetMeansElements(OutcomeItems(os), a);
    assert forall i :: 0 <= i < |os| ==> os[i] in os && OutcomeItems(os)[i] == os[i].item;
  }

  /** A refused commit is told the first of these reasons that applies. */
  lemma CommitRefusedFor(fits: Record -> bool, r: Record, w: WorkspaceId, a: Attempt, os: seq<Outcome>)
    requires Commit(fits, r, w, a, os).Err?
    ensures Commit(fits, r, w, a, os).error
         == if w != r.workspace || a.workspace != w then WorkspaceMismatch
            else if exists k :: 0 <= k < |r.attempts| && r.attempts[k].id == a.id then AttemptExists
            else if exists i :: i in a.selected && i !in r.items then UnknownSelected
            else if exists j, k :: 0 <= j < k < |os| && os[j].item == os[k].item then DuplicateOutcome
            else if exists o :: o in os && o.item !in a.selected then UnselectedOutcome
            else if a.outcomes != [] && a.outcomes != os then OutcomesDiffer
            else if |r.attempts| == 256 then TooManyAttempts
            else TooLarge
  {
    var ids, items := AttemptIds(r.attempts), OutcomeItems(os);
    assert a.id in ids <==> exists k :: 0 <= k < |r.attempts| && r.attempts[k].id == a.id by {
      assert forall k :: 0 <= k < |r.attempts| ==> ids[k] == r.attempts[k].id;
    }
    SubsetMeansElements(a.selected, r.items);
    SelectionIsCovered(a.selected, os);
    assert Unique(items) <==> !exists j, k :: 0 <= j < k < |os| && os[j].item == os[k].item by {
      assert forall k :: 0 <= k < |os| ==> items[k] == os[k].item;
    }
  }

  // ----- a failed execute and its retry -----

  predicate CoversSelection(os: seq<Outcome>, plan: LaunchPlan) {
    Unique(OutcomeItems(os)) && ToSet(OutcomeItems(os)) == ToSet(plan.selected)
  }

  predicate AllFailed(os: seq<Outcome>) {
    forall o :: o in os ==> o.kind == Skip || o.kind == Failure
  }

  lemma FailuresAreRecorded(fits: Record -> bool, record: Record, attempt: Attempt, os: seq<Outcome>)
    requires Fresh(record) && AllFailed(os) && Commit(fits, record, record.workspace, attempt, os).Ok?
    ensures Commit(fits, record, record.workspace, attempt, os).value
         == record.(attempts := [attempt.(outcomes := os)], completed := [])
  {
    CompletesNothing(os);
    assert record.attempts + [attempt.(outcomes := os)] == [attempt.(outcomes := os)];
  }

  lemma RetryLaunchesAgain(retry: Request, record: Record, attempt: Attempt)
    requires retry.RetryRequest? && retry.workspace == record.workspace && retry.attempt == attempt.id
    requires record.attempts == [attempt] && record.completed == []
    requires AllFailed(attempt.outcomes) && attempt.outcomes != []
    requires retry.approved <= ToSet(OutcomeItems(attempt.outcomes))
    ensures AfterRetryLoad(retry, Some(record))
         == Launching(LaunchPlan(record, OutcomeItems(attempt.outcomes), retry.approved, Some(attempt.id)))
  {
    assert FindAttempt(record.attempts, retry.attempt) == Some(record.attempts[0]);
    RetryableOfFailures(attempt.outcomes, record.completed);
  }

  lemma RetryIsCommitted(fits: Record -> bool, record: Record, plan: LaunchPlan, adapter: string, later: seq<Outcome>)
    requires plan.record == record && plan.source.Some? && |record.attempts| == 1 && record.attempts[0].id.source.None?
    requires CoversSelection(later, plan) && ToSet(plan.selected) <= ToSet(record.items)
    ensures Commit(fits, record, record.workspace, BuildAttempt(plan, adapter), later).Ok?
       <==> fits(Grown(record, BuildAttempt(plan, adapter), later))
  {
    IdIsTakenExactly(record, plan, adapter);
    assert forall e :: e in record.attempts ==> e == record.attempts[0];
  }

  /** Retrying a first execute all of whose items failed launches the same items again, under an id of its own: whatever
      the retry reports, it is committed whenever the grown record is within the size limit. */
  lemma FailedExecuteCanBeRetried(
    fits: Record -> bool, execute: Request, retry: Request, adapter: string, record: Record,
    os: seq<Outcome>, later: seq<Outcome>)
    requires Fresh(record) && execute.ExecuteRequest? && retry.RetryRequest?
    requires AfterExecuteLoad(execute, Some(adapter), Some(record)).Launching?
    requires var plan := AfterExecuteLoad(execute, Some(adapter), Some(record)).plan;
             && CoversSelection(os, plan) && CoversSelection(later, plan)
             && (forall o :: o in os ==> o.kind == Skip || o.kind == Failure)
             && Commit(fits, record, record.workspace, BuildAttempt(plan, adapter), os).Ok?
             && retry.workspace == record.workspace && retry.attempt == BuildAttempt(plan, adapter).id
             && retry.approved <= ToSet(plan.selected)
    ensures var plan := AfterExecuteLoad(execute, Some(adapter), Some(record)).plan;
            var record' := Commit(fits, record, record.workspace, BuildAttempt(plan, adapter), os).value;
            var pc := AfterRetryLoad(retry, Some(record'));
            && pc.Launching? && pc.plan.selected == OutcomeItems(os)
            && (Commit(fits, record', record'.workspace, BuildAttempt(pc.plan, adapter), later).Ok?
                <==> fits(Grown(record', BuildAttempt(pc.plan, adapter), later)))
  {
    var plan := AfterExecuteLoad(execute, Some(adapter), Some(record)).plan;
    var attempt := BuildAttempt(plan, adapter);
    assert plan.record == record && plan.source.None? && plan.selected != [];
    assert ToSet(plan.selected) <= ToSet(record.items);
    FailuresAreRecorded(fits, record, attempt, os);
    var record' := record.(attempts := [attempt.(outcomes := os)], completed := []);
    assert OutcomeItems(os) != [] by {
      assert plan.selected[0] in ToSet(plan.selected);
    }
    RetryLaunchesAgain(retry, record', attempt.(outcomes := os));
    RetryIsCommitted(
      fits, record', LaunchPlan(record', OutcomeItems(os), retry.approved, Some(attempt.id)), adapter, later);
  }

  lemma {:induction false} CompletesNothing(os: seq<Outcome>)
    requires forall o :: o in os ==> o.kind == Skip || o.kind == Failure
    ensures AppendCompleted([], os) == []
  {
    if os != [] {
      assert os[|os| - 1] in os && forall o :: o in os[..|os| - 1] ==> o in os;
      CompletesNothing(os[..|os| - 1]);
    }
  }

  // ----- a repeated execute -----

  lemma SelectedAreCompleted(fits: Record -> bool, r: Record, plan: LaunchPlan, adapter: string, os: seq<Outcome>)
    requires Unique(r.completed) && Commit(fits, r, r.workspace, BuildAttempt(plan, adapter), os).Ok?
    requires CoversSelection(os, plan) && forall o :: o in os ==> o.kind == Success || o.kind == Warning
    ensures forall i :: i in plan.selected ==>
              i in Commit(fits, r, r.workspace, BuildAttempt(plan, adapter), os).value.completed
  {
    forall i | i in plan.selected
      ensures i in Commit(fits, r, r.workspace, BuildAttempt(plan, adapter), os).value.completed
    {
      CompletedExactly(fits, r, r.workspace, BuildAttempt(plan, adapter), os, i);
      assert i in ToSet(plan.selected) && i in ToSet(OutcomeItems(os));
      var j :| 0 <= j < |os| && OutcomeItems(os)[j] == i;
      assert os[j] in os;
    }
  }

  /** Repeating an execute that succeeded for all its items launches nothing and answers the same attempt; if that
      completed the whole record, the workspace is finished first. */
  lemma SuccessfulExecuteIsIdempotent(
    fits: Record -> bool, request: Request, adapter: string, record: Record, os: seq<Outcome>)
    requires request.ExecuteRequest? && Unique(record.completed)
    requires AfterExecuteLoad(request, Some(adapter), Some(record)).Launching?
    requires forall i :: i in request.selected ==> i !in record.completed
    requires var plan := AfterExecuteLoad(request, Some(adapter), Some(record)).plan;
             && CoversSelection(os, plan) && (forall o :: o in os ==> o.kind == Success || o.kind == Warning)
             && Commit(fits, record, record.workspace, BuildAttempt(plan, adapter), os).Ok?
    ensures var plan := AfterExecuteLoad(request, Some(adapter), Some(record)).plan;
            var attempt := BuildAttempt(plan, adapter);
            var record' := Commit(fits, record, record.workspace, attempt, os).value;
            AfterExecuteLoad(request, Some(adapter), Some(record'))
            == if AllCompleted(record') then WantStore(Ending(record', false, Restored(attempt.id)))
               else Answered(Restored(attempt.id))
  {
    var plan := AfterExecuteLoad(request, Some(adapter), Some(record)).plan;
    var attempt := BuildAttempt(plan, adapter);
    var record' := Commit(fits, record, record.workspace, attempt, os).value;
    ExecuteDecides(request, Some(adapter), Some(record));
    WholeSelection(request, adapter, record);
    SelectedAreCompleted(fits, record, plan, adapter, os);
    assert record'.attempts[|record.attempts|] == attempt.(outcomes := os);
    assert Matches(attempt.(outcomes := os), attempt.id, request.selected, request.approved);
    RepeatedExecuteDecides(request, Some(adapter), record');
    CompleteExactly(record');
  }

  lemma WholeSelection(request: Request, adapter: string, record: Record)
    requires request.ExecuteRequest? && AfterExecuteLoad(request, Some(adapter), Some(record)).Launching?
    requires forall i :: i in request.selected ==> i !in record.completed
    ensures AfterExecuteLoad(request, Some(adapter), Some(record))
         == Launching(LaunchPlan(record, request.selected, request.approved, None))
  {
    WithoutNothing(request.selected, record.completed);
    assert request.approved * ToSet(request.selected) == request.approved;
  }

  // ----- discarding and listing -----

  /** Discard and list, by what they load. */
  lemma OtherDecisions(request: Request, adapter: Option<string>, found: Option<Record>)
    requires request.DiscardRequest? || request.ListRequest?
    ensures var pc := AfterLoad(request, adapter, found);
            && (request.DiscardRequest? ==>
                  (pc == Answered(WorkspaceMismatched) <==> found.None? || found.value.workspace != request.workspace)
                  && (found.Some? && found.value.workspace == request.workspace ==>
                        pc == WantStore(Ending(found.value, true, Discarded))))
            && (request.ListRequest? ==> (pc.Reconciling? <==> found.None?))
            && (request.ListRequest? && found.Some? ==> pc == Answered(Listed(Some(found.value.workspace))))
  {}

  // ----- what an answer means -----

  /** The attempt is in the stored record, which is not finished yet; or the record was, and this workspace's completion is
      on file. */
  predicate AttemptIsSettled(d: Disk, workspace: WorkspaceId, id: AttemptId) {
    || (d.recovery.Some? && id in AttemptIds(d.recovery.value.attempts) && !AllCompleted(d.recovery.value))
    || (d.recovery.None? && d.completion == Some(workspace))
  }

  predicate WorkspaceIsDiscarded(d: Disk, workspace: WorkspaceId) {
    d.recovery.None? && d.discarded == Some(workspace)
  }

  predicate AnswerIsTrue(d: Disk, request: Request, response: Response) {
    && (response.Restored? ==> request.Scoped() && AttemptIsSettled(d, request.workspace, response.attempt))
    && (response.Discarded? ==> request.Scoped() && WorkspaceIsDiscarded(d, request.workspace))
  }

  // The answer an ending task carries is the one its request calls for.
  predicate EndsFor(request: Request, stage: Stage) {
    stage.Ending? ==>
      && (stage.response.Discarded? <==> stage.discard)
      && (stage.response.Restored? <==> !stage.discard)
      && request.Scoped() && stage.record.workspace == request.workspace
  }

  predicate EndingOk(task: Task) {
    && (task.pc.WantStore? ==> EndsFor(task.request, task.pc.stage))
    && (task.pc.InStore? ==> EndsFor(task.request, task.pc.stage))
  }

  ghost predicate EndingsOk(s: System) {
    forall t :: 0 <= t < |s.tasks| ==> EndingOk(s.tasks[t])
  }

  lemma LoadEnds(request: Request, adapter: Option<string>, found: Option<Record>)
    ensures var pc := AfterLoad(request, adapter, found);
            pc.WantStore? ==> EndsFor(request, pc.stage)
  {}

  lemma CommitEnds(fits: Record -> bool, task: Task, adapter: Option<string>, d: Disk)
    requires task.pc.InStore? && task.pc.stage.Commitment? && TaskOk(task) && Load(d) == Some(task.pc.stage.record)
    ensures var pc := AfterStore(task, adapter, task.pc.stage, PlanOp(fits, d, OpOf(task.pc.stage)).result);
            pc.WantStore? ==> EndsFor(task.request, pc.stage)
  {}

  lemma ReturnEnds(s: System, t: nat)
    requires Inv(s) && t < |s.tasks| && s.tasks[t].pc.InStore?
    ensures var pc := Returned(s, t).tasks[t].pc; pc.WantStore? ==> EndsFor(s.tasks[t].request, pc.stage)
  {
    var task := s.tasks[t];
    assert TaskOk(task) && View(s) == task.pc.start;
    match task.pc.stage
    case FirstLoad => LoadEnds(task.request, s.adapter, Load(task.pc.start));
    case Commitment(_, _, _) => CommitEnds(s.fits, task, s.adapter, task.pc.start);
    case _ =>
  }

  lemma StoreStepEnds(s: System, t: nat, c: Choice)
    requires t < |s.tasks| && Inv(s) && EndingOk(s.tasks[t]) && CanStep(s, t, c) && s.tasks[t].pc.InStore?
    ensures EndingOk(DoStep(s, t, c).tasks[t])
  {
    ReturnEnds(s, t);
  }

  lemma QuietStepEnds(s: System, t: nat, c: Choice)
    requires t < |s.tasks| && EndingOk(s.tasks[t]) && CanStep(s, t, c) && !s.tasks[t].pc.InStore?
    ensures EndingOk(DoStep(s, t, c).tasks[t])
  {}

  lemma TaskStepKeepsEndings(s: System, t: nat, c: Choice)
    requires Inv(s) && EndingsOk(s) && CanStep(s, t, c)
    ensures EndingsOk(DoStep(s, t, c))
  {
    var s' := DoStep(s, t, c);
    if s.tasks[t].pc.InStore? {
      StoreStepEnds(s, t, c);
    } else {
      QuietStepEnds(s, t, c);
    }
    forall u | 0 <= u < |s'.tasks|
      ensures EndingOk(s'.tasks[u])
    {
      if u != t {
        assert s'.tasks[u] == s.tasks[u];
      }
    }
  }

  lemma StepKeepsEndings(s: System, e: Event)
    requires Inv(s) && EndingsOk(s) && Can(s, e)
    ensures EndingsOk(Do(s, e))
  {
    if e.TaskStep? {
      TaskStepKeepsEndings(s, e.task, e.choice);
    }
  }

  lemma {:induction false} RunKeepsEndings(s: System, es: seq<Event>)
    requires Inv(s) && EndingsOk(s) && CanRun(s, es)
    ensures EndingsOk(Run(s, es))
    decreases |es|
  {
    if es != [] {
      StepKeepsEndings(s, es[0]);
      StepKeepsInv(s, es[0]);
      RunKeepsEndings(Do(s, es[0]), es[1..]);
    }
  }

  lemma LoadAnswerIsTrue(request: Request, adapter: Option<string>, d: Disk, found: Option<Record>)
    requires found.Some? ==> d.recovery == found
    ensures var pc := AfterLoad(request, adapter, found);
            pc.Answered? ==> AnswerIsTrue(d, request, pc.response)
  {
    if request.ExecuteRequest? {
      var pc := AfterExecuteLoad(request, adapter, found);
      if pc.Answered? && pc.response.Restored? {
        var record := found.value;
        var k :| 0 <= k < |record.attempts| && record.attempts[k].id == pc.response.attempt;
        assert AttemptIds(record.attempts)[k] == pc.response.attempt;
      }
    }
  }

  lemma CommitAnswerIsTrue(fits: Record -> bool, task: Task, adapter: Option<string>, d: Disk)
    requires task.pc.InStore? && task.pc.stage.Commitment? && TaskOk(task) && Load(d) == Some(task.pc.stage.record)
    ensures var op := OpOf(task.pc.stage);
            var pc := AfterStore(task, adapter, task.pc.stage, PlanOp(fits, d, op).result);
            pc.Answered? ==> AnswerIsTrue(Done(fits, d, op), task.request, pc.response)
  {
    var stage := task.pc.stage;
    var committed := Commit(fits, stage.record, stage.record.workspace, stage.attempt, stage.outcomes);
    if committed.Ok? {
      assert AttemptIds(committed.value.attempts)[|stage.record.attempts|] == stage.attempt.id;
    }
  }

  lemma EndAnswerIsTrue(fits: Record -> bool, task: Task, adapter: Option<string>, d: Disk)
    requires task.pc.InStore? && task.pc.stage.Ending? && EndsFor(task.request, task.pc.stage)
    ensures var op := OpOf(task.pc.stage);
            var pc := AfterStore(task, adapter, task.pc.stage, PlanOp(fits, d, op).result);
            pc.Answered? ==> AnswerIsTrue(Done(fits, d, op), task.request, pc.response)
  {}

  /** An answer says what is on disk: `Restored`, that the attempt is recorded in an unfinished record or the workspace is
      on file as completed; `Discarded`, that the record is gone and the workspace on file as discarded. */
  lemma AnswersAreTrue(s: System, t: nat, c: Choice)
    requires Inv(s) && EndingsOk(s) && CanStep(s, t, c)
    ensures var s' := DoStep(s, t, c);
            s'.tasks[t].pc.Answered? ==> AnswerIsTrue(s'.disk, s.tasks[t].request, s'.tasks[t].pc.response)
  {
    var task := s.tasks[t];
    if task.pc.InStore? && c.Proceed? && task.pc.taken >= |PlanOp(s.fits, task.pc.start, OpOf(task.pc.stage)).steps| {
      assert TaskOk(task) && InProgress(s.fits, s.disk, task.pc) && View(s) == task.pc.start;
      assert s.disk == Done(s.fits, task.pc.start, OpOf(task.pc.stage));
      match task.pc.stage
      case FirstLoad => LoadAnswerIsTrue(task.request, s.adapter, s.disk, Load(task.pc.start));
      case Commitment(_, _, _) => CommitAnswerIsTrue(s.fits, task, s.adapter, task.pc.start);
      case Ending(_, _, _) => EndAnswerIsTrue(s.fits, task, s.adapter, task.pc.start);
      case _ =>
    }
  }

  /** In every run, from boot on. */
  lemma EveryAnswerIsTrue(
    fits: Record -> bool, disk: Disk, adapter: Option<string>, faults: nat, es: seq<Event>, t: nat, c: Choice)
    requires DiskOk(disk) && CanRun(Boot(fits, disk, adapter, faults), es)
    requires CanStep(Run(Boot(fits, disk, adapter, faults), es), t, c)
    ensures var s := Run(Boot(fits, disk, adapter, faults), es);
            var s' := DoStep(s, t, c);
            s'.tasks[t].pc.Answered? ==> AnswerIsTrue(s'.disk, s.tasks[t].request, s'.tasks[t].pc.response)
  {
    RunKeepsInv(Boot(fits, disk, adapter, faults), es);
    RunKeepsEndings(Boot(fits, disk, adapter, faults), es);
    AnswersAreTrue(Run(Boot(fits, disk, adapter, faults), es), t, c);
  }
}
