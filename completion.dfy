/** A user's list of completed question ids and the list logic of
    `toggleQuestionCompletion`. */
module Completion {
  import opened Wrappers
  import opened Seqs
  import opened Catalog

  /** `progress.filter(id => id !== questionId)`: every occurrence of
      `questionId` dropped, every other id kept as often as before and in
      its original order. */
  function RemoveId(progress: seq<Id>, questionId: Id): (r: seq<Id>)
    ensures questionId !in r
    ensures forall x :: x != questionId ==> multiset(r)[x] == multiset(progress)[x]
    ensures IsSubseq(r, progress)
  {
    var keep := (x: Id) => x != questionId;
    FilterMembers(progress, keep);
    FilterIsSubseq(progress, keep);
    forall x | x != questionId
      ensures multiset(Filter(progress, keep))[x] == multiset(progress)[x]
    {
      FilterCount(progress, keep, x);
    }
    Filter(progress, keep)
  }

  /** Removing an id a second time changes nothing. */
  lemma RemoveIdIdempotent(progress: seq<Id>, questionId: Id)
    ensures RemoveId(RemoveId(progress, questionId), questionId) == RemoveId(progress, questionId)
  {
    FilterIdempotent(progress, (x: Id) => x != questionId);
  }

  /** Removing an id the list does not hold leaves the list as it is. */
  lemma RemoveAbsentId(progress: seq<Id>, questionId: Id)
    requires questionId !in progress
    ensures RemoveId(progress, questionId) == progress
  {
    FilterAllKept(progress, (x: Id) => x != questionId);
  }

  /** The write `toggleQuestionCompletion` makes: `None` when it returns
      early without writing, otherwise the new list it stores. Marking an
      id already in the list writes nothing; marking an absent id appends
      it; unmarking stores the list without the id. */
  function Toggle(progress: seq<Id>, questionId: Id, completed: bool): (w: Option<seq<Id>>)
    ensures w.None? <==> completed && questionId in progress
    ensures questionId in Stored(progress, w) <==> completed
    ensures forall x :: x != questionId ==> (x in Stored(progress, w) <==> x in progress)
    ensures completed && questionId !in progress ==> w == Some(progress + [questionId])
    ensures !completed ==> w == Some(RemoveId(progress, questionId))
  {
    if completed then
      if questionId !in progress then Some(progress + [questionId]) else None
    else
      FilterMembers(progress, (x: Id) => x != questionId);
      Some(RemoveId(progress, questionId))
  }

  /** The user's list once the toggle's write, if any, is stored. */
  function Stored(progress: seq<Id>, w: Option<seq<Id>>): seq<Id>
  {
    match w
    case None => progress
    case Some(list) => list
  }

  /** The list after a toggle. */
  function AfterToggle(progress: seq<Id>, questionId: Id, completed: bool): seq<Id>
  {
    Stored(progress, Toggle(progress, questionId, completed))
  }

  /** Marking an absent id complete keeps every earlier id where it was and
      puts the new id last. */
  lemma MarkAppends(progress: seq<Id>, questionId: Id)
    requires questionId !in progress
    ensures var after := AfterToggle(progress, questionId, true);
            |after| == |progress| + 1 && after[..|progress|] == progress
            && after[|progress|] == questionId
  {
  }

  /** Toggling to the same state twice is toggling once, whichever the
      state; the second toggle to "complete" writes nothing. */
  lemma ToggleIdempotent(progress: seq<Id>, questionId: Id, completed: bool)
    ensures var once := AfterToggle(progress, questionId, completed);
            AfterToggle(once, questionId, completed) == once
    ensures completed ==> Toggle(AfterToggle(progress, questionId, true), questionId, true).None?
  {
    if !completed {
      RemoveIdIdempotent(progress, questionId);
    }
  }

  /** Unmarking undoes marking: a list without the id comes back unchanged. */
  lemma UnmarkUndoesMark(progress: seq<Id>, questionId: Id)
    requires questionId !in progress
    ensures AfterToggle(AfterToggle(progress, questionId, true), questionId, false) == progress
  {
    var after := progress + [questionId];
    assert RemoveId(after, questionId) == Filter(after, (x: Id) => x != questionId);
    FilterAppendDropped(progress, questionId);
  }

  /** Filtering out an id appended to a list without it gives the list. */
  lemma {:induction false} FilterAppendDropped(progress: seq<Id>, questionId: Id)
    requires questionId !in progress
    ensures Filter(progress + [questionId], (x: Id) => x != questionId) == progress
  {
    if progress == [] {
    } else {
      FilterAppendDropped(progress[1..], questionId);
      assert (progress + [questionId])[1..] == progress[1..] + [questionId];
    }
  }

  /** A list built only by toggles never holds an id twice. */
  lemma ToggleKeepsNoDup(progress: seq<Id>, questionId: Id, completed: bool)
    requires NoDup(progress)
    ensures NoDup(AfterToggle(progress, questionId, completed))
  {
    if !completed {
      FilterNoDup(progress, (x: Id) => x != questionId);
    }
  }
}
