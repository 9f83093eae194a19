/** What `deleteQuestion` does to the store: the question leaves the
    catalog and its id leaves every user's completed list. The store is
    modelled as the two maps under `questions` and `progress`. */
module Store {
  import opened Wrappers
  import opened Seqs
  import opened Catalog
  import opened Completion
  import opened Text

  type Username = string

  /** The value stored under `progress/<username>` when there is one: a
      list of completed ids (`Array.isArray` holds), a falsy value (`0`,
      `false`), a string, or any other value (a non-zero number, `true`, an
      object). */
  datatype StoredProgress = IdList(ids: seq<Id>) | Falsy | Text(text: string) | Opaque

  /** JavaScript falsiness of a stored value; the empty string is falsy. */
  predicate IsFalsy(v: StoredProgress)
  {
    v.Falsy? || v == Text([])
  }

  /** The `updates` object `deleteQuestion` builds: an entry for each user
      whose value is a list, holding that list without `questionId`. Users
      whose value is not a list get no entry. */
  function CleanupOf(progressData: map<Username, StoredProgress>, questionId: Id)
    : (updates: map<Username, seq<Id>>)
    ensures forall u :: u in updates <==> u in progressData && progressData[u].IdList?
    ensures forall u :: u in updates ==>
              && questionId !in updates[u]
              && IsSubseq(updates[u], progressData[u].ids)
              && (forall x :: x != questionId ==>
                    multiset(updates[u])[x] == multiset(progressData[u].ids)[x])
  {
    map u | u in progressData && progressData[u].IdList? :: RemoveId(progressData[u].ids, questionId)
  }

  /** The `forEach` over `Object.keys(progressData)` that fills `updates`. */
  method CleanupUpdates(progressData: map<Username, StoredProgress>, questionId: Id)
    returns (updates: map<Username, seq<Id>>)
    ensures updates == CleanupOf(progressData, questionId)
  {
    updates := map[];
    var pending := progressData.Keys;
    while pending != {}
      invariant pending <= progressData.Keys
      invariant forall u :: u in updates <==>
                  u in progressData && u !in pending && progressData[u].IdList?
      invariant forall u :: u in updates ==>
                  updates[u] == RemoveId(progressData[u].ids, questionId)
      decreases pending
    {
      var username :| username in pending;
      if progressData[username].IdList? {
        updates := updates[username := RemoveId(progressData[username].ids, questionId)];
      }
      pending := pending - {username};
    }
  }

  /** `progressRef.update(updates)`: each listed child is replaced by its new
      list; every other child is left as it was. */
  function ApplyUpdates(progressData: map<Username, StoredProgress>, updates: map<Username, seq<Id>>)
    : (r: map<Username, StoredProgress>)
    ensures r.Keys == progressData.Keys + updates.Keys
    ensures forall u :: u in updates ==> r[u] == IdList(updates[u])
    ensures forall u :: u in progressData && u !in updates ==> r[u] == progressData[u]
  {
    map u | u in progressData.Keys + updates.Keys ::
      if u in updates then IdList(updates[u]) else progressData[u]
  }

  /** The two maps of the store that the dashboard reads and writes. */
  datatype State = State(questions: map<Id, Question>, progress: map<Username, StoredProgress>)

  /** The shape the dashboard itself writes: every progress value is a
      list (or a falsy value, read as an empty list), and every id in every
      list names a question of the catalog. */
  ghost predicate Consistent(s: State)
  {
    && (forall u :: u in s.progress ==> s.progress[u].IdList? || IsFalsy(s.progress[u]))
    && (forall u, x :: u in s.progress && s.progress[u].IdList? && x in s.progress[u].ids ==> x in s.questions)
  }

  /** `deleteQuestion(questionId)` when both writes succeed: the record is
      removed, then the cleanup updates are applied to the progress data.
      Afterwards the id is in neither the catalog nor any list; the same
      users have progress, values that are not lists are untouched, and
      every list keeps its other ids, in order. */
  function DeleteQuestion(s: State, questionId: Id): (t: State)
    ensures t.questions == s.questions - {questionId}
    ensures t.progress.Keys == s.progress.Keys
    ensures forall u :: u in t.progress && !s.progress[u].IdList? ==> t.progress[u] == s.progress[u]
    ensures forall u :: u in t.progress && s.progress[u].IdList? ==>
              && t.progress[u].IdList?
              && questionId !in t.progress[u].ids
              && IsSubseq(t.progress[u].ids, s.progress[u].ids)
              && (forall x :: x != questionId ==>
                    multiset(t.progress[u].ids)[x] == multiset(s.progress[u].ids)[x])
  {
    State(s.questions - {questionId}, ApplyUpdates(s.progress, CleanupOf(s.progress, questionId)))
  }

  /** Deleting a question keeps every list's ids pointing at questions that
      exist. */
  lemma DeletePreservesConsistency(s: State, questionId: Id)
    requires Consistent(s)
    ensures Consistent(DeleteQuestion(s, questionId))
  {
    var t := DeleteQuestion(s, questionId);
    forall u, x | u in t.progress && t.progress[u].IdList? && x in t.progress[u].ids
      ensures x in t.questions
    {
      assert multiset(t.progress[u].ids)[x] == multiset(s.progress[u].ids)[x];
    }
  }

  /** What `snapshot.val() || []` hands to `toggleQuestionCompletion`: a
      list, a non-empty string (which has `includes` but no `filter`), or a
      value with neither method. */
  datatype ProgressValue = List(ids: seq<Id>) | Str(text: string) | NoListMethods

  /** `getUserProgressFromFirebase(username, ...)`: a missing or falsy value
      reads as `[]`; any other value reads as itself. */
  function ReadProgress(s: State, username: Username): (r: ProgressValue)
    ensures username !in s.progress ==> r == List([])
    ensures username in s.progress && IsFalsy(s.progress[username]) ==> r == List([])
    ensures username in s.progress && s.progress[username].IdList? ==> r == List(s.progress[username].ids)
    ensures username in s.progress && s.progress[username].Text? && s.progress[username].text != [] ==>
              r == Str(s.progress[username].text)
    ensures username in s.progress && s.progress[username].Opaque? ==> r == NoListMethods
  {
    if username !in s.progress || IsFalsy(s.progress[username]) then List([])
    else match s.progress[username]
      case IdList(ids) => List(ids)
      case Text(text) => Str(text)
      case _ => NoListMethods
  }

  /** The write `toggleQuestionCompletion` makes for the value it read.
      A list is toggled. A string is searched with `includes`: marking an id
      it does not contain spreads the string into its characters and
      appends the id, marking an id it contains returns early, and unmarking
      fails at `filter`. A value without `includes` fails before any write. */
  function ToggleWrite(v: ProgressValue, questionId: Id, completed: bool): Option<seq<Id>>
  {
    match v
    case List(progress) => Toggle(progress, questionId, completed)
    case Str(text) =>
      if completed && !Contains(text, questionId) then Some(Spread(text) + [questionId]) else None
    case NoListMethods => None
  }

  /** `toggleQuestionCompletion(username, questionId, completed)` on the
      store, when the write succeeds. Only the user's own value can change,
      and when it does it becomes a list. */
  function ToggleInStore(s: State, username: Username, questionId: Id, completed: bool): (t: State)
    ensures t.questions == s.questions
    ensures t.progress.Keys <= s.progress.Keys + {username}
    ensures forall u :: u in s.progress && u != username ==> u in t.progress && t.progress[u] == s.progress[u]
    ensures t != s ==> username in t.progress && t.progress[username].IdList?
    ensures ReadProgress(s, username).List? ==>
              ReadProgress(t, username) == List(AfterToggle(ReadProgress(s, username).ids, questionId, completed))
    ensures ReadProgress(s, username).Str? ==>
              var text := ReadProgress(s, username).text;
              if completed && !Contains(text, questionId)
              then t.progress == s.progress[username := IdList(Spread(text) + [questionId])]
              else t == s
    ensures ReadProgress(s, username).NoListMethods? ==> t == s
  {
    match ToggleWrite(ReadProgress(s, username), questionId, completed)
    case None => s
    case Some(list) => State(s.questions, s.progress[username := IdList(list)])
  }

  /** A falsy stored value is overwritten by a one-id list when a question
      is marked. */
  lemma MarkOverFalsyValue(s: State, username: Username, questionId: Id)
    requires username in s.progress && IsFalsy(s.progress[username])
    ensures ToggleInStore(s, username, questionId, true).progress
            == s.progress[username := IdList([questionId])]
  {
    assert ToggleWrite(ReadProgress(s, username), questionId, true) == Some([] + [questionId]);
    assert [] + [questionId] == [questionId];
  }

  /** A stored string is spread into one-character ids: marking `"q"` over
      the string `"ab"` stores `["a", "b", "q"]`, while marking `"b"` finds
      it inside the string and writes nothing. */
  lemma MarkOverStringValue(s: State, username: Username)
    requires username in s.progress && s.progress[username] == Text("ab")
    ensures ToggleInStore(s, username, "q", true).progress
            == s.progress[username := IdList(["a", "b", "q"])]
    ensures ToggleInStore(s, username, "b", true) == s
  {
    assert !Contains("ab", "q") by {
      assert "ab"[1..] == "b" && "b"[1..] == [];
      assert "ab"[0] != "q"[0] && "b"[0] != "q"[0];
      assert !StartsWith("ab", "q") && !StartsWith("b", "q") && !StartsWith([], "q");
    }
    assert Spread("ab") + ["q"] == ["a", "b", "q"];
    assert Contains("ab", "b") by {
      assert StartsWith("ab"[1..], "b");
    }
  }

  /** Toggling with a successful read keeps every other id the user had
      listed. */
  lemma ToggleKeepsOtherIds(s: State, username: Username, questionId: Id, completed: bool, other: Id)
    requires username in s.progress && s.progress[username].IdList?
    requires other in s.progress[username].ids && other != questionId
    ensures var t := ToggleInStore(s, username, questionId, completed);
            t.progress[username].IdList? && other in t.progress[username].ids
  {
  }

  /** `toggleQuestionCompletion` when the read fails, or when the store is
      not connected: `getUserProgressFromFirebase` hands it `[]`, so the
      write replaces whatever the user had stored with the one-id list or
      the empty list. */
  function ToggleAfterFailedRead(s: State, username: Username, questionId: Id, completed: bool): (t: State)
    ensures t.questions == s.questions
    ensures t.progress == s.progress[username := IdList(if completed then [questionId] else [])]
  {
    RemoveAbsentId([], questionId);
    assert [] + [questionId] == [questionId];
    State(s.questions, s.progress[username := IdList(AfterToggle([], questionId, completed))])
  }

  /** After a failed read, every other id the user had listed is lost. */
  lemma FailedReadLosesList(s: State, username: Username, questionId: Id, completed: bool, other: Id)
    requires username in s.progress && s.progress[username].IdList?
    requires other in s.progress[username].ids && other != questionId
    ensures other !in ToggleAfterFailedRead(s, username, questionId, completed).progress[username].ids
  {
  }

  /** Toggling a question of the catalog keeps the store consistent. */
  lemma TogglePreservesConsistency(s: State, username: Username, questionId: Id, completed: bool)
    requires Consistent(s)
    requires questionId in s.questions
    ensures Consistent(ToggleInStore(s, username, questionId, completed))
  {
  }
}
