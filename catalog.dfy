/** The question catalog as the dashboards see it: the store's id-to-record
    map turned into an array (`loadAdminQuestions`, `loadUserProgress`,
    `loadUserQuestions`), the user's todo/completed split, and the admin's
    per-user progress line. */
module Catalog {
  import opened Seqs
  import Text

  /** Store-assigned question key. */
  type Id = string

  /** A stored question record, as `addQuestion` builds it. */
  datatype Question = Question(
    name: string,
    link: string,
    addedBy: string,
    addedDate: string,
    difficulty: string,
    tags: seq<string>)

  /** `{ id: key, ...questions[key] }`: a record together with its key. */
  datatype Entry = Entry(id: Id, question: Question)

  /** `keys` lists every key of `questions` exactly once: what
      `Object.keys(questions)` returns, in the order the store delivered. */
  predicate IsKeyOrder(keys: seq<Id>, questions: map<Id, Question>)
  {
    && NoDup(keys)
    && (forall id :: id in keys ==> id in questions)
    && (forall id :: id in questions ==> id in keys)
  }

  /** The ids of an array of entries, position by position. */
  function Ids(arr: seq<Entry>): (ids: seq<Id>)
    ensures |ids| == |arr|
    ensures forall i :: 0 <= i < |arr| ==> ids[i] == arr[i].id
  {
    seq(|arr|, i requires 0 <= i < |arr| => arr[i].id)
  }

  /** `Object.keys(questions).map(key => ({ id: key, ...questions[key] }))`:
      one entry per key, in key order, each carrying its key as `id` and
      the record stored under that key. */
  function ToArray(questions: map<Id, Question>, keys: seq<Id>): (arr: seq<Entry>)
    requires IsKeyOrder(keys, questions)
    ensures |arr| == |questions|
    ensures Ids(arr) == keys
    ensures NoDup(Ids(arr))
    ensures forall id :: id in questions <==> id in Ids(arr)
    ensures forall e :: e in arr ==> e.id in questions && questions[e.id] == e.question
  {
    NoDupCard(keys);
    assert (set k | k in keys) == questions.Keys;
    seq(|keys|, i requires 0 <= i < |keys| => Entry(keys[i], questions[keys[i]]))
  }

  /** A user's dashboard: the questions still to do and the completed ones. */
  datatype UserView = UserView(todo: seq<Entry>, completed: seq<Entry>)

  /** `questionsArray.filter(q => !ids.includes(q.id))`. */
  function Todo(arr: seq<Entry>, completedIds: seq<Id>): seq<Entry>
  {
    Filter(arr, (e: Entry) => e.id !in completedIds)
  }

  /** `questionsArray.filter(q => ids.includes(q.id))`. */
  function Completed(arr: seq<Entry>, completedIds: seq<Id>): seq<Entry>
  {
    Filter(arr, (e: Entry) => e.id in completedIds)
  }

  /** The split `loadUserQuestions` shows. The two parts are disjoint,
      together hold every question exactly once, and each keeps the
      catalog's order; a question is completed iff its id is in the user's
      list. */
  function Partition(arr: seq<Entry>, completedIds: seq<Id>): (v: UserView)
    ensures forall e :: e in v.completed <==> e in arr && e.id in completedIds
    ensures forall e :: e in v.todo <==> e in arr && e.id !in completedIds
    ensures multiset(v.todo) + multiset(v.completed) == multiset(arr)
    ensures IsSubseq(v.todo, arr) && IsSubseq(v.completed, arr)
  {
    var isTodo := (e: Entry) => e.id !in completedIds;
    var isDone := (e: Entry) => e.id in completedIds;
    FilterMembers(arr, isTodo);
    FilterMembers(arr, isDone);
    FilterComplement(arr, isTodo, isDone);
    FilterIsSubseq(arr, isTodo);
    FilterIsSubseq(arr, isDone);
    UserView(Todo(arr, completedIds), Completed(arr, completedIds))
  }

  /** No question appears on both sides of the split. */
  lemma PartitionDisjoint(arr: seq<Entry>, completedIds: seq<Id>)
    ensures multiset(Partition(arr, completedIds).todo)
            !! multiset(Partition(arr, completedIds).completed)
  {
  }

  /** The ids of the entries in `arr`. */
  function IdSet(arr: seq<Entry>): set<Id>
  {
    set e | e in arr :: e.id
  }

  /** The completed part of a non-empty catalog, one entry at a time. */
  lemma PartitionCons(arr: seq<Entry>, completedIds: seq<Id>)
    requires arr != []
    ensures Completed(arr, completedIds)
            == (if arr[0].id in completedIds then [arr[0]] else [])
               + Completed(arr[1..], completedIds)
  {
  }

  /** Removing the first entry of a catalog with distinct ids removes its id
      from the id set and keeps the rest distinct. */
  lemma IdSetCons(arr: seq<Entry>)
    requires arr != [] && NoDup(Ids(arr))
    ensures NoDup(Ids(arr[1..]))
    ensures arr[0].id !in IdSet(arr[1..])
    ensures IdSet(arr) == {arr[0].id} + IdSet(arr[1..])
  {
  }

  /** When the catalog's ids are distinct, the completed part has one entry
      per catalog id that the user has completed. */
  lemma {:induction false} CompletedSize(arr: seq<Entry>, completedIds: seq<Id>)
    requires NoDup(Ids(arr))
    ensures |Completed(arr, completedIds)|
            == |IdSet(arr) * (set id | id in completedIds)|
  {
    var done := set id | id in completedIds;
    if arr == [] {
      assert IdSet(arr) * done == {};
    } else {
      var tail := arr[1..];
      var a := arr[0].id;
      IdSetCons(arr);
      PartitionCons(arr, completedIds);
      CompletedSize(tail, completedIds);
      var rest := IdSet(tail) * done;
      assert a !in rest;
      if a in completedIds {
        assert IdSet(arr) * done == {a} + rest;
        assert |{a} + rest| == 1 + |rest|;
      } else {
        assert IdSet(arr) * done == rest;
      }
    }
  }

  /** The admin's "n/m completed" figures for one user. */
  datatype Count = Count(done: nat, total: nat)

  /** `${progress.length}/${questionsArray.length} completed`: "m" is the
      number of questions, and "n", the length of the user's list, is never
      less than the number of questions ticked for that user. */
  function ProgressCount(progress: seq<Id>, arr: seq<Entry>): (c: Count)
    ensures c.done == |progress| && c.total == |arr|
    ensures NoDup(Ids(arr)) ==> |Partition(arr, progress).completed| <= c.done
  {
    if NoDup(Ids(arr)) then
      CompletedAtMostListed(arr, progress);
      Count(|progress|, |arr|)
    else
      Count(|progress|, |arr|)
  }

  /** With distinct catalog ids, no more questions are completed than the
      user's list has entries. */
  lemma CompletedAtMostListed(arr: seq<Entry>, progress: seq<Id>)
    requires NoDup(Ids(arr))
    ensures |Partition(arr, progress).completed| <= |progress|
  {
    CompletedSize(arr, progress);
    DistinctAtMostLength(progress);
    var done := set id | id in progress;
    assert done == (IdSet(arr) * done) + (done - IdSet(arr));
    assert Partition(arr, progress).completed == Completed(arr, progress);
  }

  /** While every id in the user's list is distinct and names a question of
      the catalog, the "n" shown is the number of questions ticked for that
      user, and so never more than "m". */
  lemma ProgressCountAgreesWithTicks(progress: seq<Id>, arr: seq<Entry>)
    requires NoDup(progress) && NoDup(Ids(arr))
    requires forall id :: id in progress ==> id in Ids(arr)
    ensures ProgressCount(progress, arr).done == |Partition(arr, progress).completed|
    ensures ProgressCount(progress, arr).done <= ProgressCount(progress, arr).total
  {
    CompletedSize(arr, progress);
    NoDupCard(progress);
    var done := set id | id in progress;
    assert IdSet(arr) * done == done by {
      forall id | id in done ensures id in IdSet(arr) {
        assert id in Ids(arr);
        var k :| 0 <= k < |arr| && Ids(arr)[k] == id;
        assert arr[k] in arr;
      }
    }
    var v := Partition(arr, progress);
    assert multiset(v.todo) + multiset(v.completed) == multiset(arr);
    assert |multiset(v.completed)| <= |multiset(arr)|;
  }

  /** An id left behind for a question that no longer exists still counts:
      the "n" shown is then larger than the number of questions ticked. */
  lemma DanglingIdOvercounts(progress: seq<Id>, arr: seq<Entry>, x: Id)
    requires NoDup(Ids(arr))
    requires x in progress && x !in Ids(arr)
    ensures |Partition(arr, progress).completed| < ProgressCount(progress, arr).done
  {
    var done := set id | id in progress;
    CompletedSize(arr, progress);
    DistinctAtMostLength(progress);
    assert x !in IdSet(arr) by {
      forall e | e in arr ensures e.id != x {
        var k :| 0 <= k < |arr| && arr[k] == e;
        assert Ids(arr)[k] == e.id;
      }
    }
    assert done - {x} == (IdSet(arr) * done) + ((done - {x}) - IdSet(arr));
    assert |done - {x}| == |done| - 1;
    assert Partition(arr, progress).completed == Completed(arr, progress);
  }

  /** Longest name shown in full on the admin's progress line. */
  const NameLimit: nat := 15

  /** `name.substring(0, 15) + (name.length > 15 ? '...' : '')`. */
  function DisplayName(name: string): (r: string)
    ensures |name| <= NameLimit ==> r == name
    ensures |name| > NameLimit ==>
              |r| == NameLimit + 3 && Text.StartsWith(name, r[..NameLimit]) && r[NameLimit..] == "..."
  {
    if |name| > NameLimit then name[..NameLimit] + "..." else name
  }

  /** Names that fit are shown unabridged, so two of them never collide, and
      a shortened name never looks like a name that fits. */
  lemma DisplayNameFaithfulWhenShort(a: string, b: string)
    requires |a| <= NameLimit && DisplayName(a) == DisplayName(b)
    ensures a == b
  {
  }

  /** One entry of the admin's progress line for a user. */
  datatype Mark = Mark(caption: string, completed: bool)

  /** The admin's progress line: each catalog question, in catalog order,
      shown by its abridged name and ticked when the user completed it. */
  function Marks(progress: seq<Id>, arr: seq<Entry>): (r: seq<Mark>)
    ensures |r| == |arr|
    ensures forall i :: 0 <= i < |arr| ==> r[i].caption == DisplayName(arr[i].question.name)
    ensures forall i :: 0 <= i < |arr| ==>
              (r[i].completed <==> arr[i] in Partition(arr, progress).completed)
  {
    seq(|arr|, i requires 0 <= i < |arr| =>
      Mark(DisplayName(arr[i].question.name), arr[i].id in progress))
  }
}
