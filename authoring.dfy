/** `addQuestion`: validating the admin's form and building the record
    that is pushed to the store. */
module Authoring {
  import opened Wrappers
  import opened Text
  import opened Catalog

  /** Why a form is refused; the refused form is never saved. */
  datatype AddError =
    | MissingField  // name or link empty after trimming
    | InvalidUrl    // link does not start with "http"

  /** What `addQuestion` reads from the page. The difficulty and tags
      fields are `None` when their element is absent from the page. */
  datatype Form = Form(
    nameInput: string,
    linkInput: string,
    difficultyField: Option<string>,
    tagsField: Option<string>)

  const DefaultDifficulty: string := "Easy"

  /** `difficultyElement?.value || 'Easy'`: a missing element or an empty
      selection gives `Easy`. */
  function Difficulty(field: Option<string>): (d: string)
    ensures d != []
    ensures field.Some? && field.value != [] ==> d == field.value
    ensures field.None? || field == Some([]) ==> d == DefaultDifficulty
  {
    if field.Some? && field.value != [] then field.value else DefaultDifficulty
  }

  /** `tagsElement?.value.split(',').map(tag => tag.trim()) || []`: no tags
      when the element is absent; otherwise one trimmed tag per
      comma-separated piece, in input order. */
  function Tags(field: Option<string>): (tags: seq<string>)
    ensures field.None? ==> tags == []
    ensures field.Some? ==>
              && |tags| == |Split(field.value, ',')|
              && forall i :: 0 <= i < |tags| ==> tags[i] == Trim(Split(field.value, ',')[i])
  {
    match field
    case None => []
    case Some(text) =>
      var pieces := Split(text, ',');
      seq(|pieces|, i requires 0 <= i < |pieces| => Trim(pieces[i]))
  }

  /** Every tag is free of commas and of surrounding white space, and there
      is one tag more than the input has commas. */
  lemma TagsAreClean(text: string)
    ensures |Tags(Some(text))| == Occurrences(text, ',') + 1
    ensures forall i :: 0 <= i < |Tags(Some(text))| ==>
              var tag := Tags(Some(text))[i];
              ',' !in tag && (tag != [] ==> !IsSpace(tag[0]) && !IsSpace(tag[|tag| - 1]))
  {
    SplitLength(text, ',');
    var pieces := Split(text, ',');
    forall i | 0 <= i < |pieces| ensures ',' !in Trim(pieces[i]) {
      TrimInside(pieces[i]);
    }
  }

  /** An empty tags field gives one empty tag, not an empty list: `split`
      always returns at least one piece, so the `|| []` never applies. */
  lemma EmptyTagsFieldGivesOneEmptyTag()
    ensures Tags(Some("")) == [""]
  {
  }

  /** `addQuestion()`: trims name and link, refuses an empty one, refuses a
      link without the `http` prefix, and otherwise builds the record,
      stamped with the author's name and the creation time. */
  function AddQuestion(form: Form, addedBy: string, addedDate: string): (r: Result<Question, AddError>)
    ensures r == Failure(MissingField) <==> Trim(form.nameInput) == [] || Trim(form.linkInput) == []
    ensures r == Failure(InvalidUrl) <==>
              Trim(form.nameInput) != [] && Trim(form.linkInput) != []
              && !StartsWith(Trim(form.linkInput), "http")
    ensures r.Success? ==>
              && r.value.name == Trim(form.nameInput) && r.value.name != []
              && r.value.link == Trim(form.linkInput) && StartsWith(r.value.link, "http")
              && r.value.addedBy == addedBy && r.value.addedDate == addedDate
              && r.value.difficulty == Difficulty(form.difficultyField)
              && r.value.tags == Tags(form.tagsField)
  {
    var name := Trim(form.nameInput);
    var link := Trim(form.linkInput);
    if name == [] || link == [] then Failure(MissingField)
    else if !StartsWith(link, "http") then Failure(InvalidUrl)
    else Success(Question(name, link, addedBy, addedDate,
                          Difficulty(form.difficultyField), Tags(form.tagsField)))
  }

  /** A form is saved iff its trimmed name and link are non-empty and the
      trimmed link starts with `http`; a name or link of white space only
      counts as empty. */
  lemma SavedIffValid(form: Form, addedBy: string, addedDate: string)
    ensures AddQuestion(form, addedBy, addedDate).Success? <==>
              !AllSpace(form.nameInput) && !AllSpace(form.linkInput)
              && StartsWith(Trim(form.linkInput), "http")
  {
  }

  /** The trimmed link in a saved question is the link the admin typed,
      without surrounding white space. */
  lemma SavedLinkIsTyped(form: Form, addedBy: string, addedDate: string)
    requires !AllSpace(form.nameInput) && !AllSpace(form.linkInput)
    requires StartsWith(Trim(form.linkInput), "http")
    ensures AddQuestion(form, addedBy, addedDate).Success?
    ensures exists i, j :: 0 <= i <= j <= |form.linkInput|
              && form.linkInput[i..j] == AddQuestion(form, addedBy, addedDate).value.link
  {
    TrimInside(form.linkInput);
  }
}
