/**
 * The journal record and the request rules of JournalController::store and ::update, with
 * the field whitelist update applies.
 */
module Journals {
  import opened Wrappers
  import opened Validation

  /** A journal row; the timestamps are abstract clock readings. */
  datatype Journal = Journal(
    id: int,
    userId: int,
    title: string,
    content: string,
    mood: Option<string>,
    aiResponse: Option<string>,
    createdAt: int,
    updatedAt: int)

  /** The closed mood list of the 'in:' rule. */
  const Moods: seq<string> :=
    ["happy", "sad", "angry", "anxious", "excited", "calm", "stressed", "grateful"]

  const MaxTitle: nat := 255
  const MaxContent: nat := 5000

  datatype Field = Title | Content | Mood | AiResponse

  // ----------------------------------------------------------------------- store

  datatype StoreRequest = StoreRequest(title: Input, content: Input, mood: Input, aiResponse: Input)

  const StoreTitleRules: seq<Rule> := [Required, IsString, Max(MaxTitle)]
  const StoreContentRules: seq<Rule> := [Required, IsString, Max(MaxContent)]
  const MoodRules: seq<Rule> := [Nullable, IsString, In(Moods)]
  const AiResponseRules: seq<Rule> := [Nullable, IsString]

  /** The fields of a store request that fail their rules. */
  function StoreErrors(req: StoreRequest): (errors: set<Field>)
    ensures Title in errors <==> !(req.title.Str? && !Blank(req.title.s) && |req.title.s| <= MaxTitle)
    ensures Content in errors <==>
      !(req.content.Str? && !Blank(req.content.s) && |req.content.s| <= MaxContent)
    ensures Mood in errors <==>
      !(req.mood.Absent? || req.mood.Null? || (req.mood.Str? && (Blank(req.mood.s) || req.mood.s in Moods)))
    ensures AiResponse in errors <==> req.aiResponse.NonString?
  {
    RequiredStringMax(req.title, MaxTitle);
    RequiredStringMax(req.content, MaxContent);
    NullableStringIn(req.mood, Moods);
    NullableString(req.aiResponse);
    (if Passes(req.title, StoreTitleRules) then {} else {Title}) +
    (if Passes(req.content, StoreContentRules) then {} else {Content}) +
    (if Passes(req.mood, MoodRules) then {} else {Mood}) +
    (if Passes(req.aiResponse, AiResponseRules) then {} else {AiResponse})
  }

  /** A field that passed a nullable rule: null, or the string given. */
  function NullableValue(v: Input): (o: Option<string>)
    ensures o.Some? <==> v.Str?
    ensures o.Some? ==> o.value == v.s
  {
    if v.Str? then Some(v.s) else None
  }

  /**
   * store: validation failures are reported per field; otherwise a row with the request's
   * four fields is created for the user (the id and the clock are supplied by the database).
   */
  function Store(req: StoreRequest, id: int, userId: int, now: int): (r: Result<Journal, set<Field>>)
    ensures r.Failure? <==> StoreErrors(req) != {}
    ensures r.Failure? ==> r.error == StoreErrors(req)
    ensures r.Success? ==>
      && r.value.id == id && r.value.userId == userId
      && req.title == Str(r.value.title) && 0 < |r.value.title| <= MaxTitle
      && req.content == Str(r.value.content) && 0 < |r.value.content| <= MaxContent
      && r.value.mood == NullableValue(req.mood) && r.value.aiResponse == NullableValue(req.aiResponse)
      && (r.value.mood.None? || r.value.mood.value in Moods || Blank(r.value.mood.value))
      && r.value.createdAt == now && r.value.updatedAt == now
  {
    var errors := StoreErrors(req);
    if errors != {} then Failure(errors)
    else
      Success(Journal(id, userId, req.title.s, req.content.s, NullableValue(req.mood),
                      NullableValue(req.aiResponse), now, now))
  }

  /** The mood options the entry form offers beyond the list are refused by store. */
  lemma FormOnlyMoodsRejected(req: StoreRequest)
    requires req.mood in [Str("confused"), Str("motivated"), Str("tired")]
    ensures Mood in StoreErrors(req)
  {
    assert !Blank(req.mood.s) by {
      assert req.mood.s[0] !in TrimChars;
    }
  }

  // ---------------------------------------------------------------------- update

  /** An update request; ai_response may be sent but is neither validated nor written. */
  datatype UpdateRequest = UpdateRequest(title: Input, content: Input, mood: Input, aiResponse: Input)

  const UpdateTitleRules: seq<Rule> := [Sometimes, Required, IsString, Max(MaxTitle)]
  const UpdateContentRules: seq<Rule> := [Sometimes, Required, IsString, Max(MaxContent)]

  function UpdateErrors(req: UpdateRequest): (errors: set<Field>)
    ensures Title in errors <==>
      !(req.title.Absent? || (req.title.Str? && !Blank(req.title.s) && |req.title.s| <= MaxTitle))
    ensures Content in errors <==>
      !(req.content.Absent? || (req.content.Str? && !Blank(req.content.s) && |req.content.s| <= MaxContent))
    ensures Mood in errors <==>
      !(req.mood.Absent? || req.mood.Null? || (req.mood.Str? && (Blank(req.mood.s) || req.mood.s in Moods)))
    ensures AiResponse !in errors
  {
    SometimesRequiredStringMax(req.title, MaxTitle);
    SometimesRequiredStringMax(req.content, MaxContent);
    NullableStringIn(req.mood, Moods);
    (if Passes(req.title, UpdateTitleRules) then {} else {Title}) +
    (if Passes(req.content, UpdateContentRules) then {} else {Content}) +
    (if Passes(req.mood, MoodRules) then {} else {Mood})
  }

  /** $request->only([...]) then fill: a field absent from the request keeps its value. */
  function Whitelisted(j: Journal, req: UpdateRequest): (r: Journal)
    ensures r.(title := j.title, content := j.content, mood := j.mood) == j
    ensures req.title.Absent? ==> r.title == j.title
    ensures req.title.Str? ==> r.title == req.title.s
    ensures req.content.Absent? ==> r.content == j.content
    ensures req.content.Str? ==> r.content == req.content.s
    ensures req.mood.Absent? ==> r.mood == j.mood
    ensures req.mood.Null? ==> r.mood == None
    ensures req.mood.Str? ==> r.mood == Some(req.mood.s)
  {
    j.(title := if req.title.Str? then req.title.s else j.title,
       content := if req.content.Str? then req.content.s else j.content,
       mood := if req.mood.Absent? then j.mood else NullableValue(req.mood))
  }

  /**
   * update: on valid input only title, content and mood are written; Eloquent touches
   * updated_at only when one of them actually changed.
   */
  function Update(j: Journal, req: UpdateRequest, now: int): (r: Result<Journal, set<Field>>)
    ensures r.Failure? <==> UpdateErrors(req) != {}
    ensures r.Failure? ==> r.error == UpdateErrors(req)
    ensures r.Success? ==>
      && r.value.id == j.id && r.value.userId == j.userId
      && r.value.aiResponse == j.aiResponse && r.value.createdAt == j.createdAt
      && r.value.title == (if req.title.Absent? then j.title else req.title.s)
      && r.value.content == (if req.content.Absent? then j.content else req.content.s)
      && r.value.mood == (if req.mood.Absent? then j.mood else NullableValue(req.mood))
      && r.value.updatedAt ==
         (if (r.value.title, r.value.content, r.value.mood) == (j.title, j.content, j.mood)
          then j.updatedAt else now)
  {
    var errors := UpdateErrors(req);
    if errors != {} then Failure(errors)
    else
      var filled := Whitelisted(j, req);
      if filled == j then Success(j) else Success(filled.(updatedAt := now))
  }

  /** An update that sends nothing changes nothing, not even updated_at. */
  lemma EmptyUpdateIsNoOp(j: Journal, aiResponse: Input, now: int)
    ensures Update(j, UpdateRequest(Absent, Absent, Absent, aiResponse), now) == Success(j)
  {
  }
}
