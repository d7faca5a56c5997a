/**
 * The journal list the useJournals hook keeps on the client: what a fetch puts in it after
 * unwrapping the response body, and the optimistic edits create, update and delete make.
 */
module JournalList {
  import opened Wrappers
  import opened Journals

  /** A JSON value as JavaScript sees it after parsing; a journal object is a record. */
  datatype Json =
    | Undefined
    | Null
    | Bool(b: bool)
    | Number(n: int)
    | Text(s: string)
    | Array(items: seq<Journal>)
    | Rec(journal: Journal)
    | Object(fields: map<string, Json>)

  /** JavaScript truthiness (NaN is not modelled): arrays and objects are truthy even when empty. */
  predicate Truthy(v: Json)
    ensures Truthy(v) ==> !(v.Null? || v.Undefined?)
    ensures v.Array? || v.Rec? || v.Object? ==> Truthy(v)
    ensures v.Text? ==> (Truthy(v) <==> |v.s| > 0)
  {
    match v
    case Undefined => false
    case Null => false
    case Bool(b) => b
    case Number(n) => n != 0
    case Text(s) => s != ""
    case _ => true
  }

  /** `v.data`: a TypeError (None) on null and undefined, undefined when there is no such field. */
  function Data(v: Json): (r: Option<Json>)
    ensures r.None? <==> v.Null? || v.Undefined?
    ensures v.Object? && "data" in v.fields ==> r == Some(v.fields["data"])
    ensures !(v.Object? && "data" in v.fields) && !(v.Null? || v.Undefined?) ==> r == Some(Undefined)
  {
    match v
    case Undefined => None
    case Null => None
    case Object(fields) => Some(if "data" in fields then fields["data"] else Undefined)
    case _ => Some(Undefined)
  }

  /**
   * The fallback chain of fetchJournals: data.data.data when data.data and it are truthy,
   * else data.data when truthy, else data itself; None when data.data throws.
   */
  function Unwrap(d: Json): (r: Option<Json>)
    ensures r.None? <==> d.Null? || d.Undefined?
    ensures r.Some? && Truthy(Data(d).value) && Truthy(Data(Data(d).value).value) ==>
      r == Data(Data(d).value)
    ensures r.Some? && Truthy(Data(d).value) && !Truthy(Data(Data(d).value).value) ==> r == Data(d)
    ensures r.Some? && !Truthy(Data(d).value) ==> r == Some(d)
    ensures r.Some? ==> r.value == d || Truthy(r.value)
  {
    match Data(d)
    case None => None
    case Some(inner) =>
      if Truthy(inner) && Truthy(Data(inner).value) then Data(inner)
      else if Truthy(inner) then Some(inner)
      else Some(d)
  }

  /** `Array.isArray(x) ? x : []` after unwrapping. */
  function FetchedList(d: Json): (r: Option<seq<Journal>>)
    ensures r.None? <==> d.Null? || d.Undefined?
    ensures r.Some? && r.value != [] ==> Unwrap(d) == Some(Array(r.value))
    ensures r.Some? && !Unwrap(d).value.Array? ==> r.value == []
    ensures Unwrap(d).Some? && Unwrap(d).value.Array? ==> r == Some(Unwrap(d).value.items)
  {
    match Unwrap(d)
    case None => None
    case Some(v) => Some(if v.Array? then v.items else [])
  }

  /** The body index sends: the page under data.data is what the list shows, even when empty. */
  lemma PaginatedPageIsShown(page: seq<Journal>, paginator: map<string, Json>, body: map<string, Json>)
    requires "data" in paginator && paginator["data"] == Array(page)
    requires "data" in body && body["data"] == Object(paginator)
    ensures FetchedList(Object(body)) == Some(page)
  {
  }

  /** A list sent under data, with no data inside it, is shown. */
  lemma DirectListIsShown(list: seq<Journal>, body: map<string, Json>)
    requires "data" in body && body["data"] == Array(list)
    ensures FetchedList(Object(body)) == Some(list)
  {
  }

  /** A bare list is shown as it is. */
  lemma BareListIsShown(list: seq<Journal>)
    ensures FetchedList(Array(list)) == Some(list)
  {
  }

  /** A single record under data, as store and show send it, yields an empty list. */
  lemma RecordIsNotAList(j: Journal, body: map<string, Json>)
    requires "data" in body && body["data"] == Rec(j)
    ensures FetchedList(Object(body)) == Some([])
  {
  }

  // ------------------------------------------------------------- optimistic edits

  /** `prev.map(journal => journal.id === id ? updated : journal)`. */
  function ReplaceById(list: seq<Journal>, id: int, updated: Journal): (r: seq<Journal>)
    ensures |r| == |list|
    ensures forall i :: 0 <= i < |list| ==> r[i] == if list[i].id == id then updated else list[i]
  {
    if list == [] then []
    else [if list[0].id == id then updated else list[0]] + ReplaceById(list[1..], id, updated)
  }

  /** `prev.filter(journal => journal.id !== id)`. */
  function RemoveById(list: seq<Journal>, id: int): (r: seq<Journal>)
    ensures forall i :: 0 <= i < |r| ==> r[i].id != id
    ensures |r| <= |list|
    ensures (forall i :: 0 <= i < |list| ==> list[i].id != id) ==> r == list
  {
    if list == [] then []
    else
      assert list == [list[0]] + list[1..];
      if list[0].id == id then RemoveById(list[1..], id)
      else [list[0]] + RemoveById(list[1..], id)
  }

  /** Filtering splits over concatenation, so the kept entries stay in their order. */
  lemma {:induction false} RemoveKeepsOrder(a: seq<Journal>, b: seq<Journal>, id: int)
    ensures RemoveById(a + b, id) == RemoveById(a, id) + RemoveById(b, id)
  {
    if a != [] {
      var ab := a + b;
      assert ab[0] == a[0] && ab[1..] == a[1..] + b;
      RemoveKeepsOrder(a[1..], b, id);
      if a[0].id == id {
        calc {
          RemoveById(ab, id);
          RemoveById(a[1..] + b, id);
          RemoveById(a[1..], id) + RemoveById(b, id);
          RemoveById(a, id) + RemoveById(b, id);
        }
      } else {
        calc {
          RemoveById(ab, id);
          [a[0]] + RemoveById(a[1..] + b, id);
          [a[0]] + (RemoveById(a[1..], id) + RemoveById(b, id));
          ([a[0]] + RemoveById(a[1..], id)) + RemoveById(b, id);
          RemoveById(a, id) + RemoveById(b, id);
        }
      }
    } else {
      assert a + b == b;
    }
  }

  /** The entries left are exactly those of the list without the id. */
  lemma {:induction false} RemoveKeepsOthers(list: seq<Journal>, id: int, x: Journal)
    ensures x in RemoveById(list, id) <==> x in list && x.id != id
  {
    if list != [] {
      assert list == [list[0]] + list[1..];
      RemoveKeepsOthers(list[1..], id, x);
    }
  }

  /** Every kept entry keeps its multiplicity. */
  lemma {:induction false} RemoveKeepsCounts(list: seq<Journal>, id: int, x: Journal)
    requires x.id != id
    ensures multiset(RemoveById(list, id))[x] == multiset(list)[x]
  {
    if list != [] {
      assert list == [list[0]] + list[1..];
      RemoveKeepsCounts(list[1..], id, x);
    }
  }

  /** Deleting twice is deleting once. */
  lemma RemoveIdempotent(list: seq<Journal>, id: int)
    ensures RemoveById(RemoveById(list, id), id) == RemoveById(list, id)
  {
  }

  /** Deleting a journal just created, whose id was new, restores the list. */
  lemma DeleteUndoesCreate(list: seq<Journal>, j: Journal)
    requires forall i :: 0 <= i < |list| ==> list[i].id != j.id
    ensures RemoveById([j] + list, j.id) == list
  {
    assert ([j] + list)[1..] == list;
  }

  /** Deleting after updating the same id removes the same entries as deleting alone. */
  lemma {:induction false} DeleteAfterUpdate(list: seq<Journal>, id: int, updated: Journal)
    requires updated.id == id
    ensures RemoveById(ReplaceById(list, id, updated), id) == RemoveById(list, id)
  {
    if list != [] {
      var r := ReplaceById(list, id, updated);
      assert r[1..] == ReplaceById(list[1..], id, updated);
      DeleteAfterUpdate(list[1..], id, updated);
    }
  }

  /** Updating with a record that keeps the id keeps every id in place, and is idempotent. */
  lemma UpdateKeepsIds(list: seq<Journal>, id: int, updated: Journal)
    requires updated.id == id
    ensures forall i :: 0 <= i < |list| ==> ReplaceById(list, id, updated)[i].id == list[i].id
    ensures ReplaceById(ReplaceById(list, id, updated), id, updated) == ReplaceById(list, id, updated)
  {
  }

  // ------------------------------------------------------------------ hook state

  /** The failure message: the server's message when it sent a non-empty one, else the default. */
  function Message(serverMessage: Option<string>, fallback: string): (m: string)
    ensures serverMessage.Some? && serverMessage.value != "" ==> m == serverMessage.value
    ensures (serverMessage.None? || serverMessage.value == "") ==> m == fallback
  {
    if serverMessage.Some? && serverMessage.value != "" then serverMessage.value else fallback
  }

  const FetchFailed: string := "Failed to fetch journals"

  /** How the GET request settled: a parsed body, or a rejection with the server's message. */
  datatype Reply = Received(body: Json) | Rejected(serverMessage: Option<string>)

  /** The hook's `journals` and `error` state. */
  class JournalsState {
    var journals: seq<Journal>
    var error: Option<string>

    constructor ()
      ensures journals == [] && error == None
    {
      journals := [];
      error := None;
    }

    /** fetchJournals: on success the list becomes the unwrapped array (or []), else the error is set. */
    method FetchJournals(reply: Reply)
      modifies this
      ensures reply.Received? && FetchedList(reply.body).Some? ==>
        journals == FetchedList(reply.body).value && error == None
      ensures reply.Received? && FetchedList(reply.body).None? ==>
        journals == old(journals) && error == Some(FetchFailed)
      ensures reply.Rejected? ==>
        journals == old(journals) && error == Some(Message(reply.serverMessage, FetchFailed))
    {
      if reply.Rejected? {
        error := Some(Message(reply.serverMessage, FetchFailed));
        return;
      }
      var fetched := FetchedList(reply.body);
      if fetched.None? {
        // reading .data of null throws a TypeError, which carries no server response
        error := Some(FetchFailed);
      } else {
        journals := fetched.value;
        error := None;
      }
    }

    /** createJournal's optimistic step: a truthy created record goes to the front. */
    method CreateJournal(created: Option<Journal>)
      modifies this
      ensures created.Some? ==> journals == [created.value] + old(journals)
      ensures created.None? ==> journals == old(journals)
      ensures error == old(error)
    {
      if created.Some? {
        journals := [created.value] + journals;
      }
    }

    /** updateJournal's optimistic step: every entry with the id becomes the updated record. */
    method UpdateJournal(id: int, updated: Option<Journal>)
      modifies this
      ensures updated.Some? ==> journals == ReplaceById(old(journals), id, updated.value)
      ensures updated.None? ==> journals == old(journals)
      ensures error == old(error)
    {
      if updated.Some? {
        journals := ReplaceById(journals, id, updated.value);
      }
    }

    /** deleteJournal's optimistic step: the entries with the id are dropped. */
    method DeleteJournal(id: int)
      modifies this
      ensures journals == RemoveById(old(journals), id)
      ensures error == old(error)
    {
      journals := RemoveById(journals, id);
    }
  }
}
