/** The quote list page: the status selector's options and the in-place status update. */
module QuoteList {
  import opened Util
  import Quotes

  /** A quote as the page lists it. */
  datatype Item = Item(id: string, name: string, status: string)

  /** The values the status selector offers, in display order. */
  const StatusOptions: seq<string> := ["pending", "in_progress", "completed", "rejected"]

  /** The selector offers exactly the statuses the server accepts, in the enum's order. */
  lemma OptionsMatchServer()
    ensures StatusOptions == Quotes.StatusEnum
    ensures forall v :: v in StatusOptions <==> Quotes.ValidStatus(Some(v))
  {
  }

  /** `prev.map(q => q._id === id ? { ...q, status } : q)` */
  function SetStatus(items: seq<Item>, id: string, status: string): (r: seq<Item>)
    ensures |r| == |items|
    ensures forall i :: 0 <= i < |items| && items[i].id == id ==> r[i] == items[i].(status := status)
    ensures forall i :: 0 <= i < |items| && items[i].id != id ==> r[i] == items[i]
  {
    seq(|items|, i requires 0 <= i < |items| => if items[i].id == id then items[i].(status := status) else items[i])
  }

  /** Setting a status twice is setting it once, and a list without that id is left alone. */
  lemma SetStatusIdempotent(items: seq<Item>, id: string, status: string)
    ensures SetStatus(SetStatus(items, id, status), id, status) == SetStatus(items, id, status)
    ensures (forall i :: 0 <= i < |items| ==> items[i].id != id) ==> SetStatus(items, id, status) == items
  {
  }

  class QuoteListState {
    var messages: seq<Item>
    var updatingId: Option<string>

    constructor ()
      ensures messages == [] && updatingId == None
    {
      messages, updatingId := [], None;
    }

    /** The start of `handleStatusChange`: the id is marked as updating while the request runs. */
    method BeginStatusChange(id: string)
      modifies this
      ensures updatingId == Some(id) && messages == old(messages)
    {
      updatingId := Some(id);
    }

    /** The end of `handleStatusChange`, given whether the request succeeded: on success only the
        quote with that id gets the new status; on failure the list is unchanged. Either way
        nothing is marked as updating any more. */
    method FinishStatusChange(id: string, status: string, requestOk: bool)
      modifies this
      ensures updatingId == None
      ensures requestOk ==> messages == SetStatus(old(messages), id, status)
      ensures !requestOk ==> messages == old(messages)
    {
      if requestOk {
        messages := SetStatus(messages, id, status);
      }
      updatingId := None;
    }

    /** `handleStatusChange` as a whole. `during` is the id marked as updating while the request
        runs. */
    method HandleStatusChange(id: string, status: string, requestOk: bool) returns (during: Option<string>)
      modifies this
      ensures during == Some(id) && updatingId == None
      ensures messages == if requestOk then SetStatus(old(messages), id, status) else old(messages)
    {
      BeginStatusChange(id);
      during := updatingId;
      FinishStatusChange(id, status, requestOk);
    }
  }
}
