/** Customer quote requests: the required-field check on creation and the status update,
    over a store of quotes keyed by id. */
module Quotes {
  import opened Util

  type Id = string

  /** The statuses the schema's enum admits, in declaration order. */
  const StatusEnum: seq<string> := ["pending", "in_progress", "completed", "rejected"]

  /** The schema's default status. */
  const DefaultStatus: string := "pending"

  datatype Quote = Quote(name: string, email: string, phone: string, details: string,
                         image: Option<string>, status: string)

  /** A stored quote always has a status the enum admits. */
  predicate StoreValid(docs: map<Id, Quote>) {
    forall id :: id in docs ==> docs[id].status in StatusEnum
  }

  /** The status check of the update handler: the value must be one of the four. An absent
      value (`None`) fails. */
  predicate ValidStatus(status: Option<string>) {
    status.Some? && status.value in StatusEnum
  }

  /** The accepted values are exactly the four the enum lists, and the default is one of them. */
  lemma ValidStatusExactly(v: string)
    ensures ValidStatus(Some(v)) <==> v == "pending" || v == "in_progress" || v == "completed" || v == "rejected"
    ensures ValidStatus(Some(DefaultStatus))
    ensures !ValidStatus(None)
  {
  }

  /** The creation check: name, email, phone and details must all be truthy; image is optional. */
  predicate RequiredPresent(name: Option<string>, email: Option<string>, phone: Option<string>, details: Option<string>) {
    Truthy(name) && Truthy(email) && Truthy(phone) && Truthy(details)
  }

  class QuoteStore {
    var docs: map<Id, Quote>

    constructor (initial: map<Id, Quote>)
      ensures docs == initial
    {
      docs := initial;
    }

    /** `createQuote`: 400 and nothing saved unless name, email, phone and details are all
        non-empty; otherwise a new quote with the default status. `newId` is the id the store
        assigns. */
    method CreateQuote(newId: Id, name: Option<string>, email: Option<string>, phone: Option<string>,
                       details: Option<string>, image: Option<string>)
      returns (status: int, created: Option<Quote>)
      requires newId !in docs
      modifies this
      ensures !RequiredPresent(name, email, phone, details) ==> status == 400 && created == None && docs == old(docs)
      ensures RequiredPresent(name, email, phone, details) ==>
                && status == 201
                && created == Some(Quote(name.value, email.value, phone.value, details.value, image, DefaultStatus))
                && docs == old(docs)[newId := created.value]
      ensures StoreValid(old(docs)) ==> StoreValid(docs)
    {
      if !Truthy(name) || !Truthy(email) || !Truthy(phone) || !Truthy(details) {
        return 400, None;
      }
      var q := Quote(name.value, email.value, phone.value, details.value, image, DefaultStatus);
      docs := docs[newId := q];
      return 201, Some(q);
    }

    /** `updateQuoteStatus`: an invalid status is refused with 400 before any lookup; then 404 for
        an unknown id; otherwise only the status changes. */
    method UpdateQuoteStatus(id: Id, status: Option<string>) returns (code: int, updated: Option<Quote>)
      modifies this
      ensures !ValidStatus(status) ==> code == 400 && updated == None && docs == old(docs)
      ensures ValidStatus(status) && id !in old(docs) ==> code == 404 && updated == None && docs == old(docs)
      ensures ValidStatus(status) && id in old(docs) ==>
                && code == 200
                && updated == Some(old(docs)[id].(status := status.value))
                && docs == old(docs)[id := updated.value]
      ensures StoreValid(old(docs)) ==> StoreValid(docs)
    {
      if !ValidStatus(status) {
        return 400, None;
      }
      if id !in docs {
        return 404, None;
      }
      var q := docs[id].(status := status.value);
      docs := docs[id := q];
      return 200, Some(q);
    }
  }
}
