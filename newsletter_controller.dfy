/**
 * The newsletter subscriber list: one document per lower-cased email with an
 * active flag and a subscription time. Subscribing creates or reactivates,
 * unsubscribing deactivates, the admin deletes by id and lists everyone.
 */
module NewsletterController {
  import opened Wrappers
  import opened JsString
  import opened Http
  import opened Collection

  datatype Subscriber = Subscriber(id: nat, email: string, isActive: bool, subscribedAt: nat)

  const EmailRequired := "Email is required"
  const InvalidFormat := "Invalid email format"
  const AlreadySubscribed := "This email is already subscribed to our newsletter"
  const Reactivated := "Welcome back! Your subscription has been reactivated."
  const Subscribed := "Thank you for subscribing! You've unlocked 20% off your next purchase."
  const EmailNotFound := "Email not found in our newsletter list"
  const Unsubscribed := "You have been unsubscribed from our newsletter"
  const IdRequired := "Subscriber ID is required"
  const SubscriberNotFound := "Subscriber not found"
  const Removed := "Subscriber removed successfully"

  /** `newsletterModel.findOne({ email: key })`. */
  function FindByEmail(docs: seq<Subscriber>, key: string): (r: Option<nat>)
    ensures r.Some? ==> r.value < |docs| && docs[r.value].email == key
    ensures r.None? <==> forall i :: 0 <= i < |docs| ==> docs[i].email != key
  {
    IndexWhere(docs, (s: Subscriber) => s.email == key)
  }

  /** `newsletterModel.findById(id)`. */
  function FindById(docs: seq<Subscriber>, id: nat): (r: Option<nat>)
    ensures r.Some? ==> r.value < |docs| && docs[r.value].id == id
    ensures r.None? <==> forall i :: 0 <= i < |docs| ==> docs[i].id != id
  {
    IndexWhere(docs, (s: Subscriber) => s.id == id)
  }

  function IdOf(s: Subscriber): nat { s.id }
  function EmailOf(s: Subscriber): string { s.email }

  /** One document per email, every email stored lower-cased, ids unique and below `nextId`. */
  predicate WellFormed(docs: seq<Subscriber>, nextId: nat) {
    && UniqueBy(docs, IdOf)
    && UniqueBy(docs, EmailOf)
    && (forall i :: 0 <= i < |docs| ==> docs[i].id < nextId && IsLower(docs[i].email))
  }

  /**
   * Deleting the subscriber found by id keeps the list well formed, leaves no
   * subscriber with that id and keeps every other subscriber.
   */
  lemma RemoveKeepsWellFormed(docs: seq<Subscriber>, nextId: nat, i: nat)
    requires WellFormed(docs, nextId) && i < |docs|
    ensures WellFormed(RemoveAt(docs, i), nextId)
    ensures forall s :: s in RemoveAt(docs, i) ==> s.id != docs[i].id
    ensures forall s :: s in docs && s.id != docs[i].id ==> s in RemoveAt(docs, i)
  {
    RemoveAtUnique(docs, IdOf, i);
    RemoveAtUnique(docs, EmailOf, i);
    var r := RemoveAt(docs, i);
    forall k | 0 <= k < |r| ensures r[k].id < nextId && IsLower(r[k].email) {
      assert r[k] in docs;
    }
  }

  /** The reactivated document: active again, stamped with the request time. */
  function Reactivate(s: Subscriber, now: nat): (t: Subscriber)
    ensures t.id == s.id && t.email == s.email && t.isActive && t.subscribedAt == now
  {
    s.(isActive := true, subscribedAt := now)
  }

  /** The subscriber collection, in natural order. `defaultActive` is the schema's default for `isActive`. */
  class Newsletter {
    var docs: seq<Subscriber>
    var nextId: nat
    const defaultActive: bool

    ghost predicate Valid()
      reads this
    {
      WellFormed(docs, nextId)
    }

    constructor (defaultActive: bool)
      ensures Valid() && docs == [] && nextId == 0 && this.defaultActive == defaultActive
    {
      docs, nextId := [], 0;
      this.defaultActive := defaultActive;
    }

    /** `subscribeNewsletter`: absent → created (201), inactive → reactivated (200), active → refused (400). */
    method Subscribe(email: Option<string>, isEmail: string -> bool, now: nat) returns (reply: Reply)
      requires Valid()
      modifies this
      ensures Valid()
      ensures Falsy(email) ==>
        reply == Reply(400, false, EmailRequired) && docs == old(docs) && nextId == old(nextId)
      ensures !Falsy(email) && !isEmail(email.value) ==>
        reply == Reply(400, false, InvalidFormat) && docs == old(docs) && nextId == old(nextId)
      ensures !Falsy(email) && isEmail(email.value) ==>
        var key := Lower(email.value);
        var found := FindByEmail(old(docs), key);
        && (found.Some? && old(docs)[found.value].isActive ==>
              reply == Reply(400, false, AlreadySubscribed) && docs == old(docs) && nextId == old(nextId))
        && (found.Some? && !old(docs)[found.value].isActive ==>
              && reply == Reply(200, true, Reactivated)
              && docs == old(docs)[found.value := Reactivate(old(docs)[found.value], now)]
              && nextId == old(nextId))
        && (found.None? ==>
              && reply == Reply(201, true, Subscribed)
              && docs == old(docs) + [Subscriber(old(nextId), key, defaultActive, now)]
              && nextId == old(nextId) + 1)
    {
      if Falsy(email) {
        return Reply(400, false, EmailRequired);
      }
      if !isEmail(email.value) {
        return Reply(400, false, InvalidFormat);
      }
      var key := Lower(email.value);
      var found := FindByEmail(docs, key);
      if found.Some? {
        var i := found.value;
        if docs[i].isActive {
          return Reply(400, false, AlreadySubscribed);
        }
        docs := docs[i := Reactivate(docs[i], now)];
        return Reply(200, true, Reactivated);
      }
      LowerIsLower(email.value);
      docs := docs + [Subscriber(nextId, key, defaultActive, now)];
      nextId := nextId + 1;
      reply := Reply(201, true, Subscribed);
    }

    /** `unsubscribeNewsletter`: unknown → 404; known → the record stays, inactive. */
    method Unsubscribe(email: Option<string>) returns (reply: Reply)
      requires Valid()
      modifies this
      ensures Valid() && nextId == old(nextId)
      ensures Falsy(email) ==> reply == Reply(400, false, EmailRequired) && docs == old(docs)
      ensures !Falsy(email) ==>
        var found := FindByEmail(old(docs), Lower(email.value));
        && (found.None? ==> reply == Reply(404, false, EmailNotFound) && docs == old(docs))
        && (found.Some? ==>
              && reply == Reply(200, true, Unsubscribed)
              && docs == old(docs)[found.value := old(docs)[found.value].(isActive := false)])
    {
      if Falsy(email) {
        return Reply(400, false, EmailRequired);
      }
      var found := FindByEmail(docs, Lower(email.value));
      if found.None? {
        return Reply(404, false, EmailNotFound);
      }
      var i := found.value;
      docs := docs[i := docs[i].(isActive := false)];
      reply := Reply(200, true, Unsubscribed);
    }

    /** `deleteSubscriber`: unknown id → 404; otherwise exactly that subscriber is gone. */
    method Delete(id: Option<nat>) returns (reply: Reply)
      requires Valid()
      modifies this
      ensures Valid() && nextId == old(nextId)
      ensures id.None? ==> reply == Reply(400, false, IdRequired) && docs == old(docs)
      ensures id.Some? && FindById(old(docs), id.value).None? ==>
        reply == Reply(404, false, SubscriberNotFound) && docs == old(docs)
      ensures id.Some? && FindById(old(docs), id.value).Some? ==>
        && reply == Reply(200, true, Removed)
        && docs == RemoveAt(old(docs), FindById(old(docs), id.value).value)
        && (forall s :: s in docs ==> s.id != id.value)
        && (forall s :: s in old(docs) && s.id != id.value ==> s in docs)
    {
      if id.None? {
        return Reply(400, false, IdRequired);
      }
      var found := FindById(docs, id.value);
      if found.None? {
        return Reply(404, false, SubscriberNotFound);
      }
      RemoveKeepsWellFormed(docs, nextId, found.value);
      docs := RemoveAt(docs, found.value);
      reply := Reply(200, true, Removed);
    }

    /** `getAllSubscribers`: every subscriber, active or not, newest subscription first. */
    method All() returns (reply: Reply, subscribers: seq<Subscriber>, count: nat)
      ensures reply.status == 200 && reply.success
      ensures SortedDesc(subscribers, (s: Subscriber) => s.subscribedAt as int)
      ensures multiset(subscribers) == multiset(docs)
      ensures count == |subscribers| == |docs|
    {
      subscribers := SortDesc(docs, (s: Subscriber) => s.subscribedAt as int);
      count := |subscribers|;
      reply := Reply(200, true, "");
    }
  }

  /** Two spellings of one address that differ only in letter case reach the same record. */
  method CaseVariantsShareRecord(n: Newsletter, isEmail: string -> bool, now: nat)
      returns (first: Reply, second: Reply)
    requires n.Valid() && n.docs == [] && n.defaultActive
    requires isEmail("Ann@Shop.com") && isEmail("ann@shop.COM")
    modifies n
    ensures first.status == 201 && second == Reply(400, false, AlreadySubscribed)
    ensures |n.docs| == 1 && n.docs[0].email == "ann@shop.com"
  {
    first := n.Subscribe(Some("Ann@Shop.com"), isEmail, now);
    assert Lower("Ann@Shop.com") == "ann@shop.com";
    second := n.Subscribe(Some("ann@shop.COM"), isEmail, now);
    assert Lower("ann@shop.COM") == "ann@shop.com";
  }
}
