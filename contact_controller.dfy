/**
 * The contact inbox: a visitor submits a message, which is validated,
 * normalised and stored; the admin lists messages, sets their status and
 * deletes them by id.
 */
module ContactController {
  import opened Wrappers
  import opened JsString
  import opened Http
  import opened Collection

  datatype Contact = Contact(
    id: nat, name: string, email: string, subject: string, message: string,
    status: string, createdAt: nat)

  /** The submitted form; each field may be missing. */
  datatype Submission = Submission(
    name: Option<string>, email: Option<string>, subject: Option<string>, message: Option<string>)

  /** The normalised fields that are stored. */
  datatype Fields = Fields(name: string, email: string, subject: string, message: string)

  const AllRequired := "All fields are required"
  const InvalidFormat := "Invalid email format"
  const ThankYou := "Thank you for contacting us! We'll get back to you soon."
  const IdAndStatusRequired := "Contact ID and status are required"
  const ContactNotFound := "Contact not found"
  const StatusUpdated := "Contact status updated successfully"
  const Deleted := "Contact message deleted successfully"

  /** `!name || !email || !subject || !message`: otherwise every field holds some text. */
  predicate AnyMissing(sub: Submission)
    ensures !AnyMissing(sub) ==>
      && sub.name.Some? && sub.email.Some? && sub.subject.Some? && sub.message.Some?
      && |sub.name.value| > 0 && |sub.email.value| > 0 && |sub.subject.value| > 0 && |sub.message.value| > 0
  {
    Falsy(sub.name) || Falsy(sub.email) || Falsy(sub.subject) || Falsy(sub.message)
  }

  /**
   * `submitContact`'s validation and normalisation: every field must be
   * present and non-empty, the raw email must pass `isEmail`; the stored
   * fields are trimmed and the email is lower-cased too.
   */
  function Intake(sub: Submission, isEmail: string -> bool): (r: Result<Fields, Reply>)
    ensures AnyMissing(sub) ==> r == Failure(Reply(400, false, AllRequired))
    ensures !AnyMissing(sub) && !isEmail(sub.email.value) ==> r == Failure(Reply(400, false, InvalidFormat))
    ensures r.Success? <==> !AnyMissing(sub) && isEmail(sub.email.value)
    ensures r.Success? ==>
      && r.value.name == Trim(sub.name.value)
      && r.value.subject == Trim(sub.subject.value)
      && r.value.message == Trim(sub.message.value)
      && r.value.email == Lower(Trim(sub.email.value))
    ensures r.Success? ==>
      && NoOuterSpace(r.value.name) && NoOuterSpace(r.value.subject) && NoOuterSpace(r.value.message)
      && NoOuterSpace(r.value.email) && IsLower(r.value.email)
  {
    if AnyMissing(sub) then Failure(Reply(400, false, AllRequired))
    else if !isEmail(sub.email.value) then Failure(Reply(400, false, InvalidFormat))
    else
      var e := sub.email.value;
      TrimLowerCommute(e);
      TrimSpec(sub.name.value);
      TrimSpec(sub.subject.value);
      TrimSpec(sub.message.value);
      TrimSpec(Lower(e));
      LowerIsLower(Trim(e));
      Success(Fields(Trim(sub.name.value), Trim(Lower(e)), Trim(sub.subject.value), Trim(sub.message.value)))
  }

  /** Fields made only of white space are present, so they are accepted and stored empty. */
  lemma WhitespaceOnlyAccepted(email: string, isEmail: string -> bool)
    requires email != "" && isEmail(email)
    ensures Intake(Submission(Some(" "), Some(email), Some("\t"), Some(" \n ")), isEmail).Success?
    ensures var f := Intake(Submission(Some(" "), Some(email), Some("\t"), Some(" \n ")), isEmail).value;
      f.name == "" && f.subject == "" && f.message == ""
  {
  }

  /** `contactModel.findById(id)`. */
  function FindById(docs: seq<Contact>, id: nat): (r: Option<nat>)
    ensures r.Some? ==> r.value < |docs| && docs[r.value].id == id
    ensures r.None? <==> forall i :: 0 <= i < |docs| ==> docs[i].id != id
  {
    IndexWhere(docs, (c: Contact) => c.id == id)
  }

  function IdOf(c: Contact): nat { c.id }

  /** Ids are unique and below the next one to hand out. */
  predicate WellFormed(docs: seq<Contact>, nextId: nat) {
    && UniqueBy(docs, IdOf)
    && (forall i :: 0 <= i < |docs| ==> docs[i].id < nextId)
  }

  /** Appending a message under the next id keeps the ids unique. */
  lemma AppendKeepsWellFormed(docs: seq<Contact>, nextId: nat, c: Contact)
    requires WellFormed(docs, nextId) && c.id == nextId
    ensures WellFormed(docs + [c], nextId + 1)
  {
    var r := docs + [c];
    forall a, b | 0 <= a < b < |r| ensures IdOf(r[a]) != IdOf(r[b]) {
      assert r[a] == docs[a];
    }
  }

  /** Deleting the message found by id removes it and no other, and keeps the ids unique. */
  lemma RemoveKeepsWellFormed(docs: seq<Contact>, nextId: nat, i: nat)
    requires WellFormed(docs, nextId) && i < |docs|
    ensures WellFormed(RemoveAt(docs, i), nextId)
    ensures forall c :: c in RemoveAt(docs, i) ==> c.id != docs[i].id
    ensures forall c :: c in docs && c.id != docs[i].id ==> c in RemoveAt(docs, i)
  {
    RemoveAtUnique(docs, IdOf, i);
    var r := RemoveAt(docs, i);
    forall k | 0 <= k < |r| ensures r[k].id < nextId {
      assert r[k] in docs;
    }
  }

  /** The contact collection, in natural order. `defaultStatus` is the schema's default for `status`. */
  class Inbox {
    var docs: seq<Contact>
    var nextId: nat
    const defaultStatus: string

    ghost predicate Valid()
      reads this
    {
      WellFormed(docs, nextId)
    }

    constructor (defaultStatus: string)
      ensures Valid() && docs == [] && nextId == 0 && this.defaultStatus == defaultStatus
    {
      docs, nextId := [], 0;
      this.defaultStatus := defaultStatus;
    }

    /** `submitContact`: refused with 400 and nothing stored, or exactly one normalised message added (201). */
    method Submit(sub: Submission, isEmail: string -> bool, now: nat) returns (reply: Reply)
      requires Valid()
      modifies this
      ensures Valid()
      ensures Intake(sub, isEmail).Failure? ==>
        reply == Intake(sub, isEmail).error && docs == old(docs) && nextId == old(nextId)
      ensures Intake(sub, isEmail).Success? ==>
        var f := Intake(sub, isEmail).value;
        && reply == Reply(201, true, ThankYou)
        && docs == old(docs) + [Contact(old(nextId), f.name, f.email, f.subject, f.message, defaultStatus, now)]
        && nextId == old(nextId) + 1
    {
      var intake := Intake(sub, isEmail);
      if intake.Failure? {
        return intake.error;
      }
      var f := intake.value;
      var c := Contact(nextId, f.name, f.email, f.subject, f.message, defaultStatus, now);
      AppendKeepsWellFormed(docs, nextId, c);
      docs := docs + [c];
      nextId := nextId + 1;
      reply := Reply(201, true, ThankYou);
    }

    /** `updateContactStatus`: missing input → 400, unknown id → 404, else only that message's status changes. */
    method UpdateStatus(id: Option<nat>, status: Option<string>) returns (reply: Reply, contact: Option<Contact>)
      requires Valid()
      modifies this
      ensures Valid() && nextId == old(nextId)
      ensures id.None? || Falsy(status) ==>
        reply == Reply(400, false, IdAndStatusRequired) && contact.None? && docs == old(docs)
      ensures id.Some? && !Falsy(status) && FindById(old(docs), id.value).None? ==>
        reply == Reply(404, false, ContactNotFound) && contact.None? && docs == old(docs)
      ensures id.Some? && !Falsy(status) && FindById(old(docs), id.value).Some? ==>
        var i := FindById(old(docs), id.value).value;
        && reply == Reply(200, true, StatusUpdated)
        && docs == old(docs)[i := old(docs)[i].(status := status.value)]
        && contact == Some(docs[i])
    {
      if id.None? || Falsy(status) {
        return Reply(400, false, IdAndStatusRequired), None;
      }
      var found := FindById(docs, id.value);
      if found.None? {
        return Reply(404, false, ContactNotFound), None;
      }
      var i := found.value;
      docs := docs[i := docs[i].(status := status.value)];
      reply, contact := Reply(200, true, StatusUpdated), Some(docs[i]);
    }

    /** `deleteContact`: unknown id → 404; otherwise exactly that message is gone. */
    method Delete(id: nat) returns (reply: Reply)
      requires Valid()
      modifies this
      ensures Valid() && nextId == old(nextId)
      ensures FindById(old(docs), id).None? ==> reply == Reply(404, false, ContactNotFound) && docs == old(docs)
      ensures FindById(old(docs), id).Some? ==>
        && reply == Reply(200, true, Deleted)
        && docs == RemoveAt(old(docs), FindById(old(docs), id).value)
        && (forall c :: c in docs ==> c.id != id)
        && (forall c :: c in old(docs) && c.id != id ==> c in docs)
    {
      var found := FindById(docs, id);
      if found.None? {
        return Reply(404, false, ContactNotFound);
      }
      RemoveKeepsWellFormed(docs, nextId, found.value);
      docs := RemoveAt(docs, found.value);
      reply := Reply(200, true, Deleted);
    }

    /** `getAllContacts`: every message, newest first. */
    method All() returns (reply: Reply, contacts: seq<Contact>, count: nat)
      ensures reply.status == 200 && reply.success
      ensures SortedDesc(contacts, (c: Contact) => c.createdAt as int)
      ensures multiset(contacts) == multiset(docs)
      ensures count == |contacts| == |docs|
    {
      contacts := SortDesc(docs, (c: Contact) => c.createdAt as int);
      count := |contacts|;
      reply := Reply(200, true, "");
    }
  }
}
