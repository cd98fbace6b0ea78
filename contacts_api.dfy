/**
  The contact endpoints: creating a contact (find or create the lead,
  resolve the source, distribute, and fall back to an unassigned contact)
  and closing one.
 */
module ContactsApi {
  import opened Wrappers
  import opened Models
  import opened LoadCalculator
  import opened Distribution

  /** The body of a contact-creation request. */
  datatype ContactCreate = ContactCreate(
    sourceCode: string, externalLeadId: string, phone: string,
    email: Option<string>, firstName: Option<string>, lastName: Option<string>,
    message: Option<string>)

  /** The response of contact creation: the contact, its operator if any, its lead and its source. */
  datatype ContactResponse = ContactResponse(contact: Contact, operator: Option<Operator>, lead: Lead, source: Source)

  /** The contact as `close_contact` leaves it: closed and stamped, nothing else changed. */
  function CloseRecord(c: Contact, now: Timestamp): (closed: Contact)
    ensures closed.status == Closed && closed.closedAt == Some(now)
    ensures closed.(status := c.status, closedAt := c.closedAt) == c
  {
    c.(status := Closed, closedAt := Some(now))
  }

  /**
    Closing contact `k` lowers the load of the operator it occupied by one
    and leaves every other load, and the load of any operator when the
    contact was already closed or unassigned, as it was.
   */
  lemma LoadAfterClose(contacts: seq<Contact>, k: nat, now: Timestamp, operatorId: int)
    requires k < |contacts|
    ensures Load(contacts[k := CloseRecord(contacts[k], now)], operatorId) ==
      Load(contacts, operatorId) - (if Occupies(contacts[k], operatorId) then 1 else 0)
  {
    LoadAfterUpdate(contacts, k, CloseRecord(contacts[k], now), operatorId);
  }

  /** The position of the contact with primary key `contactId` (`get_contact`). */
  function ContactIndex(contacts: seq<Contact>, contactId: int): (r: Option<nat>)
    ensures r.Some? ==> r.value < |contacts| && contacts[r.value].id == contactId
    ensures r.None? <==> forall c :: c in contacts ==> c.id != contactId
  {
    FirstIndex(contacts, (c: Contact) => c.id == contactId)
  }

  /**
    `close_contact`: an unknown id fails with 404 and changes nothing;
    otherwise the contact is closed and stamped whatever its status (a
    closed contact is stamped again), and only its operator's load drops.
   */
  method CloseContact(db: Database, contactId: int, now: Timestamp) returns (res: Result<Contact, HttpError>)
    requires db.Valid()
    modifies db`contacts
    ensures db.Valid()
    ensures ContactIndex(old(db.contacts), contactId).None? ==>
      res == Err(HttpError(404, "Contact not found")) && db.contacts == old(db.contacts)
    ensures ContactIndex(old(db.contacts), contactId).Some? ==>
      var i := ContactIndex(old(db.contacts), contactId).value;
      && res == Ok(CloseRecord(old(db.contacts)[i], now))
      && db.contacts == old(db.contacts)[i := res.value]
      && forall operatorId :: Load(db.contacts, operatorId) ==
           Load(old(db.contacts), operatorId) - (if Occupies(old(db.contacts)[i], operatorId) then 1 else 0)
  {
    var found := ContactIndex(db.contacts, contactId);
    if found.None? {
      return Err(HttpError(404, "Contact not found"));
    }
    var i := found.value;
    var closed := CloseRecord(db.contacts[i], now);
    assert db.contacts[i] in db.contacts;
    UpdateContactKeepsValid(db.operators, db.weights, db.contacts, i, closed);
    forall operatorId | true
      ensures Load(db.contacts[i := closed], operatorId) ==
        Load(db.contacts, operatorId) - (if Occupies(db.contacts[i], operatorId) then 1 else 0)
    {
      LoadAfterClose(db.contacts, i, now, operatorId);
    }
    db.contacts := db.contacts[i := closed];
    res := Ok(closed);
  }

  /** The lead `create_contact` stores for a request whose external id is unknown. */
  function NewLead(leads: seq<Lead>, req: ContactCreate): (lead: Lead)
    ensures forall i :: 0 <= i < |leads| ==> leads[i].id < lead.id
    ensures (forall i :: 0 <= i < |leads| ==> leads[i].id >= 0) ==> lead.id >= 1
    ensures lead.externalId == req.externalLeadId && lead.phone == req.phone
    ensures lead.email == req.email && lead.firstName == req.firstName && lead.lastName == req.lastName
  {
    Lead(NextId(leads, (l: Lead) => l.id), req.externalLeadId, req.phone, req.email, req.firstName, req.lastName)
  }

  /**
    `create_contact`. The lead is looked up by external id and created when
    unknown, before the source is resolved, so an unknown source code fails
    with 404 but keeps a newly created lead. Otherwise exactly one contact is
    stored: the distributed one when an operator is available, and an
    unassigned one when none is. The response names the contact's operator
    exactly when the contact has one.
   */
  method CreateContact(db: Database, req: ContactCreate, rng: Rng, now: Timestamp)
    returns (res: Result<ContactResponse, HttpError>)
    requires db.Valid() && ValidRng(rng)
    modifies db`leads, db`contacts
    ensures db.Valid()
    ensures FindLeadByExternalId(old(db.leads), req.externalLeadId).Some? ==> db.leads == old(db.leads)
    ensures FindLeadByExternalId(old(db.leads), req.externalLeadId).None? ==>
      db.leads == old(db.leads) + [NewLead(old(db.leads), req)]
    ensures FindSourceByCode(db.sources, req.sourceCode).None? ==>
      res == Err(HttpError(404, "Source not found")) && db.contacts == old(db.contacts)
    ensures FindSourceByCode(db.sources, req.sourceCode).Some? ==>
      && res.Ok?
      && var resp := res.value;
      && var c := resp.contact;
      && db.contacts == old(db.contacts) + [c]
      && Some(resp.source) == FindSourceByCode(db.sources, req.sourceCode)
      && Some(resp.lead) == FindLeadByExternalId(db.leads, req.externalLeadId)
      && c.id == NextId(old(db.contacts), (x: Contact) => x.id)
      && c.leadId == resp.lead.id && c.sourceId == resp.source.id && c.message == req.message
      && c.status == New && c.closedAt == None
      && (c.operatorId.Some? <==> c.assignedAt.Some?)
      && (c.operatorId.None? <==> SourceCandidates(db.weights, db.operators, old(db.contacts), resp.source.id) == [])
      && (c.operatorId.Some? ==>
            && c.assignedAt == Some(now)
            && exists op :: WeightedPick(SourceCandidates(db.weights, db.operators, old(db.contacts), resp.source.id), rng, op)
                           && c.operatorId == Some(op.id))
      && (resp.operator.Some? <==> c.operatorId.Some?)
      && (resp.operator.Some? ==> resp.operator.value in db.operators && Some(resp.operator.value.id) == c.operatorId)
  {
    var lead: Lead;
    var known := FindLeadByExternalId(db.leads, req.externalLeadId);
    if known.Some? {
      lead := known.value;
    } else {
      lead := NewLead(db.leads, req);
      FirstIndexAppend(db.leads, lead, (l: Lead) => l.externalId == req.externalLeadId);
      db.leads := db.leads + [lead];
    }

    var source := FindSourceByCode(db.sources, req.sourceCode);
    if source.None? {
      return Err(HttpError(404, "Source not found"));
    }

    var distributed := DistributeContact(db, lead.id, source.value.id, req.message, rng, now);
    var contact: Contact;
    if distributed.None? {
      contact := Contact(
        NextId(db.contacts, (x: Contact) => x.id), lead.id, source.value.id, None, req.message,
        New, None, None);
      InsertContactKeepsValid(db.operators, db.weights, db.contacts, contact);
      db.contacts := db.contacts + [contact];
    } else {
      contact := distributed.value;
    }

    var operator: Option<Operator> := None;
    if contact.operatorId.Some? && contact.operatorId.value != 0 {
      operator := FindOperator(db.operators, contact.operatorId.value);
    }
    res := Ok(ContactResponse(contact, operator, lead, source.value));
  }
}
