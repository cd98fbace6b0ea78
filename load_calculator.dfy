/**
  Load accounting: an operator's current load is the number of its
  contacts that are not closed, recomputed from the contact table on
  every query; an operator is available while active and below capacity.
 */
module LoadCalculator {
  import opened Wrappers
  import opened Models

  /** Contact `c` occupies operator `operatorId`: assigned to it and not closed. */
  predicate Occupies(c: Contact, operatorId: int)
  {
    c.operatorId == Some(operatorId) && c.status != Closed
  }

  /** `calculate_operator_load`: how many open contacts operator `operatorId` holds. */
  function Load(contacts: seq<Contact>, operatorId: int): (n: nat)
    ensures n <= |contacts|
    ensures n == 0 <==> forall i :: 0 <= i < |contacts| ==> !Occupies(contacts[i], operatorId)
  {
    Count(contacts, (c: Contact) => Occupies(c, operatorId))
  }

  /** The open contacts of an operator, as positions in the contact table. */
  ghost function OpenContacts(contacts: seq<Contact>, operatorId: int): set<int>
  {
    set i | 0 <= i < |contacts| && contacts[i].operatorId == Some(operatorId) && contacts[i].status != Closed
  }

  /** Load is exactly the number of the operator's contacts that are `New` or `InProgress`. */
  lemma LoadIsOpenContactCount(contacts: seq<Contact>, operatorId: int)
    ensures Load(contacts, operatorId) == |OpenContacts(contacts, operatorId)|
  {
    var p := (c: Contact) => Occupies(c, operatorId);
    CountIsCardinality(contacts, p);
    assert Matching(contacts, p) == OpenContacts(contacts, operatorId);
  }

  /** Inserting a contact raises the load of the operator it occupies by one and leaves every other load alone. */
  lemma LoadAfterInsert(contacts: seq<Contact>, c: Contact, operatorId: int)
    ensures Load(contacts + [c], operatorId) ==
      Load(contacts, operatorId) + (if Occupies(c, operatorId) then 1 else 0)
  {
  }

  /** Replacing one contact moves each operator's load by that contact's old and new occupancy. */
  lemma LoadAfterUpdate(contacts: seq<Contact>, k: nat, c: Contact, operatorId: int)
    requires k < |contacts|
    ensures Load(contacts[k := c], operatorId) ==
      Load(contacts, operatorId)
      - (if Occupies(contacts[k], operatorId) then 1 else 0)
      + (if Occupies(c, operatorId) then 1 else 0)
  {
    CountUpdate(contacts, k, c, (x: Contact) => Occupies(x, operatorId));
  }

  /** `is_available`: below capacity and active. */
  predicate IsAvailable(op: Operator, contacts: seq<Contact>)
  {
    Load(contacts, op.id) < op.maxLoad && op.isActive
  }

  /** The load report of one operator. */
  datatype LoadInfo = LoadInfo(
    operatorId: int, operatorName: string, currentLoad: nat, maxLoad: int, isAvailable: bool)

  /** `get_operator_load_info`: the load report, or `None` for an unknown operator. */
  function GetOperatorLoadInfo(operators: seq<Operator>, contacts: seq<Contact>, operatorId: int)
    : (r: Option<LoadInfo>)
    ensures r.None? <==> forall o :: o in operators ==> o.id != operatorId
    ensures r.Some? ==>
      && FindOperator(operators, operatorId).Some?
      && var op := FindOperator(operators, operatorId).value;
      && r.value.operatorId == operatorId
      && r.value.operatorName == op.name
      && r.value.currentLoad == |OpenContacts(contacts, operatorId)|
      && r.value.maxLoad == op.maxLoad
      && (r.value.isAvailable <==> r.value.currentLoad < op.maxLoad && op.isActive)
  {
    match FindOperator(operators, operatorId)
    case None => None
    case Some(op) =>
      LoadIsOpenContactCount(contacts, operatorId);
      var load := Load(contacts, operatorId);
      Some(LoadInfo(operatorId, op.name, load, op.maxLoad, load < op.maxLoad && op.isActive))
  }
}
