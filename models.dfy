/**
  The tables of the CRM database (operators, leads, sources, per-source
  operator weights, contacts), the query helpers the services build on
  (first match, count, fresh primary key), and the `Database` whose
  tables the endpoints change in place.
 */
module Models {
  import opened Wrappers

  /** A clock reading; the caller passes `now` where the source calls `datetime.now()`. */
  type Timestamp = int

  datatype Operator = Operator(id: int, name: string, email: string, isActive: bool, maxLoad: int)

  datatype Lead = Lead(
    id: int, externalId: string, phone: string,
    email: Option<string>, firstName: Option<string>, lastName: Option<string>)

  datatype Source = Source(id: int, name: string, code: string)

  /** How strongly an operator is favoured for contacts from one source. */
  datatype OperatorSourceWeight = OperatorSourceWeight(id: int, operatorId: int, sourceId: int, weight: int)

  /** The three statuses a contact may carry; only `Closed` frees the operator. */
  datatype Status = New | InProgress | Closed

  datatype Contact = Contact(
    id: int, leadId: int, sourceId: int, operatorId: Option<int>, message: Option<string>,
    status: Status, assignedAt: Option<Timestamp>, closedAt: Option<Timestamp>)

  /** An HTTP error an endpoint raises: status code and detail text. */
  datatype HttpError = HttpError(statusCode: int, detail: string)

  // ---------------------------------------------------------------------
  // Query helpers
  // ---------------------------------------------------------------------

  /** The position of the first row satisfying `p` (`query.filter(p).first()`). */
  function FirstIndex<T>(s: seq<T>, p: T -> bool): (r: Option<nat>)
    ensures r.Some? ==> r.value < |s| && p(s[r.value])
    ensures r.Some? ==> forall j :: 0 <= j < r.value ==> !p(s[j])
    ensures r.None? <==> forall j :: 0 <= j < |s| ==> !p(s[j])
    decreases |s|
  {
    if |s| == 0 then None
    else if p(s[0]) then Some(0)
    else match FirstIndex(s[1..], p)
      case None => None
      case Some(k) => Some(k + 1)
  }

  /** Appending a row never changes an existing first match. */
  lemma {:induction false} FirstIndexAppend<T>(s: seq<T>, x: T, p: T -> bool)
    ensures FirstIndex(s + [x], p) ==
      if FirstIndex(s, p).Some? then FirstIndex(s, p) else if p(x) then Some(|s|) else None
    decreases |s|
  {
    if |s| > 0 {
      assert (s + [x])[1..] == s[1..] + [x];
      FirstIndexAppend(s[1..], x, p);
    }
  }

  /** The number of rows satisfying `p` (`func.count` over a filter). */
  function Count<T>(s: seq<T>, p: T -> bool): (n: nat)
    ensures n <= |s|
    ensures n == 0 <==> forall i :: 0 <= i < |s| ==> !p(s[i])
    decreases |s|
  {
    if |s| == 0 then 0
    else Count(s[..|s| - 1], p) + (if p(s[|s| - 1]) then 1 else 0)
  }

  /** The positions of the rows satisfying `p`: the reference meaning of `Count`. */
  ghost function Matching<T>(s: seq<T>, p: T -> bool): set<int>
  {
    set i | 0 <= i < |s| && p(s[i])
  }

  /** `Count` is the number of matching positions. */
  lemma {:induction false} CountIsCardinality<T>(s: seq<T>, p: T -> bool)
    ensures Count(s, p) == |Matching(s, p)|
    decreases |s|
  {
    if |s| > 0 {
      var n := |s| - 1;
      var front := s[..n];
      CountIsCardinality(front, p);
      var rest := if p(s[n]) then {n} else {};
      assert Matching(s, p) == Matching(front, p) + rest;
      assert n !in Matching(front, p);
    }
  }

  /** The count splits off the first row as well as the last. */
  lemma {:induction false} CountFront<T>(s: seq<T>, p: T -> bool)
    requires |s| > 0
    ensures Count(s, p) == (if p(s[0]) then 1 else 0) + Count(s[1..], p)
    decreases |s|
  {
    var n := |s| - 1;
    if n == 0 {
      assert s[1..] == [];
    } else {
      CountFront(s[..n], p);
      assert s[..n][1..] == s[1..][..n - 1];
      assert s[1..][n - 1] == s[n];
    }
  }

  /** Replacing row `k` moves the count by that row's old and new match. */
  lemma {:induction false} CountUpdate<T>(s: seq<T>, k: nat, x: T, p: T -> bool)
    requires k < |s|
    ensures Count(s[k := x], p) ==
      Count(s, p) - (if p(s[k]) then 1 else 0) + (if p(x) then 1 else 0)
    decreases |s|
  {
    var n := |s| - 1;
    if k == n {
      assert s[k := x][..n] == s[..n];
    } else {
      assert s[k := x][..n] == s[..n][k := x];
      CountUpdate(s[..n], k, x, p);
    }
  }

  /**
    The primary key the store hands to a new row: one more than the largest
    key in the table, and 1 for an empty table.
   */
  function NextId<T>(s: seq<T>, id: T -> int): (n: int)
    ensures forall i :: 0 <= i < |s| ==> id(s[i]) < n
    ensures |s| == 0 ==> n == 1
    ensures (forall i :: 0 <= i < |s| ==> id(s[i]) >= 0) ==> n >= 1
    decreases |s|
  {
    if |s| == 0 then 1
    else if |s| == 1 then id(s[0]) + 1
    else
      var rest := NextId(s[1..], id);
      assert forall i :: 1 <= i < |s| ==> id(s[i]) < rest by {
        forall i | 1 <= i < |s| ensures id(s[i]) < rest {
          assert s[i] == s[1..][i - 1];
        }
      }
      if id(s[0]) + 1 > rest then id(s[0]) + 1 else rest
  }

  // ---------------------------------------------------------------------
  // Lookups by key
  // ---------------------------------------------------------------------

  /** The first row satisfying `p`, if any (`query.filter(p).first()`). */
  function FindFirst<T>(s: seq<T>, p: T -> bool): (r: Option<T>)
    ensures r.Some? ==> r.value in s && p(r.value)
    ensures r.Some? ==> exists i :: 0 <= i < |s| && s[i] == r.value && forall j :: 0 <= j < i ==> !p(s[j])
    ensures r.None? <==> forall x :: x in s ==> !p(x)
  {
    match FirstIndex(s, p)
    case Some(i) => Some(s[i])
    case None => None
  }

  /** `get_operator`: the operator with primary key `id`, if any. */
  function FindOperator(operators: seq<Operator>, id: int): (r: Option<Operator>)
    ensures r.Some? ==> r.value in operators && r.value.id == id
    ensures r.None? <==> forall o :: o in operators ==> o.id != id
  {
    FindFirst(operators, (o: Operator) => o.id == id)
  }

  /** `get_operator_by_email`: the operator registered under `email`, if any. */
  function FindOperatorByEmail(operators: seq<Operator>, email: string): (r: Option<Operator>)
    ensures r.Some? ==> r.value in operators && r.value.email == email
    ensures r.None? <==> forall o :: o in operators ==> o.email != email
  {
    FindFirst(operators, (o: Operator) => o.email == email)
  }

  /** `get_source`: the source with primary key `id`, if any. */
  function FindSource(sources: seq<Source>, id: int): (r: Option<Source>)
    ensures r.Some? ==> r.value in sources && r.value.id == id
    ensures r.None? <==> forall s :: s in sources ==> s.id != id
  {
    FindFirst(sources, (s: Source) => s.id == id)
  }

  /** `get_source_by_code`: the source routed by `code`, if any. */
  function FindSourceByCode(sources: seq<Source>, code: string): (r: Option<Source>)
    ensures r.Some? ==> r.value in sources && r.value.code == code
    ensures r.None? <==> forall s :: s in sources ==> s.code != code
  {
    FindFirst(sources, (s: Source) => s.code == code)
  }

  /** `get_lead_by_external_id`: the lead known under `externalId`, if any. */
  function FindLeadByExternalId(leads: seq<Lead>, externalId: string): (r: Option<Lead>)
    ensures r.Some? ==> r.value in leads && r.value.externalId == externalId
    ensures r.None? <==> forall l :: l in leads ==> l.externalId != externalId
  {
    FindFirst(leads, (l: Lead) => l.externalId == externalId)
  }

  // ---------------------------------------------------------------------
  // The database
  // ---------------------------------------------------------------------

  /**
    What every stored contact satisfies: it has an operator exactly when
    it has an assignment time, it is closed exactly when it has a closing
    time, and its operator, if any, exists.
   */
  predicate ContactConsistent(c: Contact, operators: seq<Operator>)
  {
    && (c.operatorId.Some? <==> c.assignedAt.Some?)
    && (c.status == Closed <==> c.closedAt.Some?)
    && (c.operatorId.Some? ==> FindOperator(operators, c.operatorId.value).Some?)
  }

  /**
    The invariant the endpoints keep: operator keys are positive (the
    store numbers rows from 1), every weight row names an existing
    operator (its `operator` relationship resolves), and every contact
    is consistent.
   */
  predicate TablesValid(operators: seq<Operator>, weights: seq<OperatorSourceWeight>, contacts: seq<Contact>)
  {
    && (forall o :: o in operators ==> o.id > 0)
    && (forall w :: w in weights ==> FindOperator(operators, w.operatorId).Some?)
    && (forall c :: c in contacts ==> ContactConsistent(c, operators))
  }

  /** Inserting a consistent contact keeps the tables valid. */
  lemma InsertContactKeepsValid(
    operators: seq<Operator>, weights: seq<OperatorSourceWeight>, contacts: seq<Contact>, c: Contact)
    requires TablesValid(operators, weights, contacts)
    requires ContactConsistent(c, operators)
    ensures TablesValid(operators, weights, contacts + [c])
  {
  }

  /** Replacing a contact by a consistent one keeps the tables valid. */
  lemma UpdateContactKeepsValid(
    operators: seq<Operator>, weights: seq<OperatorSourceWeight>, contacts: seq<Contact>, k: nat, c: Contact)
    requires TablesValid(operators, weights, contacts)
    requires k < |contacts| && ContactConsistent(c, operators)
    ensures TablesValid(operators, weights, contacts[k := c])
  {
  }

  /** Adding an operator with a positive key keeps the tables valid. */
  lemma InsertOperatorKeepsValid(
    operators: seq<Operator>, weights: seq<OperatorSourceWeight>, contacts: seq<Contact>, o: Operator)
    requires TablesValid(operators, weights, contacts)
    requires o.id > 0
    ensures TablesValid(operators + [o], weights, contacts)
  {
  }

  /** The (operator, source) pair of a weight row is `(operatorId, sourceId)`. */
  predicate IsPair(w: OperatorSourceWeight, operatorId: int, sourceId: int)
  {
    w.operatorId == operatorId && w.sourceId == sourceId
  }

  /** At most one weight row per (operator, source) pair. */
  predicate UniquePairs(weights: seq<OperatorSourceWeight>)
  {
    forall i, j :: 0 <= i < j < |weights| ==>
      weights[i].operatorId != weights[j].operatorId || weights[i].sourceId != weights[j].sourceId
  }

  /** The tables of one database session. */
  class Database {
    var operators: seq<Operator>
    var leads: seq<Lead>
    var sources: seq<Source>
    var weights: seq<OperatorSourceWeight>
    var contacts: seq<Contact>

    /** The tables satisfy `TablesValid`. */
    ghost predicate Valid()
      reads this
    {
      TablesValid(operators, weights, contacts)
    }

    /** An empty database. */
    constructor ()
      ensures Valid()
      ensures operators == [] && leads == [] && sources == [] && weights == [] && contacts == []
    {
      operators, leads, sources, weights, contacts := [], [], [], [], [];
    }
  }
}
