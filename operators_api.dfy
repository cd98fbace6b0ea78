/**
  The operator endpoints: registering an operator, listing operators with
  their current load, setting an operator's weight for a source, and the
  load report.
 */
module OperatorsApi {
  import opened Wrappers
  import opened Models
  import opened LoadCalculator

  /** The body of an operator-creation request. */
  datatype OperatorCreate = OperatorCreate(name: string, email: string, isActive: bool, maxLoad: int)

  /** An operator as the listing shows it: the stored row and its computed load. */
  datatype OperatorView = OperatorView(operator: Operator, currentLoad: nat)

  /**
    `create_operator`: an email already in use fails with 400 and stores
    nothing; otherwise the operator is stored under a fresh key.
   */
  method CreateOperator(db: Database, req: OperatorCreate) returns (res: Result<Operator, HttpError>)
    requires db.Valid()
    modifies db`operators
    ensures db.Valid()
    ensures (exists o :: o in old(db.operators) && o.email == req.email) ==>
      res == Err(HttpError(400, "Operator already exists")) && db.operators == old(db.operators)
    ensures (forall o :: o in old(db.operators) ==> o.email != req.email) ==>
      && res.Ok?
      && db.operators == old(db.operators) + [res.value]
      && res.value == Operator(NextId(old(db.operators), (o: Operator) => o.id), req.name, req.email, req.isActive, req.maxLoad)
      && forall o :: o in old(db.operators) ==> o.id < res.value.id
  {
    var existing := FindOperatorByEmail(db.operators, req.email);
    if existing.Some? {
      return Err(HttpError(400, "Operator already exists"));
    }
    var op := Operator(NextId(db.operators, (o: Operator) => o.id), req.name, req.email, req.isActive, req.maxLoad);
    InsertOperatorKeepsValid(db.operators, db.weights, db.contacts, op);
    db.operators := db.operators + [op];
    res := Ok(op);
  }

  /** `get_operators`: the rows from `skip` on, at most `limit` of them. */
  function Page<T>(s: seq<T>, skip: nat, limit: nat): (page: seq<T>)
    ensures |page| <= limit
    ensures forall i :: 0 <= i < |page| ==> skip + i < |s| && page[i] == s[skip + i]
    ensures skip < |s| ==> |page| == if |s| - skip < limit then |s| - skip else limit
  {
    if |s| <= skip then []
    else if |s| - skip < limit then s[skip..]
    else s[skip..skip + limit]
  }

  /** `[op for op in operators if op.is_active]`. */
  function ActiveOnly(operators: seq<Operator>): (active: seq<Operator>)
    ensures forall o :: o in active <==> o in operators && o.isActive
    ensures |active| <= |operators|
    decreases |operators|
  {
    if |operators| == 0 then []
    else (if operators[0].isActive then [operators[0]] else []) + ActiveOnly(operators[1..])
  }

  /** The active filter keeps order: filtering a concatenation concatenates the filtered parts. */
  lemma {:induction false} ActiveOnlyConcat(a: seq<Operator>, b: seq<Operator>)
    ensures ActiveOnly(a + b) == ActiveOnly(a) + ActiveOnly(b)
    decreases |a|
  {
    if |a| == 0 {
      assert a + b == b;
    } else {
      var head := if a[0].isActive then [a[0]] else [];
      assert (a + b)[0] == a[0];
      assert (a + b)[1..] == a[1..] + b;
      ActiveOnlyConcat(a[1..], b);
      calc {
        ActiveOnly(a + b);
        head + ActiveOnly(a[1..] + b);
        head + (ActiveOnly(a[1..]) + ActiveOnly(b));
        (head + ActiveOnly(a[1..])) + ActiveOnly(b);
        ActiveOnly(a) + ActiveOnly(b);
      }
    }
  }

  /**
    `read_operators`: the requested page, restricted to active operators when
    `activeOnly`, in table order, each with its current load.
   */
  method ReadOperators(operators: seq<Operator>, contacts: seq<Contact>, skip: nat, limit: nat, activeOnly: bool)
    returns (result: seq<OperatorView>)
    ensures var listed := if activeOnly then ActiveOnly(Page(operators, skip, limit)) else Page(operators, skip, limit);
      && |result| == |listed|
      && forall k :: 0 <= k < |result| ==>
           result[k].operator == listed[k] && result[k].currentLoad == Load(contacts, listed[k].id)
  {
    var listed := Page(operators, skip, limit);
    if activeOnly {
      listed := ActiveOnly(listed);
    }
    result := [];
    for i := 0 to |listed|
      invariant |result| == i
      invariant forall k :: 0 <= k < i ==>
        result[k].operator == listed[k] && result[k].currentLoad == Load(contacts, listed[k].id)
    {
      result := result + [OperatorView(listed[i], Load(contacts, listed[i].id))];
    }
  }

  /** `read_operator`: one operator with its current load, or 404. */
  function ReadOperator(operators: seq<Operator>, contacts: seq<Contact>, operatorId: int)
    : (res: Result<OperatorView, HttpError>)
    ensures res.Err? <==> forall o :: o in operators ==> o.id != operatorId
    ensures res.Err? ==> res.error == HttpError(404, "Operator not found")
    ensures res.Ok? ==>
      && res.value.operator in operators && res.value.operator.id == operatorId
      && res.value.currentLoad == |OpenContacts(contacts, operatorId)|
  {
    match FindOperator(operators, operatorId)
    case None => Err(HttpError(404, "Operator not found"))
    case Some(op) =>
      LoadIsOpenContactCount(contacts, operatorId);
      Ok(OperatorView(op, Load(contacts, operatorId)))
  }

  /** `get_operator_load`: the load report, or 404 for an unknown operator. */
  function GetOperatorLoad(operators: seq<Operator>, contacts: seq<Contact>, operatorId: int)
    : (res: Result<LoadInfo, HttpError>)
    ensures res.Err? <==> forall o :: o in operators ==> o.id != operatorId
    ensures res.Err? ==> res.error == HttpError(404, "Operator not found")
    ensures res.Ok? ==>
      && FindOperator(operators, operatorId).Some?
      && var op := FindOperator(operators, operatorId).value;
      && res.value == LoadInfo(operatorId, op.name, res.value.currentLoad, op.maxLoad, res.value.isAvailable)
      && res.value.currentLoad == |OpenContacts(contacts, operatorId)|
      && (res.value.isAvailable <==> IsAvailable(op, contacts))
  {
    match GetOperatorLoadInfo(operators, contacts, operatorId)
    case None => Err(HttpError(404, "Operator not found"))
    case Some(info) =>
      LoadIsOpenContactCount(contacts, operatorId);
      Ok(info)
  }

  /**
    The weight table after setting `weight` for the pair: the first row of
    the pair gets the new weight, or a row for the pair is added under a
    fresh key when there is none.
   */
  function UpsertWeight(weights: seq<OperatorSourceWeight>, operatorId: int, sourceId: int, weight: int)
    : (updated: seq<OperatorSourceWeight>)
    ensures |updated| == |weights| + (if exists j :: 0 <= j < |weights| && IsPair(weights[j], operatorId, sourceId) then 0 else 1)
    ensures forall j :: 0 <= j < |weights| ==>
      && updated[j].(weight := weights[j].weight) == weights[j]
      && (!IsPair(weights[j], operatorId, sourceId) ==> updated[j] == weights[j])
    ensures exists j :: 0 <= j < |updated| && IsPair(updated[j], operatorId, sourceId) && updated[j].weight == weight
  {
    match FirstIndex(weights, (w: OperatorSourceWeight) => IsPair(w, operatorId, sourceId))
    case Some(i) => weights[i := weights[i].(weight := weight)]
    case None =>
      var row := OperatorSourceWeight(NextId(weights, (w: OperatorSourceWeight) => w.id), operatorId, sourceId, weight);
      assert (weights + [row])[|weights|] == row;
      weights + [row]
  }

  /**
    With at most one row for the pair before, there is exactly one after,
    carrying the new weight; at most one row per pair stays true.
   */
  lemma UpsertKeepsOneRowPerPair(weights: seq<OperatorSourceWeight>, operatorId: int, sourceId: int, weight: int)
    requires UniquePairs(weights)
    ensures var updated := UpsertWeight(weights, operatorId, sourceId, weight);
      && UniquePairs(updated)
      && Count(updated, (w: OperatorSourceWeight) => IsPair(w, operatorId, sourceId)) == 1
      && forall j :: 0 <= j < |updated| && IsPair(updated[j], operatorId, sourceId) ==> updated[j].weight == weight
  {
    var p := (w: OperatorSourceWeight) => IsPair(w, operatorId, sourceId);
    var updated := UpsertWeight(weights, operatorId, sourceId, weight);
    match FirstIndex(weights, p)
    case Some(i) =>
      forall j | 0 <= j < |updated| && j != i ensures !p(updated[j]) {
        if j < i { assert !p(weights[j]); } else { assert !IsPair(weights[j], operatorId, sourceId); }
      }
      CountIsCardinality(updated, p);
      assert Matching(updated, p) == {i};
    case None =>
      var n := |weights|;
      forall j | 0 <= j < n ensures !p(updated[j]) {
        assert !p(weights[j]);
      }
      CountIsCardinality(updated, p);
      assert Matching(updated, p) == {n};
  }

  /** Rewriting weights or adding a row for a stored operator keeps the tables valid. */
  lemma UpsertKeepsValid(
    operators: seq<Operator>, weights: seq<OperatorSourceWeight>, contacts: seq<Contact>,
    operatorId: int, sourceId: int, weight: int)
    requires TablesValid(operators, weights, contacts)
    requires FindOperator(operators, operatorId).Some?
    ensures TablesValid(operators, UpsertWeight(weights, operatorId, sourceId, weight), contacts)
  {
  }

  /**
    `add_operator_weight`: an unknown operator or source fails with 404 and
    writes nothing; otherwise the pair's row is upserted and returned.
   */
  method AddOperatorWeight(db: Database, operatorId: int, sourceId: int, weight: int)
    returns (res: Result<OperatorSourceWeight, HttpError>)
    requires db.Valid()
    modifies db`weights
    ensures db.Valid()
    ensures FindOperator(db.operators, operatorId).None? ==>
      res == Err(HttpError(404, "Operator not found")) && db.weights == old(db.weights)
    ensures FindOperator(db.operators, operatorId).Some? && FindSource(db.sources, sourceId).None? ==>
      res == Err(HttpError(404, "Source not found")) && db.weights == old(db.weights)
    ensures FindOperator(db.operators, operatorId).Some? && FindSource(db.sources, sourceId).Some? ==>
      && db.weights == UpsertWeight(old(db.weights), operatorId, sourceId, weight)
      && res.Ok? && res.value in db.weights
      && IsPair(res.value, operatorId, sourceId) && res.value.weight == weight
  {
    if FindOperator(db.operators, operatorId).None? {
      return Err(HttpError(404, "Operator not found"));
    }
    if FindSource(db.sources, sourceId).None? {
      return Err(HttpError(404, "Source not found"));
    }
    var p := (w: OperatorSourceWeight) => IsPair(w, operatorId, sourceId);
    var existing := FirstIndex(db.weights, p);
    UpsertKeepsValid(db.operators, db.weights, db.contacts, operatorId, sourceId, weight);
    var row: OperatorSourceWeight;
    if existing.Some? {
      row := db.weights[existing.value].(weight := weight);
      db.weights := db.weights[existing.value := row];
    } else {
      row := OperatorSourceWeight(NextId(db.weights, (w: OperatorSourceWeight) => w.id), operatorId, sourceId, weight);
      db.weights := db.weights + [row];
    }
    res := Ok(row);
  }
}
