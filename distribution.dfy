/**
  The distribution engine: read the weight rows of a source, keep the
  operators that are active and below capacity, pick one of them by a
  cumulative-weight scan over a random draw, and record the contact.
  Also the per-(operator, source) distribution statistics.
 */
module Distribution {
  import opened Wrappers
  import opened Models
  import opened LoadCalculator

  // ---------------------------------------------------------------------
  // The random source
  // ---------------------------------------------------------------------

  /**
    The random source, passed in: `choice(n)` is the index `random.choice`
    draws from a list of `n` items, `uniform(t)` the value
    `random.uniform(0, t)` draws.
   */
  datatype Rng = Rng(choice: nat -> nat, uniform: real -> real)

  /** `choice` stays inside the list and `uniform` inside the closed interval [0, t]. */
  ghost predicate ValidRng(rng: Rng)
  {
    && (forall n: nat :: 0 < n ==> rng.choice(n) < n)
    && (forall t: real :: 0.0 <= t ==> 0.0 <= rng.uniform(t) <= t)
  }

  // ---------------------------------------------------------------------
  // Candidates
  // ---------------------------------------------------------------------

  /** The weight rows of one source, in table order. */
  function RowsForSource(weights: seq<OperatorSourceWeight>, sourceId: int)
    : (rows: seq<OperatorSourceWeight>)
    ensures forall w :: w in rows <==> w in weights && w.sourceId == sourceId
    ensures |rows| <= |weights|
    decreases |weights|
  {
    if |weights| == 0 then []
    else (if weights[0].sourceId == sourceId then [weights[0]] else [])
         + RowsForSource(weights[1..], sourceId)
  }

  /** Each row of the source is selected once: as many rows as the table has for it. */
  lemma {:induction false} RowsForSourceCount(weights: seq<OperatorSourceWeight>, sourceId: int)
    ensures |RowsForSource(weights, sourceId)| == Count(weights, (w: OperatorSourceWeight) => w.sourceId == sourceId)
    decreases |weights|
  {
    if |weights| > 0 {
      CountFront(weights, (w: OperatorSourceWeight) => w.sourceId == sourceId);
      RowsForSourceCount(weights[1..], sourceId);
    }
  }

  /** The selection keeps table order: selecting from a concatenation concatenates the selections. */
  lemma {:induction false} RowsForSourceConcat(a: seq<OperatorSourceWeight>, b: seq<OperatorSourceWeight>, sourceId: int)
    ensures RowsForSource(a + b, sourceId) == RowsForSource(a, sourceId) + RowsForSource(b, sourceId)
    decreases |a|
  {
    if |a| == 0 {
      assert a + b == b;
    } else {
      var head := if a[0].sourceId == sourceId then [a[0]] else [];
      assert (a + b)[0] == a[0];
      assert (a + b)[1..] == a[1..] + b;
      RowsForSourceConcat(a[1..], b, sourceId);
      calc {
        RowsForSource(a + b, sourceId);
        head + RowsForSource(a[1..] + b, sourceId);
        head + (RowsForSource(a[1..], sourceId) + RowsForSource(b, sourceId));
        (head + RowsForSource(a[1..], sourceId)) + RowsForSource(b, sourceId);
        RowsForSource(a, sourceId) + RowsForSource(b, sourceId);
      }
    }
  }

  /** Every row's `operator` relationship resolves to a stored operator. */
  predicate RowsResolve(rows: seq<OperatorSourceWeight>, operators: seq<Operator>)
  {
    forall w :: w in rows ==> FindOperator(operators, w.operatorId).Some?
  }

  /** An available operator with the weight of its row and the load it was checked at. */
  datatype Candidate = Candidate(operator: Operator, weight: int, currentLoad: nat)

  /** The candidate row `row` contributes: its operator if available, else nothing. */
  function CandidateOf(row: OperatorSourceWeight, operators: seq<Operator>, contacts: seq<Contact>)
    : seq<Candidate>
    requires FindOperator(operators, row.operatorId).Some?
  {
    var op := FindOperator(operators, row.operatorId).value;
    if IsAvailable(op, contacts) then [Candidate(op, row.weight, Load(contacts, op.id))] else []
  }

  /**
    The candidates the engine considers for `rows`, in row order: one per
    row whose operator is active and below its capacity.
   */
  function Candidates(rows: seq<OperatorSourceWeight>, operators: seq<Operator>, contacts: seq<Contact>)
    : (cands: seq<Candidate>)
    requires RowsResolve(rows, operators)
    decreases |rows|
  {
    if |rows| == 0 then []
    else
      var n := |rows| - 1;
      RowsResolvePrefix(rows, operators, n);
      assert rows[n] in rows;
      Candidates(rows[..n], operators, contacts) + CandidateOf(rows[n], operators, contacts)
  }

  /**
    Candidate `k` is a stored operator that is available and carries the
    load it was checked at; there are never more candidates than rows.
   */
  lemma {:induction false} CandidateIsAvailable(
    rows: seq<OperatorSourceWeight>, operators: seq<Operator>, contacts: seq<Contact>, k: nat)
    requires RowsResolve(rows, operators)
    ensures |Candidates(rows, operators, contacts)| <= |rows|
    ensures k < |Candidates(rows, operators, contacts)| ==>
      var c := Candidates(rows, operators, contacts)[k];
      && FindOperator(operators, c.operator.id) == Some(c.operator)
      && IsAvailable(c.operator, contacts)
      && c.currentLoad == Load(contacts, c.operator.id)
    decreases |rows|
  {
    if |rows| > 0 {
      var n := |rows| - 1;
      CandidatesStep(rows, operators, contacts, n);
      assert rows[..n + 1] == rows;
      CandidateIsAvailable(rows[..n], operators, contacts, k);
    }
  }

  /** A prefix of resolving rows resolves. */
  lemma RowsResolvePrefix(rows: seq<OperatorSourceWeight>, operators: seq<Operator>, i: nat)
    requires RowsResolve(rows, operators) && i <= |rows|
    ensures RowsResolve(rows[..i], operators)
  {
  }

  /** The rows of one source resolve when the whole weight table does. */
  lemma RowsForSourceResolve(weights: seq<OperatorSourceWeight>, operators: seq<Operator>, sourceId: int)
    requires RowsResolve(weights, operators)
    ensures RowsResolve(RowsForSource(weights, sourceId), operators)
  {
  }

  /** One more row extends the candidates by that row's contribution. */
  lemma CandidatesStep(rows: seq<OperatorSourceWeight>, operators: seq<Operator>, contacts: seq<Contact>, i: nat)
    requires RowsResolve(rows, operators) && i < |rows|
    ensures RowsResolve(rows[..i], operators) && RowsResolve(rows[..i + 1], operators)
    ensures FindOperator(operators, rows[i].operatorId).Some?
    ensures Candidates(rows[..i + 1], operators, contacts)
         == Candidates(rows[..i], operators, contacts) + CandidateOf(rows[i], operators, contacts)
  {
    RowsResolvePrefix(rows, operators, i);
    RowsResolvePrefix(rows, operators, i + 1);
    assert rows[..i + 1][..i] == rows[..i];
    assert rows[i] in rows;
  }

  /**
    An operator is a candidate with weight `w` exactly when it is available
    and some row names it with weight `w`: an inactive operator or one at
    capacity is never a candidate, whatever its weight.
   */
  lemma {:induction false} CandidateIff(
    rows: seq<OperatorSourceWeight>, operators: seq<Operator>, contacts: seq<Contact>, op: Operator, w: int)
    requires RowsResolve(rows, operators)
    ensures Candidate(op, w, Load(contacts, op.id)) in Candidates(rows, operators, contacts)
      <==>
      (IsAvailable(op, contacts)
       && exists row :: row in rows && row.weight == w && FindOperator(operators, row.operatorId) == Some(op))
    decreases |rows|
  {
    if |rows| > 0 {
      var n := |rows| - 1;
      var front := rows[..n];
      CandidatesStep(rows, operators, contacts, n);
      assert rows[..n + 1] == rows;
      CandidateIff(front, operators, contacts, op, w);
      assert rows == front + [rows[n]];
      assert forall row :: row in rows <==> row in front || row == rows[n];
    }
  }

  /** The running weight sum of the first `k` candidates. */
  function Prefix(cands: seq<Candidate>, k: nat): int
    requires k <= |cands|
  {
    if k == 0 then 0 else Prefix(cands, k - 1) + cands[k - 1].weight
  }

  /** The total weight of the candidates. */
  function TotalWeight(cands: seq<Candidate>): int
  {
    Prefix(cands, |cands|)
  }

  /** A running sum only looks at the candidates it has passed. */
  lemma {:induction false} PrefixOfLonger(cands: seq<Candidate>, more: seq<Candidate>, k: nat)
    requires k <= |cands|
    ensures Prefix(cands + more, k) == Prefix(cands, k)
  {
    if k > 0 {
      PrefixOfLonger(cands, more, k - 1);
    }
  }

  /**
    The candidate loop of `distribute_contact`: walk the rows, keep each
    active operator whose load is below `max_load`, and add up the weights
    kept.
   */
  method CollectCandidates(rows: seq<OperatorSourceWeight>, operators: seq<Operator>, contacts: seq<Contact>)
    returns (cands: seq<Candidate>, total: int)
    requires RowsResolve(rows, operators)
    ensures cands == Candidates(rows, operators, contacts)
    ensures total == TotalWeight(cands)
  {
    cands, total := [], 0;
    for i := 0 to |rows|
      invariant RowsResolve(rows[..i], operators)
      invariant cands == Candidates(rows[..i], operators, contacts)
      invariant total == TotalWeight(cands)
    {
      CandidatesStep(rows, operators, contacts, i);
      var op := FindOperator(operators, rows[i].operatorId).value;
      if op.isActive {
        var currentLoad := Load(contacts, op.id);
        if currentLoad < op.maxLoad {
          var c := Candidate(op, rows[i].weight, currentLoad);
          PrefixOfLonger(cands, [c], |cands|);
          cands := cands + [c];
          total := total + rows[i].weight;
        }
      }
    }
    assert rows[..|rows|] == rows;
  }

  /**
    `get_available_operators_for_source`: the operators the engine would
    treat as candidates for the source, in weight-row order.
   */
  method GetAvailableOperatorsForSource(
    weights: seq<OperatorSourceWeight>, operators: seq<Operator>, contacts: seq<Contact>, sourceId: int)
    returns (available: seq<Operator>)
    requires RowsResolve(weights, operators)
    ensures RowsForSource(weights, sourceId) == [] ==> available == []
    ensures var cands := Candidates(RowsForSource(weights, sourceId), operators, contacts);
      |available| == |cands| && forall k :: 0 <= k < |available| ==> available[k] == cands[k].operator
  {
    var rows := RowsForSource(weights, sourceId);
    RowsForSourceResolve(weights, operators, sourceId);
    ghost var cands: seq<Candidate> := [];
    available := [];
    for i := 0 to |rows|
      invariant RowsResolve(rows[..i], operators)
      invariant cands == Candidates(rows[..i], operators, contacts)
      invariant |available| == |cands|
      invariant forall k :: 0 <= k < |available| ==> available[k] == cands[k].operator
    {
      CandidatesStep(rows, operators, contacts, i);
      var op := FindOperator(operators, rows[i].operatorId).value;
      if op.isActive {
        var currentLoad := Load(contacts, op.id);
        if currentLoad < op.maxLoad {
          cands := cands + [Candidate(op, rows[i].weight, currentLoad)];
          available := available + [op];
        }
      }
    }
    assert rows[..|rows|] == rows;
  }

  // ---------------------------------------------------------------------
  // The weighted pick
  // ---------------------------------------------------------------------

  /** The running weight sum up to and including candidate `k` reaches the draw `r`. */
  predicate Reaches(cands: seq<Candidate>, r: real, k: nat)
    requires k < |cands|
  {
    r <= Prefix(cands, k + 1) as real
  }

  /**
    What the pick returns, as the code writes it: with total weight 0 the
    uniformly drawn index `pick`; otherwise the first candidate whose running
    sum reaches the draw `r`, or the last candidate when none does.
   */
  predicate IsWeightedChoice(cands: seq<Candidate>, total: int, pick: nat, r: real, idx: nat)
  {
    && idx < |cands|
    && if total == 0 then idx == pick
       else if exists k :: 0 <= k < |cands| && Reaches(cands, r, k)
       then Reaches(cands, r, idx) && forall j :: 0 <= j < idx ==> !Reaches(cands, r, j)
       else idx == |cands| - 1
  }

  /** The pick of `distribute_contact`: uniform when all weights are 0, otherwise a cumulative scan. */
  method SelectIndex(cands: seq<Candidate>, total: int, pick: nat, r: real) returns (idx: nat)
    requires |cands| > 0
    requires total == TotalWeight(cands)
    requires total == 0 ==> pick < |cands|
    ensures IsWeightedChoice(cands, total, pick, r, idx)
  {
    if total == 0 {
      return pick;
    }
    var cumulative := 0;
    var i := 0;
    while i < |cands|
      invariant 0 <= i <= |cands|
      invariant cumulative == Prefix(cands, i)
      invariant forall j :: 0 <= j < i ==> !Reaches(cands, r, j)
    {
      cumulative := cumulative + cands[i].weight;
      if r <= cumulative as real {
        return i;
      }
      i := i + 1;
    }
    idx := |cands| - 1;
  }

  /** The pick is determined by the draw: no two indices both satisfy it. */
  lemma WeightedChoiceUnique(cands: seq<Candidate>, total: int, pick: nat, r: real, a: nat, b: nat)
    requires IsWeightedChoice(cands, total, pick, r, a)
    requires IsWeightedChoice(cands, total, pick, r, b)
    ensures a == b
  {
  }

  predicate NonNegativeWeights(cands: seq<Candidate>)
  {
    forall k :: 0 <= k < |cands| ==> cands[k].weight >= 0
  }

  /** With non-negative weights, running sums never decrease. */
  lemma {:induction false} PrefixMonotone(cands: seq<Candidate>, i: nat, j: nat)
    requires NonNegativeWeights(cands)
    requires i <= j <= |cands|
    ensures Prefix(cands, i) <= Prefix(cands, j)
    decreases j - i
  {
    if i < j {
      PrefixMonotone(cands, i, j - 1);
    }
  }

  /**
    A draw in [0, total] always reaches the last running sum, so with a
    positive total the fallback to the last candidate is never taken: the
    pick is the first candidate that reaches the draw.
   */
  lemma DrawAlwaysReaches(cands: seq<Candidate>, pick: nat, r: real, idx: nat)
    requires |cands| > 0
    requires TotalWeight(cands) != 0 && r <= TotalWeight(cands) as real
    requires IsWeightedChoice(cands, TotalWeight(cands), pick, r, idx)
    ensures Reaches(cands, r, idx)
    ensures forall j :: 0 <= j < idx ==> !Reaches(cands, r, j)
  {
  }

  /**
    With non-negative weights, a positive total and a draw in [0, total],
    candidate `k` is picked exactly when the draw lies in its slice of the
    weight line: above the running sum before it (for `k > 0`) and at most
    the running sum through it. The slice is as wide as the candidate's
    weight, which is what makes the pick weight-proportional.
   */
  lemma {:induction false} ChoiceIsWeightSlice(cands: seq<Candidate>, pick: nat, r: real, k: nat)
    requires NonNegativeWeights(cands)
    requires TotalWeight(cands) > 0
    requires 0.0 <= r <= TotalWeight(cands) as real
    requires k < |cands|
    ensures IsWeightedChoice(cands, TotalWeight(cands), pick, r, k) <==>
      (k == 0 || (Prefix(cands, k) as real) < r) && r <= Prefix(cands, k + 1) as real
    ensures Prefix(cands, k + 1) - Prefix(cands, k) == cands[k].weight
  {
    var total := TotalWeight(cands);
    assert Reaches(cands, r, |cands| - 1);
    if IsWeightedChoice(cands, total, pick, r, k) && k > 0 {
      assert !Reaches(cands, r, k - 1);
    }
    if (k == 0 || (Prefix(cands, k) as real) < r) && r <= Prefix(cands, k + 1) as real {
      forall j | 0 <= j < k ensures !Reaches(cands, r, j) {
        PrefixMonotone(cands, j + 1, k);
      }
    }
  }

  /**
    The `<=` test sends a draw that lands exactly on a running sum to the
    earlier candidate: with positive weights, the draw equal to the sum
    through candidate `k` picks `k`, not `k + 1`.
   */
  lemma {:induction false} BoundaryDrawPicksEarlier(cands: seq<Candidate>, pick: nat, k: nat, idx: nat)
    requires forall i :: 0 <= i < |cands| ==> cands[i].weight > 0
    requires k < |cands|
    requires IsWeightedChoice(cands, TotalWeight(cands), pick, Prefix(cands, k + 1) as real, idx)
    ensures idx == k
  {
    var r := Prefix(cands, k + 1) as real;
    PrefixMonotone(cands, 0, k);
    PrefixMonotone(cands, k + 1, |cands|);
    assert TotalWeight(cands) > 0;
    assert Reaches(cands, r, k);
    forall j | 0 <= j < k ensures !Reaches(cands, r, j) {
      PrefixMonotone(cands, j + 1, k);
    }
  }

  /**
    The closed draw interval lets a zero-weight candidate win, but only the
    first one, and only on the draw 0 exactly.
   */
  lemma {:induction false} ZeroWeightPickedOnlyOnZeroDraw(cands: seq<Candidate>, pick: nat, r: real, k: nat)
    requires NonNegativeWeights(cands)
    requires TotalWeight(cands) > 0
    requires 0.0 <= r <= TotalWeight(cands) as real
    requires IsWeightedChoice(cands, TotalWeight(cands), pick, r, k)
    requires cands[k].weight == 0
    ensures k == 0 && r == 0.0
  {
    ChoiceIsWeightSlice(cands, pick, r, k);
  }

  // ---------------------------------------------------------------------
  // Distribution
  // ---------------------------------------------------------------------

  /** The candidates the engine considers for a source in the current tables. */
  function SourceCandidates(weights: seq<OperatorSourceWeight>, operators: seq<Operator>, contacts: seq<Contact>, sourceId: int)
    : (cands: seq<Candidate>)
    requires RowsResolve(weights, operators)
    ensures RowsForSource(weights, sourceId) == [] ==> cands == []
  {
    Candidates(RowsForSource(weights, sourceId), operators, contacts)
  }

  /**
    The operator the weighted pick lands on for these candidates and this
    random source: the candidate at an index satisfying `IsWeightedChoice`.
   */
  ghost predicate WeightedPick(cands: seq<Candidate>, rng: Rng, op: Operator)
  {
    var total := TotalWeight(cands);
    exists k: nat ::
      && IsWeightedChoice(cands, total, rng.choice(|cands|), rng.uniform(total as real), k)
      && cands[k].operator == op
  }

  /** With a single candidate, every random source lands on it, whatever its weight. */
  lemma OnlyCandidateIsPicked(cands: seq<Candidate>, rng: Rng)
    requires |cands| == 1 && ValidRng(rng)
    ensures WeightedPick(cands, rng, cands[0].operator)
  {
  }

  /**
    The decision part of `distribute_contact`: no operator when the source
    has no weight rows or none of their operators is available, otherwise
    the stored, available operator the weighted pick lands on.
   */
  method ChooseOperator(
    weights: seq<OperatorSourceWeight>, operators: seq<Operator>, contacts: seq<Contact>,
    sourceId: int, rng: Rng)
    returns (chosen: Option<Operator>)
    requires RowsResolve(weights, operators) && ValidRng(rng)
    ensures RowsForSource(weights, sourceId) == [] ==> chosen.None?
    ensures var cands := SourceCandidates(weights, operators, contacts, sourceId);
      && (chosen.None? <==> cands == [])
      && (chosen.Some? ==> WeightedPick(cands, rng, chosen.value))
    ensures chosen.Some? ==>
      && FindOperator(operators, chosen.value.id) == chosen
      && IsAvailable(chosen.value, contacts)
  {
    var rows := RowsForSource(weights, sourceId);
    if |rows| == 0 {
      return None;
    }
    RowsForSourceResolve(weights, operators, sourceId);
    var cands, total := CollectCandidates(rows, operators, contacts);
    if |cands| == 0 {
      return None;
    }
    var pick, r := 0, 0.0;
    if total == 0 {
      pick := rng.choice(|cands|);
    } else {
      r := rng.uniform(total as real);
    }
    var idx := SelectIndex(cands, total, pick, r);
    CandidateIsAvailable(rows, operators, contacts, idx);
    assert IsWeightedChoice(cands, total, rng.choice(|cands|), rng.uniform(total as real), idx);
    chosen := Some(cands[idx].operator);
  }

  /**
    `distribute_contact`: with no operator to choose, record nothing and
    return `None`; otherwise insert one new contact assigned to the chosen
    operator, whose load goes up by one and stays within its capacity.
   */
  method DistributeContact(
    db: Database, leadId: int, sourceId: int, message: Option<string>, rng: Rng, now: Timestamp)
    returns (contact: Option<Contact>)
    requires db.Valid() && ValidRng(rng)
    modifies db`contacts
    ensures db.Valid()
    ensures RowsForSource(db.weights, sourceId) == [] ==> contact.None?
    ensures var cands := SourceCandidates(db.weights, db.operators, old(db.contacts), sourceId);
      && (cands == [] ==> contact.None? && db.contacts == old(db.contacts))
      && (cands != [] ==>
            && contact.Some?
            && db.contacts == old(db.contacts) + [contact.value]
            && var c := contact.value;
            && c.id == NextId(old(db.contacts), (x: Contact) => x.id)
            && c.leadId == leadId && c.sourceId == sourceId && c.message == message
            && c.status == New && c.assignedAt == Some(now) && c.closedAt == None
            && c.operatorId.Some?
            && exists op :: WeightedPick(cands, rng, op) && c.operatorId == Some(op.id))
    ensures contact.Some? ==>
      && contact.value.operatorId.Some?
      && var op := FindOperator(db.operators, contact.value.operatorId.value);
      && op.Some? && op.value.isActive
      && Load(db.contacts, op.value.id) == Load(old(db.contacts), op.value.id) + 1 <= op.value.maxLoad
  {
    var chosen := ChooseOperator(db.weights, db.operators, db.contacts, sourceId, rng);
    if chosen.None? {
      return None;
    }
    var op := chosen.value;
    var c := Contact(
      NextId(db.contacts, (x: Contact) => x.id), leadId, sourceId, Some(op.id), message,
      New, Some(now), None);
    LoadAfterInsert(db.contacts, c, op.id);
    InsertContactKeepsValid(db.operators, db.weights, db.contacts, c);
    db.contacts := db.contacts + [c];
    contact := Some(c);
  }

  // ---------------------------------------------------------------------
  // Statistics
  // ---------------------------------------------------------------------

  /** One line of the distribution report. */
  datatype StatRow = StatRow(
    operatorId: int, operatorName: string, sourceId: int, sourceName: string,
    weight: int, contactCount: nat, assignedCount: nat)

  /**
    Whether a weight row survives the report's inner joins with operators
    and sources and its optional source filter, which applies only when the
    filter is present and non-zero (Python truthiness).
   */
  predicate InReport(w: OperatorSourceWeight, operators: seq<Operator>, sources: seq<Source>, sourceFilter: Option<int>)
  {
    && FindOperator(operators, w.operatorId).Some?
    && FindSource(sources, w.sourceId).Some?
    && (sourceFilter.Some? && sourceFilter.value != 0 ==> w.sourceId == sourceFilter.value)
  }

  /** The contacts of a source assigned to an operator (the outer join's matches). */
  predicate OfPair(c: Contact, operatorId: int, sourceId: int)
  {
    c.operatorId == Some(operatorId) && c.sourceId == sourceId
  }

  /** A contact of the pair that also has an operator, as `assigned_count` sums. */
  predicate AssignedOfPair(c: Contact, operatorId: int, sourceId: int)
  {
    OfPair(c, operatorId, sourceId) && c.operatorId.Some?
  }

  /** The report line of weight row `w`. */
  function RowStats(w: OperatorSourceWeight, operators: seq<Operator>, sources: seq<Source>, contacts: seq<Contact>)
    : StatRow
    requires FindOperator(operators, w.operatorId).Some? && FindSource(sources, w.sourceId).Some?
  {
    var op := FindOperator(operators, w.operatorId).value;
    var src := FindSource(sources, w.sourceId).value;
    StatRow(op.id, op.name, src.id, src.name, w.weight,
            Count(contacts, (c: Contact) => OfPair(c, op.id, src.id)),
            Count(contacts, (c: Contact) => AssignedOfPair(c, op.id, src.id)))
  }

  /**
    `calculate_distribution_stats`: one line per weight row that survives the
    joins and the filter, in table order, counting the contacts of its pair.
   */
  function DistributionStats(
    operators: seq<Operator>, sources: seq<Source>, weights: seq<OperatorSourceWeight>,
    contacts: seq<Contact>, sourceFilter: Option<int>)
    : (stats: seq<StatRow>)
    requires UniquePairs(weights)
    ensures |stats| <= |weights|
    ensures forall k :: 0 <= k < |stats| ==> stats[k].assignedCount == stats[k].contactCount
    ensures sourceFilter.Some? && sourceFilter.value != 0 ==>
      forall k :: 0 <= k < |stats| ==> stats[k].sourceId == sourceFilter.value
    decreases |weights|
  {
    if |weights| == 0 then []
    else
      var w := weights[0];
      var rest := DistributionStats(operators, sources, weights[1..], contacts, sourceFilter);
      if InReport(w, operators, sources, sourceFilter) then
        AssignedIsContactCount(contacts, w.operatorId, w.sourceId);
        [RowStats(w, operators, sources, contacts)] + rest
      else rest
  }

  /**
    Every contact the outer join matches to a pair has that operator, so the
    assigned count of a line always equals its contact count.
   */
  lemma {:induction false} AssignedIsContactCount(contacts: seq<Contact>, operatorId: int, sourceId: int)
    ensures Count(contacts, (c: Contact) => AssignedOfPair(c, operatorId, sourceId))
         == Count(contacts, (c: Contact) => OfPair(c, operatorId, sourceId))
    decreases |contacts|
  {
    if |contacts| > 0 {
      AssignedIsContactCount(contacts[..|contacts| - 1], operatorId, sourceId);
    }
  }

  /** The report has a line for a weight row exactly when the row survives the joins and the filter. */
  lemma {:induction false} StatsLineIff(
    operators: seq<Operator>, sources: seq<Source>, weights: seq<OperatorSourceWeight>,
    contacts: seq<Contact>, sourceFilter: Option<int>, w: OperatorSourceWeight)
    requires UniquePairs(weights)
    requires w in weights
    ensures InReport(w, operators, sources, sourceFilter) ==>
      RowStats(w, operators, sources, contacts) in DistributionStats(operators, sources, weights, contacts, sourceFilter)
    ensures (exists row :: row in DistributionStats(operators, sources, weights, contacts, sourceFilter)
               && row.operatorId == w.operatorId && row.sourceId == w.sourceId && row.weight == w.weight)
            ==> InReport(w, operators, sources, sourceFilter)
    decreases |weights|
  {
    StatsLinesComeFromRows(operators, sources, weights, contacts, sourceFilter);
    if weights[0] != w {
      assert w in weights[1..];
      StatsLineIff(operators, sources, weights[1..], contacts, sourceFilter, w);
    }
  }

  /** No two lines of a report share an (operator, source) pair. */
  predicate DistinctPairs(stats: seq<StatRow>)
  {
    forall i, j :: 0 <= i < j < |stats| ==>
      stats[i].operatorId != stats[j].operatorId || stats[i].sourceId != stats[j].sourceId
  }

  /**
    No two report lines share an (operator, source) pair: with at most one
    weight row per pair, each surviving row gives its own line.
   */
  lemma {:induction false} StatsPairsDistinct(
    operators: seq<Operator>, sources: seq<Source>, weights: seq<OperatorSourceWeight>,
    contacts: seq<Contact>, sourceFilter: Option<int>)
    requires UniquePairs(weights)
    ensures DistinctPairs(DistributionStats(operators, sources, weights, contacts, sourceFilter))
    decreases |weights|
  {
    if |weights| > 0 {
      var tail := weights[1..];
      var rest := DistributionStats(operators, sources, tail, contacts, sourceFilter);
      var stats := DistributionStats(operators, sources, weights, contacts, sourceFilter);
      StatsPairsDistinct(operators, sources, tail, contacts, sourceFilter);
      assert DistinctPairs(rest);
      var w := weights[0];
      if InReport(w, operators, sources, sourceFilter) {
        HeadPairNotInRest(operators, sources, weights, contacts, sourceFilter);
        var head := RowStats(w, operators, sources, contacts);
        assert stats == [head] + rest;
        assert head.operatorId == w.operatorId && head.sourceId == w.sourceId;
        forall i, j | 0 <= i < j < |stats|
          ensures stats[i].operatorId != stats[j].operatorId || stats[i].sourceId != stats[j].sourceId
        {
          var b := rest[j - 1];
          assert stats[j] == b;
          if i == 0 {
            assert b.operatorId != w.operatorId || b.sourceId != w.sourceId;
          } else {
            var a := rest[i - 1];
            assert stats[i] == a;
            assert a.operatorId != b.operatorId || a.sourceId != b.sourceId;
          }
        }
      } else {
        assert stats == rest;
      }
    }
  }

  /** The report has exactly one line per weight row that survives the joins and the filter. */
  lemma {:induction false} StatsLineCount(
    operators: seq<Operator>, sources: seq<Source>, weights: seq<OperatorSourceWeight>,
    contacts: seq<Contact>, sourceFilter: Option<int>)
    requires UniquePairs(weights)
    ensures |DistributionStats(operators, sources, weights, contacts, sourceFilter)|
         == Count(weights, (w: OperatorSourceWeight) => InReport(w, operators, sources, sourceFilter))
    decreases |weights|
  {
    if |weights| > 0 {
      StatsLineCount(operators, sources, weights[1..], contacts, sourceFilter);
      CountFront(weights, (w: OperatorSourceWeight) => InReport(w, operators, sources, sourceFilter));
    }
  }

  /** The first weight row's pair has no line among the later rows' lines. */
  lemma HeadPairNotInRest(
    operators: seq<Operator>, sources: seq<Source>, weights: seq<OperatorSourceWeight>,
    contacts: seq<Contact>, sourceFilter: Option<int>)
    requires UniquePairs(weights) && |weights| > 0
    ensures forall k :: 0 <= k < |DistributionStats(operators, sources, weights[1..], contacts, sourceFilter)| ==>
      var row := DistributionStats(operators, sources, weights[1..], contacts, sourceFilter)[k];
      row.operatorId != weights[0].operatorId || row.sourceId != weights[0].sourceId
  {
    var tail := weights[1..];
    var rest := DistributionStats(operators, sources, tail, contacts, sourceFilter);
    StatsLinesComeFromRows(operators, sources, tail, contacts, sourceFilter);
    forall k | 0 <= k < |rest|
      ensures rest[k].operatorId != weights[0].operatorId || rest[k].sourceId != weights[0].sourceId
    {
      assert rest[k] in rest;
      var v :| v in tail && InReport(v, operators, sources, sourceFilter)
               && rest[k] == RowStats(v, operators, sources, contacts);
      var m :| 0 <= m < |tail| && tail[m] == v;
      assert weights[m + 1] == v;
    }
  }

  /** Every report line is the line of some weight row that survives the joins and the filter. */
  lemma {:induction false} StatsLinesComeFromRows(
    operators: seq<Operator>, sources: seq<Source>, weights: seq<OperatorSourceWeight>,
    contacts: seq<Contact>, sourceFilter: Option<int>)
    requires UniquePairs(weights)
    ensures forall row :: row in DistributionStats(operators, sources, weights, contacts, sourceFilter) ==>
      exists w :: w in weights && InReport(w, operators, sources, sourceFilter)
        && row == RowStats(w, operators, sources, contacts)
    decreases |weights|
  {
    if |weights| > 0 {
      StatsLinesComeFromRows(operators, sources, weights[1..], contacts, sourceFilter);
      forall w | w in weights[1..] ensures w in weights { }
    }
  }
}
