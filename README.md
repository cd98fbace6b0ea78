# Mini-CRM contact distribution, modelled in Dafny

Mini-CRM routes inbound contacts (a lead writing in through a source such
as a bot or a campaign) to human operators. Each operator has a per-source
integer weight, an active flag and a maximum number of open contacts
(`max_load`). This project models the core of that service and proves
properties of the model:

- **load accounting** (`LoadCalculator`): an operator's load is the number
  of its contacts that are not closed, recomputed from the contact table;
  an operator is available while active and below `max_load`;
- **the distribution engine** (`Distribution`): the candidate loop over a
  source's weight rows, the weighted random pick by a cumulative-weight
  scan, the insertion of the assigned contact, the list of available
  operators, and the per-(operator, source) statistics;
- **the contact endpoints** (`ContactsApi`): create a contact (find or
  create the lead, resolve the source, distribute, fall back to an
  unassigned contact) and close a contact;
- **the operator endpoints** (`OperatorsApi`): register an operator
  (duplicate email check), list operators with their loads, read one,
  upsert a per-source weight, and the load report.

The tables live in a `Models.Database` object whose `seq` fields the
endpoint methods reassign (`modifies db`contacts` and so on). Each
state-changing method keeps `Database.Valid()`: operator keys are positive,
every weight row names an existing operator, and every contact has an
operator exactly when it has an assignment time, is closed exactly when it
has a closing time, and names an existing operator if any. Read-only
algorithms with loops (collecting candidates, the weighted scan, listing
operators) are methods with loop invariants, proved against specification
functions (`Candidates`, `IsWeightedChoice`) whose own properties are
proved as lemmas.

The random source (`random.choice`, `random.uniform`) is a parameter
`Rng`, constrained by `ValidRng` only to return values in range. The
clock (`datetime.now()`) is a `now: Timestamp` parameter. A new row's
primary key is one more than the largest key in its table (`NextId`), and
1 for an empty table.

Four behaviours of the code that the model keeps as written:

- **Closed draw.** With a positive total weight the draw is
  `random.uniform(0, total)`, a value in the closed interval `[0, total]`.
  The scan picks the first candidate whose running sum satisfies
  `rand_val <= cumulative`, and falls back to the last candidate when none
  does (app/services/distribution.py:67-76). `Distribution.IsWeightedChoice`
  states this rule. A draw that lands exactly on a running sum therefore
  goes to the earlier of the two candidates meeting there
  (`Distribution.BoundaryDrawPicksEarlier`). One case of this is the draw 0,
  which picks a zero-weight candidate at the head of the list; no other
  draw picks a zero-weight candidate
  (`Distribution.ZeroWeightPickedOnlyOnZeroDraw`).
- **No candidates.** `distribute_contact` returns `None` and stores
  nothing when the source has no weight rows or no available operator.
  `create_contact` then stores an unassigned contact itself
  (app/api/contacts.py:49-59).
- **Assigned count.** The statistics query's outer join matches only
  contacts whose operator is the line's operator, so `assigned_count`
  always equals `contact_count` (app/services/distribution.py:130-145,
  `Distribution.AssignedIsContactCount`).
- **Re-closing.** Closing a contact sets its status and stamps `closed_at`
  whatever its status was, so closing a closed contact stamps it again
  (app/api/contacts.py:110-111).

## Model

| member | source | states |
|---|---|---|
| Models.FindFirst | app/crud.py:7-8 | the row returned is stored, satisfies the filter and no earlier row does; none exactly when no row satisfies it |
| Models.FindOperator | app/crud.py:7-8 | the operator returned is stored and has the key; none is returned exactly when no stored operator has it |
| Models.FindOperatorByEmail | app/crud.py:11-12 | the operator returned is stored under that email; none exactly when no operator uses the email |
| Models.FindSource | app/crud.py:74-75 | the source returned is stored with that key; none exactly when no source has it |
| Models.FindSourceByCode | app/crud.py:78-79 | the source returned is stored with that code; none exactly when no source has it |
| Models.FindLeadByExternalId | app/crud.py:51-52 | the lead returned is stored with that external id; none exactly when no lead has it |
| ContactsApi.ContactIndex | app/crud.py:98-99 | the position found holds a contact with that key; none exactly when no stored contact has it |
| ContactsApi.NewLead | app/api/contacts.py:27-36 | the lead created for an unknown external id gets a key above every stored lead's key and carries the request's external id, phone, email and names |
| Models.NextId | app/models.py:14 | a new primary key is larger than every key in the table, 1 for an empty table, and at least 1 when keys are non-negative |
| Models.InsertOperatorKeepsValid | app/models.py:63-73 | adding an operator with a positive key keeps every weight row's and contact's operator reference resolving |
| Models.UpdateContactKeepsValid | app/models.py:84-96 | replacing a contact by a consistent one keeps the operator/assignment and status/closing-time invariants of the table |
| LoadCalculator.Load | app/services/load_calculator.py:6-16 | the load never exceeds the number of contacts, and is 0 exactly when no contact is assigned to the operator and open |
| LoadCalculator.LoadIsOpenContactCount | app/services/load_calculator.py:11-16 | the load is the number of contacts assigned to the operator whose status is not closed |
| LoadCalculator.LoadAfterInsert | app/services/load_calculator.py:11-16 | inserting a contact raises the load of the operator it occupies by one and leaves every other load unchanged |
| LoadCalculator.LoadAfterUpdate | app/services/load_calculator.py:11-16 | replacing a contact moves each load by the old and new contact's occupancy |
| LoadCalculator.GetOperatorLoadInfo | app/services/load_calculator.py:19-33 | none exactly for an unknown operator; otherwise its name, capacity, the count of its open contacts, and availability iff that count is below capacity and the operator is active |
| Distribution.RowsForSource | app/services/distribution.py:31-33 | a weight row is selected exactly when it belongs to the source; never more rows than the table; with the two lemmas below, each row of the source appears once and in table order |
| Distribution.RowsForSourceCount | app/services/distribution.py:31-33 | the selection has exactly as many rows as the table holds for the source, so no row is repeated |
| Distribution.RowsForSourceConcat | app/services/distribution.py:31-33 | selecting from two tables one after the other gives the two selections one after the other: table order is kept |
| Distribution.CandidateIsAvailable | app/services/distribution.py:43-55 | every candidate is a stored operator that is active, below capacity, and carries its current load; never more candidates than rows |
| Distribution.CandidateIff | app/services/distribution.py:43-55 | an operator is a candidate with weight w exactly when it is available and a row names it with weight w, so inactive and full operators never are |
| Distribution.CollectCandidates | app/services/distribution.py:40-55 | the loop returns exactly the candidates of the rows, in row order, and their total weight |
| Distribution.GetAvailableOperatorsForSource | app/services/distribution.py:101-115 | the operators returned are exactly the engine's candidates for the source, in order; none when the source has no weight rows |
| Distribution.SelectIndex | app/services/distribution.py:61-76 | the scan returns the drawn index when the total is 0; otherwise the first candidate whose running sum reaches the draw, or the last one if none does |
| Distribution.WeightedChoiceUnique | app/services/distribution.py:61-76 | the draw determines the pick: at most one index satisfies the rule |
| Distribution.PrefixMonotone | app/services/distribution.py:68-71 | with non-negative weights the running sum never decreases |
| Distribution.DrawAlwaysReaches | app/services/distribution.py:66-76 | with a non-zero total and a draw of at most the total, the fall-back is never taken: the pick reaches the draw and no earlier candidate does |
| Distribution.ChoiceIsWeightSlice | app/services/distribution.py:66-76 | with non-negative weights and a positive total, candidate k is picked exactly when the draw lies in its slice (above the sum before it, at most the sum through it), a slice as wide as its weight |
| Distribution.BoundaryDrawPicksEarlier | app/services/distribution.py:70-74 | with positive weights, a draw equal to the running sum through candidate k picks k: the `<=` test gives a boundary draw to the earlier candidate |
| Distribution.ZeroWeightPickedOnlyOnZeroDraw | app/services/distribution.py:66-76 | a zero-weight candidate is picked only if it is the first candidate and the draw is exactly 0 |
| Distribution.OnlyCandidateIsPicked | app/services/distribution.py:61-76 | with a single candidate every random source lands on it, whatever its weight |
| Distribution.SourceCandidates | app/services/distribution.py:31-37 | a source without weight rows has no candidates |
| Distribution.ChooseOperator | app/services/distribution.py:30-76 | no operator exactly when there are no candidates (in particular with no weight rows); otherwise the weighted pick, a stored operator that is active and below capacity |
| Distribution.DistributeContact | app/services/distribution.py:14-92 | with no candidates nothing is stored; otherwise one new contact is appended (fresh key, status new, assigned now, not closed) for the weighted pick, whose load rises by exactly one and stays within capacity; the table invariant is kept |
| Distribution.DistributionStats | app/services/distribution.py:124-156 | never more lines than weight rows; every line's assigned count equals its contact count; with a non-zero source filter every line is of that source |
| Distribution.AssignedIsContactCount | app/services/distribution.py:130-145 | the contacts the outer join matches to a pair all have an operator, so the assigned count equals the contact count |
| Distribution.StatsLineIff | app/services/distribution.py:135-148 | a weight row has a line exactly when its operator and source exist and it passes the source filter |
| Distribution.StatsLinesComeFromRows | app/services/distribution.py:135-154 | every line is the line of a weight row that survives the joins and the filter |
| Distribution.StatsLineCount | app/services/distribution.py:135-154 | the report has exactly as many lines as there are weight rows that survive the joins and the filter |
| Distribution.StatsPairsDistinct | app/services/distribution.py:150-154 | with at most one weight row per pair, no two lines share an (operator, source) pair, as grouping by operator and source gives |
| ContactsApi.CloseRecord | app/api/contacts.py:110-111 | the closed contact has status closed and closing time now, and every other field unchanged |
| ContactsApi.LoadAfterClose | app/api/contacts.py:103-116 | closing a contact lowers the load of the operator it occupied by one and leaves every other load unchanged |
| ContactsApi.CloseContact | app/api/contacts.py:103-116 | an unknown id is 404 "Contact not found" with nothing changed; otherwise that contact alone is closed, its operator's load drops by one if it was open, and the invariant is kept |
| ContactsApi.CreateContact | app/api/contacts.py:12-70 | the lead is found or created first; an unknown source code is 404 "Source not found" with no contact stored; otherwise exactly one contact is stored, assigned exactly when the source has candidates; an assigned contact carries the operator of the weighted pick over the source's candidates and was assigned now; the response names its operator exactly when it has one |
| OperatorsApi.CreateOperator | app/api/operators.py:11-20 | an email already in use is 400 "Operator already exists" with nothing stored; otherwise the operator is appended under a key larger than every existing one |
| OperatorsApi.Page | app/crud.py:15-16 | the page holds at most `limit` rows, the rows from `skip` on in order, and as many as remain when fewer than `limit` do |
| OperatorsApi.ActiveOnly | app/api/operators.py:33-34 | an operator is kept exactly when it is listed and active |
| OperatorsApi.ActiveOnlyConcat | app/api/operators.py:33-34 | the filter keeps order: filtering a concatenation concatenates the filtered parts |
| OperatorsApi.ReadOperators | app/api/operators.py:23-42 | one entry per operator of the page (restricted to active ones on request), in order, each with its current load |
| OperatorsApi.ReadOperator | app/api/operators.py:45-55 | 404 "Operator not found" exactly for an unknown key; otherwise the stored operator with the count of its open contacts |
| OperatorsApi.GetOperatorLoad | app/api/operators.py:110-119 | 404 "Operator not found" exactly for an unknown key; otherwise the operator's name and capacity, the count of its open contacts, and availability iff it is active and below capacity |
| OperatorsApi.UpsertWeight | app/api/operators.py:90-103 | a row is added exactly when no row of the pair existed; existing rows keep key, operator and source, rows of other pairs are untouched, and a row of the pair carries the new weight |
| OperatorsApi.UpsertKeepsOneRowPerPair | app/api/operators.py:90-103 | with at most one row per pair before, there is exactly one row of the pair after, it has the new weight, and at most one row per pair still holds |
| OperatorsApi.UpsertKeepsValid | app/api/operators.py:82-103 | upserting a weight for a stored operator keeps every weight row's operator resolving |
| OperatorsApi.AddOperatorWeight | app/api/operators.py:75-107 | an unknown operator is 404 "Operator not found", then an unknown source is 404 "Source not found", both writing nothing; otherwise the weight table becomes the upsert and the row returned is the pair's row with the new weight |

## Left out

- Randomness: `random.choice` and `random.uniform` are a parameter; the model proves which candidate a given draw selects and that each candidate's slice is as wide as its weight, not the long-run proportions of assignments or the uniform fall-back's equal chances (probability is not modelled).
- Floating point: the draw is a `real`; rounding of `random.uniform` is not modelled.
- Concurrency: each endpoint runs alone on the tables; the race between two distributions reading the same load before either commits is not modelled.
- Persistence: SQLAlchemy sessions, commits, refreshes, foreign-key cascades and `created_at`/`updated_at` columns are not modelled; query results are taken in table order (the database gives no order guarantee).
- HTTP layer: FastAPI routing and the pydantic schemas are not modelled; a response is the model's datatype.
- Timestamps: `datetime.now()` is the `now` parameter, an integer clock.
- Primary keys are taken as unique (lookups return the first match); the unique constraints on operator email, lead external id and source code are enforced only where the endpoints check them.
- `update_operator`, `read_contacts`, `get_lead_contacts`, the stats endpoint wrapper and the leads and sources endpoints are outside the modelled core.
- Weights and `max_load` are unconstrained integers, as in the code: no validation of non-negativity is modelled because the code performs none; results that need non-negative weights say so in their requires.
- OperatorsApi.Page: takes natural numbers for `skip` and `limit`; the database's handling of negative offsets and limits is not modelled.
- Distribution.DistributionStats: requires at most one weight row per (operator, source) pair. The query groups by operator key, source key and weight (app/services/distribution.py:150-154), so two rows of one pair with the same weight would merge into one line with doubled counts; that merge is not modelled. Rows of one pair with different weights stay separate lines, which is what `RowStats` gives per row.
