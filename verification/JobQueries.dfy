/**
 The monitor's list queries: WHERE clauses assembled from the filters that are set, and pages.
 */
module JobQueries {
  import opened JobPages
  import opened Text

  // ---------- a small SQL ----------

  /**
   A column value, or a bound parameter; dates are numbers.  `worth` is the number or date the
   database takes a text for when it meets a number or date.
   */
  datatype Cell = Null | Chars(s: string, worth: real) | Number(n: int)

  type Row = map<string, Cell>

  function Column(row: Row, name: string): Cell {
    if name in row then row[name] else Null
  }

  predicate CompareNumbers(op: string, a: real, b: real) {
    (op == "=" && a == b) || (op == ">=" && a >= b) || (op == "<=" && a <= b)
  }

  /** A comparison with NULL does not hold; a text compared with a number is read as one. */
  predicate Compare(op: string, left: Cell, right: Cell) {
    match (left, right)
    case (Chars(a, _), Chars(b, _)) => op == "=" && a == b
    case (Chars(_, a), Number(b)) => CompareNumbers(op, a, b as real)
    case (Number(a), Chars(_, b)) => CompareNumbers(op, a as real, b)
    case (Number(a), Number(b)) => CompareNumbers(op, a as real, b as real)
    case _ => false
  }

  /** The words of a text. */
  function Words(s: string): seq<string> {
    Split(s, ' ')
  }

  /** `<column> <op> ?` with its parameter. */
  predicate EvalCondition(cond: string, param: Cell, row: Row) {
    var w := Words(cond);
    |w| == 3 && w[2] == "?" && Compare(w[1], Column(row, w[0]), param)
  }

  /** A conjunction of conditions, read word by word: three words, then `AND` or the end; parameters bind in order. */
  predicate EvalConditions(words: seq<string>, params: seq<Cell>, row: Row) {
    && |words| >= 3 && params != []
    && words[2] == "?" && Compare(words[1], Column(row, words[0]), params[0])
    && if |words| == 3 then |params| == 1
       else words[3] == "AND" && EvalConditions(words[4..], params[1..], row)
  }

  /** A WHERE clause, or no clause at all, over all its parameters. */
  predicate EvalWhere(clause: string, params: seq<Cell>, row: Row) {
    if clause == "" then params == []
    else
      var words := Words(clause);
      words[0] == "WHERE" && EvalConditions(words[1..], params, row)
  }

  function Select(table: seq<Row>, clause: string, params: seq<Cell>): seq<Row> {
    if table == [] then []
    else (if EvalWhere(clause, params, table[0]) then [table[0]] else []) + Select(table[1..], clause, params)
  }

  // ---------- assembling the clause ----------

  /** `conditions.join(' AND ')` */
  function JoinAnd(conds: seq<string>): string
    requires conds != []
  {
    if |conds| == 1 then conds[0] else conds[0] + " AND " + JoinAnd(conds[1..])
  }

  function WhereClause(conds: seq<string>): string {
    if conds == [] then "" else "WHERE " + JoinAnd(conds)
  }

  /** A condition as the services write them. */
  predicate IsCondition(cond: string) {
    var w := Words(cond);
    |w| == 3 && w[2] == "?"
  }

  predicate Aligned(conds: seq<string>, params: seq<Cell>) {
    |conds| == |params| && forall i :: 0 <= i < |conds| ==> IsCondition(conds[i])
  }

  /** Every condition holds of the row with its own parameter. */
  predicate AllHold(conds: seq<string>, params: seq<Cell>, row: Row)
    requires |conds| == |params|
  {
    forall i :: 0 <= i < |conds| ==> EvalCondition(conds[i], params[i], row)
  }

  /** The pieces of a concatenation at a separator. */
  lemma {:induction false} SplitConcat(a: string, b: string, c: char)
    ensures Split(a + [c] + b, c) == Split(a, c) + Split(b, c)
  {
    if a == "" {
      assert a + [c] + b == [c] + b && ([c] + b)[1..] == b;
    } else {
      assert a + [c] + b == [a[0]] + (a[1..] + [c] + b);
      assert (a + [c] + b)[1..] == a[1..] + [c] + b;
      SplitConcat(a[1..], b, c);
    }
  }

  lemma WordsOfJoin(cond: string, rest: string)
    ensures Words(cond + " AND " + rest) == Words(cond) + ["AND"] + Words(rest)
  {
    SplitConcat(cond, "AND " + rest, ' ');
    assert cond + " AND " + rest == cond + " " + ("AND " + rest);
    SplitPrefix("AND", " " + rest, ' ');
    assert "AND " + rest == "AND" + (" " + rest);
    assert (" " + rest)[1..] == rest;
    assert Split(" " + rest, ' ') == [""] + Words(rest);
    assert "AND" + "" == "AND";
  }

  lemma {:induction false} JoinedConditions(conds: seq<string>, params: seq<Cell>, row: Row)
    requires conds != [] && Aligned(conds, params)
    ensures EvalConditions(Words(JoinAnd(conds)), params, row) <==> AllHold(conds, params, row)
  {
    hide Compare;
    assert IsCondition(conds[0]);
    var w := Words(conds[0]);
    if |conds| > 1 {
      var rest := Words(JoinAnd(conds[1..]));
      WordsOfJoin(conds[0], JoinAnd(conds[1..]));
      JoinedConditions(conds[1..], params[1..], row);
      var words := w + ["AND"] + rest;
      assert words[4..] == rest;
      assert AllHold(conds, params, row)
        <==> EvalCondition(conds[0], params[0], row) && AllHold(conds[1..], params[1..], row) by {
        if EvalCondition(conds[0], params[0], row) && AllHold(conds[1..], params[1..], row) {
          forall i | 0 <= i < |conds| ensures EvalCondition(conds[i], params[i], row) {
            if i > 0 { assert EvalCondition(conds[1..][i - 1], params[1..][i - 1], row); }
          }
        }
        if AllHold(conds, params, row) {
          forall i | 0 <= i < |conds[1..]| ensures EvalCondition(conds[1..][i], params[1..][i], row) {
            assert EvalCondition(conds[i + 1], params[i + 1], row);
          }
        }
      }
    }
  }

  /** The text of an assembled clause means the conjunction of its conditions, each with its own parameter. */
  lemma ClauseMeansConjunction(conds: seq<string>, params: seq<Cell>, row: Row)
    requires Aligned(conds, params)
    ensures EvalWhere(WhereClause(conds), params, row) <==> AllHold(conds, params, row)
  {
    if conds != [] {
      JoinedConditions(conds, params, row);
      var joined := JoinAnd(conds);
      SplitPrefix("WHERE", " " + joined, ' ');
      assert WhereClause(conds) == "WHERE" + (" " + joined);
      assert (" " + joined)[1..] == joined;
      assert Split(" " + joined, ' ') == [""] + Words(joined);
      assert "WHERE" + "" == "WHERE";
      assert Words(WhereClause(conds)) == ["WHERE"] + Words(joined);
    }
  }

  // ---------- filters ----------

  /** A filter value as it arrives: `undefined`, or something the guard calls truthy or not. */
  predicate Set(f: Cell) {
    match f
    case Null => false
    case Chars(s, _) => s != ""
    case Number(n) => n != 0
  }

  /** The filters of `listJobs`; Null is an absent filter. */
  datatype JobFilter = JobFilter(
    status: Cell, jobType: Cell, queueName: Cell, clientId: Cell, projectId: Cell, chainId: Cell,
    dateFrom: Cell, dateTo: Cell)

  datatype DeadFilter = DeadFilter(status: Cell, jobType: Cell, clientId: Cell)

  /** What the filters ask of a row.  A chain id of zero is a filter; zero elsewhere, like empty text, is none. */
  predicate JobMatches(f: JobFilter, row: Row) {
    && JobIdentity(f, row)
    && (Set(f.projectId) ==> Compare("=", Column(row, "project_id"), f.projectId))
    && (f.chainId != Null ==> Compare("=", Column(row, "chain_id"), f.chainId))
    && (Set(f.dateFrom) ==> Compare(">=", Column(row, "created_at"), f.dateFrom))
    && (Set(f.dateTo) ==> Compare("<=", Column(row, "created_at"), f.dateTo))
  }

  predicate JobIdentity(f: JobFilter, row: Row) {
    && (Set(f.status) ==> Compare("=", Column(row, "status"), f.status))
    && (Set(f.jobType) ==> Compare("=", Column(row, "job_type"), f.jobType))
    && (Set(f.queueName) ==> Compare("=", Column(row, "queue_name"), f.queueName))
    && (Set(f.clientId) ==> Compare("=", Column(row, "client_id"), f.clientId))
  }

  predicate DeadMatches(f: DeadFilter, row: Row) {
    && (Set(f.status) ==> Compare("=", Column(row, "status"), f.status))
    && (Set(f.jobType) ==> Compare("=", Column(row, "job_type"), f.jobType))
    && (Set(f.clientId) ==> Compare("=", Column(row, "client_id"), f.clientId))
  }

  function Matching(table: seq<Row>, matches: Row -> bool): seq<Row> {
    if table == [] then []
    else (if matches(table[0]) then [table[0]] else []) + Matching(table[1..], matches)
  }

  /** The conditions pushed so far ask exactly what `asked` asks. */
  ghost predicate Asks(conds: seq<string>, params: seq<Cell>, asked: Row -> bool) {
    Aligned(conds, params) && forall row :: AllHold(conds, params, row) <==> asked(row)
  }

  lemma AsksNothing()
    ensures Asks([], [], row => true)
  {
  }

  lemma AllHoldNext(conds: seq<string>, params: seq<Cell>, cond: string, param: Cell, row: Row)
    requires |conds| == |params|
    ensures AllHold(conds + [cond], params + [param], row)
            <==> AllHold(conds, params, row) && EvalCondition(cond, param, row)
  {
    var conds', params' := conds + [cond], params + [param];
    if AllHold(conds', params', row) {
      assert EvalCondition(conds'[|conds|], params'[|conds|], row);
      forall i | 0 <= i < |conds| ensures EvalCondition(conds[i], params[i], row) {
        assert EvalCondition(conds'[i], params'[i], row);
      }
    }
  }

  /** `if (filter) { conditions.push('<name> <op> ?'); params.push(filter); }` */
  method Push(conds: seq<string>, params: seq<Cell>, guard: bool, name: string, op: string, param: Cell,
              ghost asked: Row -> bool)
    returns (conds': seq<string>, params': seq<Cell>, ghost asked': Row -> bool)
    requires Asks(conds, params, asked) && ' ' !in name && ' ' !in op
    ensures forall row :: asked'(row) <==> asked(row) && (guard ==> Compare(op, Column(row, name), param))
    ensures Asks(conds', params', asked')
  {
    conds', params' := conds, params;
    asked' := row => asked(row) && (guard ==> Compare(op, Column(row, name), param));
    if guard {
      var cond := name + " " + op + " ?";
      ConditionWords(name, op);
      conds', params' := conds + [cond], params + [param];
      forall row: Row ensures AllHold(conds', params', row) <==> asked'(row) {
        AllHoldNext(conds, params, cond, param, row);
        assert AllHold(conds, params, row) <==> asked(row);
      }
    }
  }

  lemma ConditionWords(name: string, op: string)
    requires ' ' !in name && ' ' !in op
    ensures Words(name + " " + op + " ?") == [name, op, "?"]
  {
    assert name + " " + op + " ?" == name + [' '] + (op + " " + "?");
    SplitConcat(name, op + " " + "?", ' ');
    SplitConcat(op, "?", ' ');
    SplitPrefix(name, "", ' ');
    SplitPrefix(op, "", ' ');
    SplitPrefix("?", "", ' ');
    assert name + "" == name && op + "" == op && "?" + "" == "?";
  }

  lemma {:induction false} SelectMeans(table: seq<Row>, conds: seq<string>, params: seq<Cell>, asked: Row -> bool)
    requires Asks(conds, params, asked)
    ensures Select(table, WhereClause(conds), params) == Matching(table, asked)
  {
    if table != [] {
      SelectMeans(table[1..], conds, params, asked);
      ClauseMeansConjunction(conds, params, table[0]);
      assert AllHold(conds, params, table[0]) <==> asked(table[0]);
    }
  }

  // ---------- what a listing shows ----------

  /** A text and the number it counts as. */
  datatype Txt = Txt(s: string, worth: real)

  /** The columns of a job that filters speak of. */
  datatype JobRecord = JobRecord(
    status: Txt, jobType: Txt, queueName: Txt, clientId: Option<int>, projectId: Option<int>, chainId: Option<int>,
    createdAt: int)

  datatype DeadRecord = DeadRecord(status: Txt, jobType: Txt, clientId: Option<int>)

  predicate HoldsText(row: Row, name: string, v: Txt) {
    name in row && row[name] == Chars(v.s, v.worth)
  }

  predicate HoldsNumber(row: Row, name: string, v: Option<int>) {
    match v
    case Some(n) => name in row && row[name] == Number(n)
    case None => name in row ==> row[name] == Null
  }

  predicate IsJobRow(row: Row, j: JobRecord) {
    && HoldsText(row, "status", j.status) && HoldsText(row, "job_type", j.jobType)
    && HoldsText(row, "queue_name", j.queueName)
    && HoldsNumber(row, "client_id", j.clientId) && HoldsNumber(row, "project_id", j.projectId)
    && HoldsNumber(row, "chain_id", j.chainId) && HoldsNumber(row, "created_at", Some(j.createdAt))
  }

  predicate IsDeadRow(row: Row, d: DeadRecord) {
    && HoldsText(row, "status", d.status) && HoldsText(row, "job_type", d.jobType)
    && HoldsNumber(row, "client_id", d.clientId)
  }

  /** The text asked for, if one is. */
  predicate TextMeets(f: Cell, v: Txt) {
    match f
    case Null => true
    case Chars(s, _) => s == "" || v.s == s
    case Number(n) => n == 0 || v.worth == n as real
  }

  /** The id asked for, if one is; zero and empty text ask for none. */
  predicate IdMeets(f: Cell, v: Option<int>) {
    match f
    case Null => true
    case Chars(s, worth) => s == "" || (v.Some? && v.value as real == worth)
    case Number(n) => n == 0 || v == Some(n)
  }

  /** The chain asked for, if one is, zero included. */
  predicate ChainMeets(f: Cell, v: Option<int>) {
    match f
    case Null => true
    case Chars(_, worth) => v.Some? && v.value as real == worth
    case Number(n) => v == Some(n)
  }

  predicate NotBefore(f: Cell, time: int) {
    match f
    case Null => true
    case Chars(s, worth) => s == "" || time as real >= worth
    case Number(n) => n == 0 || time >= n
  }

  predicate NotAfter(f: Cell, time: int) {
    match f
    case Null => true
    case Chars(s, worth) => s == "" || time as real <= worth
    case Number(n) => n == 0 || time <= n
  }

  /** The job has the status, type, queue, client, project and chain asked for, and lies between the dates. */
  predicate JobMeets(f: JobFilter, j: JobRecord) {
    && TextMeets(f.status, j.status) && TextMeets(f.jobType, j.jobType) && TextMeets(f.queueName, j.queueName)
    && IdMeets(f.clientId, j.clientId) && IdMeets(f.projectId, j.projectId) && ChainMeets(f.chainId, j.chainId)
    && NotBefore(f.dateFrom, j.createdAt) && NotAfter(f.dateTo, j.createdAt)
  }

  predicate DeadMeets(f: DeadFilter, d: DeadRecord) {
    TextMeets(f.status, d.status) && TextMeets(f.jobType, d.jobType) && IdMeets(f.clientId, d.clientId)
  }

  lemma TextCompared(row: Row, name: string, v: Txt, f: Cell)
    requires HoldsText(row, name, v)
    ensures TextMeets(f, v) <==> (Set(f) ==> Compare("=", Column(row, name), f))
  {
  }

  lemma IdCompared(row: Row, name: string, v: Option<int>, f: Cell)
    requires HoldsNumber(row, name, v)
    ensures IdMeets(f, v) <==> (Set(f) ==> Compare("=", Column(row, name), f))
    ensures ChainMeets(f, v) <==> (f != Null ==> Compare("=", Column(row, name), f))
  {
  }

  lemma DateCompared(row: Row, name: string, time: int, f: Cell)
    requires HoldsNumber(row, name, Some(time))
    ensures NotBefore(f, time) <==> (Set(f) ==> Compare(">=", Column(row, name), f))
    ensures NotAfter(f, time) <==> (Set(f) ==> Compare("<=", Column(row, name), f))
  {
  }

  lemma JobMatchesMeans(f: JobFilter, row: Row, j: JobRecord)
    requires IsJobRow(row, j)
    ensures JobMatches(f, row) <==> JobMeets(f, j)
  {
    hide Set, Compare, TextMeets, IdMeets, ChainMeets, NotBefore, NotAfter, HoldsText, HoldsNumber;
    TextCompared(row, "status", j.status, f.status);
    TextCompared(row, "job_type", j.jobType, f.jobType);
    TextCompared(row, "queue_name", j.queueName, f.queueName);
    IdCompared(row, "client_id", j.clientId, f.clientId);
    IdCompared(row, "project_id", j.projectId, f.projectId);
    IdCompared(row, "chain_id", j.chainId, f.chainId);
    DateCompared(row, "created_at", j.createdAt, f.dateFrom);
    DateCompared(row, "created_at", j.createdAt, f.dateTo);
  }

  lemma DeadMatchesMeans(f: DeadFilter, row: Row, d: DeadRecord)
    requires IsDeadRow(row, d)
    ensures DeadMatches(f, row) <==> DeadMeets(f, d)
  {
    hide Set, Compare, TextMeets, IdMeets, HoldsText, HoldsNumber;
    TextCompared(row, "status", d.status, f.status);
    TextCompared(row, "job_type", d.jobType, f.jobType);
    IdCompared(row, "client_id", d.clientId, f.clientId);
  }

  /** `kept` are the places of the rows that satisfy `meets`, in order and all of them. */
  ghost predicate Selects<T>(kept: seq<nat>, rows: seq<T>, meets: T -> bool) {
    && (forall k :: 0 <= k < |kept| ==> kept[k] < |rows| && meets(rows[kept[k]]))
    && (forall k, m :: 0 <= k < m < |kept| ==> kept[k] < kept[m])
    && (forall i: nat :: i < |rows| && meets(rows[i]) ==> i in kept)
  }

  /** The answer shows the rows at the places from `(page - 1) * limit` on, at most `limit`, and counts all. */
  ghost predicate ShowsPage(r: Listing, table: seq<Row>, kept: seq<nat>, page: int, limit: int) {
    var offset := (page - 1) * limit;
    if limit < 0 || offset < 0 then r == SqlError
    else
      && r.Listing? && r.total == |kept| && r.page == page && r.limit == limit
      && |r.items| == (if offset >= |kept| then 0 else if offset + limit >= |kept| then |kept| - offset else limit)
      && forall k :: 0 <= k < |r.items| ==> kept[offset + k] < |table| && r.items[k] == table[kept[offset + k]]
  }

  ghost predicate AreJobRows(table: seq<Row>, jobs: seq<JobRecord>) {
    |jobs| == |table| && forall i :: 0 <= i < |table| ==> IsJobRow(table[i], jobs[i])
  }

  ghost predicate AreDeadRows(table: seq<Row>, dead: seq<DeadRecord>) {
    |dead| == |table| && forall i :: 0 <= i < |table| ==> IsDeadRow(table[i], dead[i])
  }

  /** Of every table of job rows, the answer lists exactly the jobs that meet the filters, one page of them. */
  ghost predicate ListsJobs(r: Listing, table: seq<Row>, f: JobFilter, page: int, limit: int) {
    forall jobs: seq<JobRecord> :: AreJobRows(table, jobs) ==>
      exists kept :: Selects(kept, jobs, j => JobMeets(f, j)) && ShowsPage(r, table, kept, page, limit)
  }

  ghost predicate ListsDeadLetters(r: Listing, table: seq<Row>, f: DeadFilter, page: int, limit: int) {
    forall dead: seq<DeadRecord> :: AreDeadRows(table, dead) ==>
      exists kept :: Selects(kept, dead, d => DeadMeets(f, d)) && ShowsPage(r, table, kept, page, limit)
  }

  /** The rows at the places. */
  ghost predicate RowsAt<T>(rows: seq<T>, table: seq<T>, kept: seq<nat>) {
    |rows| == |kept| && forall k :: 0 <= k < |kept| ==> kept[k] < |table| && rows[k] == table[kept[k]]
  }

  /** The places one further on, with or without the first. */
  function Further(rest: seq<nat>, first: bool): (kept: seq<nat>)
    ensures |kept| == |rest| + (if first then 1 else 0) && (first ==> kept[0] == 0)
    ensures forall k :: 0 <= k < |rest| ==> kept[k + (if first then 1 else 0)] == rest[k] + 1
  {
    (if first then [0] else []) + seq(|rest|, k requires 0 <= k < |rest| => rest[k] + 1)
  }

  lemma FurtherRises(rest: seq<nat>, first: bool)
    requires forall k, m :: 0 <= k < m < |rest| ==> rest[k] < rest[m]
    ensures var kept := Further(rest, first); forall k, m :: 0 <= k < m < |kept| ==> kept[k] < kept[m]
  {
  }

  lemma FurtherFinds(rest: seq<nat>, first: bool, i: nat)
    requires (first && i == 0) || (i > 0 && i - 1 in rest)
    ensures i in Further(rest, first)
  {
    hide Further;
    var kept := Further(rest, first);
    if i > 0 {
      var k :| 0 <= k < |rest| && rest[k] == i - 1;
      assert kept[k + (if first then 1 else 0)] == i;
    } else {
      assert kept[0] == 0;
    }
  }

  lemma PlacesFurther<T>(table: seq<T>, meets: T -> bool, rest: seq<nat>)
    requires table != [] && Selects(rest, table[1..], meets)
    ensures Selects(Further(rest, meets(table[0])), table, meets)
  {
    hide Further;
    var first := meets(table[0]);
    var kept, d := Further(rest, first), if first then 1 else 0;
    FurtherRises(rest, first);
    forall k | 0 <= k < |kept| ensures kept[k] < |table| && meets(table[kept[k]]) {
      if k >= d {
        assert kept[k] == rest[k - d] + 1 && table[1..][rest[k - d]] == table[kept[k]];
      }
    }
    forall i: nat | i < |table| && meets(table[i]) ensures i in kept {
      if i > 0 {
        assert meets(table[1..][i - 1]);
      }
      FurtherFinds(rest, first, i);
    }
  }

  lemma RowsFurther<T>(table: seq<T>, first: bool, rest: seq<nat>, rows: seq<T>)
    requires table != [] && RowsAt(rows, table[1..], rest)
    ensures RowsAt((if first then [table[0]] else []) + rows, table, Further(rest, first))
  {
    hide Further;
    var kept, d := Further(rest, first), if first then 1 else 0;
    var all := (if first then [table[0]] else []) + rows;
    forall k | 0 <= k < |kept| ensures kept[k] < |table| && all[k] == table[kept[k]] {
      if k >= d {
        assert kept[k] == rest[k - d] + 1 && all[k] == rows[k - d];
      }
    }
  }

  /** The places of the matching rows. */
  lemma {:induction false} MatchingPlaces(table: seq<Row>, matches: Row -> bool) returns (kept: seq<nat>)
    ensures Selects(kept, table, matches) && RowsAt(Matching(table, matches), table, kept)
  {
    if table == [] {
      kept := [];
    } else {
      hide Selects, RowsAt, Further;
      var rest := MatchingPlaces(table[1..], matches);
      kept := Further(rest, matches(table[0]));
      PlacesFurther(table, matches, rest);
      RowsFurther(table, matches(table[0]), rest, Matching(table[1..], matches));
    }
  }

  lemma PageShows(r: Listing, table: seq<Row>, rows: seq<Row>, kept: seq<nat>, page: int, limit: int)
    requires r == PageOf(rows, page, limit) && RowsAt(rows, table, kept)
    ensures ShowsPage(r, table, kept, page, limit)
  {
    var offset := (page - 1) * limit;
    if limit >= 0 && offset >= 0 {
      SliceLength(rows, limit, offset);
    }
  }

  lemma SelectsSame<T, U>(kept: seq<nat>, a: seq<T>, p: T -> bool, b: seq<U>, q: U -> bool)
    requires Selects(kept, a, p) && |a| == |b| && forall i :: 0 <= i < |a| ==> (p(a[i]) <==> q(b[i]))
    ensures Selects(kept, b, q)
  {
  }

  lemma JobsListed(r: Listing, table: seq<Row>, f: JobFilter, page: int, limit: int)
    requires r == PageOf(Matching(table, row => JobMatches(f, row)), page, limit)
    ensures ListsJobs(r, table, f, page, limit)
  {
    hide PageOf, Matching, JobMatches, JobMeets, ShowsPage, IsJobRow, Selects, RowsAt;
    var matches := row => JobMatches(f, row);
    forall jobs: seq<JobRecord> | AreJobRows(table, jobs)
      ensures exists kept :: Selects(kept, jobs, j => JobMeets(f, j)) && ShowsPage(r, table, kept, page, limit)
    {
      var kept := MatchingPlaces(table, matches);
      PageShows(r, table, Matching(table, matches), kept, page, limit);
      forall i | 0 <= i < |table| ensures matches(table[i]) <==> JobMeets(f, jobs[i]) {
        JobMatchesMeans(f, table[i], jobs[i]);
      }
      SelectsSame(kept, table, matches, jobs, j => JobMeets(f, j));
    }
  }

  lemma DeadLettersListed(r: Listing, table: seq<Row>, f: DeadFilter, page: int, limit: int)
    requires r == PageOf(Matching(table, row => DeadMatches(f, row)), page, limit)
    ensures ListsDeadLetters(r, table, f, page, limit)
  {
    hide PageOf, Matching, DeadMatches, DeadMeets, ShowsPage, IsDeadRow, Selects, RowsAt;
    var matches := row => DeadMatches(f, row);
    forall dead: seq<DeadRecord> | AreDeadRows(table, dead)
      ensures exists kept :: Selects(kept, dead, d => DeadMeets(f, d)) && ShowsPage(r, table, kept, page, limit)
    {
      var kept := MatchingPlaces(table, matches);
      PageShows(r, table, Matching(table, matches), kept, page, limit);
      forall i | 0 <= i < |table| ensures matches(table[i]) <==> DeadMeets(f, dead[i]) {
        DeadMatchesMeans(f, table[i], dead[i]);
      }
      SelectsSame(kept, table, matches, dead, d => DeadMeets(f, d));
    }
  }

  // ---------- pages ----------

  /** `SELECT * ... <clause> ORDER BY ... LIMIT ? OFFSET ?`: the last two parameters are the limit and the offset. */
  function PageQuery(table: seq<Row>, clause: string, params: seq<Cell>): Option<seq<Row>> {
    var n := |params| - 2;
    if n >= 0 && params[n].Number? && params[n + 1].Number? && params[n].n >= 0 && params[n + 1].n >= 0
    then Some(Slice(Select(table, clause, params[..n]), params[n].n, params[n + 1].n))
    else None
  }

  datatype Listing = Listing(items: seq<Row>, total: nat, page: int, limit: int) | SqlError

  /** The page a caller should get: the matching rows from `(page - 1) * limit` to `page * limit`, and their number. */
  function PageOf(rows: seq<Row>, page: int, limit: int): Listing {
    var offset := (page - 1) * limit;
    if limit < 0 || offset < 0 then SqlError else Listing(Slice(rows, limit, offset), |rows|, page, limit)
  }

  /** The two queries of a list method over the assembled clause; `table` is in `ORDER BY` order. */
  method RunQueries(table: seq<Row>, conds: seq<string>, params: seq<Cell>, page: int, limit: int,
                    ghost asked: Row -> bool)
    returns (r: Listing)
    requires Asks(conds, params, asked)
    ensures r == PageOf(Matching(table, asked), page, limit)
  {
    SelectMeans(table, conds, params, asked);
    var offset := (page - 1) * limit;
    var whereClause := WhereClause(conds);
    var countParams := params;
    var pageParams := params + [Number(limit), Number(offset)];
    assert pageParams[..|params|] == params;
    var rows := PageQuery(table, whereClause, pageParams);
    if rows.None? {
      return SqlError;
    }
    return Listing(rows.value, |Select(table, whereClause, countParams)|, page, limit);
  }

  /** The first four filters of `listJobs`. */
  method PushJobIdentity(f: JobFilter) returns (conds: seq<string>, params: seq<Cell>, ghost asked: Row -> bool)
    ensures Asks(conds, params, asked)
    ensures forall row :: asked(row) <==> JobIdentity(f, row)
  {
    hide Asks, Set, Compare;
    AsksNothing();
    conds, params, asked := [], [], row => true;
    conds, params, asked := Push(conds, params, Set(f.status), "status", "=", f.status, asked);
    conds, params, asked := Push(conds, params, Set(f.jobType), "job_type", "=", f.jobType, asked);
    conds, params, asked := Push(conds, params, Set(f.queueName), "queue_name", "=", f.queueName, asked);
    conds, params, asked := Push(conds, params, Set(f.clientId), "client_id", "=", f.clientId, asked);
  }

  /** `listJobs`: the rows and the total are those of the filters taken together. */
  method ListJobs(table: seq<Row>, f: JobFilter, page: Option<int>, limit: Option<int>) returns (r: Listing)
    ensures r == PageOf(Matching(table, row => JobMatches(f, row)), Or(page, 1), Or(limit, 20))
    ensures ListsJobs(r, table, f, if page.Some? then page.value else 1, if limit.Some? then limit.value else 20)
  {
    hide Asks, Set, Compare, PageOf;
    var conds, params;
    ghost var asked: Row -> bool;
    conds, params, asked := PushJobIdentity(f);
    conds, params, asked := Push(conds, params, Set(f.projectId), "project_id", "=", f.projectId, asked);
    conds, params, asked := Push(conds, params, f.chainId != Null, "chain_id", "=", f.chainId, asked);
    conds, params, asked := Push(conds, params, Set(f.dateFrom), "created_at", ">=", f.dateFrom, asked);
    conds, params, asked := Push(conds, params, Set(f.dateTo), "created_at", "<=", f.dateTo, asked);
    r := RunQueries(table, conds, params, Or(page, 1), Or(limit, 20), asked);
    SameMatching(table, asked, row => JobMatches(f, row));
    JobsListed(r, table, f, Or(page, 1), Or(limit, 20));
  }

  /** `listDeadLetterJobs` */
  method ListDeadLetterJobs(table: seq<Row>, f: DeadFilter, page: Option<int>, limit: Option<int>) returns (r: Listing)
    ensures r == PageOf(Matching(table, row => DeadMatches(f, row)), Or(page, 1), Or(limit, 20))
    ensures ListsDeadLetters(r, table, f, if page.Some? then page.value else 1, if limit.Some? then limit.value else 20)
  {
    var conds: seq<string>, params: seq<Cell> := [], [];
    ghost var asked: Row -> bool := row => true;
    conds, params, asked := Push(conds, params, Set(f.status), "status", "=", f.status, asked);
    conds, params, asked := Push(conds, params, Set(f.jobType), "job_type", "=", f.jobType, asked);
    conds, params, asked := Push(conds, params, Set(f.clientId), "client_id", "=", f.clientId, asked);
    r := RunQueries(table, conds, params, Or(page, 1), Or(limit, 20), asked);
    SameMatching(table, asked, row => DeadMatches(f, row));
    DeadLettersListed(r, table, f, Or(page, 1), Or(limit, 20));
  }

  lemma SameMatching(table: seq<Row>, a: Row -> bool, b: Row -> bool)
    requires forall row :: a(row) == b(row)
    ensures Matching(table, a) == Matching(table, b)
  {
  }

  /** Every page of `limit` rows exists, has at most that many rows, and is empty after the last page. */
  lemma PageSizes(rows: seq<Row>, limit: nat, page: nat)
    requires limit > 0 && page > 0
    ensures var r := PageOf(rows, page, limit);
            && r.Listing? && r.total == |rows| && |r.items| <= limit
            && (r.items == [] <==> page > LastPage(|rows|, limit))
  {
    SliceBounds(|rows|, limit, page);
    SliceBounds(|rows|, limit, page - 1);
  }

  // ---------- pages of separate list queries ----------

  /** The items of pages 1, 2, ... of a list method; the query of page `k + 1` saw the table as `tables[k]`. */
  function ListedPages(tables: seq<seq<Row>>, matches: Row -> bool, limit: nat): seq<Row> {
    if tables == [] then []
    else
      var n := |tables| - 1;
      match PageOf(Matching(tables[n], matches), n + 1, limit)
      case Listing(items, _, _, _) => ListedPages(tables[..n], matches, limit) + items
      case SqlError => []
  }

  function AllMatching(tables: seq<seq<Row>>, matches: Row -> bool): (r: seq<seq<Row>>)
    ensures |r| == |tables| && forall k :: 0 <= k < |r| ==> r[k] == Matching(tables[k], matches)
  {
    seq(|tables|, k requires 0 <= k < |tables| => Matching(tables[k], matches))
  }

  lemma {:induction false} ListedPagesArePages(tables: seq<seq<Row>>, matches: Row -> bool, limit: nat)
    ensures ListedPages(tables, matches, limit) == Pages(AllMatching(tables, matches), limit)
  {
    if tables != [] {
      hide Matching, Slice;
      var n := |tables| - 1;
      ListedPagesArePages(tables[..n], matches, limit);
      assert AllMatching(tables, matches)[..n] == AllMatching(tables[..n], matches);
      TimesMonotone(0, n, limit);
    }
  }

  lemma {:induction false} MatchingCount(table: seq<Row>, matches: Row -> bool, x: Row)
    ensures multiset(Matching(table, matches))[x] == if matches(x) then multiset(table)[x] else 0
  {
    if table != [] {
      MatchingCount(table[1..], matches, x);
      assert table == [table[0]] + table[1..];
    }
  }

  lemma {:induction false} MatchingNewestFirst(table: seq<Row>, matches: Row -> bool, created: Row -> int)
    requires NewestFirst(table, created)
    ensures NewestFirst(Matching(table, matches), created)
    ensures forall x :: x in Matching(table, matches) ==> x in table
  {
    if table != [] {
      MatchingNewestFirst(table[1..], matches, created);
      var rest := Matching(table[1..], matches);
      forall x | x in rest ensures created(x) <= created(table[0]) {
        assert x in table[1..];
      }
    }
  }

  lemma MatchingOrder(order: seq<Row>, table: seq<Row>, matches: Row -> bool, created: Row -> int)
    requires OrderOf(order, table, created)
    ensures OrderOf(Matching(order, matches), Matching(table, matches), created)
  {
    MatchingNewestFirst(order, matches, created);
    forall x ensures multiset(Matching(order, matches))[x] == multiset(Matching(table, matches))[x] {
      MatchingCount(order, matches, x);
      MatchingCount(table, matches, x);
    }
  }

  lemma ListedPagesCover(tables: seq<seq<Row>>, table: seq<Row>, matches: Row -> bool, limit: nat, created: Row -> int)
    requires limit > 0 && NewestFirst(table, created) && OrdersOf(tables, table, created)
    requires |tables| == LastPage(|Matching(table, matches)|, limit)
    requires !TieOverPages(Matching(table, matches), limit, created)
    ensures OrderOf(ListedPages(tables, matches, limit), Matching(table, matches), created)
  {
    hide OrderOf, TieOverPages, LastPage;
    var rows, orders := Matching(table, matches), AllMatching(tables, matches);
    MatchingNewestFirst(table, matches, created);
    forall k | 0 <= k < |orders| ensures OrderOf(orders[k], rows, created) {
      MatchingOrder(tables[k], table, matches, created);
    }
    ListedPagesArePages(tables, matches, limit);
    CoversWithoutTies(orders, rows, limit, created);
  }

  /** A matching row put in the place of the `i`-th matching row of a table. */
  lemma {:induction false} MatchingUpdate(table: seq<Row>, matches: Row -> bool, i: nat, x: Row) returns (p: nat)
    requires i < |Matching(table, matches)| && matches(x)
    ensures p < |table| && table[p] == Matching(table, matches)[i]
    ensures Matching(table[p := x], matches) == Matching(table, matches)[i := x]
  {
    if !matches(table[0]) {
      var q := MatchingUpdate(table[1..], matches, i, x);
      p := q + 1;
      assert table[p := x][1..] == table[1..][q := x];
    } else if i == 0 {
      p := 0;
      assert table[0 := x][1..] == table[1..];
    } else {
      var q := MatchingUpdate(table[1..], matches, i - 1, x);
      p := q + 1;
      assert table[p := x][1..] == table[1..][q := x];
    }
  }

  lemma {:induction false} MatchingMatches(table: seq<Row>, matches: Row -> bool)
    ensures forall x :: x in Matching(table, matches) ==> matches(x)
  {
    if table != [] {
      MatchingMatches(table[1..], matches);
    }
  }

  /** The table in another order, in which two matching rows of the same time have changed places. */
  lemma SwappedTable(table: seq<Row>, matches: Row -> bool, i: nat, j: nat, created: Row -> int)
    returns (other: seq<Row>)
    requires NewestFirst(table, created) && i < j < |Matching(table, matches)|
    requires created(Matching(table, matches)[i]) == created(Matching(table, matches)[j])
    ensures OrderOf(other, table, created)
    ensures var rows := Matching(table, matches); Matching(other, matches) == rows[i := rows[j]][j := rows[i]]
  {
    hide Matching;
    var rows := Matching(table, matches);
    MatchingMatches(table, matches);
    var p := MatchingUpdate(table, matches, i, rows[j]);
    var half := table[p := rows[j]];
    var q := MatchingUpdate(half, matches, j, rows[i]);
    other := half[q := rows[i]];
    MultisetUpdate(table, p, rows[j]);
    MultisetUpdate(half, q, rows[i]);
    assert forall k :: 0 <= k < |table| ==> created(other[k]) == created(table[k]);
  }

  /** Two different rows tied over pages: one page may show the first of them, and a later page the first again. */
  lemma TieRepeats(table: seq<Row>, matches: Row -> bool, limit: nat, created: Row -> int, i: nat, j: nat)
    returns (tables: seq<seq<Row>>)
    requires limit > 0 && NewestFirst(table, created) && i < j < |Matching(table, matches)|
    requires TiedApart(Matching(table, matches), limit, created, i, j)
    ensures |tables| == LastPage(|Matching(table, matches)|, limit) && OrdersOf(tables, table, created)
    ensures var rows := Matching(table, matches);
            ListedPages(tables, matches, limit) == rows[j := rows[i]] && multiset(rows[j := rows[i]]) != multiset(rows)
  {
    hide Matching, Pages, LastPage, ListedPages;
    var rows := Matching(table, matches);
    var other := SwappedTable(table, matches, i, j, created);
    var orders := RepeatedPages(rows, Matching(other, matches), limit, j);
    tables := seq(|orders|, k requires 0 <= k < |orders| => if orders[k] == rows then table else other);
    assert AllMatching(tables, matches) == orders;
    ListedPagesArePages(tables, matches, limit);
    OneReplaced(rows, j, rows[i]);
  }

  /** Whatever order each page's query reads the table in, the pages show each matching row once, newest first. */
  ghost predicate AlwaysCovers(table: seq<Row>, matches: Row -> bool, limit: nat, created: Row -> int)
    requires limit > 0
  {
    forall tables :: |tables| == LastPage(|Matching(table, matches)|, limit) && OrdersOf(tables, table, created) ==>
      OrderOf(ListedPages(tables, matches, limit), Matching(table, matches), created)
  }

  /**
   Each page is a query of its own, and the database may order rows of the same time anew for each.
   Pages 1 to the last of an unchanged table show each matching row once, newest first, whatever
   orders it picks, if and only if no two different matching rows of the same creation time lie on
   different pages.
   */
  lemma PagesExact(table: seq<Row>, matches: Row -> bool, limit: nat, created: Row -> int)
    requires limit > 0 && NewestFirst(table, created)
    ensures AlwaysCovers(table, matches, limit, created) <==> !TieOverPages(Matching(table, matches), limit, created)
  {
    hide Matching, OrdersOf, NewestFirst, ListedPages;
    var rows := Matching(table, matches);
    if i: nat, j: nat :| i < j < |rows| && TiedApart(rows, limit, created, i, j) {
      var tables := TieRepeats(table, matches, limit, created, i, j);
      assert !OrderOf(ListedPages(tables, matches, limit), rows, created);
    }
    if !TieOverPages(rows, limit, created) {
      forall tables | |tables| == LastPage(|rows|, limit) && OrdersOf(tables, table, created)
        ensures OrderOf(ListedPages(tables, matches, limit), rows, created)
      {
        ListedPagesCover(tables, table, matches, limit, created);
      }
    }
  }

  /** No page size is at risk if and only if different matching rows have different creation times. */
  lemma AnyPageSize(table: seq<Row>, matches: Row -> bool, created: Row -> int)
    requires NewestFirst(table, created)
    ensures (forall limit: nat :: limit > 0 ==> AlwaysCovers(table, matches, limit, created))
            <==> DistinctTimes(Matching(table, matches), created)
  {
    hide AlwaysCovers, NewestFirst, Matching;
    var rows := Matching(table, matches);
    if forall limit: nat :: limit > 0 ==> AlwaysCovers(table, matches, limit, created) {
      PagesExact(table, matches, 1, created);
      forall i, j | 0 <= i < j < |rows| && created(rows[i]) == created(rows[j]) ensures rows[i] == rows[j] {
        assert !TiedApart(rows, 1, created, i, j);
      }
    }
    if DistinctTimes(rows, created) {
      forall limit: nat | limit > 0 ensures AlwaysCovers(table, matches, limit, created) {
        PagesExact(table, matches, limit, created);
      }
    }
  }
}
