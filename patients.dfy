/**
 * The patient API of Labs/5: the multi-row INSERT statement built from a list of
 * patient records, and the status policy of the GET and POST handlers over what
 * the database driver reports.
 *
 * The driver is a parameter `exec`: given the SQL text handed to it (`None` when
 * that text is `undefined`) it says how the query promise settles.
 */
module Patients {
  import opened Wrappers
  import opened JsString

  // The statement templates, cut at their placeholders.
  const InsertHead := "INSERT INTO " + "patients " + "(name, dateOfBirth) " + "VALUES "
  const InsertTail := " ;"
  const InsertQuery := InsertHead + "%1" + InsertTail

  const ValuesOpen := "('"
  const ValuesMiddle := "', '"
  const ValuesClose := " 00:00:00')"
  const InsertValues := ValuesOpen + "%1" + (ValuesMiddle + "%2" + ValuesClose)

  /** One element of the POSTed array; a missing field is `None` (`undefined`). */
  datatype Patient = Patient(name: Option<string>, dateOfBirth: Option<string>)

  /** The parsed POST body: an array of patients, or an object with an `sql` field. */
  datatype JsonBody =
    | PatientList(patients: seq<Patient>)
    | QueryObject(sql: Option<string>)

  /**
   * A value the driver produces. Result sets are opaque. Error objects from the
   * SQL server carry `errno` and `sqlMessage`; other thrown errors carry neither.
   */
  datatype DbValue =
    | ResultSet(rows: string)
    | ErrorObject(errno: Option<nat>, sqlMessage: Option<string>)

  /** How the promise of `Repository.runQuery` settles. */
  datatype Outcome = Resolved(value: DbValue) | Rejected(value: DbValue)

  /** Keys of the Labs/5 message catalog; their texts are not part of this model. */
  datatype MessageKey = BadRequest | PageNotFound | SuccessfulInsert | DBError

  /** The JSON object sent back. */
  datatype Body =
    | Empty
    | Message(key: MessageKey)
    | SqlMessage(sqlMessage: Option<string>)
    | DataResult(result: DbValue)
    | DataMessage(data: MessageKey)

  datatype Response = Response(status: nat, body: Body)

  datatype Request = Request(verb: string, path: string, sql: Option<string>, body: JsonBody)

  /** `String(v)` as `replace` applies it to its second argument. */
  function Text(v: Option<string>): string {
    match v
    case None => "undefined"
    case Some(s) => s
  }

  /** The tuple for one patient: two first-occurrence replacements in the values template. */
  function Tuple(p: Patient): string {
    Replace(Replace(InsertValues, "%1", Text(p.name)), "%2", Text(p.dateOfBirth))
  }

  /** Whatever the fields hold, every tuple ends with the template's ` 00:00:00')`. */
  lemma TupleCloses(p: Patient)
    ensures EndsWith(Tuple(p), ValuesClose)
  {
    var after1 := ValuesMiddle + "%2" + ValuesClose;
    assert InsertValues[|InsertValues| - |InsertValues|..] == InsertValues;
    KeepTailAfter(InsertValues, ValuesOpen, "%1", after1, Text(p.name));
    KeepTailAfter(Replace(InsertValues, "%1", Text(p.name)), ValuesMiddle, "%2", ValuesClose, Text(p.dateOfBirth));
  }

  /** The tuples of a list of patients, one per patient, in the same order. */
  function Tuples(ps: seq<Patient>): (r: seq<string>)
    ensures |r| == |ps|
    ensures forall k :: 0 <= k < |ps| ==> r[k] == Tuple(ps[k])
  {
    if ps == [] then []
    else
      var rest := Tuples(ps[1..]);
      assert forall k :: 1 <= k < |ps| ==> rest[k - 1] == Tuple(ps[k]);
      [Tuple(ps[0])] + rest
  }

  /** The statement `insertPatients` hands to the driver. */
  function InsertStatement(ps: seq<Patient>): string {
    Replace(InsertQuery, "%1", Join(Tuples(ps), ","))
  }

  /** The tuple a patient was meant to give: both values spliced in verbatim. */
  function IntendedTuple(p: Patient): string {
    ValuesOpen + Text(p.name) + ValuesMiddle + Text(p.dateOfBirth) + ValuesClose
  }

  /** A patient whose values go into the template verbatim: no `$` pattern, no `%2` in the name. */
  predicate Plain(p: Patient) {
    '$' !in Text(p.name) && '$' !in Text(p.dateOfBirth) && Absent(Text(p.name), "%2")
  }

  /** The first `%2` after the name is the template's own. */
  lemma NameFollowedByPlaceholder(name: string)
    requires Absent(name, "%2")
    ensures Absent(ValuesOpen + name + ValuesMiddle + "%", "%2")
  {
    AbsentNoLead(ValuesOpen, "%2");
    AbsentConcat2(ValuesOpen, name, "%2");
    AbsentNoLead(ValuesMiddle, "%2");
    AbsentConcat2(ValuesOpen + name, ValuesMiddle, "%2");
    AbsentShort("%", "%2");
    AbsentConcat2(ValuesOpen + name + ValuesMiddle, "%", "%2");
  }

  /** The literal parts of the templates hold no `%` and no `$`. */
  lemma TemplateParts()
    ensures '%' !in ValuesOpen && '%' !in ValuesMiddle && '%' !in InsertHead
    ensures '$' !in ValuesOpen && '$' !in ValuesMiddle && '$' !in ValuesClose
    ensures "%2"[..1] == "%" && "%1"[..1] == "%"
  {
    assert '%' !in "INSERT INTO " && '%' !in "patients " && '%' !in "(name, dateOfBirth) " && '%' !in "VALUES ";
  }

  /** The first replacement puts the name where the template's `%1` was. */
  lemma NameFilled(name: string)
    requires '$' !in name
    ensures Replace(InsertValues, "%1", name) == ValuesOpen + name + (ValuesMiddle + "%2" + ValuesClose)
  {
    TemplateParts();
    ReplaceFirstLead(ValuesOpen, "%1", ValuesMiddle + "%2" + ValuesClose, name);
  }

  /** A plain patient gives the intended tuple `('name', 'dob 00:00:00')`. */
  lemma TupleOfPlain(p: Patient)
    requires Plain(p)
    ensures Tuple(p) == IntendedTuple(p)
  {
    var name, dob := Text(p.name), Text(p.dateOfBirth);
    NameFilled(name);
    Regroup(ValuesOpen + name, ValuesMiddle, "%2", ValuesClose);
    NameFollowedByPlaceholder(name);
    TemplateParts();
    ReplaceFirst(ValuesOpen + name + ValuesMiddle, "%2", ValuesClose, dob);
  }

  /**
   * A name holding `%2` takes the date in its place: the second replacement hits
   * the `%2` inside the name and the template's own `%2` stays literal.
   */
  lemma TupleOfNameWithPlaceholder(before: string, after: string, dob: string)
    requires '%' !in before && '$' !in before + "%2" + after && '$' !in dob
    ensures Tuple(Patient(Some(before + "%2" + after), Some(dob)))
         == ValuesOpen + before + dob + (after + (ValuesMiddle + "%2" + ValuesClose))
  {
    var rest := ValuesMiddle + "%2" + ValuesClose;
    NameFilled(before + "%2" + after);
    RegroupAround(ValuesOpen, before, "%2", after, rest);
    TemplateParts();
    ReplaceFirstLead(ValuesOpen + before, "%2", after + rest, dob);
  }

  /**
   * Whatever the patients, the statement is the fixed head, the joined tuples (with
   * any `$` pattern in them expanded) and the fixed tail.
   */
  lemma StatementShape(ps: seq<Patient>)
    ensures InsertStatement(ps) == InsertHead + Substitute(Join(Tuples(ps), ","), "%1", InsertHead, InsertTail) + InsertTail
    ensures InsertStatement(ps)[..|InsertHead|] == InsertHead && EndsWith(InsertStatement(ps), InsertTail)
  {
    var joined := Join(Tuples(ps), ",");
    TemplateParts();
    LeadAbsent(InsertHead, "%1");
    ReplaceSplice(InsertHead, "%1", InsertTail, joined);
    Framed(InsertHead, Substitute(joined, "%1", InsertHead, InsertTail), InsertTail);
  }

  /** An empty list still gives a statement: the head and the tail with nothing between. */
  lemma StatementOfNoPatients()
    ensures InsertStatement([]) == InsertHead + InsertTail
  {
    StatementShape([]);
  }

  /** The intended tuples of a list of patients, in the same order. */
  function IntendedTuples(ps: seq<Patient>): (r: seq<string>)
    ensures |r| == |ps|
    ensures forall k :: 0 <= k < |ps| ==> r[k] == IntendedTuple(ps[k])
  {
    if ps == [] then [] else [IntendedTuple(ps[0])] + IntendedTuples(ps[1..])
  }

  /** For plain patients the statement is the intended tuples, comma-joined in input order. */
  lemma StatementOfPlain(ps: seq<Patient>)
    requires forall k :: 0 <= k < |ps| ==> Plain(ps[k])
    ensures InsertStatement(ps) == InsertHead + Join(IntendedTuples(ps), ",") + InsertTail
  {
    PlainTuples(ps);
    StatementShape(ps);
  }

  /** Plain patients give their intended tuples, and the joined tuples hold no `$`. */
  lemma PlainTuples(ps: seq<Patient>)
    requires forall k :: 0 <= k < |ps| ==> Plain(ps[k])
    ensures Tuples(ps) == IntendedTuples(ps) && '$' !in Join(Tuples(ps), ",")
  {
    var ts := Tuples(ps);
    TemplateParts();
    forall k | 0 <= k < |ps|
      ensures ts[k] == IntendedTuple(ps[k]) && '$' !in ts[k]
    {
      TupleOfPlain(ps[k]);
    }
    assert ts == IntendedTuples(ps);
  }

  /** What `insertPatients` resolves to: the driver result, or `None` (null) on rejection. */
  function InsertResult(ps: seq<Patient>, exec: Option<string> -> Outcome): (r: Option<DbValue>)
    ensures r.None? <==> exec(Some(InsertStatement(ps))).Rejected?
    ensures r.Some? ==> exec(Some(InsertStatement(ps))) == Resolved(r.value)
  {
    match exec(Some(InsertStatement(ps)))
    case Rejected(_) => None
    case Resolved(v) => Some(v)
  }

  /**
   * `Repository.insertPatients`: builds one statement from the tuples, runs it and
   * turns a rejection into `None`. Also returns the statement it ran.
   */
  method InsertPatients(patients: seq<Patient>, exec: Option<string> -> Outcome) returns (query: string, result: Option<DbValue>)
    ensures query == InsertStatement(patients)
    ensures result == InsertResult(patients, exec)
  {
    var values: seq<string> := [];
    for i := 0 to |patients|
      invariant |values| == i
      invariant forall k :: 0 <= k < i ==> values[k] == Tuple(patients[k])
    {
      var vals := Replace(InsertValues, "%1", Text(patients[i].name));
      vals := Replace(vals, "%2", Text(patients[i].dateOfBirth));
      values := values + [vals];
    }
    assert values == Tuples(patients);
    var allValues := Join(values, ",");
    query := Replace(InsertQuery, "%1", allValues);
    var outcome := exec(Some(query));
    if outcome.Rejected? {
      result := None;
    } else {
      result := Some(outcome.value);
    }
  }

  /** `Server.runQuery`: the value the promise settles with, whether it resolved or rejected. */
  function RunQuery(query: Option<string>, exec: Option<string> -> Outcome): (r: DbValue)
    ensures exec(query).Resolved? ==> r == exec(query).value
    ensures exec(query).Rejected? ==> r == exec(query).value
  {
    exec(query).value
  }

  /** The caller cannot tell a rejection from a resolution with the same value. */
  lemma RunQueryConflates(query: Option<string>, ok: Option<string> -> Outcome, failed: Option<string> -> Outcome, v: DbValue)
    requires ok(query) == Resolved(v) && failed(query) == Rejected(v)
    ensures RunQuery(query, ok) == RunQuery(query, failed) == v
  {
  }

  /** A numeric property of a driver value, read by name; only error objects have `errno`. */
  function NumericProperty(v: DbValue, name: string): Option<nat> {
    if v.ErrorObject? && name == "errno" then v.errno else None
  }

  /** JavaScript truthiness of an optional number. */
  predicate TruthyNumber(n: Option<nat>) {
    n.Some? && n.value != 0
  }

  /** The driver reported an SQL error through `errno`. */
  predicate SqlFailed(v: DbValue) {
    v.ErrorObject? && TruthyNumber(v.errno)
  }

  /** `result.sqlMessage`: only error objects carry one. */
  function SqlMessageOf(v: DbValue): Option<string> {
    if v.ErrorObject? then v.sqlMessage else None
  }

  /** The 400 answer that passes the driver's SQL message on. */
  function SqlErrorResponse(result: DbValue): Response {
    Response(400, SqlMessage(SqlMessageOf(result)))
  }

  /** The patient array `insertPatients` iterates over; an object has no `length`, so none. */
  function PatientsOf(body: JsonBody): seq<Patient> {
    match body
    case PatientList(ps) => ps
    case QueryObject(_) => []
  }

  /** `jsonBody['sql']`; an array has no such property. */
  function SqlOf(body: JsonBody): Option<string> {
    match body
    case PatientList(_) => None
    case QueryObject(sql) => sql
  }

  /** `Server.handleGet`. */
  function HandleGet(sql: Option<string>, exec: Option<string> -> Outcome): (r: Response)
    ensures !Truthy(sql) ==> r == Response(400, Message(BadRequest))
    ensures Truthy(sql) && SqlFailed(exec(sql).value) ==> r == Response(400, SqlMessage(exec(sql).value.sqlMessage))
    ensures r.status == 200 <==> Truthy(sql) && !SqlFailed(exec(sql).value)
    ensures r.status == 200 ==> r.body == DataResult(exec(sql).value)
  {
    if Truthy(sql) then
      var result := RunQuery(sql, exec);
      if TruthyNumber(NumericProperty(result, "errno")) then SqlErrorResponse(result)
      else Response(200, DataResult(result))
    else
      Response(400, Message(BadRequest))
  }

  /** `Server.handlePost`; the `/query` branch tests the property `errono`. */
  function HandlePost(body: JsonBody, path: string, exec: Option<string> -> Outcome): (r: Response)
    ensures path == "/insert" ==>
      (r.status == 200 <==> exec(Some(InsertStatement(PatientsOf(body)))).Resolved?)
    ensures path == "/insert" && r.status != 200 ==> r == Response(500, Message(DBError))
    ensures path == "/query" ==> r == Response(200, DataMessage(SuccessfulInsert))
    ensures path != "/insert" && path != "/query" ==> r == Response(404, Message(PageNotFound))
  {
    if path == "/insert" then
      if InsertResult(PatientsOf(body), exec).Some? then Response(200, DataMessage(SuccessfulInsert))
      else Response(500, Message(DBError))
    else if path == "/query" then
      var result := RunQuery(SqlOf(body), exec);
      if TruthyNumber(NumericProperty(result, "errono")) then SqlErrorResponse(result)
      else Response(200, DataMessage(SuccessfulInsert))
    else
      Response(404, Message(PageNotFound))
  }

  /** The request callback of `startServer` with the dispatch of `handleRequest`. */
  function Serve(req: Request, exec: Option<string> -> Outcome): (r: Response)
    ensures req.verb == "OPTIONS" ==> r == Response(204, Empty)
    ensures req.verb !in {"OPTIONS", "GET", "POST"} ==> r == Response(501, Message(BadRequest))
    ensures req.verb == "GET" ==> r == HandleGet(req.sql, exec)
    ensures req.verb == "POST" ==> r == HandlePost(req.body, req.path, exec)
  {
    if req.verb == "OPTIONS" then Response(204, Empty)
    else if req.verb == "POST" then HandlePost(req.body, req.path, exec)
    else if req.verb == "GET" then HandleGet(req.sql, exec)
    else Response(501, Message(BadRequest))
  }

  /** The same method-dispatch, running the statement builder for `/insert`. */
  method HandleRequest(req: Request, exec: Option<string> -> Outcome) returns (r: Response)
    ensures r == Serve(req, exec)
  {
    if req.verb == "OPTIONS" {
      return Response(204, Empty);
    }
    if req.verb == "POST" {
      if req.path == "/insert" {
        var query, result := InsertPatients(PatientsOf(req.body), exec);
        if result.Some? {
          r := Response(200, DataMessage(SuccessfulInsert));
        } else {
          r := Response(500, Message(DBError));
        }
      } else {
        r := HandlePost(req.body, req.path, exec);
      }
    } else if req.verb == "GET" {
      r := HandleGet(req.sql, exec);
    } else {
      r := Response(501, Message(BadRequest));
    }
  }

  /** GET ignores the path and the body: any path runs the `sql` parameter. */
  lemma GetIgnoresPath(req: Request, path: string, body: JsonBody, exec: Option<string> -> Outcome)
    requires req.verb == "GET"
    ensures Serve(req, exec) == Serve(req.(path := path, body := body), exec)
  {
  }

  /**
   * One driver error, two answers: GET reports it as 400 with the SQL message,
   * while POST `/query` reports success, since no driver value has `errono`.
   */
  lemma SqlErrorOnQueryPath(sql: string, sqlMessage: Option<string>, errno: nat, exec: Option<string> -> Outcome)
    requires sql != "" && errno != 0
    requires exec(Some(sql)) == Rejected(ErrorObject(Some(errno), sqlMessage))
    ensures Serve(Request("GET", "/", Some(sql), PatientList([])), exec) == Response(400, SqlMessage(sqlMessage))
    ensures Serve(Request("POST", "/query", None, QueryObject(Some(sql))), exec) == Response(200, DataMessage(SuccessfulInsert))
  {
  }

  /** A rejection that is not an SQL error (no `errno`) is sent back to a GET as data with status 200. */
  lemma GetReturnsOtherRejections(sql: string, exec: Option<string> -> Outcome)
    requires sql != ""
    requires exec(Some(sql)) == Rejected(ErrorObject(None, None))
    ensures Serve(Request("GET", "/", Some(sql), PatientList([])), exec) == Response(200, DataResult(ErrorObject(None, None)))
  {
  }
}
