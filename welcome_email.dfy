/**
 * The `send-welcome-email` edge function: answers the CORS preflight, validates the
 * email, inserts it into the waitlist, tries to send a welcome email, marks the row
 * and reports the outcome. `Serve` is the decision chain as a function of the table
 * and of everything the outside world decides (the parsed body, the store's own faults,
 * the mail provider's answer); `Register` runs it step by step against a `Waitlist`.
 */
module WelcomeEmail {
  import opened Wrappers
  import opened WaitlistStore

  /** The request body: not JSON at all, or a JSON object whose `email` field may be absent. */
  datatype Body = Unparseable | Json(email: Option<string>)

  datatype Request = Request(verb: string, body: Body)

  /** What happens on the way to the mail provider. */
  datatype Notifier =
    | NoKey      // RESEND_API_KEY is not configured: nothing is sent
    | SendOk     // the provider answered with an ok status
    | SendNotOk  // the provider answered with an error status
    | SendThrew  // the request to the provider (or reading its error body) threw

  /** Everything a call depends on besides the table and the request. */
  datatype Environment = Environment(insertFault: Option<string>, notifier: Notifier, updateFails: bool)

  datatype ResponseBody =
    | NoBody
    | ErrorJson(error: string)
    | SuccessJson(message: string, id: nat)

  datatype Response = Response(status: nat, headers: map<string, string>, body: ResponseBody)

  /** A store operation the handler issued. */
  datatype StoreCall = InsertCall(email: string) | UpdateFlagCall(id: nat)

  /** Everything one invocation produces: the response, the new table, whether a mail
      send was attempted and the store calls made, in order. */
  datatype Served = Served(response: Response, table: Table, mailAttempted: bool, calls: seq<StoreCall>)

  const CorsHeaders: map<string, string> := map[
    "Access-Control-Allow-Origin" := "*",
    "Access-Control-Allow-Headers" := "authorization, x-client-info, apikey, content-type",
    "Access-Control-Allow-Methods" := "POST, OPTIONS"
  ]

  const JsonHeaders: map<string, string> := CorsHeaders["Content-Type" := "application/json"]

  const MissingEmailError: string := "Email is required"
  const DuplicateError: string := "Email already exists in waitlist"
  const InternalError: string := "Internal server error"
  const SuccessMessage: string := "Successfully added to waitlist and welcome email sent"

  /** The preflight answer: status 200 (the default), the CORS headers, no body. */
  const Preflight: Response := Response(200, CorsHeaders, NoBody)

  function JsonError(status: nat, error: string): Response
  {
    Response(status, JsonHeaders, ErrorJson(error))
  }

  /** JavaScript falsiness of the destructured `email`: undefined or the empty string. */
  predicate Falsy(email: Option<string>): (r: bool)
    ensures !r ==> email.Some? && |email.value| > 0
  {
    email.None? || email.value == ""
  }

  /** Every CORS header is present with its value. */
  predicate CarriesCors(r: Response)
  {
    forall h | h in CorsHeaders :: h in r.headers && r.headers[h] == CorsHeaders[h]
  }

  /** The handler as a function. Only the insert and the flag update touch the table. */
  function Serve(t: Table, req: Request, env: Environment): (r: Served)
    ensures CarriesCors(r.response)
    ensures r.response.status in {200, 400, 409, 500}
    ensures r.response.status != 200 ==> r.table == t && !r.mailAttempted
    ensures r.response.status == 200 && r.response.body.SuccessJson? ==>
      req.body.Json? && req.body.email.Some? && req.body.email.value !in t.rows &&
      r.table.rows.Keys == t.rows.Keys + {req.body.email.value} &&
      r.response.body.id == t.nextId && r.table.rows[req.body.email.value].id == t.nextId
    ensures WellFormed(t) ==> WellFormed(r.table)
  {
    if req.verb == "OPTIONS" then
      Served(Preflight, t, false, [])
    else if req.body.Unparseable? then
      Served(JsonError(500, InternalError), t, false, [])
    else if Falsy(req.body.email) then
      Served(JsonError(400, MissingEmailError), t, false, [])
    else
      var email := req.body.email.value;
      var (ins, t1) := InsertRow(t, email, env.insertFault);
      match ins
      case InsertFailed(code) =>
        if code == UniqueViolation then
          Served(JsonError(409, DuplicateError), t, false, [InsertCall(email)])
        else
          Served(JsonError(500, InternalError), t, false, [InsertCall(email)])
      case Inserted(id) =>
        // The update runs whatever the notifier did, and its failure is only logged.
        var (_, t2) := MarkWelcomeSent(t1, id, env.updateFails);
        Served(Response(200, JsonHeaders, SuccessJson(SuccessMessage, id)),
               t2, env.notifier != NoKey, [InsertCall(email), UpdateFlagCall(id)])
  }

  /**
   * The handler run against a store object: the same chain, with the insert and the
   * flag update performed as writes on `store`.
   */
  method Register(store: Waitlist, req: Request, env: Environment)
    returns (resp: Response, mailAttempted: bool, calls: seq<StoreCall>)
    requires store.Valid()
    modifies store
    ensures store.Valid()
    ensures Served(resp, store.Contents(), mailAttempted, calls) == Serve(old(store.Contents()), req, env)
  {
    mailAttempted, calls := false, [];
    if req.verb == "OPTIONS" {
      resp := Preflight;
      return;
    }
    if req.body.Unparseable? {
      resp := JsonError(500, InternalError);
      return;
    }
    if Falsy(req.body.email) {
      resp := JsonError(400, MissingEmailError);
      return;
    }
    var email := req.body.email.value;
    calls := [InsertCall(email)];
    var ins := store.Insert(email, env.insertFault);
    if ins.InsertFailed? {
      if ins.code == UniqueViolation {
        resp := JsonError(409, DuplicateError);
      } else {
        resp := JsonError(500, InternalError);
      }
      return;
    }
    mailAttempted := env.notifier != NoKey;
    calls := calls + [UpdateFlagCall(ins.id)];
    var _ := store.UpdateWelcomeSent(ins.id, env.updateFails);
    resp := Response(200, JsonHeaders, SuccessJson(SuccessMessage, ins.id));
  }

  // ----- Properties of the handler -----

  /** A preflight is answered with the CORS headers and no body, and touches nothing. */
  lemma PreflightIsInert(t: Table, body: Body, env: Environment)
    ensures Serve(t, Request("OPTIONS", body), env) == Served(Response(200, CorsHeaders, NoBody), t, false, [])
  {
  }

  /** A missing or empty email is a 400 with no store call. */
  lemma MissingEmailRejected(t: Table, verb: string, email: Option<string>, env: Environment)
    requires verb != "OPTIONS" && (email.None? || email == Some(""))
    ensures Serve(t, Request(verb, Json(email)), env)
         == Served(JsonError(400, MissingEmailError), t, false, [])
  {
  }

  /** A body that is not JSON is a 500 with no store call. */
  lemma UnparseableBodyFails(t: Table, verb: string, env: Environment)
    requires verb != "OPTIONS"
    ensures Serve(t, Request(verb, Unparseable), env)
         == Served(JsonError(500, InternalError), t, false, [])
  {
  }

  /** An email already on the list is a 409: no mail, no flag update, table unchanged. */
  lemma DuplicateIsConflict(t: Table, verb: string, email: string, env: Environment)
    requires verb != "OPTIONS" && email != "" && email in t.rows && env.insertFault.None?
    ensures Serve(t, Request(verb, Json(Some(email))), env)
         == Served(JsonError(409, DuplicateError), t, false, [InsertCall(email)])
  {
  }

  /** Any other insert error is a 500; an insert error carrying 23505 is a 409. */
  lemma InsertErrorStatus(t: Table, verb: string, email: string, env: Environment)
    requires verb != "OPTIONS" && email != "" && env.insertFault.Some?
    ensures var r := Serve(t, Request(verb, Json(Some(email))), env);
      r.table == t && !r.mailAttempted && r.calls == [InsertCall(email)] &&
      r.response == if env.insertFault.value == UniqueViolation then JsonError(409, DuplicateError)
                    else JsonError(500, InternalError)
  {
  }

  /**
   * A new email is a 200 carrying the inserted id, and the flag update is attempted
   * after the insert whatever the notifier did; the new row's flag is set unless that
   * update failed.
   */
  lemma NewEmailCreated(t: Table, verb: string, email: string, env: Environment)
    requires WellFormed(t)
    requires verb != "OPTIONS" && email != "" && email !in t.rows && env.insertFault.None?
    ensures var r := Serve(t, Request(verb, Json(Some(email))), env);
      r.response == Response(200, JsonHeaders, SuccessJson(SuccessMessage, t.nextId)) &&
      r.calls == [InsertCall(email), UpdateFlagCall(t.nextId)] &&
      r.mailAttempted == (env.notifier != NoKey) &&
      r.table.nextId == t.nextId + 1 &&
      r.table.rows == t.rows[email := Entry(t.nextId, !env.updateFails)]
  {
  }

  /** What the notifier does never changes the response nor the table. */
  lemma NotifierIrrelevant(t: Table, req: Request, env: Environment, other: Notifier)
    ensures var a, b := Serve(t, req, env), Serve(t, req, env.(notifier := other));
      a.response == b.response && a.table == b.table && a.calls == b.calls
  {
  }

  /** A failed flag update only loses the flag: the response is the same. */
  lemma UpdateFailureKeepsResponse(t: Table, req: Request, env: Environment)
    ensures Serve(t, req, env.(updateFails := true)).response == Serve(t, req, env.(updateFails := false)).response
  {
  }

  // ----- Repetition -----

  /** The statuses of registering `email` once per environment, in order, and the final table. */
  function RegisterEach(t: Table, email: string, envs: seq<Environment>): (r: (seq<nat>, Table))
    ensures |r.0| == |envs|
    decreases |envs|
  {
    if envs == [] then ([], t)
    else
      var s := Serve(t, Request("POST", Json(Some(email))), envs[0]);
      var rest := RegisterEach(s.table, email, envs[1..]);
      ([s.response.status] + rest.0, rest.1)
  }

  predicate NoInsertFaults(envs: seq<Environment>)
  {
    forall i | 0 <= i < |envs| :: envs[i].insertFault.None?
  }

  /** Once an email is on the list, every further registration is a 409 and changes nothing. */
  lemma {:induction false} RepeatedAreConflicts(t: Table, email: string, envs: seq<Environment>)
    requires email != "" && email in t.rows && NoInsertFaults(envs)
    ensures RegisterEach(t, email, envs) == (seq(|envs|, _ => 409), t)
    decreases |envs|
  {
    if envs != [] {
      DuplicateIsConflict(t, "POST", email, envs[0]);
      assert NoInsertFaults(envs[1..]) by {
        forall i | 0 <= i < |envs[1..]| ensures envs[1..][i].insertFault.None? {
          assert envs[1..][i] == envs[i + 1];
        }
      }
      RepeatedAreConflicts(t, email, envs[1..]);
      var s := Serve(t, Request("POST", Json(Some(email))), envs[0]);
      assert s.response.status == 409 && s.table == t;
      assert RegisterEach(t, email, envs).0 == [409] + seq(|envs| - 1, _ => 409);
      assert [409] + seq(|envs| - 1, _ => 409) == seq(|envs|, _ => 409);
    } else {
      assert seq(|envs|, _ => 409) == [];
    }
  }

  /**
   * N registrations of a new email: exactly one 200 (the first) and N-1 409s, and the
   * table ends with exactly one more row, for that email, all other rows untouched.
   */
  lemma {:induction false} RepeatedRegistration(t: Table, email: string, envs: seq<Environment>)
    requires WellFormed(t)
    requires email != "" && email !in t.rows && |envs| >= 1 && NoInsertFaults(envs)
    ensures var r := RegisterEach(t, email, envs);
      r.0 == [200] + seq(|envs| - 1, _ => 409) &&
      r.1.rows == t.rows[email := Entry(t.nextId, !envs[0].updateFails)] &&
      r.1.nextId == t.nextId + 1
  {
    NewEmailCreated(t, "POST", email, envs[0]);
    var s := Serve(t, Request("POST", Json(Some(email))), envs[0]);
    assert NoInsertFaults(envs[1..]) by {
      forall i | 0 <= i < |envs[1..]| ensures envs[1..][i].insertFault.None? {
        assert envs[1..][i] == envs[i + 1];
      }
    }
    RepeatedAreConflicts(s.table, email, envs[1..]);
  }
}
