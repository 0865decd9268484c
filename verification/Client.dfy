/** How the worker reads shpd's answer to a delivery request (`ShpdClient`). */
module Client {
  import opened Wrappers
  import Json

  /** The structured content of an error text; the wording itself is not modelled. */
  datatype Cause =
    | TimeoutCause
    | NetworkCause
    | Coded(code: Option<Json.Value>, message: Option<Json.Value>)
    | HttpText(status: int, text: string)

  datatype DeliveryResult = DeliveryResult(
    statusCode: int,
    retry: bool,
    messageId: Json.Value,
    error: Option<Cause>,
    idempotentReplay: bool)
  {
    predicate Success() {
      statusCode == 201 && error.None?
    }
  }

  /** `body` is None when the response text is not JSON. */
  datatype Response = Response(status: int, text: string, body: Option<Json.Value>)

  /** What the HTTP call produced: an answer, or one of the two caught exceptions. */
  datatype Wire = TimedOut | TransportFailed | Answered(response: Response)

  /** `send` returns a result or an exception escapes it. */
  datatype SendResult = Returned(result: DeliveryResult) | Raised

  const DEAD_LETTER_STATUSES := {400, 401, 403, 404, 409, 413, 415, 422}

  function Failure(status: int, retry: bool, cause: Cause): DeliveryResult {
    DeliveryResult(status, retry, Json.Null, Some(cause), false)
  }

  /** `parsed_body["error"]` when it is an object, else the raw text. */
  function CauseOf(response: Response): Cause {
    match response.body
    case Some(Object(fields)) =>
      (match Json.Get(fields, "error")
       case Some(Object(err)) => Coded(Json.Get(err, "code"), Json.Get(err, "message"))
       case _ => HttpText(response.status, response.text[..Capped(|response.text|)]))
    case _ => HttpText(response.status, response.text[..Capped(|response.text|)])
  }

  function InterpretFailure(response: Response): DeliveryResult {
    var status := response.status;
    var retry := status !in DEAD_LETTER_STATUSES && status >= 500;
    Failure(status, if 200 <= status < 500 && status != 201 then false else retry, CauseOf(response))
  }

  /** `_interpret`. A truthy body that is not an object has no `get`, and neither has a
      truthy `data` that is not an object: both escape as exceptions. */
  function Interpret(response: Response): SendResult {
    match response.body
    case None => Returned(InterpretFailure(response))
    case Some(body) =>
      if !Json.Truthy(body) then Returned(InterpretFailure(response))
      else if !body.Object? then Raised
      else if response.status == 201 && Json.TruthyField(body.fields, "success") then
        if !Json.TruthyField(body.fields, "data") then
          Returned(DeliveryResult(201, false, Json.Null, None, false))
        else
          match Json.Get(body.fields, "data").value
          case Object(data) =>
            var id := Json.Get(data, "message_id");
            Returned(DeliveryResult(201, false, if id.Some? then id.value else Json.Null, None,
                                    Json.TruthyField(data, "idempotent_replay")))
          case _ => Raised
      else Returned(InterpretFailure(response))
  }

  /** The outcome of `send` for everything the transport can produce. */
  function Receive(wire: Wire): SendResult {
    match wire
    case TimedOut => Returned(Failure(0, true, TimeoutCause))
    case TransportFailed => Returned(Failure(0, true, NetworkCause))
    case Answered(response) => Interpret(response)
  }

  /** The body is an object that has `v` under `key`. */
  predicate BodyHolds(response: Response, key: string, v: Json.Value) {
    response.body.Some? && response.body.value.Object? && Json.Holds(response.body.value.fields, key, v)
  }

  /** shpd said "created" and said so in the body. */
  predicate Confirmed(response: Response) {
    && response.status == 201 && response.body.Some? && response.body.value.Object?
    && var fields := response.body.value.fields;
    exists i :: 0 <= i < |fields| && Json.FirstField(fields, "success", i) && Json.Truthy(fields[i].1)
  }

  /** The `data` object of the body has `v` under `key`. */
  predicate DataHolds(response: Response, key: string, v: Json.Value) {
    && response.body.Some? && response.body.value.Object?
    && var fields := response.body.value.fields;
    exists i :: 0 <= i < |fields| && Json.FirstField(fields, "data", i)
                && fields[i].1.Object? && Json.Holds(fields[i].1.fields, key, v)
  }

  /** The answer carries this id. */
  predicate Reports(response: Response, id: Json.Value) {
    DataHolds(response, "message_id", id)
  }

  /** The three verdicts on an answer, and exactly when each is reached. Only a confirmed
      201 delivers; only a server error retries, so 408, 429 and every other 2xx, 3xx or
      4xx are final; nothing is both delivered and retried. */
  lemma Verdicts(response: Response)
    ensures var r := Interpret(response);
            r.Returned? ==>
              && (r.result.Success() <==> Confirmed(response))
              && (r.result.retry <==> response.status >= 500)
              && (r.result.Success() ==> !r.result.retry)
  {
    ConfirmedIs(response);
    hide Confirmed;
  }

  /** An exception escapes exactly for a truthy JSON body that is not an object, and for a
      confirmed answer whose `data` is truthy and not an object. */
  lemma RaisesIff(response: Response)
    ensures Interpret(response).Raised? <==>
              response.body.Some? && Json.Truthy(response.body.value)
              && (!response.body.value.Object?
                  || (Confirmed(response) && Json.TruthyField(response.body.value.fields, "data")
                      && !Json.Get(response.body.value.fields, "data").value.Object?))
  {
    ConfirmedIs(response);
    hide Confirmed;
  }

  /** The transport retries exactly when no answer arrived or the server failed. */
  lemma RetryableOutcomes(wire: Wire)
    ensures var r := Receive(wire);
            r.Returned? ==>
              (r.result.retry <==> !wire.Answered? || wire.response.status >= 500)
              && (r.result.Success() <==> wire.Answered? && Confirmed(wire.response))
  {
    if wire.Answered? {
      Verdicts(wire.response);
    }
    hide Confirmed, Interpret;
  }

  lemma ConfirmedIs(response: Response)
    ensures Confirmed(response) <==>
              response.status == 201 && response.body.Some? && response.body.value.Object?
              && Json.TruthyField(response.body.value.fields, "success")
  {
    if response.body.Some? && response.body.value.Object? {
      var fields := response.body.value.fields;
      if Json.TruthyField(fields, "success") {
        var i := Json.GetFinds(fields, "success");
        Json.GetAt(fields, "success", i);
      }
      if Confirmed(response) {
        var i :| 0 <= i < |fields| && Json.FirstField(fields, "success", i) && Json.Truthy(fields[i].1);
        Json.GetAt(fields, "success", i);
      }
    }
  }

  /** The id a delivery records is the one the answer carries. */
  lemma ReportedId(response: Response, id: Json.Value)
    requires Confirmed(response) && Reports(response, id)
    ensures Interpret(response).Returned? && Interpret(response).result.Success()
    ensures Interpret(response).result.messageId == id
  {
    ConfirmedIs(response);
    var data := HeldData(response, "message_id", id);
    hide *;
    ConfirmedResult(response, data, id);
  }

  lemma ConfirmedResult(response: Response, data: seq<(string, Json.Value)>, id: Json.Value)
    requires response.status == 201 && response.body.Some? && response.body.value.Object?
    requires Json.TruthyField(response.body.value.fields, "success")
    requires Json.Get(response.body.value.fields, "data") == Some(Json.Object(data)) && data != []
    requires Json.Get(data, "message_id") == Some(id)
    ensures Interpret(response).Returned? && Interpret(response).result.Success()
    ensures Interpret(response).result.messageId == id
  {
    assert response.body.value.fields != [];
    hide Json.Get;
  }

  /** And there is none exactly when the answer carries none, or null. */
  lemma NoReportedId(response: Response)
    requires Confirmed(response) && Interpret(response).Returned?
    ensures Interpret(response).result.messageId == Json.Null <==>
              forall id | Reports(response, id) :: id == Json.Null
  {
    ConfirmedIs(response);
    if exists id :: Reports(response, id) {
      var id :| Reports(response, id);
      ReportedId(response, id);
    }
    if Interpret(response).result.messageId != Json.Null {
      var id := Interpret(response).result.messageId;
      var data := Json.Get(response.body.value.fields, "data").value;
      DataIsHeld(response, data, "message_id", id);
      assert Reports(response, id);
    }
  }

  /** A delivery counts as a replay exactly when the answer says so. */
  lemma ReplayTold(response: Response)
    requires Confirmed(response) && Interpret(response).Returned?
    ensures Interpret(response).result.idempotentReplay <==>
            exists v :: DataHolds(response, "idempotent_replay", v) && Json.Truthy(v)
  {
    ConfirmedIs(response);
    hide Confirmed;
    var fields := response.body.value.fields;
    if Interpret(response).result.idempotentReplay {
      var data := Json.Get(fields, "data").value;
      var v := Json.Get(data.fields, "idempotent_replay").value;
      hide Json.Get, Interpret;
      DataIsHeld(response, data, "idempotent_replay", v);
    }
    if exists v :: DataHolds(response, "idempotent_replay", v) && Json.Truthy(v) {
      var v :| DataHolds(response, "idempotent_replay", v) && Json.Truthy(v);
      var data := HeldData(response, "idempotent_replay", v);
      hide Json.Get, DataHolds;
      assert Json.TruthyField(fields, "data") && Json.TruthyField(data, "idempotent_replay");
    }
  }

  lemma DataIsHeld(response: Response, data: Json.Value, key: string, v: Json.Value)
    requires response.body.Some? && response.body.value.Object? && data.Object?
    requires Json.Get(response.body.value.fields, "data") == Some(data) && Json.Get(data.fields, key) == Some(v)
    ensures DataHolds(response, key, v)
  {
    var fields := response.body.value.fields;
    var i := Json.GetFinds(fields, "data");
    Json.GetAt(fields, "data", i);
    Json.GetIsField(data.fields, key, v);
    hide Json.Get, Json.Holds;
  }

  lemma HeldData(response: Response, key: string, v: Json.Value) returns (data: seq<(string, Json.Value)>)
    requires DataHolds(response, key, v)
    ensures Json.Get(response.body.value.fields, "data") == Some(Json.Object(data))
    ensures data != [] && Json.Get(data, key) == Some(v)
  {
    var fields := response.body.value.fields;
    var i :| 0 <= i < |fields| && Json.FirstField(fields, "data", i)
             && fields[i].1.Object? && Json.Holds(fields[i].1.fields, key, v);
    data := fields[i].1.fields;
    Json.GetAt(fields, "data", i);
    Json.GetIsField(data, key, v);
    assert data != [];
  }

  function Capped(n: nat): (r: nat)
    ensures r <= n && r <= 2000 && (r == n || r == 2000)
  {
    if n < 2000 then n else 2000
  }

  /** The code and the message of an `error` object, as far as it has them. */
  ghost predicate CodedAs(err: seq<(string, Json.Value)>, cause: Cause) {
    && cause.Coded?
    && (forall v :: cause.code == Some(v) <==> Json.Holds(err, "code", v))
    && (forall v :: cause.message == Some(v) <==> Json.Holds(err, "message", v))
  }

  /** The cause a failure is recorded with: the timeout, the failed transport, the `error`
      object of the answer, or else its status and at most the first 2000 characters of it. */
  ghost predicate Tells(wire: Wire, cause: Cause) {
    match wire
    case TimedOut => cause == TimeoutCause
    case TransportFailed => cause == NetworkCause
    case Answered(response) =>
      && (forall err | BodyHolds(response, "error", Json.Object(err)) :: CodedAs(err, cause))
      && ((forall err :: !BodyHolds(response, "error", Json.Object(err))) ==>
            cause == HttpText(response.status, response.text[..Capped(|response.text|)]))
  }

  lemma CauseTold(response: Response)
    requires Interpret(response).Returned? && !Confirmed(response)
    ensures var r := Interpret(response).result;
            r.statusCode == response.status && r.error.Some? && Tells(Answered(response), r.error.value)
  {
    ConfirmedIs(response);
    var r := Interpret(response).result;
    assert r == InterpretFailure(response);
    hide Confirmed, Interpret;
    if response.body.Some? && response.body.value.Object? {
      var e := Json.Get(response.body.value.fields, "error");
      if e.Some? && e.value.Object? {
        Json.GetIsField(response.body.value.fields, "error", e.value);
        assert BodyHolds(response, "error", e.value);
      }
      forall err | BodyHolds(response, "error", Json.Object(err))
        ensures CodedAs(err, r.error.value)
      {
        Json.GetIsField(response.body.value.fields, "error", Json.Object(err));
        CodeIsHeld(err);
      }
    }
  }

  lemma CodeIsHeld(err: seq<(string, Json.Value)>)
    ensures CodedAs(err, Coded(Json.Get(err, "code"), Json.Get(err, "message")))
  {
    forall v
      ensures Json.Get(err, "code") == Some(v) <==> Json.Holds(err, "code", v)
      ensures Json.Get(err, "message") == Some(v) <==> Json.Holds(err, "message", v)
    {
      Json.GetIsField(err, "code", v);
      Json.GetIsField(err, "message", v);
    }
  }

  /** A result has the status of the answer, 0 without one, and unless it delivers, the cause. */
  lemma ResultTells(wire: Wire)
    requires Receive(wire).Returned?
    ensures Receive(wire).result.statusCode == if wire.Answered? then wire.response.status else 0
    ensures Receive(wire).result.error.None? <==> wire.Answered? && Confirmed(wire.response)
    ensures Receive(wire).result.error.Some? ==> Tells(wire, Receive(wire).result.error.value)
  {
    if wire.Answered? {
      ConfirmedIs(wire.response);
      if !Confirmed(wire.response) {
        CauseTold(wire.response);
      }
    }
    hide Confirmed, BodyHolds, CodedAs;
  }
}
