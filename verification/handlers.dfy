/** The four request handlers of the service, each a pure transition from the
    registry (plus the request and the clock reading) to a new registry and a
    response. */
module Handlers {
  import opened JsValue
  import opened StrategyCatalog
  import opened Registry

  const InvalidData: string := "Invalid data received"
  const InvalidDynamicData: string := "Invalid dynamic data received"
  const AccountNotFound: string := "Account not found"
  const NoStrategy: string := "Account not found or no strategy available"
  const DynamicReceived: string := "Dynamic data received successfully"

  /** The JSON object a handler answers with. */
  datatype Payload =
    | ErrorBody(error: string)                                   // { error }
    | StrategyBody(strategy: Strategy)                           // { strategy }
    | MessageBody(message: string)                               // { message }
    | LastStrategyBody(strategyType: Value, lastStrategy: Strategy)
    | AccountsBody(count: nat, accounts: Registry)

  datatype Response = Response(status: nat, payload: Payload)

  /** The registry after the request, together with the response sent. */
  datatype Step = Step(registry: Registry, response: Response)

  function Ok(p: Payload): Response { Response(200, p) }

  // ---------------------------------------------------------------- static sync

  /** `POST /api/sync` accepts a body whose account number and strategy type
      are both truthy strings. */
  predicate ValidStaticRequest(body: Body) {
    && IsRequiredString(Field(body, "account_number"))
    && IsRequiredString(Field(body, "strategy_type"))
  }

  function NumberOf(body: Body): string
    requires ValidStaticRequest(body)
  {
    Field(body, "account_number").s
  }

  function StrategyTypeOf(body: Body): string
    requires ValidStaticRequest(body)
  {
    Field(body, "strategy_type").s
  }

  /** The ten scalar fields copied from a sync body; a field the body lacks
      becomes `Undefined`. */
  function ProfileOf(body: Body): Profile {
    Profile(
      Field(body, "access_token"),
      Field(body, "trading_mode"),
      Field(body, "max_loss"),
      Field(body, "strategy_type"),
      Field(body, "account_type"),
      Field(body, "account_currency"),
      Field(body, "account_company"),
      Field(body, "leverage"),
      Field(body, "account_name"),
      Field(body, "trade_allowed"))
  }

  /** `POST /api/sync`: upsert the account by number, overwrite its profile,
      and append (and return) a catalog strategy for the requested type. */
  function SyncStatic(reg: Registry, body: Body, now: nat): (out: Step)
    // a malformed body is refused and nothing changes
    ensures out.response.status == 400 <==> !ValidStaticRequest(body)
    ensures !ValidStaticRequest(body) ==>
      out.registry == reg && out.response.payload == ErrorBody(InvalidData)
    // otherwise the response carries the catalog strategy for the requested type
    ensures ValidStaticRequest(body) ==>
      out.response == Ok(StrategyBody(Determine(StrategyTypeOf(body), now)))
    // an unseen account is appended at the end, with no updates and exactly
    // the returned strategy
    ensures ValidStaticRequest(body) && !Known(reg, NumberOf(body)) ==>
      && |out.registry| == |reg| + 1
      && out.registry[..|reg|] == reg
      && out.registry[|reg|].number == NumberOf(body)
      && out.registry[|reg|].profile == ProfileOf(body)
      && out.registry[|reg|].updates == []
      && out.registry[|reg|].strategies == [out.response.payload.strategy]
    // a known account keeps its place, key and updates; its profile is
    // overwritten, one strategy is appended, and no other record changes
    ensures ValidStaticRequest(body) && Known(reg, NumberOf(body)) ==>
      var i := IndexOf(reg, NumberOf(body));
      && |out.registry| == |reg|
      && (forall j :: 0 <= j < |reg| && j != i ==> out.registry[j] == reg[j])
      && out.registry[i].number == reg[i].number
      && out.registry[i].profile == ProfileOf(body)
      && out.registry[i].updates == reg[i].updates
      && out.registry[i].strategies == reg[i].strategies + [out.response.payload.strategy]
  {
    if !ValidStaticRequest(body) then
      Step(reg, Response(400, ErrorBody(InvalidData)))
    else
      var key := NumberOf(body);
      var strategy := Determine(StrategyTypeOf(body), now);
      var reg' :=
        match FindIndex(reg, key)
        case None =>
          reg + [Account(key, ProfileOf(body), [], [strategy])]
        case Some(i) =>
          reg[i := reg[i].(profile := ProfileOf(body),
                           strategies := reg[i].strategies + [strategy])];
      Step(reg', Ok(StrategyBody(strategy)))
  }

  // --------------------------------------------------------------- dynamic sync

  /** The six metrics a dynamic sync must carry, in the order they are checked. */
  const DynamicFields: seq<string> :=
    ["balance", "equity", "margin", "free_margin", "margin_level", "profit"]

  /** `POST /api/sync/:accountNumber` needs all six metrics truthy; a metric
      that is 0 (or missing, null, NaN, false, "") is refused. */
  predicate ValidDynamicRequest(body: Body) {
    forall k :: 0 <= k < |DynamicFields| ==> Truthy(Field(body, DynamicFields[k]))
  }

  /** The snapshot recorded for a dynamic body received at `now`. */
  function UpdateOf(body: Body, now: nat): AccountUpdate {
    AccountUpdate(
      now,
      Field(body, "balance"),
      Field(body, "equity"),
      Field(body, "margin"),
      Field(body, "free_margin"),
      Field(body, "margin_level"),
      Field(body, "profit"))
  }

  /** `POST /api/sync/:accountNumber`: validate the metrics, then append a
      snapshot to the account's history. Validation comes first, so a bad body
      for an unknown account is a 400, not a 404. */
  function SyncDynamic(reg: Registry, number: string, body: Body, now: nat): (out: Step)
    ensures out.response.status == 400 <==> !ValidDynamicRequest(body)
    ensures out.response.status == 404 <==> ValidDynamicRequest(body) && !Known(reg, number)
    ensures out.response.status == 200 <==> ValidDynamicRequest(body) && Known(reg, number)
    ensures out.response.status != 200 ==> out.registry == reg
    ensures out.response.status == 400 ==> out.response.payload == ErrorBody(InvalidDynamicData)
    ensures out.response.status == 404 ==> out.response.payload == ErrorBody(AccountNotFound)
    ensures out.response.status == 200 ==> out.response.payload == MessageBody(DynamicReceived)
    ensures ValidDynamicRequest(body) && Known(reg, number) ==>
      var i := IndexOf(reg, number);
      && |out.registry| == |reg|
      && (forall j :: 0 <= j < |reg| && j != i ==> out.registry[j] == reg[j])
      && out.registry[i].number == reg[i].number
      && out.registry[i].profile == reg[i].profile
      && out.registry[i].strategies == reg[i].strategies
      && |out.registry[i].updates| == |reg[i].updates| + 1
      && out.registry[i].updates[..|reg[i].updates|] == reg[i].updates
      && out.registry[i].updates[|reg[i].updates|] == UpdateOf(body, now)
  {
    if !ValidDynamicRequest(body) then
      Step(reg, Response(400, ErrorBody(InvalidDynamicData)))
    else
      match FindIndex(reg, number)
      case Some(i) =>
        var a := reg[i];
        Step(reg[i := a.(updates := a.updates + [UpdateOf(body, now)])],
             Ok(MessageBody(DynamicReceived)))
      case None =>
        Step(reg, Response(404, ErrorBody(AccountNotFound)))
  }

  // ---------------------------------------------------------- strategy retrieval

  /** `GET /api/strategy/:accountNumber`: the account's current strategy type
      and its most recently appended strategy. */
  function RetrieveStrategy(reg: Registry, number: string): (out: Step)
    ensures out.registry == reg
    ensures out.response.status == 200 || out.response.status == 404
    ensures out.response.status == 404 <==>
      !Known(reg, number) || |reg[IndexOf(reg, number)].strategies| == 0
    ensures out.response.status == 404 ==> out.response.payload == ErrorBody(NoStrategy)
    ensures out.response.status == 200 ==>
      && Known(reg, number)
      && var a := reg[IndexOf(reg, number)];
         && |a.strategies| > 0
         && out.response.payload
              == LastStrategyBody(a.profile.strategyType, a.strategies[|a.strategies| - 1])
  {
    match FindIndex(reg, number)
    case Some(i) =>
      var a := reg[i];
      if |a.strategies| > 0 then
        Step(reg, Ok(LastStrategyBody(a.profile.strategyType, a.strategies[|a.strategies| - 1])))
      else
        Step(reg, Response(404, ErrorBody(NoStrategy)))
    case None =>
      Step(reg, Response(404, ErrorBody(NoStrategy)))
  }

  // ------------------------------------------------------------- account listing

  /** `GET /api/accounts`: every record, in insertion order, with the count. */
  function ListAccounts(reg: Registry): (out: Step)
    ensures out.registry == reg
    ensures out.response.status == 200
    ensures out.response.payload.AccountsBody?
    ensures out.response.payload.count == |out.response.payload.accounts| == |reg|
    ensures forall i :: 0 <= i < |reg| ==> out.response.payload.accounts[i] == reg[i]
  {
    Step(reg, Ok(AccountsBody(|reg|, reg)))
  }
}
