/** The service as a whole: requests dispatched to their handler one at a
    time (the single-threaded event loop makes each handler atomic), and the
    invariants that hold over any sequence of requests. */
module Service {
  import opened JsValue
  import opened StrategyCatalog
  import opened Registry
  import opened Handlers

  /** The four routes, with their path parameter and body. */
  datatype Request =
    | PostSync(body: Body)                                  // POST /api/sync
    | PostDynamicSync(accountNumber: string, body: Body)    // POST /api/sync/:accountNumber
    | GetStrategy(accountNumber: string)                    // GET /api/strategy/:accountNumber
    | GetAccounts                                           // GET /api/accounts

  /** A request together with the server clock (milliseconds) when it ran. */
  datatype Event = Event(request: Request, now: nat)

  function Handle(reg: Registry, e: Event): Step {
    match e.request
    case PostSync(body) => SyncStatic(reg, body, e.now)
    case PostDynamicSync(number, body) => SyncDynamic(reg, number, body, e.now)
    case GetStrategy(number) => RetrieveStrategy(reg, number)
    case GetAccounts => ListAccounts(reg)
  }

  /** The registry after handling `evs` in order, starting from `reg`. */
  function Run(reg: Registry, evs: seq<Event>): Registry
    decreases |evs|
  {
    if |evs| == 0 then reg else Run(Handle(reg, evs[0]).registry, evs[1..])
  }

  // --------------------------------------------------------- single-step facts

  /** Every refused request (400 or 404) leaves the registry as it was, and so
      do both read-only routes whatever they answer. */
  lemma RejectedLeavesStateUnchanged(reg: Registry, e: Event)
    ensures Handle(reg, e).response.status != 200 ==> Handle(reg, e).registry == reg
    ensures e.request.GetStrategy? || e.request.GetAccounts? ==> Handle(reg, e).registry == reg
  {
  }

  /** Only a valid static sync of an unseen account number grows the
      registry, and then by exactly one record. */
  lemma OnlyNewAccountsGrow(reg: Registry, e: Event)
    ensures |Handle(reg, e).registry| ==
      if e.request.PostSync? && ValidStaticRequest(e.request.body)
         && !Known(reg, NumberOf(e.request.body))
      then |reg| + 1 else |reg|
  {
  }

  /** Every handler only appends: no record is dropped, moved or re-keyed,
      and no update or strategy is removed or rewritten. */
  lemma HandleExtends(reg: Registry, e: Event)
    ensures Extends(reg, Handle(reg, e).registry)
  {
  }

  /** Every handler keeps account numbers unique, keeps at least one strategy
      in every record, and keeps every stored strategy type a non-empty
      string. */
  lemma HandlePreservesWellFormed(reg: Registry, e: Event)
    requires WellFormed(reg)
    ensures WellFormed(Handle(reg, e).registry)
  {
  }

  // ------------------------------------------------------------ run invariants

  lemma {:induction false} RunPreservesWellFormed(reg: Registry, evs: seq<Event>)
    requires WellFormed(reg)
    ensures WellFormed(Run(reg, evs))
    decreases |evs|
  {
    if |evs| > 0 {
      HandlePreservesWellFormed(reg, evs[0]);
      RunPreservesWellFormed(Handle(reg, evs[0]).registry, evs[1..]);
    }
  }

  /** Starting from the empty registry, any request sequence leaves a
      well-formed registry: in particular `account_number` stays unique. */
  lemma ReachableIsWellFormed(evs: seq<Event>)
    ensures WellFormed(Run([], evs))
  {
    RunPreservesWellFormed([], evs);
  }

  /** Across any request sequence the registry and both per-account histories
      are append-only. */
  lemma {:induction false} RunExtends(reg: Registry, evs: seq<Event>)
    ensures Extends(reg, Run(reg, evs))
    decreases |evs|
  {
    if |evs| > 0 {
      var mid := Handle(reg, evs[0]).registry;
      HandleExtends(reg, evs[0]);
      RunExtends(mid, evs[1..]);
      ExtendsTransitive(reg, mid, Run(mid, evs[1..]));
    }
  }

  // ------------------------------------------------------- account numbers seen

  /** The account number a request registers, if it is an accepted static sync. */
  function SyncedNumber(e: Event): set<string> {
    if e.request.PostSync? && ValidStaticRequest(e.request.body)
    then {NumberOf(e.request.body)} else {}
  }

  /** Every account number accepted by a static sync in `evs`. */
  function SyncedNumbers(evs: seq<Event>): set<string>
    decreases |evs|
  {
    if |evs| == 0 then {} else SyncedNumber(evs[0]) + SyncedNumbers(evs[1..])
  }

  /** A request adds to the set of known account numbers exactly the number
      it syncs, if any. */
  lemma HandleNumbers(reg: Registry, e: Event)
    ensures Numbers(Handle(reg, e).registry) == Numbers(reg) + SyncedNumber(e)
  {
  }

  lemma {:induction false} RunNumbers(reg: Registry, evs: seq<Event>)
    ensures Numbers(Run(reg, evs)) == Numbers(reg) + SyncedNumbers(evs)
    decreases |evs|
  {
    if |evs| > 0 {
      HandleNumbers(reg, evs[0]);
      RunNumbers(Handle(reg, evs[0]).registry, evs[1..]);
    }
  }

  /** From an empty start, `GET /api/accounts` lists one record per distinct
      account number ever accepted by a static sync, and its count says so. */
  lemma ListingCountsSyncedAccounts(evs: seq<Event>)
    ensures ListAccounts(Run([], evs)).response.payload.count == |SyncedNumbers(evs)|
  {
    var reg := Run([], evs);
    ReachableIsWellFormed(evs);
    RunNumbers([], evs);
    assert Numbers([]) == {};
    UniqueCount(reg);
  }

  /** The account listing right after a valid static sync shows that account
      with every profile field exactly as the body carried it, arrays and
      objects included; a field the body lacked is listed as `Undefined`. */
  lemma ListingEchoesSyncedProfile(reg: Registry, body: Body, now: nat)
    requires ValidStaticRequest(body)
    ensures var listed := ListAccounts(SyncStatic(reg, body, now).registry).response.payload.accounts;
      exists i :: 0 <= i < |listed| && listed[i].number == NumberOf(body)
        && listed[i].profile == ProfileOf(body)
        && listed[i].profile.accessToken == Field(body, "access_token")
        && ("leverage" !in body ==> listed[i].profile.leverage == Undefined)
  {
    var reg' := SyncStatic(reg, body, now).registry;
    var i := if Known(reg, NumberOf(body)) then IndexOf(reg, NumberOf(body)) else |reg|;
    assert reg'[i].number == NumberOf(body);
  }

  // -------------------------------------------------------------- retrieval

  /** Right after a successful static sync, strategy retrieval for the same
      account returns the strategy that sync produced, under the strategy type
      that sync stored. No invariant is needed: `find` resolves to the same
      record both times. */
  lemma RetrieveAfterSync(reg: Registry, body: Body, now: nat)
    requires ValidStaticRequest(body)
    ensures var synced := SyncStatic(reg, body, now);
      RetrieveStrategy(synced.registry, NumberOf(body)).response
        == Ok(LastStrategyBody(Field(body, "strategy_type"), Determine(StrategyTypeOf(body), now)))
  {
  }

  /** In a well-formed registry every record holds a strategy, so retrieval
      answers 404 exactly for unknown account numbers. */
  lemma RetrieveFailsIffUnknown(reg: Registry, number: string)
    requires WellFormed(reg)
    ensures RetrieveStrategy(reg, number).response.status == 404 <==> !Known(reg, number)
  {
  }

  // -------------------------------------------------------------- validation

  /** Any one falsy metric, a legitimate 0 included, makes the dynamic sync a
      400 that changes nothing, whichever account it names. */
  lemma FalsyMetricRejected(reg: Registry, number: string, body: Body, now: nat, k: nat)
    requires k < |DynamicFields| && !Truthy(Field(body, DynamicFields[k]))
    ensures SyncDynamic(reg, number, body, now) == Step(reg, Response(400, ErrorBody(InvalidDynamicData)))
  {
  }

  /** Example: a zero balance is refused although every other metric is
      present (index.js:108). */
  lemma ZeroBalanceRejected(reg: Registry, now: nat)
    ensures var body := map["balance" := Num(0.0), "equity" := Num(100.0), "margin" := Num(1.0),
                            "free_margin" := Num(1.0), "margin_level" := Num(1.0), "profit" := Num(1.0)];
      SyncDynamic(reg, "A1", body, now).response.status == 400
  {
    var body := map["balance" := Num(0.0), "equity" := Num(100.0), "margin" := Num(1.0),
                    "free_margin" := Num(1.0), "margin_level" := Num(1.0), "profit" := Num(1.0)];
    FalsyMetricRejected(reg, "A1", body, now, 0);
  }

  // ------------------------------------------------------------ chronology

  predicate Chronological(u: seq<AccountUpdate>) {
    forall i, j :: 0 <= i < j < |u| ==> u[i].time <= u[j].time
  }

  /** Every history is in time order and no snapshot is later than `t`. */
  predicate Timely(reg: Registry, t: nat) {
    forall i :: 0 <= i < |reg| ==>
      && Chronological(reg[i].updates)
      && forall k :: 0 <= k < |reg[i].updates| ==> reg[i].updates[k].time <= t
  }

  /** The clock readings of `evs` never go backwards, starting from `t`. */
  predicate ClockFrom(t: nat, evs: seq<Event>)
    decreases |evs|
  {
    |evs| == 0 || (t <= evs[0].now && ClockFrom(evs[0].now, evs[1..]))
  }

  function LastClock(t: nat, evs: seq<Event>): nat {
    if |evs| == 0 then t else evs[|evs| - 1].now
  }

  lemma HandleTimely(reg: Registry, t: nat, e: Event)
    requires Timely(reg, t) && t <= e.now
    ensures Timely(Handle(reg, e).registry, e.now)
  {
  }

  /** While the server clock does not go backwards, every account's snapshot
      history stays in time order: each new snapshot is no older than the one
      before it. */
  lemma {:induction false} RunKeepsChronology(reg: Registry, t: nat, evs: seq<Event>)
    requires Timely(reg, t) && ClockFrom(t, evs)
    ensures Timely(Run(reg, evs), LastClock(t, evs))
    decreases |evs|
  {
    if |evs| > 0 {
      HandleTimely(reg, t, evs[0]);
      RunKeepsChronology(Handle(reg, evs[0]).registry, evs[0].now, evs[1..]);
      assert LastClock(evs[0].now, evs[1..]) == LastClock(t, evs);
    }
  }
}
