/** The in-memory account registry: an insertion-ordered list of account
    records, searched linearly by account number. */
module Registry {
  import opened JsValue
  import opened StrategyCatalog

  datatype Option<T> = None | Some(value: T)

  /** The ten scalar fields a static sync copies verbatim from its request
      body. Each is whatever value the client sent, `Undefined` when absent. */
  datatype Profile = Profile(
    accessToken: Value,
    tradingMode: Value,
    maxLoss: Value,
    strategyType: Value,
    accountType: Value,
    accountCurrency: Value,
    accountCompany: Value,
    leverage: Value,
    accountName: Value,
    tradeAllowed: Value)

  /** One dynamic metrics snapshot; `time` is the server's clock reading in
      milliseconds when the request arrived. */
  datatype AccountUpdate = AccountUpdate(
    time: nat,
    balance: Value,
    equity: Value,
    margin: Value,
    freeMargin: Value,
    marginLevel: Value,
    profit: Value)

  /** An account record: its key, its latest profile, and two append-only
      histories. */
  datatype Account = Account(
    number: string,
    profile: Profile,
    updates: seq<AccountUpdate>,
    strategies: seq<Strategy>)

  type Registry = seq<Account>

  /** Some record carries this account number. */
  predicate Known(reg: Registry, key: string) {
    exists i :: 0 <= i < |reg| && reg[i].number == key
  }

  /** `Array.prototype.find` by account number: the position of the FIRST
      record carrying `key`, or None when there is none. */
  function FindIndex(reg: Registry, key: string): (r: Option<nat>)
    ensures r.Some? ==> r.value < |reg| && reg[r.value].number == key
    ensures r.Some? ==> forall j :: 0 <= j < r.value ==> reg[j].number != key
    ensures r.None? <==> !Known(reg, key)
    decreases |reg|
  {
    if |reg| == 0 then None
    else if reg[0].number == key then Some(0)
    else
      match FindIndex(reg[1..], key)
      case None => None
      case Some(i) => Some(i + 1)
  }

  /** The position `find` resolves a known account number to. */
  function IndexOf(reg: Registry, key: string): (i: nat)
    requires Known(reg, key)
    ensures i < |reg| && reg[i].number == key
  {
    FindIndex(reg, key).value
  }

  /** No two records share an account number. */
  predicate Unique(reg: Registry) {
    forall i, j :: 0 <= i < j < |reg| ==> reg[i].number != reg[j].number
  }

  /** The registry invariant every handler keeps: account numbers are unique,
      every record was created by a static sync (so it holds at least one
      strategy) and its strategy type passed that sync's string check. */
  predicate WellFormed(reg: Registry) {
    && Unique(reg)
    && forall i :: 0 <= i < |reg| ==>
         |reg[i].strategies| > 0 && IsRequiredString(reg[i].profile.strategyType)
  }

  /** With unique account numbers, `find` returns THE record with that
      number, whichever position it sits at. */
  lemma FindUnique(reg: Registry, key: string, i: nat)
    requires Unique(reg)
    requires i < |reg| && reg[i].number == key
    ensures FindIndex(reg, key) == Some(i)
  {
  }

  /** The histories of `a'` extend those of `a` and the key is kept. */
  predicate RecordExtends(a: Account, a': Account) {
    && a'.number == a.number
    && |a.updates| <= |a'.updates| && a'.updates[..|a.updates|] == a.updates
    && |a.strategies| <= |a'.strategies| && a'.strategies[..|a.strategies|] == a.strategies
  }

  /** `reg'` is a possible later state of `reg`: no record is dropped or
      moved, no key changes, and both histories of every record are only
      appended to. Profiles are free to change. */
  predicate Extends(reg: Registry, reg': Registry) {
    && |reg| <= |reg'|
    && forall i :: 0 <= i < |reg| ==> RecordExtends(reg[i], reg'[i])
  }

  lemma ExtendsTransitive(r1: Registry, r2: Registry, r3: Registry)
    requires Extends(r1, r2) && Extends(r2, r3)
    ensures Extends(r1, r3)
  {
  }

  /** The account numbers present in the registry. */
  function Numbers(reg: Registry): set<string> {
    set i | 0 <= i < |reg| :: reg[i].number
  }

  /** With unique keys the registry holds one record per account number, so
      its length is the number of distinct accounts. */
  lemma {:induction false} UniqueCount(reg: Registry)
    requires Unique(reg)
    ensures |Numbers(reg)| == |reg|
  {
    if |reg| > 0 {
      var n := |reg| - 1;
      var init := reg[..n];
      assert Unique(init);
      UniqueCount(init);
      assert Numbers(reg) == Numbers(init) + {reg[n].number} by {
        forall k | k in Numbers(reg) ensures k in Numbers(init) + {reg[n].number} {
          var i :| 0 <= i < |reg| && reg[i].number == k;
          if i < n { assert init[i].number == k; }
        }
        forall k | k in Numbers(init) ensures k in Numbers(reg) {
          var i :| 0 <= i < |init| && init[i].number == k;
          assert reg[i].number == k;
        }
      }
      assert reg[n].number !in Numbers(init);
    }
  }
}
