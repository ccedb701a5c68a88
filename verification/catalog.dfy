/** The deterministic strategy catalog: a strategy label is mapped to a fixed
    bundle of trading parameters, stamped with the current time. */
module StrategyCatalog {

  const ShortTermGain: string := "short term gain"
  const LongTermGain: string := "long term gain"

  /** Every bundle the catalog produces is of this kind. */
  const Scalping: string := "scalping"

  const OneHour: nat := 3600
  const ThirtyDays: nat := 86400 * 30

  /** Strategy details as appended to an account and echoed to the client.
      Times are milliseconds since the epoch (their ISO-8601 rendering is not
      modelled); `validity` is in seconds. `kind` is the source's `type`. */
  datatype Strategy = Strategy(
    creationTimestamp: nat,
    kind: string,
    validity: nat,
    expiryDate: nat,
    targetProfit: nat,
    maxLoss: nat,
    maxPing: nat,
    maxSlippage: nat,
    stopLoss: nat,
    takeProfit: nat)

  /** What every catalog entry promises: it is a scalping strategy with a
      positive validity window, and it expires exactly that window after it was
      created. */
  predicate Consistent(s: Strategy) {
    && s.kind == Scalping
    && s.validity > 0
    && s.expiryDate == s.creationTimestamp + s.validity * 1000
  }

  /** The three branches of the catalog's exact-match switch. */
  datatype Branch = ShortTerm | LongTerm | Fallback

  function BranchOf(strategyType: string): Branch {
    if strategyType == ShortTermGain then ShortTerm
    else if strategyType == LongTermGain then LongTerm
    else Fallback
  }

  /** `determineStrategyDetails`, with the clock reading passed in as `now`.
      Total: no label is refused. */
  function Determine(strategyType: string, now: nat): (s: Strategy)
    ensures Consistent(s)
    ensures s.creationTimestamp == now
  {
    match BranchOf(strategyType)
    case ShortTerm =>
      Strategy(now, Scalping, OneHour, now + OneHour * 1000,
               1000, 500, 100, 10, 15, 50)
    case LongTerm =>
      Strategy(now, Scalping, ThirtyDays, now + ThirtyDays * 1000,
               5000, 2000, 200, 20, 30, 100)
    case Fallback =>
      Strategy(now, Scalping, ThirtyDays, now + ThirtyDays * 1000,
               500, 200, 150, 15, 10, 25)
  }

  /** Recovers the branch a catalog strategy came from, by its target profit
      alone: the three bundles are told apart by that one parameter. */
  function BranchOfStrategy(s: Strategy): Branch {
    if s.targetProfit == 1000 then ShortTerm
    else if s.targetProfit == 5000 then LongTerm
    else Fallback
  }

  /** The short-term bundle: one hour, 1000 profit target, 500 max loss,
      10 points of slippage. */
  lemma ShortTermBundle(now: nat)
    ensures var s := Determine(ShortTermGain, now);
      && s.validity == 3600 && s.expiryDate == now + 3_600_000
      && s.targetProfit == 1000 && s.maxLoss == 500 && s.maxPing == 100
      && s.maxSlippage == 10 && s.stopLoss == 15 && s.takeProfit == 50
  {
  }

  /** The long-term bundle: thirty days, 5000 profit target. */
  lemma LongTermBundle(now: nat)
    ensures var s := Determine(LongTermGain, now);
      && s.validity == 2_592_000 && s.expiryDate == now + 2_592_000_000
      && s.targetProfit == 5000 && s.maxLoss == 2000 && s.maxPing == 200
      && s.maxSlippage == 20 && s.stopLoss == 30 && s.takeProfit == 100
  {
  }

  /** Any other label, including the empty string and labels that differ only
      in case or spacing, gets the default bundle. */
  lemma FallbackBundle(strategyType: string, now: nat)
    requires strategyType != ShortTermGain && strategyType != LongTermGain
    ensures var s := Determine(strategyType, now);
      && s.validity == 2_592_000 && s.expiryDate == now + 2_592_000_000
      && s.targetProfit == 500 && s.maxLoss == 200 && s.maxPing == 150
      && s.maxSlippage == 15 && s.stopLoss == 10 && s.takeProfit == 25
  {
  }

  /** The catalog bundle identifies its branch: reading the branch back from a
      generated strategy gives the branch its label selected. */
  lemma BranchRoundTrip(strategyType: string, now: nat)
    ensures BranchOfStrategy(Determine(strategyType, now)) == BranchOf(strategyType)
  {
  }

  /** Two labels yield the same bundle at the same instant exactly when they
      select the same branch; in particular all unknown labels are
      indistinguishable. */
  lemma SameBundleIffSameBranch(type1: string, type2: string, now: nat)
    ensures Determine(type1, now) == Determine(type2, now) <==> BranchOf(type1) == BranchOf(type2)
  {
  }

  /** Only the two time stamps depend on the clock: generating later by `d`
      milliseconds shifts creation and expiry by `d` and nothing else. */
  lemma TimeShift(strategyType: string, now: nat, d: nat)
    ensures var s := Determine(strategyType, now);
      Determine(strategyType, now + d)
        == s.(creationTimestamp := s.creationTimestamp + d, expiryDate := s.expiryDate + d)
  {
  }
}
