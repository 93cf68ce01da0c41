/**
 * Swap form warnings (src/features/transactions/swap/validate.tsx): the
 * rules that turn the derived swap state into an ordered list of warnings,
 * each with a label, a severity and the action the UI takes.
 */
module SwapValidate {
  import W = Wrappers

  /**
   * An exact fraction as the SDK's Percent and CurrencyAmount hold it;
   * comparisons cross-multiply, as the SDK's Fraction does.
   */
  datatype Fraction = Fraction(numerator: int, denominator: int)

  predicate LessThan(a: Fraction, b: Fraction) {
    a.numerator * b.denominator < b.numerator * a.denominator
  }

  predicate GreaterThan(a: Fraction, b: Fraction) {
    a.numerator * b.denominator > b.numerator * a.denominator
  }

  const PriceImpactThresholdMedium := Fraction(3, 100)
  const PriceImpactThresholdHigh := Fraction(5, 100)

  datatype CurrencyField = Input | Output

  /** A token; only its presence matters to the rules. */
  datatype Currency = Currency(symbol: string)

  datatype AccountType = SignerMnemonic | Readonly
  datatype Account = Account(accountType: AccountType)

  /** The routing API's error code: "no route" or any other code. */
  datatype ErrorCode = SwapNoRouteError | OtherErrorCode
  /** A routing error; `errorCode` is absent when the error carries no data. */
  datatype TradeError = TradeError(errorCode: W.Option<ErrorCode>)
  datatype Trade = Trade(priceImpact: Fraction)
  datatype TradeState = TradeState(trade: W.Option<Trade>, error: W.Option<TradeError>)

  /** The part of the derived swap state the rules read; a missing map key is `undefined`. */
  datatype SwapInfo = SwapInfo(
    account: W.Option<Account>,
    currencyBalances: map<CurrencyField, Fraction>,
    currencyAmounts: map<CurrencyField, Fraction>,
    currencies: map<CurrencyField, Currency>,
    exactCurrencyField: CurrencyField,
    trade: TradeState)

  datatype WarningLabel =
    InsufficientFunds | LowLiquidity | SwapRouterError | FormIncomplete
    | PriceImpactMedium | PriceImpactHigh | ViewOnlyAccount
  datatype WarningSeverity = None | Medium | High
  datatype WarningAction = DisableReview | WarnBeforeSubmit | DisableSubmit

  /** A warning; its translated title and message are not modelled. */
  datatype Warning = Warning(kind: WarningLabel, severity: WarningSeverity, action: WarningAction)

  /** formIncomplete: a currency is missing, or the amount on the exact side is. */
  function IsFormIncomplete(state: SwapInfo): (r: bool)
    ensures r <==> Input !in state.currencies || Output !in state.currencies
                   || state.exactCurrencyField !in state.currencyAmounts
  {
    Input !in state.currencies
    || Output !in state.currencies
    || (state.exactCurrencyField == Input && Input !in state.currencyAmounts)
    || (state.exactCurrencyField == Output && Output !in state.currencyAmounts)
  }

  predicate BalanceInsufficient(state: SwapInfo) {
    Input in state.currencyAmounts && Input in state.currencyBalances
    && LessThan(state.currencyBalances[Input], state.currencyAmounts[Input])
  }

  function PriceImpact(state: SwapInfo): W.Option<Fraction> {
    if state.trade.trade.Some? then W.Some(state.trade.trade.value.priceImpact) else W.None
  }

  /** The router warning for a trade error: no route means low liquidity. */
  function RouterWarning(error: TradeError): Warning {
    if error.errorCode == W.Some(SwapNoRouteError)
    then Warning(LowLiquidity, Medium, DisableReview)
    else Warning(SwapRouterError, Medium, DisableReview)
  }

  /** The price-impact warning for an impact above the medium threshold. */
  function PriceImpactWarning(priceImpact: Fraction): Warning {
    var highImpact := !LessThan(priceImpact, PriceImpactThresholdHigh);
    Warning(
      if highImpact then PriceImpactHigh else PriceImpactMedium,
      if highImpact then High else Medium,
      WarnBeforeSubmit)
  }

  /**
   * The position of a label's rule in the fixed order funds (0), router (1),
   * form (2), price impact (3), view-only (4).
   */
  function Rank(kind: WarningLabel): nat {
    match kind
    case InsufficientFunds => 0
    case LowLiquidity => 1
    case SwapRouterError => 1
    case FormIncomplete => 2
    case PriceImpactMedium => 3
    case PriceImpactHigh => 3
    case ViewOnlyAccount => 4
  }

  /** What rule number `rule` contributes: at most one warning, of that rule's labels. */
  function RuleWarnings(state: SwapInfo, rule: nat): (ws: seq<Warning>)
    requires rule < 5
    ensures |ws| <= 1
    ensures forall i :: 0 <= i < |ws| ==> Rank(ws[i].kind) == rule
  {
    match rule
    case 0 =>
      if BalanceInsufficient(state) then [Warning(InsufficientFunds, None, DisableReview)] else []
    case 1 =>
      if state.trade.error.Some? then [RouterWarning(state.trade.error.value)] else []
    case 2 =>
      if IsFormIncomplete(state) then [Warning(FormIncomplete, None, DisableReview)] else []
    case 3 =>
      var impact := PriceImpact(state);
      if impact.Some? && GreaterThan(impact.value, PriceImpactThresholdMedium)
      then [PriceImpactWarning(impact.value)] else []
    case _ =>
      if state.account.Some? && state.account.value.accountType == Readonly
      then [Warning(ViewOnlyAccount, Medium, DisableSubmit)] else []
  }

  /** The warnings of a swap state: the rules' contributions in rule order. */
  function SwapWarnings(state: SwapInfo): seq<Warning> {
    RuleWarnings(state, 0) + RuleWarnings(state, 1) + RuleWarnings(state, 2)
    + RuleWarnings(state, 3) + RuleWarnings(state, 4)
  }

  /** getSwapWarnings: pushes one warning per rule that fires. */
  method GetSwapWarnings(state: SwapInfo) returns (warnings: seq<Warning>)
    ensures warnings == SwapWarnings(state)
  {
    warnings := [];
    var priceImpact := PriceImpact(state);

    var currencyBalanceIn := if Input in state.currencyBalances then W.Some(state.currencyBalances[Input]) else W.None;
    var currencyAmountIn := if Input in state.currencyAmounts then W.Some(state.currencyAmounts[Input]) else W.None;
    var swapBalanceInsufficient :=
      currencyAmountIn.Some? && currencyBalanceIn.Some? && LessThan(currencyBalanceIn.value, currencyAmountIn.value);
    if swapBalanceInsufficient {
      warnings := warnings + [Warning(InsufficientFunds, None, DisableReview)];
    }
    assert warnings == RuleWarnings(state, 0);

    if state.trade.error.Some? {
      if state.trade.error.value.errorCode == W.Some(SwapNoRouteError) {
        warnings := warnings + [Warning(LowLiquidity, Medium, DisableReview)];
      } else {
        warnings := warnings + [Warning(SwapRouterError, Medium, DisableReview)];
      }
    }
    assert warnings == RuleWarnings(state, 0) + RuleWarnings(state, 1);

    if IsFormIncomplete(state) {
      warnings := warnings + [Warning(FormIncomplete, None, DisableReview)];
    }
    assert warnings == RuleWarnings(state, 0) + RuleWarnings(state, 1) + RuleWarnings(state, 2);

    if priceImpact.Some? && GreaterThan(priceImpact.value, PriceImpactThresholdMedium) {
      var highImpact := !LessThan(priceImpact.value, PriceImpactThresholdHigh);
      warnings := warnings + [Warning(
        if highImpact then PriceImpactHigh else PriceImpactMedium,
        if highImpact then High else Medium,
        WarnBeforeSubmit)];
    }
    assert warnings == RuleWarnings(state, 0) + RuleWarnings(state, 1) + RuleWarnings(state, 2)
                       + RuleWarnings(state, 3);

    if state.account.Some? && state.account.value.accountType == Readonly {
      warnings := warnings + [Warning(ViewOnlyAccount, Medium, DisableSubmit)];
    }
  }

  /** The first warning with the given label, if any. */
  function WarningFor(warnings: seq<Warning>, kind: WarningLabel): (r: W.Option<Warning>)
    ensures r.Some? ==> r.value in warnings && r.value.kind == kind
    ensures r.None? <==> forall i :: 0 <= i < |warnings| ==> warnings[i].kind != kind
  {
    if warnings == [] then W.None
    else if warnings[0].kind == kind then W.Some(warnings[0])
    else WarningFor(warnings[1..], kind)
  }

  lemma {:induction false} WarningForConcat(a: seq<Warning>, b: seq<Warning>, kind: WarningLabel)
    ensures WarningFor(a + b, kind) == if WarningFor(a, kind).Some? then WarningFor(a, kind) else WarningFor(b, kind)
  {
    if a == [] {
      assert a + b == b;
    } else {
      assert (a + b)[1..] == a[1..] + b;
      WarningForConcat(a[1..], b, kind);
    }
  }

  /**
   * Rules do not interfere: the warning a label gets in the whole list is
   * the one its own rule produces, whatever the other rules do.
   */
  lemma {:induction false} OnlyOwnRuleDecides(state: SwapInfo, kind: WarningLabel)
    ensures Rank(kind) < 5
    ensures WarningFor(SwapWarnings(state), kind) == WarningFor(RuleWarnings(state, Rank(kind)), kind)
  {
    var r0, r1, r2, r3, r4 := RuleWarnings(state, 0), RuleWarnings(state, 1), RuleWarnings(state, 2),
                              RuleWarnings(state, 3), RuleWarnings(state, 4);
    assert SwapWarnings(state) == r0 + (r1 + (r2 + (r3 + r4)));
    WarningForConcat(r3, r4, kind);
    WarningForConcat(r2, r3 + r4, kind);
    WarningForConcat(r1, r2 + (r3 + r4), kind);
    WarningForConcat(r0, r1 + (r2 + (r3 + r4)), kind);
  }

  /** InsufficientFunds (None / DisableReview) appears iff the input balance is below the input amount. */
  lemma InsufficientFundsIff(state: SwapInfo)
    ensures WarningFor(SwapWarnings(state), InsufficientFunds) ==
      if Input in state.currencyAmounts && Input in state.currencyBalances
         && LessThan(state.currencyBalances[Input], state.currencyAmounts[Input])
      then W.Some(Warning(InsufficientFunds, None, DisableReview)) else W.None
  {
    OnlyOwnRuleDecides(state, InsufficientFunds);
  }

  /**
   * A trade error gives exactly one router warning, LowLiquidity for "no
   * route" and SwapRouterError otherwise, both Medium / DisableReview; no
   * trade error gives neither.
   */
  lemma RouterWarningIff(state: SwapInfo)
    ensures var noRoute := state.trade.error.Some? && state.trade.error.value.errorCode == W.Some(SwapNoRouteError);
      var otherError := state.trade.error.Some? && !noRoute;
      && WarningFor(SwapWarnings(state), LowLiquidity) ==
           (if noRoute then W.Some(Warning(LowLiquidity, Medium, DisableReview)) else W.None)
      && WarningFor(SwapWarnings(state), SwapRouterError) ==
           (if otherError then W.Some(Warning(SwapRouterError, Medium, DisableReview)) else W.None)
  {
    OnlyOwnRuleDecides(state, LowLiquidity);
    OnlyOwnRuleDecides(state, SwapRouterError);
  }

  /** FormIncomplete (None / DisableReview) appears iff the form is incomplete. */
  lemma FormIncompleteIff(state: SwapInfo)
    ensures WarningFor(SwapWarnings(state), FormIncomplete) ==
      if Input !in state.currencies || Output !in state.currencies
         || state.exactCurrencyField !in state.currencyAmounts
      then W.Some(Warning(FormIncomplete, None, DisableReview)) else W.None
  {
    OnlyOwnRuleDecides(state, FormIncomplete);
  }

  /**
   * For a price impact n/d with d > 0: no warning up to 3% inclusive,
   * Medium strictly between 3% and 5%, High from 5% inclusive; the action
   * is always WarnBeforeSubmit.
   */
  lemma PriceImpactBands(state: SwapInfo, n: int, d: int)
    requires state.trade.trade == W.Some(Trade(Fraction(n, d))) && d > 0
    ensures var medium := WarningFor(SwapWarnings(state), PriceImpactMedium);
      var high := WarningFor(SwapWarnings(state), PriceImpactHigh);
      && (100 * n <= 3 * d ==> medium.None? && high.None?)
      && (3 * d < 100 * n < 5 * d ==> medium == W.Some(Warning(PriceImpactMedium, Medium, WarnBeforeSubmit)) && high.None?)
      && (5 * d <= 100 * n ==> medium.None? && high == W.Some(Warning(PriceImpactHigh, High, WarnBeforeSubmit)))
  {
    OnlyOwnRuleDecides(state, PriceImpactMedium);
    OnlyOwnRuleDecides(state, PriceImpactHigh);
  }

  /** No trade, no price-impact warning. */
  lemma NoTradeNoPriceImpactWarning(state: SwapInfo)
    requires state.trade.trade.None?
    ensures WarningFor(SwapWarnings(state), PriceImpactMedium).None?
    ensures WarningFor(SwapWarnings(state), PriceImpactHigh).None?
  {
    OnlyOwnRuleDecides(state, PriceImpactMedium);
    OnlyOwnRuleDecides(state, PriceImpactHigh);
  }

  /** The thresholds themselves: exactly 3% warns nothing, exactly 5% is High. */
  lemma PriceImpactAtThresholds(state: SwapInfo, k: int)
    requires k > 0
    ensures state.trade.trade == W.Some(Trade(Fraction(3 * k, 100 * k))) ==>
      WarningFor(SwapWarnings(state), PriceImpactMedium).None? && WarningFor(SwapWarnings(state), PriceImpactHigh).None?
    ensures state.trade.trade == W.Some(Trade(Fraction(5 * k, 100 * k))) ==>
      WarningFor(SwapWarnings(state), PriceImpactHigh).Some?
  {
    if state.trade.trade == W.Some(Trade(Fraction(3 * k, 100 * k))) {
      PriceImpactBands(state, 3 * k, 100 * k);
    }
    if state.trade.trade == W.Some(Trade(Fraction(5 * k, 100 * k))) {
      PriceImpactBands(state, 5 * k, 100 * k);
    }
  }

  /** ViewOnlyAccount (Medium / DisableSubmit) appears iff the account is read-only. */
  lemma ViewOnlyAccountIff(state: SwapInfo)
    ensures WarningFor(SwapWarnings(state), ViewOnlyAccount) ==
      if state.account == W.Some(Account(Readonly))
      then W.Some(Warning(ViewOnlyAccount, Medium, DisableSubmit)) else W.None
  {
    OnlyOwnRuleDecides(state, ViewOnlyAccount);
  }

  /**
   * The warnings come in rule order with no rule twice, so no label repeats
   * and there are at most five.
   */
  lemma WarningsOrdered(state: SwapInfo)
    ensures var ws := SwapWarnings(state);
      && |ws| <= 5
      && (forall i, j :: 0 <= i < j < |ws| ==> Rank(ws[i].kind) < Rank(ws[j].kind))
      && (forall i, j :: 0 <= i < j < |ws| ==> ws[i].kind != ws[j].kind)
  {
  }
}
