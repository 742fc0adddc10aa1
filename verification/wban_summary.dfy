/**
 * The wBAN summary card (`src/components/cards/wban-summary/card.tsx`):
 * the accounts whose balances it asks for, how the status flags of its two
 * queries combine, and what each network's row shows.
 *
 * Amounts are `real`s: the comparisons and `|| 0` fallbacks are modelled
 * exactly, number formatting and NaN are not. The network list is a
 * parameter, since the module defining it is not part of this model.
 */
module WbanSummary {
  import opened Wrappers

  /** A wBAN network: its chain name and the cold and hot wallets backing it. */
  datatype Network = Network(chain: string, coldWallet: string, hotWallet: string)

  /** One account of the balance query. */
  datatype AccountQuery = AccountQuery(address: string, isMine: bool)

  /** `wbanBalanceQueryInput.accounts`: every cold wallet in network order, then every hot wallet. */
  function QueryAccounts(networks: seq<Network>): (r: seq<AccountQuery>)
    ensures |r| == 2 * |networks|
    ensures forall i :: 0 <= i < |r| ==> !r[i].isMine
    ensures forall i :: 0 <= i < |networks| ==>
              r[i].address == networks[i].coldWallet && r[|networks| + i].address == networks[i].hotWallet
  {
    seq(|networks|, (i: int) requires 0 <= i < |networks| => AccountQuery(networks[i].coldWallet, false))
    + seq(|networks|, (i: int) requires 0 <= i < |networks| => AccountQuery(networks[i].hotWallet, false))
  }

  /** Every address asked for is a wallet of some network, and every wallet is asked for. */
  lemma QueryAccountsCoverWallets(networks: seq<Network>, address: string)
    ensures (exists i :: 0 <= i < |QueryAccounts(networks)| && QueryAccounts(networks)[i].address == address)
            <==> exists n :: n in networks && (n.coldWallet == address || n.hotWallet == address)
  {
    var r := QueryAccounts(networks);
    var m := |networks|;
    if exists i :: 0 <= i < |r| && r[i].address == address {
      var i :| 0 <= i < |r| && r[i].address == address;
      if i < m {
        assert networks[i] in networks;
      } else {
        assert networks[i - m] in networks;
      }
    }
    if exists n :: n in networks && (n.coldWallet == address || n.hotWallet == address) {
      var n :| n in networks && (n.coldWallet == address || n.hotWallet == address);
      var i :| 0 <= i < m && networks[i] == n;
      if n.coldWallet == address {
        assert r[i].address == address;
      } else {
        assert r[m + i].address == address;
      }
    }
  }

  // =====================================================================
  // Query status
  // =====================================================================

  /** The status flags of a query. */
  datatype QueryStatus = QueryStatus(isError: bool, isLoadingError: bool, isPending: bool, isRefetching: bool)

  /** The card's flags: each is set when either query's flag is set. */
  function Combine(a: QueryStatus, b: QueryStatus): (r: QueryStatus)
    ensures r.isError <==> a.isError || b.isError
    ensures r.isLoadingError <==> a.isLoadingError || b.isLoadingError
    ensures r.isPending <==> a.isPending || b.isPending
    ensures r.isRefetching <==> a.isRefetching || b.isRefetching
  {
    QueryStatus(a.isError || b.isError, a.isLoadingError || b.isLoadingError,
                a.isPending || b.isPending, a.isRefetching || b.isRefetching)
  }

  const Settled := QueryStatus(false, false, false, false)

  /** Combining does not depend on which query is which, and a settled query adds nothing. */
  lemma CombineLaws(a: QueryStatus, b: QueryStatus)
    ensures Combine(a, b) == Combine(b, a)
    ensures Combine(a, Settled) == a
    ensures Combine(a, a) == a
  {
  }

  // =====================================================================
  // Rows
  // =====================================================================

  /** A balance record from the balance query. */
  datatype Balance = Balance(address: string, balance: real, receivable: real)

  /** `balances?.find((i) => i.address === address)`. */
  function FindByAddress(balances: Option<seq<Balance>>, address: string): (r: Option<Balance>)
    ensures r.Some? <==> balances.Some? && exists i :: 0 <= i < |balances.value| && balances.value[i].address == address
    ensures r.Some? ==> exists i :: 0 <= i < |balances.value| && balances.value[i] == r.value && r.value.address == address
                                     && forall j :: 0 <= j < i ==> balances.value[j].address != address
  {
    match balances
    case None => None
    case Some(s) => FirstWithAddress(s, address)
  }

  function FirstWithAddress(s: seq<Balance>, address: string): (r: Option<Balance>)
    ensures r.Some? <==> exists i :: 0 <= i < |s| && s[i].address == address
    ensures r.Some? ==> exists i :: 0 <= i < |s| && s[i] == r.value && r.value.address == address
                                     && forall j :: 0 <= j < i ==> s[j].address != address
  {
    if |s| == 0 then None
    else if s[0].address == address then Some(s[0])
    else
      var r := FirstWithAddress(s[1..], address);
      if r.Some? then
        var i :| 0 <= i < |s[1..]| && s[1..][i] == r.value && r.value.address == address
                 && forall j :: 0 <= j < i ==> s[1..][j].address != address;
        assert s[i + 1] == r.value;
        r
      else r
  }

  /** `x || 0` for an optional amount. */
  function OrZero(x: Option<real>): real
  {
    x.GetOr(0.0)
  }

  /**
   * `data-warning`: the pending withdrawals of a network exceed what its hot
   * wallet holds, judged only when both figures are known.
   */
  predicate Warning(pendingAmount: Option<real>, hot: Option<Balance>) {
    pendingAmount.Some? && hot.Some? && pendingAmount.value > hot.value.balance
  }

  /** What one network's row shows. */
  datatype Row = Row(chain: string, coldBalance: real, coldReceivable: real,
                     hotBalance: real, hotReceivable: real, pending: real, warning: bool)

  function BalanceOf(b: Option<Balance>): Option<real>
  {
    if b.Some? then Some(b.value.balance) else None
  }

  function ReceivableOf(b: Option<Balance>): Option<real>
  {
    if b.Some? then Some(b.value.receivable) else None
  }

  /**
   * The row of `network`: the first balance records of its cold and hot
   * wallets and its chain's pending amount, each shown as 0 when missing.
   */
  function NetworkRow(network: Network, balances: Option<seq<Balance>>, pending: Option<map<string, real>>): (r: Row)
    ensures var cold := FindByAddress(balances, network.coldWallet);
            var hot := FindByAddress(balances, network.hotWallet);
            && r.chain == network.chain
            && (cold.None? ==> r.coldBalance == 0.0 && r.coldReceivable == 0.0)
            && (cold.Some? ==> r.coldBalance == cold.value.balance && r.coldReceivable == cold.value.receivable)
            && (hot.None? ==> r.hotBalance == 0.0 && r.hotReceivable == 0.0)
            && (hot.Some? ==> r.hotBalance == hot.value.balance && r.hotReceivable == hot.value.receivable)
            && (r.pending == if pending.Some? && network.chain in pending.value then pending.value[network.chain] else 0.0)
            && (r.warning <==> pending.Some? && network.chain in pending.value && hot.Some?
                               && pending.value[network.chain] > hot.value.balance)
  {
    var cold := FindByAddress(balances, network.coldWallet);
    var hot := FindByAddress(balances, network.hotWallet);
    var amount := if pending.Some? && network.chain in pending.value then Some(pending.value[network.chain]) else None;
    Row(network.chain, OrZero(BalanceOf(cold)), OrZero(ReceivableOf(cold)),
        OrZero(BalanceOf(hot)), OrZero(ReceivableOf(hot)), OrZero(amount), Warning(amount, hot))
  }

  /** The card's rows, one per network, in network order. */
  function Rows(networks: seq<Network>, balances: Option<seq<Balance>>, pending: Option<map<string, real>>): (r: seq<Row>)
    ensures |r| == |networks|
    ensures forall i :: 0 <= i < |r| ==> r[i] == NetworkRow(networks[i], balances, pending)
  {
    seq(|networks|, (i: int) requires 0 <= i < |networks| => NetworkRow(networks[i], balances, pending))
  }

  /**
   * A warned row shows a pending amount above the shown hot balance; an
   * unwarned row with a known hot wallet and a known pending amount shows
   * it at or below.
   */
  lemma WarningMatchesShownFigures(network: Network, balances: Option<seq<Balance>>, pending: Option<map<string, real>>)
    ensures var r := NetworkRow(network, balances, pending);
            && (r.warning ==> r.pending > r.hotBalance)
            && ((!r.warning && FindByAddress(balances, network.hotWallet).Some?
                 && pending.Some? && network.chain in pending.value) ==> r.pending <= r.hotBalance)
  {
  }

  /**
   * Without a balance record for the hot wallet there is no warning, even
   * though the row then shows a hot balance of 0 next to a positive pending
   * amount.
   */
  lemma NoWarningWithoutHotWallet(network: Network, balances: Option<seq<Balance>>, pending: Option<map<string, real>>)
    requires FindByAddress(balances, network.hotWallet).None?
    ensures var r := NetworkRow(network, balances, pending);
            !r.warning && r.hotBalance == 0.0
  {
  }

  /** `hasData`, passed to the card's indicator: both queries have answered with data. */
  function HasData(balances: Option<seq<Balance>>, pending: Option<map<string, real>>): (r: bool)
    ensures r <==> balances.Some? && pending.Some?
  {
    balances.Some? && pending.Some?
  }

  /** A row can only warn once both queries have data. */
  lemma WarningNeedsData(networks: seq<Network>, balances: Option<seq<Balance>>, pending: Option<map<string, real>>)
    ensures (exists i :: 0 <= i < |networks| && Rows(networks, balances, pending)[i].warning) ==> HasData(balances, pending)
  {
  }

  /** Before either query answers, every row shows zeros and no warning. */
  lemma RowsBeforeData(networks: seq<Network>)
    ensures forall r :: r in Rows(networks, None, None) ==>
              r.coldBalance == 0.0 && r.hotBalance == 0.0 && r.pending == 0.0 && !r.warning
  {
  }
}
