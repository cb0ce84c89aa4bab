/** The ledger of owned assets (the assets table): one row per asset with its
    income metadata and its unit holdings in each account kind. */
module Assets {
  import opened Results

  /** The five account kinds an asset can be held in. */
  datatype Account = Sdrsp | LockedSdrsp | Margin | Tfsa | Resp

  /** One value per account kind: unit counts in the ledger, income amounts in the reports. */
  datatype PerAccount<T> = PerAccount(sdrsp: T, lockedSdrsp: T, margin: T, tfsa: T, resp: T)
  {
    function Get(a: Account): T
    {
      match a
      case Sdrsp => sdrsp
      case LockedSdrsp => lockedSdrsp
      case Margin => margin
      case Tfsa => tfsa
      case Resp => resp
    }

    /** The same values, except that account `a` now holds `v`. */
    function With(a: Account, v: T): (r: PerAccount<T>)
      ensures r.Get(a) == v
      ensures forall b :: b != a ==> r.Get(b) == Get(b)
    {
      match a
      case Sdrsp => this.(sdrsp := v)
      case LockedSdrsp => this.(lockedSdrsp := v)
      case Margin => this.(margin := v)
      case Tfsa => this.(tfsa := v)
      case Resp => this.(resp := v)
    }
  }

  /** Months between two income payments; the assets table always holds a positive count. */
  type Months = n: int | 1 <= n witness 1

  /** A row of the assets table. `incomePerUnit` is the income paid per unit at each
      payment; `firstMonth` is the first calendar month (1..12) in which a payment occurs. */
  datatype Asset = Asset(
    name: string,
    market: string,
    kind: string,
    subtype: string,
    incomePerUnit: real,
    units: PerAccount<int>,
    freqMonths: Months,
    firstMonth: int,
    dayOfMonth: int)

  /** The assets table, in file order. */
  type Ledger = seq<Asset>

  /** The row an asset name selects: the first row carrying that name, if any. */
  function IndexOf(L: Ledger, name: string): (r: Option<nat>)
    ensures r.None? <==> forall j :: 0 <= j < |L| ==> L[j].name != name
    ensures r.Some? ==> r.value < |L| && L[r.value].name == name
    ensures r.Some? ==> forall j :: 0 <= j < r.value ==> L[j].name != name
  {
    if |L| == 0 then None
    else if L[0].name == name then Some(0)
    else match IndexOf(L[1..], name)
      case None => None
      case Some(k) => Some(k + 1)
  }

  /** The units of asset `name` held in account `a`, or None for an unknown asset. */
  function Balance(L: Ledger, name: string, a: Account): Option<int>
  {
    match IndexOf(L, name)
    case None => None
    case Some(i) => Some(L[i].units.Get(a))
  }

  /** `L'` has the same rows as `L`, except that in row `i` the unit counts of the
      accounts in `changed` may differ; every other field of every row is kept. */
  ghost predicate UnitsFrame(L: Ledger, L': Ledger, i: nat, changed: set<Account>)
  {
    && |L'| == |L|
    && i < |L|
    && (forall j :: 0 <= j < |L| && j != i ==> L'[j] == L[j])
    && L'[i].(units := L[i].units) == L[i]
    && (forall a :: a !in changed ==> L'[i].units.Get(a) == L[i].units.Get(a))
  }

  /** Every unit count in the ledger is non-negative. */
  predicate NonNegative(L: Ledger)
  {
    forall j, a :: 0 <= j < |L| ==> L[j].units.Get(a) >= 0
  }

  /** Overwrite the unit count of row `i` in account `a`. */
  function SetUnits(L: Ledger, i: nat, a: Account, v: int): (L': Ledger)
    requires i < |L|
    ensures UnitsFrame(L, L', i, {a})
    ensures L'[i].units.Get(a) == v
  {
    L[i := L[i].(units := L[i].units.With(a, v))]
  }

  /** Overwrite the income per unit of row `i`; holdings and every other row are kept. */
  function SetRate(L: Ledger, i: nat, rate: real): (L': Ledger)
    requires i < |L|
    ensures |L'| == |L|
    ensures forall j :: 0 <= j < |L| && j != i ==> L'[j] == L[j]
    ensures L'[i].(incomePerUnit := L[i].incomePerUnit) == L[i]
    ensures L'[i].incomePerUnit == rate
  {
    L[i := L[i].(incomePerUnit := rate)]
  }

  /** Two ledgers with the same names row by row select the same row for every name. */
  lemma SameNamesSameIndex(L: Ledger, L': Ledger)
    requires |L'| == |L|
    requires forall j :: 0 <= j < |L| ==> L'[j].name == L[j].name
    ensures forall n :: IndexOf(L', n) == IndexOf(L, n)
  {
  }

  /** Rewriting unit counts of one row keeps every other (asset, account) balance and
      every asset's row. */
  lemma UnitsFrameBalances(L: Ledger, L': Ledger, i: nat, changed: set<Account>)
    requires UnitsFrame(L, L', i, changed)
    ensures forall n :: IndexOf(L', n) == IndexOf(L, n)
    ensures forall n, a :: !(n == L[i].name && a in changed) ==> Balance(L', n, a) == Balance(L, n, a)
  {
    forall j | 0 <= j < |L| ensures L'[j].name == L[j].name {
      if j == i {
        assert L'[i].(units := L[i].units).name == L'[i].name;
      }
    }
    SameNamesSameIndex(L, L');
  }
}
