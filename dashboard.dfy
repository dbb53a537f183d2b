/**
 * The dashboard page: the page's own copies of the pool tables, the
 * filtering and tagging of the fetched pool list, the category tabs, the
 * lock on aggregator pools, the mock login dialog, and the page's copy of
 * the monthly resampler.
 */
module Dashboard {
  import opened Wrappers
  import opened Seqs
  import opened PoolConfig
  import Resampler
  import Calendar

  // ---------------------------------------------------------------------------
  // The page's inline tables
  // ---------------------------------------------------------------------------

  /** `targetPoolIds`, the page's own list of tracked pools. */
  const PageTargetPoolIds: seq<string> := [
    "db678df9-3281-4bc2-a8bb-01160ffd6d48", // aave-v3
    "c1ca08e4-d618-415e-ad63-fcec58705469", // compound-v3
    "8edfdf02-cdbb-43f7-bca6-954e5fe56813", // maple
    "747c1d2a-c668-4682-b9f9-296708a3dd90", // lido
    "80b8bf92-b953-4c20-98ea-c9653ef2bb98", // binance-staked-eth
    "90bfb3c2-5d35-4959-a275-ba5085b08aa3", // stader
    "107fb915-ab29-475b-b526-d0ed0d3e6110", // cian-yield-layer
    "05a3d186-2d42-4e21-b1f0-68c079d22677", // yearn-finance
    "1977885c-d5ae-4c9e-b4df-863b7e1578e6"  // beefy
  ]

  /** `categoryMapping`, the page's own category table. */
  const PageCategoryMapping: map<string, Category> := map[
    "db678df9-3281-4bc2-a8bb-01160ffd6d48" := Lending,
    "c1ca08e4-d618-415e-ad63-fcec58705469" := Lending,
    "8edfdf02-cdbb-43f7-bca6-954e5fe56813" := Lending,
    "747c1d2a-c668-4682-b9f9-296708a3dd90" := LiquidStaking,
    "80b8bf92-b953-4c20-98ea-c9653ef2bb98" := LiquidStaking,
    "90bfb3c2-5d35-4959-a275-ba5085b08aa3" := LiquidStaking,
    "107fb915-ab29-475b-b526-d0ed0d3e6110" := YieldAggregator,
    "05a3d186-2d42-4e21-b1f0-68c079d22677" := YieldAggregator,
    "1977885c-d5ae-4c9e-b4df-863b7e1578e6" := YieldAggregator
  ]

  /** `categories`, the page's tab list. */
  const PageCategories: seq<Category> := [All, Lending, LiquidStaking, YieldAggregator]

  /** The page's copies are the configuration tables, entry for entry. */
  lemma PageTablesAgree()
    ensures PageTargetPoolIds == TargetPoolIds
    ensures PageCategoryMapping == CategoryMapping
    ensures PageCategories == Categories
  {
  }

  // ---------------------------------------------------------------------------
  // Pools
  // ---------------------------------------------------------------------------

  /** A pool record as the page holds it; `category` is absent until the page tags it. */
  datatype Pool = Pool(pool: string, category: Option<Category>, project: string, symbol: string,
                       tvlUsd: Option<real>, apy: Option<real>)

  predicate IsTarget(p: Pool) {
    p.pool in PageTargetPoolIds
  }

  /** `{...pool, category: categoryMapping[pool.pool]}`: every other field is copied. */
  function Tag(p: Pool): Pool {
    p.(category := if p.pool in PageCategoryMapping then Some(PageCategoryMapping[p.pool]) else None)
  }

  /**
   * The fetched list narrowed to the tracked pools, in fetch order, each
   * tagged with its category.
   */
  function TargetPools(api: seq<Pool>): (r: seq<Pool>)
    ensures |r| <= |api|
    ensures forall q :: q in r ==> q.pool in TargetPoolIds && q.category == Some(CategoryMapping[q.pool])
  {
    var kept := Filter(api, IsTarget);
    var r := Map(kept, Tag);
    forall q | q in r ensures q.pool in TargetPoolIds && q.category == Some(CategoryMapping[q.pool]) {
      var i :| 0 <= i < |r| && r[i] == q;
      TaggedTarget(kept[i]);
    }
    r
  }

  /** Tagging a tracked pool replaces its category with the configured one and nothing else. */
  lemma TaggedTarget(p: Pool)
    requires IsTarget(p)
    ensures p.pool in TargetPoolIds && Tag(p) == p.(category := Some(CategoryMapping[p.pool]))
  {
    PageTablesAgree();
    MappingCoversTargets();
  }

  /** Tagging a concatenation tags each part: the order of the fetched list is kept. */
  lemma TargetPoolsAppend(a: seq<Pool>, b: seq<Pool>)
    ensures TargetPools(a + b) == TargetPools(a) + TargetPools(b)
  {
    FilterAppend(a, b, IsTarget);
    MapAppend(Filter(a, IsTarget), Filter(b, IsTarget), Tag);
  }

  /** A single pool survives exactly when it is tracked, with only its category replaced. */
  lemma TargetPoolsSingleton(p: Pool)
    ensures TargetPools([p]) == if p.pool in TargetPoolIds then [p.(category := Some(CategoryMapping[p.pool]))] else []
  {
    FilterSingleton(p, IsTarget);
    PageTablesAgree();
    if IsTarget(p) {
      TaggedTarget(p);
    }
  }

  /** `filteredPools`: the pools shown under the selected tab. */
  function FilteredPools(pools: seq<Pool>, selected: Category): (r: seq<Pool>)
    ensures |r| <= |pools|
    ensures forall q :: q in r <==> q in pools && (selected == All || q.category == Some(selected))
  {
    if selected == All then pools else Filter(pools, InCategory(selected))
  }

  function InCategory(c: Category): Pool -> bool {
    (p: Pool) => p.category == Some(c)
  }

  /** The `All` tab shows the list unchanged. */
  lemma FilteredPoolsAll(pools: seq<Pool>)
    ensures FilteredPools(pools, All) == pools
  {
  }

  /** A category tab keeps the list's order. */
  lemma FilteredPoolsAppend(a: seq<Pool>, b: seq<Pool>, selected: Category)
    ensures FilteredPools(a + b, selected) == FilteredPools(a, selected) + FilteredPools(b, selected)
  {
    if selected != All {
      FilterAppend(a, b, InCategory(selected));
    }
  }

  /** Whether a fetched pool's id is one of the tracked ids of category `c`. */
  function IdIn(c: Category): Pool -> bool {
    (p: Pool) => p.pool in IdsOf(c)
  }

  /**
   * A category tab over the tagged list shows exactly the fetched pools
   * whose id the configuration files under that category, in fetch order.
   */
  lemma {:induction false} TabOfTargets(api: seq<Pool>, c: Category)
    requires c != All
    ensures FilteredPools(TargetPools(api), c) == TargetPools(Filter(api, IdIn(c)))
  {
    if api != [] {
      var init, last := api[..|api| - 1], api[|api| - 1];
      assert api == init + [last];
      TabOfTargets(init, c);
      TargetPoolsAppend(init, [last]);
      FilteredPoolsAppend(TargetPools(init), TargetPools([last]), c);
      TargetPoolsSingleton(last);
      IdsOfCategories();
      MappingCoversTargets();
      assert IdIn(c)(last) <==> last.pool in TargetPoolIds && CategoryMapping[last.pool] == c;
      if IdIn(c)(last) {
        TargetPoolsAppend(Filter(init, IdIn(c)), [last]);
        FilterSingleton(last.(category := Some(c)), InCategory(c));
      } else if last.pool in TargetPoolIds {
        FilterSingleton(last.(category := Some(CategoryMapping[last.pool])), InCategory(c));
        assert TargetPools(Filter(api, IdIn(c))) == TargetPools(Filter(init, IdIn(c)));
      } else {
        assert TargetPools([last]) == [];
        assert TargetPools(Filter(api, IdIn(c))) == TargetPools(Filter(init, IdIn(c)));
      }
    }
  }

  /** `isPoolLocked`: aggregator pools stay locked until a wallet or the mock login connects. */
  predicate IsPoolLocked(p: Pool, isWalletConnected: bool) {
    p.category == Some(YieldAggregator) && !isWalletConnected
  }

  /**
   * The locked pools of a list: none once connected; before that, exactly
   * the pools of the aggregator tab.
   */
  lemma LockedPools(pools: seq<Pool>, isWalletConnected: bool)
    ensures Filter(pools, p => IsPoolLocked(p, isWalletConnected))
            == if isWalletConnected then [] else FilteredPools(pools, YieldAggregator)
  {
    if isWalletConnected {
      FilterKeepsNone(pools, p => IsPoolLocked(p, isWalletConnected));
    } else {
      FilterCongruent(pools, p => IsPoolLocked(p, isWalletConnected), InCategory(YieldAggregator));
    }
  }

  // ---------------------------------------------------------------------------
  // Page state
  // ---------------------------------------------------------------------------

  datatype LoginForm = LoginForm(username: string, password: string)

  const EmptyForm: LoginForm := LoginForm("", "")
  const MockUsername: string := "ArcticFox"
  const MockPassword: string := "arcticfox24"
  const InvalidCredentials: string := "Invalid credentials. Please check username and password."

  /** How the wallet request ended: accepted, refused by the user, or no wallet in the browser. */
  datatype WalletOutcome = Accepted | Refused | NoWallet

  /** The page's state hooks that the pool list and the login dialog change. */
  class DashboardState {
    var pools: seq<Pool>
    var selectedCategory: Category
    var isWalletConnected: bool
    var selectedPool: Option<Pool>
    var showLoginModal: bool
    var loginForm: LoginForm
    var loginError: string

    /**
     * Every held pool is a tagged tracked pool, the open detail view is never
     * of a locked pool, and the only error the dialog shows is the
     * invalid-credentials message.
     */
    ghost predicate Valid()
      reads this
    {
      && (forall q :: q in pools ==> q.pool in TargetPoolIds && q.category == Some(CategoryMapping[q.pool]))
      && (selectedPool.Some? ==> !Locked(selectedPool.value))
      && (loginError == "" || loginError == InvalidCredentials)
    }

    predicate Locked(p: Pool)
      reads this
    {
      IsPoolLocked(p, isWalletConnected)
    }

    /** The initial hook values. */
    constructor ()
      ensures Valid()
      ensures pools == [] && selectedCategory == All && !isWalletConnected && selectedPool == None
      ensures !showLoginModal && loginForm == EmptyForm && loginError == ""
    {
      pools := [];
      selectedCategory := All;
      isWalletConnected := false;
      selectedPool := None;
      showLoginModal := false;
      loginForm := EmptyForm;
      loginError := "";
    }

    /** `setPools(filteredPools)` after the fetch: keeps the tracked pools, tagged. */
    method LoadPools(api: seq<Pool>)
      requires Valid()
      modifies this`pools
      ensures Valid()
      ensures pools == TargetPools(api)
      ensures selectedPool == old(selectedPool)
    {
      pools := TargetPools(api);
    }

    /** A tab button: selects its category. */
    method SelectCategory(c: Category)
      requires Valid()
      modifies this`selectedCategory
      ensures Valid()
      ensures selectedCategory == c
    {
      selectedCategory := c;
    }

    /** A pool card's click: opens the detail view unless the pool is locked. */
    method ClickPool(p: Pool)
      requires Valid()
      modifies this`selectedPool
      ensures Valid()
      ensures old(Locked(p)) ==> selectedPool == old(selectedPool)
      ensures !old(Locked(p)) ==> selectedPool == Some(p)
    {
      if !Locked(p) {
        selectedPool := Some(p);
      }
    }

    /** The back button of the detail view. */
    method CloseDetail()
      requires Valid()
      modifies this`selectedPool
      ensures Valid()
      ensures selectedPool == None
    {
      selectedPool := None;
    }

    /** `connectWallet`, with the wallet's answer as a parameter. */
    method ConnectWallet(outcome: WalletOutcome)
      requires Valid()
      modifies this`isWalletConnected, this`showLoginModal
      ensures Valid()
      ensures outcome == Accepted ==> isWalletConnected && showLoginModal == old(showLoginModal)
      ensures outcome != Accepted ==> isWalletConnected == old(isWalletConnected) && showLoginModal
    {
      if outcome == Accepted {
        isWalletConnected := true;
      } else {
        showLoginModal := true;
      }
    }

    /** The username field's change handler. */
    method EditUsername(username: string)
      requires Valid()
      modifies this`loginForm
      ensures Valid()
      ensures loginForm == old(loginForm).(username := username)
    {
      loginForm := loginForm.(username := username);
    }

    /** The password field's change handler. */
    method EditPassword(password: string)
      requires Valid()
      modifies this`loginForm
      ensures Valid()
      ensures loginForm == old(loginForm).(password := password)
    {
      loginForm := loginForm.(password := password);
    }

    /**
     * `handleLogin`: the mock credentials connect, close the dialog and clear
     * the form; anything else leaves all that alone and shows the error.
     */
    method HandleLogin()
      requires Valid()
      modifies this`loginError, this`isWalletConnected, this`showLoginModal, this`loginForm
      ensures Valid()
      ensures old(loginForm) == LoginForm(MockUsername, MockPassword) ==>
        isWalletConnected && !showLoginModal && loginForm == EmptyForm && loginError == ""
      ensures old(loginForm) != LoginForm(MockUsername, MockPassword) ==>
        isWalletConnected == old(isWalletConnected) && showLoginModal == old(showLoginModal)
        && loginForm == old(loginForm) && loginError == InvalidCredentials
    {
      loginError := "";
      if loginForm.username == MockUsername && loginForm.password == MockPassword {
        isWalletConnected := true;
        showLoginModal := false;
        loginForm := EmptyForm;
      } else {
        loginError := InvalidCredentials;
      }
    }

    /** `closeLoginModal`: hides the dialog and clears the form and the error. */
    method CloseLoginModal()
      requires Valid()
      modifies this`showLoginModal, this`loginForm, this`loginError
      ensures Valid()
      ensures !showLoginModal && loginForm == EmptyForm && loginError == ""
    {
      showLoginModal := false;
      loginForm := EmptyForm;
      loginError := "";
    }
  }

  // ---------------------------------------------------------------------------
  // The page's copy of the monthly resampler
  // ---------------------------------------------------------------------------

  /**
   * The page's choice of a month's representative: the first day-1 sample,
   * else the first sample of days 1..5, else the first sample. It agrees with
   * the shared resampler's rule.
   */
  method ChooseBestPoint(monthData: seq<Resampler.Sample>) returns (bestPoint: Option<Resampler.Sample>)
    ensures bestPoint == Resampler.Representative(monthData)
  {
    var i := Resampler.FindIndex(monthData, Resampler.IsFirstDay);
    bestPoint := if i.Some? then Some(monthData[i.value]) else None;
    if bestPoint.None? {
      var k := Resampler.FindIndex(monthData, Resampler.IsEarlyDay);
      bestPoint := if k.Some? then Some(monthData[k.value]) else None;
    }
    if bestPoint.None? {
      bestPoint := if |monthData| > 0 then Some(monthData[0]) else None;
    }
  }

  /** The page's per-month loop. */
  method MonthlyDataOf(groups: map<Calendar.YearMonth, seq<Resampler.Sample>>, monthKeys: seq<Calendar.YearMonth>,
                       ghost kept: seq<Resampler.Sample>)
    returns (monthlyData: seq<Resampler.Point>)
    requires forall m :: m in monthKeys ==> m in groups && groups[m] == Resampler.InMonth(kept, m)
    ensures monthlyData == Resampler.ToPoints(Resampler.RepsOf(kept, monthKeys))
  {
    monthlyData := [];
    ghost var reps: seq<Resampler.Sample> := [];
    for j := 0 to |monthKeys|
      invariant reps == Resampler.RepsOf(kept, monthKeys[..j])
      invariant monthlyData == Resampler.ToPoints(reps)
    {
      var key := monthKeys[j];
      assert groups[key] == Resampler.InMonth(kept, key);
      Resampler.RepsOfSnoc(kept, monthKeys[..j], key);
      assert monthKeys[..j + 1] == monthKeys[..j] + [key];
      var bestPoint := ChooseBestPoint(groups[key]);
      if bestPoint.Some? {
        Resampler.ToPointsSnoc(reps, bestPoint.value);
        reps := reps + [bestPoint.value];
        monthlyData := monthlyData + [Resampler.ToPoint(bestPoint.value)];
      }
    }
    assert monthKeys[..|monthKeys|] == monthKeys;
  }

  /**
   * The page's `processMonthlyData`: the same steps as the shared resampler,
   * and the same result.
   */
  method ProcessMonthlyData(rawData: array?<Resampler.Sample>, floor: int) returns (result: seq<Resampler.Point>)
    requires rawData != null ==> Resampler.WellDated(rawData[..])
    modifies rawData
    ensures rawData == null ==> result == []
    ensures rawData != null ==> SortedBy(rawData[..], Resampler.InstantOf)
    ensures rawData != null ==> Resampler.WellDated(rawData[..])
    ensures rawData != null ==> multiset(rawData[..]) == old(multiset(rawData[..]))
    ensures rawData != null ==> result == Resampler.Resample(rawData[..], floor)
  {
    if rawData == null || rawData.Length == 0 {
      return [];
    }
    SortBy(rawData, Resampler.InstantOf);
    var sortedData := rawData[..];
    assert Resampler.WellDated(sortedData) by {
      forall x | x in sortedData ensures x in old(rawData[..]) {
        assert x in multiset(sortedData);
      }
    }
    ghost var kept := Resampler.Kept(sortedData, floor);
    var monthlyGroups, keys := Resampler.GroupByMonth(sortedData, floor);

    Calendar.KeyLessOrder();
    var monthKeys := SortedCopyWith(keys, Calendar.KeyLess);
    forall m | m in monthKeys ensures m in keys {
      assert m in multiset(monthKeys);
    }

    var monthlyData := MonthlyDataOf(monthlyGroups, monthKeys, kept);

    var sortedMonthlyData := SortedCopy(monthlyData, Resampler.PointInstant);
    Resampler.KeyOrderIrrelevant(sortedData, floor, monthKeys, sortedMonthlyData);
    result := Resampler.Last12(sortedMonthlyData);
  }
}
