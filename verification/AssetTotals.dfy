// Dashboard totals: nt-fe/components/assets-table.tsx and nt-fe/lib/balance.ts, in exact
// arithmetic.
module AssetTotals {
  import opened Wrappers

  datatype Pool = Pool(staked: real)

  datatype Balance =
    | Standard(total: real, locked: real)
    | Staking(staked: real, unstaked: real, canWithdraw: bool, pools: seq<Pool>)
    | Vested(total: real, unvested: real, staked: real, storageLocked: real)

  datatype Residency = Near | Ft | Intents | Lockup | Staked

  datatype Network = Network(id: string, contractId: Option<string>, lockupInstanceId: Option<string>, network: string,
                             residency: Residency, balance: Balance, decimals: nat, price: real)

  datatype Asset = Asset(id: string, networks: seq<Network>)

  datatype View = Available | Locked | Earning

  // ----- Raw amounts -----

  function Clamp(x: real): real { if x > 0.0 then x else 0.0 }

  function AvailableBalance(b: Balance): real {
    match b
    case Standard(total, locked) => total - locked
    case Staking(_, unstaked, canWithdraw, _) => if canWithdraw then unstaked else 0.0
    case Vested(total, unvested, staked, storageLocked) =>
      Clamp(total - (if unvested < staked then staked else unvested) - storageLocked)
  }

  function LockedBalance(b: Balance): real {
    match b
    case Standard(_, locked) => locked
    case Staking(staked, unstaked, canWithdraw, _) => staked + if canWithdraw then 0.0 else unstaked
    case Vested(_, unvested, staked, storageLocked) => (if unvested > staked then unvested else staked) + storageLocked
  }

  function NetworkAvailableRaw(n: Network): real {
    if n.residency.Staked? then 0.0
    else match n.balance
      case Vested(total, unvested, staked, storageLocked) =>
        Clamp(total - staked - (Clamp(unvested - staked) + storageLocked))
      case b => AvailableBalance(b)
  }

  function NetworkAvailableRawForAvailableView(n: Network): real {
    if n.residency.Staked? || n.residency.Lockup? then 0.0 else AvailableBalance(n.balance)
  }

  function NetworkLockedRaw(n: Network): real {
    if n.residency.Staked? then 0.0
    else match n.balance
      case Vested(_, unvested, staked, storageLocked) => Clamp(unvested - staked) + storageLocked
      case b => LockedBalance(b)
  }

  function NetworkEarningRaw(n: Network): real {
    match n.balance
    case Staking(staked, unstaked, _, _) => staked + unstaked
    case Vested(_, _, staked, _) => staked
    case Standard(_, _) => 0.0
  }

  function Raw(view: View, n: Network): real {
    match view
    case Available => NetworkAvailableRawForAvailableView(n)
    case Locked => NetworkLockedRaw(n)
    case Earning => NetworkEarningRaw(n)
  }

  // The network filter of a table row.
  predicate Shown(view: View, n: Network) {
    match view
    case Available => !n.residency.Staked? && Raw(view, n) > 0.0
    case Locked => !n.residency.Staked? && (Raw(view, n) > 0.0 || (n.residency.Lockup? && NetworkAvailableRaw(n) > 0.0))
    case Earning =>
      && ((n.residency.Staked? && n.balance.Staking? && exists p <- n.balance.pools :: p.staked > 0.0)
          || (n.balance.Vested? && n.balance.staked > 0.0))
      && Raw(view, n) > 0.0
  }

  // The asset filter of the table.
  predicate HasView(view: View, a: Asset) { exists n <- a.networks :: Raw(view, n) > 0.0 }

  function Pow10(d: nat): (p: real)
    ensures p > 0.0
  {
    if d == 0 then 1.0 else 10.0 * Pow10(d - 1)
  }

  function ToUsd(raw: real, decimals: nat, price: real): real {
    if price <= 0.0 then 0.0 else raw / Pow10(decimals) * price
  }

  lemma ToUsdSign(raw: real, decimals: nat, price: real)
    ensures raw >= 0.0 ==> ToUsd(raw, decimals, price) >= 0.0
    ensures raw >= 0.0 ==> (ToUsd(raw, decimals, price) == 0.0 <==> raw == 0.0 || price <= 0.0)
  {
    if raw >= 0.0 && price > 0.0 {
      var q := raw / Pow10(decimals);
      assert q * Pow10(decimals) == raw;
      assert q >= 0.0;
      assert q == 0.0 <==> raw == 0.0;
      assert q > 0.0 ==> q * price > 0.0;
    }
  }

  // The two laws that fix the conversion: a raw unit is a tenth of the next larger one, and
  // without decimals a token costs the price.
  lemma ToUsdShift(raw: real, decimals: nat, price: real)
    ensures ToUsd(10.0 * raw, decimals + 1, price) == ToUsd(raw, decimals, price)
  {
    var p := Pow10(decimals);
    assert raw / p * p == raw;
    assert (10.0 * raw) / (10.0 * p) == raw / p;
  }

  lemma ToUsdWhole(raw: real, price: real)
    ensures ToUsd(raw, 0, price) == if price <= 0.0 then 0.0 else raw * price
  {
  }

  // So whole tokens cost their number times the price, whatever the decimals.
  lemma Cancel(x: real, y: real, factor: real)
    requires factor > 0.0 && y == x * factor
    ensures y / factor == x
  {
    var q := y / factor;
    assert (q - x) * factor == 0.0;
  }

  lemma WholeTokens(raw: real, tokens: real, decimals: nat, price: real)
    requires price > 0.0 && raw == tokens * Pow10(decimals)
    ensures ToUsd(raw, decimals, price) == tokens * price
  {
    Cancel(tokens, raw, Pow10(decimals));
  }

  lemma Pow10Is()
    ensures Pow10(6) == 1_000_000.0 && Pow10(24) == 1_000_000_000_000_000_000_000_000.0
  {
    assert Pow10(3) == 1000.0;
    assert Pow10(6) == 1000.0 * Pow10(3);
    assert Pow10(12) == 1_000_000.0 * Pow10(6);
    assert Pow10(18) == 1_000_000.0 * Pow10(12);
    assert Pow10(24) == 1_000_000.0 * Pow10(18);
  }

  // ----- What the raw amounts add up to -----

  // A staked position counts as earning alone, in full.
  lemma StakedSplits(n: Network)
    requires n.residency.Staked? && n.balance.Staking?
    ensures Raw(Available, n) == 0.0 && Raw(Locked, n) == 0.0
    ensures Raw(Earning, n) == n.balance.staked + n.balance.unstaked
  {
  }

  // A plain balance is available plus locked.
  lemma StandardSplits(n: Network)
    requires !n.residency.Staked? && !n.residency.Lockup? && n.balance.Standard?
    ensures Raw(Locked, n) == n.balance.locked && Raw(Available, n) + Raw(Locked, n) == n.balance.total
    ensures Raw(Earning, n) == 0.0
  {
  }

  // A lockup is what can be used, what is locked and what is staked; none of it is in the
  // available view, and `lib/balance.ts` counts the stake as locked.
  lemma LockupSplits(n: Network)
    requires n.residency.Lockup? && n.balance.Vested?
    requires var b := n.balance;
             && b.staked + b.storageLocked <= b.total && b.unvested + b.storageLocked <= b.total
             && b.staked >= 0.0 && b.unvested >= 0.0 && b.storageLocked >= 0.0
    ensures Raw(Available, n) == 0.0 && Raw(Earning, n) == n.balance.staked
    ensures NetworkAvailableRaw(n) + Raw(Locked, n) + Raw(Earning, n) == n.balance.total
    ensures Raw(Locked, n) + Raw(Earning, n) == LockedBalance(n.balance)
    ensures NetworkAvailableRaw(n) == AvailableBalance(n.balance)
    ensures Raw(Locked, n) >= n.balance.storageLocked
    ensures n.balance.unvested <= n.balance.staked ==> Raw(Locked, n) == n.balance.storageLocked
    ensures n.balance.unvested >= n.balance.staked ==>
              NetworkAvailableRaw(n) == n.balance.total - n.balance.unvested - n.balance.storageLocked
  {
  }

  // Both ways of counting agree on every lockup, covered or not.
  lemma LockupAgrees(n: Network)
    requires !n.residency.Staked? && n.balance.Vested?
    ensures NetworkAvailableRaw(n) == AvailableBalance(n.balance)
    ensures NetworkLockedRaw(n) + NetworkEarningRaw(n) == LockedBalance(n.balance)
  {
  }

  // An unstaked remainder is available exactly when it can be withdrawn; nothing is lost between views.
  lemma StakingSplits(b: Balance)
    requires b.Staking?
    ensures AvailableBalance(b) + LockedBalance(b) == b.staked + b.unstaked
    ensures AvailableBalance(b) == (if b.canWithdraw then b.unstaked else 0.0)
  {
  }

  // What a row of each view shows, staked networks aside where their raw amount is zero.
  lemma ShownIff(n: Network)
    ensures Shown(Available, n) <==> NetworkAvailableRawForAvailableView(n) > 0.0
    ensures Shown(Locked, n) <==>
              NetworkLockedRaw(n) > 0.0 || (n.residency == Lockup && NetworkAvailableRaw(n) > 0.0)
    ensures n.balance.Vested? ==> (Shown(Earning, n) <==> n.balance.staked > 0.0)
    ensures n.balance.Standard? ==> !Shown(Earning, n)
    ensures n.balance.Staking? ==>
              (Shown(Earning, n) <==>
               && n.residency == Staked && n.balance.staked + n.balance.unstaked > 0.0
               && exists i :: 0 <= i < |n.balance.pools| && n.balance.pools[i].staked > 0.0)
  {
    if n.balance.Staking? {
      assert (exists p <- n.balance.pools :: p.staked > 0.0) <==>
             exists i :: 0 <= i < |n.balance.pools| && n.balance.pools[i].staked > 0.0;
    }
  }

  function Usd(view: View, n: Network): real { ToUsd(Raw(view, n), n.decimals, n.price) }

  // ----- Sums -----

  function Sum<T>(s: seq<T>, f: T -> real): real {
    if s == [] then 0.0 else f(s[0]) + Sum(s[1..], f)
  }

  function Filter<T>(s: seq<T>, p: T -> bool): seq<T> {
    if s == [] then [] else (if p(s[0]) then [s[0]] else []) + Filter(s[1..], p)
  }

  lemma {:induction false} FilterMembers<T>(s: seq<T>, p: T -> bool)
    ensures forall x :: x in Filter(s, p) <==> x in s && p(x)
  {
    if s != [] { FilterMembers(s[1..], p); }
  }

  lemma {:induction false} SumConcat<T>(a: seq<T>, b: seq<T>, f: T -> real)
    ensures Sum(a + b, f) == Sum(a, f) + Sum(b, f)
  {
    if a == [] {
      assert a + b == b;
    } else {
      assert (a + b)[1..] == a[1..] + b;
      SumConcat(a[1..], b, f);
    }
  }

  lemma {:induction false} SumSplit<T>(s: seq<T>, f: T -> real, p: T -> bool, q: T -> bool)
    requires forall x :: x in s ==> q(x) == !p(x)
    ensures Sum(s, f) == Sum(Filter(s, p), f) + Sum(Filter(s, q), f)
  {
    if s != [] {
      SumSplit(s[1..], f, p, q);
      var head := [s[0]];
      assert s[0] in s && head[1..] == [];
      assert Sum(head, f) == f(s[0]);
      SumConcat(head, Filter(s[1..], p), f);
      SumConcat(head, Filter(s[1..], q), f);
      if p(s[0]) {
        assert Filter(s, p) == head + Filter(s[1..], p) && Filter(s, q) == Filter(s[1..], q);
      } else {
        assert Filter(s, p) == Filter(s[1..], p) && Filter(s, q) == head + Filter(s[1..], q);
      }
    }
  }

  lemma {:induction false} SumNonNegative<T(!new)>(s: seq<T>, f: T -> real)
    requires forall x :: x in s ==> f(x) >= 0.0
    ensures Sum(s, f) >= 0.0
    ensures Sum(s, f) == 0.0 <==> forall x :: x in s ==> f(x) == 0.0
  {
    if s != [] {
      SumNonNegative(s[1..], f);
      assert s[0] in s;
    }
  }

  lemma Remove<T>(s: seq<T>, i: nat)
    requires i < |s|
    ensures s == s[..i] + ([s[i]] + s[i + 1..])
    ensures multiset(s) - multiset{s[i]} == multiset(s[..i] + s[i + 1..])
  {
    assert s == s[..i] + ([s[i]] + s[i + 1..]);
  }

  lemma SumRemove<T>(s: seq<T>, i: nat, f: T -> real)
    requires i < |s|
    ensures Sum(s, f) == f(s[i]) + Sum(s[..i] + s[i + 1..], f)
  {
    var tail := [s[i]] + s[i + 1..];
    Remove(s, i);
    assert tail[1..] == s[i + 1..];
    SumConcat(s[..i], tail, f);
    SumConcat(s[..i], s[i + 1..], f);
  }

  // A sorted table has the same sum.
  lemma {:induction false} SumPermutation<T>(a: seq<T>, b: seq<T>, f: T -> real)
    requires multiset(a) == multiset(b)
    ensures Sum(a, f) == Sum(b, f)
    decreases |a|
  {
    if a == [] {
      assert |b| == |multiset(b)| == 0;
    } else {
      assert a[0] in multiset(b);
      var i :| 0 <= i < |b| && b[i] == a[0];
      SumRemove(b, i, f);
      Remove(b, i);
      Remove(a, 0);
      assert a[..0] + a[0 + 1..] == a[1..];
      SumPermutation(a[1..], b[..i] + b[i + 1..], f);
    }
  }

  lemma {:induction false} SumScale<T>(s: seq<T>, f: T -> real, g: T -> real, total: real)
    requires total > 0.0 && forall x :: x in s ==> g(x) == f(x) / total * 100.0
    ensures Sum(s, g) == Sum(s, f) / total * 100.0
  {
    if s != [] {
      SumScale(s[1..], f, g, total);
      assert s[0] in s;
      var a, b := f(s[0]), Sum(s[1..], f);
      assert (a + b) / total == a / total + b / total;
    }
  }

  // ----- Metrics and header totals -----

  function NetworkUsd(view: View): Network -> real { (n: Network) => Usd(view, n) }

  datatype Metrics = Metrics(availableUsd: real, lockedUsd: real, earningUsd: real,
                             hasAvailable: bool, hasLocked: bool, hasEarning: bool)
  {
    function Usd(view: View): real {
      match view case Available => availableUsd case Locked => lockedUsd case Earning => earningUsd
    }
  }

  function MetricsOf(a: Asset): Metrics {
    Metrics(Sum(a.networks, NetworkUsd(Available)), Sum(a.networks, NetworkUsd(Locked)),
            Sum(a.networks, NetworkUsd(Earning)),
            HasView(Available, a), HasView(Locked, a), HasView(Earning, a))
  }

  method GetAssetMetrics(asset: Asset) returns (m: Metrics)
    ensures m == MetricsOf(asset)
  {
    var availableUsd, lockedUsd, earningUsd := 0.0, 0.0, 0.0;
    var hasAvailable, hasLocked, hasEarning := false, false, false;
    var s := asset.networks;
    for i := 0 to |s|
      invariant availableUsd + Sum(s[i..], NetworkUsd(Available)) == Sum(s, NetworkUsd(Available))
      invariant lockedUsd + Sum(s[i..], NetworkUsd(Locked)) == Sum(s, NetworkUsd(Locked))
      invariant earningUsd + Sum(s[i..], NetworkUsd(Earning)) == Sum(s, NetworkUsd(Earning))
      invariant hasAvailable <==> exists j :: 0 <= j < i && Raw(Available, s[j]) > 0.0
      invariant hasLocked <==> exists j :: 0 <= j < i && Raw(Locked, s[j]) > 0.0
      invariant hasEarning <==> exists j :: 0 <= j < i && Raw(Earning, s[j]) > 0.0
    {
      assert s[i..][1..] == s[i + 1..];
      var network := s[i];
      var lockedRaw := NetworkLockedRaw(network);
      var earningRaw := NetworkEarningRaw(network);
      var availableRaw := NetworkAvailableRawForAvailableView(network);
      availableUsd := availableUsd + ToUsd(availableRaw, network.decimals, network.price);
      lockedUsd := lockedUsd + ToUsd(lockedRaw, network.decimals, network.price);
      earningUsd := earningUsd + ToUsd(earningRaw, network.decimals, network.price);
      hasAvailable := hasAvailable || availableRaw > 0.0;
      hasLocked := hasLocked || lockedRaw > 0.0;
      hasEarning := hasEarning || earningRaw > 0.0;
    }
    m := Metrics(availableUsd, lockedUsd, earningUsd, hasAvailable, hasLocked, hasEarning);
  }

  // `new Map(assets.map(..))`: the last asset with an id wins.
  function MetricsById(assets: seq<Asset>): map<string, Metrics> {
    if assets == [] then map[]
    else MetricsById(assets[..|assets| - 1])[assets[|assets| - 1].id := MetricsOf(assets[|assets| - 1])]
  }

  ghost predicate UniqueIds(assets: seq<Asset>) {
    forall i, j :: 0 <= i < j < |assets| ==> assets[i].id != assets[j].id
  }

  lemma {:induction false} MetricsByIdFinds(assets: seq<Asset>, i: nat)
    requires UniqueIds(assets) && i < |assets|
    ensures assets[i].id in MetricsById(assets) && MetricsById(assets)[assets[i].id] == MetricsOf(assets[i])
    decreases |assets|
  {
    if i < |assets| - 1 { MetricsByIdFinds(assets[..|assets| - 1], i); }
  }

  function Looked(view: View, byId: map<string, Metrics>): Asset -> real {
    (a: Asset) => if a.id in byId then byId[a.id].Usd(view) else 0.0
  }

  // The tab header of a view.
  function HeaderTotal(view: View, assets: seq<Asset>): real { Sum(assets, Looked(view, MetricsById(assets))) }

  method Totals(assets: seq<Asset>) returns (availableUsd: real, lockedUsd: real, earningUsd: real)
    ensures availableUsd == HeaderTotal(Available, assets)
    ensures lockedUsd == HeaderTotal(Locked, assets)
    ensures earningUsd == HeaderTotal(Earning, assets)
  {
    var byId := MetricsById(assets);
    availableUsd, lockedUsd, earningUsd := 0.0, 0.0, 0.0;
    for i := 0 to |assets|
      invariant availableUsd + Sum(assets[i..], Looked(Available, byId)) == Sum(assets, Looked(Available, byId))
      invariant lockedUsd + Sum(assets[i..], Looked(Locked, byId)) == Sum(assets, Looked(Locked, byId))
      invariant earningUsd + Sum(assets[i..], Looked(Earning, byId)) == Sum(assets, Looked(Earning, byId))
    {
      assert assets[i..][1..] == assets[i + 1..];
      if assets[i].id !in byId { continue; }
      availableUsd := availableUsd + byId[assets[i].id].availableUsd;
      lockedUsd := lockedUsd + byId[assets[i].id].lockedUsd;
      earningUsd := earningUsd + byId[assets[i].id].earningUsd;
    }
  }

  // ----- Rows -----

  function IsShown(view: View): Network -> bool { (n: Network) => Shown(view, n) }
  function IsHidden(view: View): Network -> bool { (n: Network) => !Shown(view, n) }
  function AssetHas(view: View): Asset -> bool { (a: Asset) => HasView(view, a) }
  function AssetLacks(view: View): Asset -> bool { (a: Asset) => !HasView(view, a) }

  // The table before sorting.
  function Rows(view: View, assets: seq<Asset>): seq<Asset> { Filter(assets, AssetHas(view)) }

  // What one row shows, what its asset holds, and what its network filter drops.
  function RowUsd(view: View): Asset -> real { (a: Asset) => Sum(Filter(a.networks, IsShown(view)), NetworkUsd(view)) }
  function AssetUsd(view: View): Asset -> real { (a: Asset) => Sum(a.networks, NetworkUsd(view)) }
  function DroppedUsd(view: View): Asset -> real {
    (a: Asset) => Sum(Filter(a.networks, IsHidden(view)), NetworkUsd(view))
  }

  // Value the header counts but no row shows.
  function HiddenTotal(view: View, assets: seq<Asset>): real {
    Sum(Rows(view, assets), DroppedUsd(view)) + Sum(Filter(assets, AssetLacks(view)), AssetUsd(view))
  }

  lemma {:induction false} SumSame<T>(s: seq<T>, f: T -> real, g: T -> real)
    requires forall x :: x in s ==> f(x) == g(x)
    ensures Sum(s, f) == Sum(s, g)
  {
    if s != [] {
      assert s[0] in s;
      SumSame(s[1..], f, g);
    }
  }

  lemma {:induction false} SumAdd<T>(s: seq<T>, f: T -> real, g: T -> real, h: T -> real)
    requires forall x :: x in s ==> h(x) == f(x) + g(x)
    ensures Sum(s, h) == Sum(s, f) + Sum(s, g)
  {
    if s != [] {
      assert s[0] in s;
      SumAdd(s[1..], f, g, h);
    }
  }

  lemma HeaderIsSum(view: View, assets: seq<Asset>)
    requires UniqueIds(assets)
    ensures HeaderTotal(view, assets) == Sum(assets, AssetUsd(view))
  {
    forall a | a in assets ensures Looked(view, MetricsById(assets))(a) == AssetUsd(view)(a) {
      var i :| 0 <= i < |assets| && assets[i] == a;
      MetricsByIdFinds(assets, i);
    }
    SumSame(assets, Looked(view, MetricsById(assets)), AssetUsd(view));
  }

  // The header exceeds the displayed rows, in whatever order, by exactly what both filters hide.
  lemma HeaderMinusRows(view: View, assets: seq<Asset>, rows: seq<Asset>)
    requires UniqueIds(assets) && multiset(rows) == multiset(Rows(view, assets))
    ensures HeaderTotal(view, assets) == Sum(rows, RowUsd(view)) + HiddenTotal(view, assets)
  {
    HeaderIsSum(view, assets);
    SumPermutation(rows, Rows(view, assets), RowUsd(view));
    SumSplit(assets, AssetUsd(view), AssetHas(view), AssetLacks(view));
    forall a | a in Rows(view, assets) ensures AssetUsd(view)(a) == RowUsd(view)(a) + DroppedUsd(view)(a) {
      SumSplit(a.networks, NetworkUsd(view), IsShown(view), IsHidden(view));
    }
    SumAdd(Rows(view, assets), RowUsd(view), DroppedUsd(view), AssetUsd(view));
  }

  ghost predicate NonNegative(view: View, assets: seq<Asset>) {
    forall a, n :: a in assets && n in a.networks ==> Raw(view, n) >= 0.0
  }

  // A network worth something in this view that no row shows.
  ghost predicate Missing(view: View, a: Asset, n: Network) {
    n in a.networks && Raw(view, n) > 0.0 && n.price > 0.0 && !(HasView(view, a) && Shown(view, n))
  }

  lemma DroppedZeroIff(view: View, a: Asset)
    requires forall n :: n in a.networks ==> Raw(view, n) >= 0.0
    ensures DroppedUsd(view)(a) >= 0.0
    ensures HasView(view, a) ==> (DroppedUsd(view)(a) == 0.0 <==> forall n :: !Missing(view, a, n))
    ensures !HasView(view, a) ==> AssetUsd(view)(a) == 0.0 && forall n :: !Missing(view, a, n)
  {
    FilterMembers(a.networks, IsHidden(view));
    forall n | n in a.networks
      ensures Usd(view, n) >= 0.0 && (Usd(view, n) == 0.0 <==> Raw(view, n) == 0.0 || n.price <= 0.0)
    {
      ToUsdSign(Raw(view, n), n.decimals, n.price);
    }
    SumNonNegative(Filter(a.networks, IsHidden(view)), NetworkUsd(view));
    SumNonNegative(a.networks, NetworkUsd(view));
    if DroppedUsd(view)(a) != 0.0 {
      var n :| n in Filter(a.networks, IsHidden(view)) && NetworkUsd(view)(n) != 0.0;
      assert HasView(view, a) ==> Missing(view, a, n);
    }
  }

  // Header and rows agree exactly when nothing of value is missing.
  lemma HeaderEqualsRowsIff(view: View, assets: seq<Asset>, rows: seq<Asset>)
    requires UniqueIds(assets) && NonNegative(view, assets) && multiset(rows) == multiset(Rows(view, assets))
    ensures HeaderTotal(view, assets) == Sum(rows, RowUsd(view))
       <==> forall a, n :: a in assets ==> !Missing(view, a, n)
  {
    HeaderMinusRows(view, assets, rows);
    var has, lacks := Rows(view, assets), Filter(assets, AssetLacks(view));
    FilterMembers(assets, AssetHas(view));
    FilterMembers(assets, AssetLacks(view));
    forall a | a in assets
      ensures DroppedUsd(view)(a) >= 0.0
      ensures HasView(view, a) ==> (DroppedUsd(view)(a) == 0.0 <==> forall n :: !Missing(view, a, n))
      ensures !HasView(view, a) ==> AssetUsd(view)(a) == 0.0 && forall n :: !Missing(view, a, n)
    {
      DroppedZeroIff(view, a);
    }
    SumNonNegative(has, DroppedUsd(view));
    SumNonNegative(lacks, AssetUsd(view));
  }

  // In the available and locked views nothing is ever missing ...
  lemma HeaderEqualsRows(view: View, assets: seq<Asset>, rows: seq<Asset>)
    requires !view.Earning?
    requires UniqueIds(assets) && NonNegative(view, assets) && multiset(rows) == multiset(Rows(view, assets))
    ensures HeaderTotal(view, assets) == Sum(rows, RowUsd(view))
  {
    HeaderEqualsRowsIff(view, assets, rows);
  }

  // ... but the earning view drops a pool position that is waiting to be withdrawn.
  lemma EarningHeaderExceedsRows(id: string, network: string)
    ensures var n := Network(id, None, None, network, Staked, Staking(0.0, 5.0, true, [Pool(0.0)]), 0, 2.0);
            var assets := [Asset(id, [n])];
            && UniqueIds(assets) && NonNegative(Earning, assets)
            && HeaderTotal(Earning, assets) != Sum(Rows(Earning, assets), RowUsd(Earning))
  {
    var n := Network(id, None, None, network, Staked, Staking(0.0, 5.0, true, [Pool(0.0)]), 0, 2.0);
    var assets := [Asset(id, [n])];
    assert n in assets[0].networks && assets[0] in assets;
    assert Missing(Earning, assets[0], n);
    HeaderEqualsRowsIff(Earning, assets, Rows(Earning, assets));
  }

  // ----- Weights -----

  function ViewTotal(view: View, assets: seq<Asset>): real {
    Sum(Rows(view, assets), Looked(view, MetricsById(assets)))
  }

  function ShareOf(value: real, total: real): real { if total > 0.0 then value / total * 100.0 else 0.0 }

  function Weight(view: View, assets: seq<Asset>): Asset -> real {
    (a: Asset) => ShareOf(Looked(view, MetricsById(assets))(a), ViewTotal(view, assets))
  }

  lemma WeightsSumTo100(view: View, assets: seq<Asset>, rows: seq<Asset>)
    requires multiset(rows) == multiset(Rows(view, assets))
    ensures Sum(rows, Weight(view, assets)) == if ViewTotal(view, assets) > 0.0 then 100.0 else 0.0
  {
    var all, total := Rows(view, assets), ViewTotal(view, assets);
    SumPermutation(rows, all, Weight(view, assets));
    if total > 0.0 {
      SumScale(all, Looked(view, MetricsById(assets)), Weight(view, assets), total);
      Whole(total);
    } else {
      SumZero(all, Weight(view, assets));
    }
  }

  lemma Whole(total: real)
    requires total > 0.0
    ensures total / total * 100.0 == 100.0
  {
    assert total / total == 1.0;
  }

  lemma {:induction false} SumZero<T>(s: seq<T>, f: T -> real)
    requires forall x :: x in s ==> f(x) == 0.0
    ensures Sum(s, f) == 0.0
  {
    if s != [] {
      assert s[0] in s;
      SumZero(s[1..], f);
    }
  }

  // A weight is the asset's share of the view's total.
  lemma WeightIsShare(view: View, assets: seq<Asset>, a: Asset)
    requires ViewTotal(view, assets) > 0.0
    ensures Weight(view, assets)(a) * ViewTotal(view, assets) == 100.0 * Looked(view, MetricsById(assets))(a)
  {
    ShareOfTotal(Looked(view, MetricsById(assets))(a), ViewTotal(view, assets));
  }

  lemma ShareOfTotal(value: real, total: real)
    requires total > 0.0
    ensures ShareOf(value, total) * total == 100.0 * value
  {
    var p := value / total;
    assert p * total == value;
    assert p * 100.0 * total == 100.0 * (p * total);
  }

  // An asset held as whole tokens on one network is worth them times the price.
  lemma OneNetworkUsd(id: string, n: Network, tokens: real, view: View)
    requires n.price > 0.0 && Raw(view, n) == tokens * Pow10(n.decimals)
    ensures MetricsOf(Asset(id, [n])).Usd(view) == tokens * n.price
  {
    WholeTokens(Raw(view, n), tokens, n.decimals, n.price);
    assert [n][1..] == [];
    forall v: View ensures Sum([n], NetworkUsd(v)) == Usd(v, n) {
      assert Sum([n], NetworkUsd(v)) == NetworkUsd(v)([n][0]) + Sum([n][1..], NetworkUsd(v));
    }
  }
}
