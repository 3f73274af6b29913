/**
 * The `before` hook's choice of one Land and one Estate sell order to use as
 * test fixtures. The hook walks the open orders in the order they are
 * returned, stops at the top of an iteration once both fixtures are set,
 * fails on an order that is neither Land nor Estate, and fails afterwards
 * if either fixture is still missing.
 */
module FixtureScan {
  import opened Wrappers
  import opened Orders

  /**
   * Everything the scan reads besides the order list. `sameAddress` stands
   * for the helper `addressesAreEqual`, whose definition is not part of this
   * model; `clock(i)` is the value `Date.now()` returns on the iteration that
   * examines order `i`.
   */
  datatype ScanContext = ScanContext(
    sameAddress: (Address, Address) -> bool,
    landAddress: Address,
    estateAddress: Address,
    clock: nat -> int)
  {
    predicate IsLand(o: SellOrder) {
      sameAddress(o.nftAddress, landAddress)
    }

    predicate IsEstate(o: SellOrder) {
      sameAddress(o.nftAddress, estateAddress)
    }

    /** Expired when examined as order `i`: strictly before the clock. */
    predicate ExpiredAt(o: SellOrder, i: nat) {
      o.expiresAt < clock(i)
    }

    /** The catalog invariant: every order is a Land or an Estate order. */
    predicate Known(o: SellOrder) {
      IsLand(o) || IsEstate(o)
    }

    /** Whether order `o`, examined as order `i`, becomes the fixture of kind `w`. */
    predicate Takes(w: Wanted, o: SellOrder, i: nat) {
      match w
      case Land => IsLand(o)
      case Estate => IsEstate(o) && !ExpiredAt(o, i)
    }
  }

  /** The two fixtures the hook looks for. */
  datatype Wanted = Land | Estate

  datatype Fixtures = Fixtures(land: SellOrder, estate: SellOrder)

  /** The failed expectations of the hook, in the order it checks them. */
  datatype SetupError =
    | NoOpenOrders            // the order list is empty
    | UnknownAsset(index: nat) // an examined order is neither Land nor Estate
    | NoEstateFixture         // no usable Estate order was taken
    | NoLandFixture           // no Land order was taken

  /** Some order of `s` would be taken as the fixture of kind `w`. */
  predicate Contains(ctx: ScanContext, w: Wanted, s: seq<SellOrder>) {
    exists i :: 0 <= i < |s| && ctx.Takes(w, s[i], i)
  }

  /** Both fixtures are set once the orders `s` have been examined. */
  predicate BothFound(ctx: ScanContext, s: seq<SellOrder>) {
    Contains(ctx, Land, s) && Contains(ctx, Estate, s)
  }

  /** The index of the last order of `s` taken as kind `w`: the one a run of overwriting assignments keeps. */
  function LastTaken(ctx: ScanContext, w: Wanted, s: seq<SellOrder>): (r: Option<nat>)
    ensures r.Some? ==> r.value < |s| && ctx.Takes(w, s[r.value], r.value)
    ensures r.Some? ==> forall j :: r.value < j < |s| ==> !ctx.Takes(w, s[j], j)
    ensures r.None? <==> !Contains(ctx, w, s)
  {
    if |s| == 0 then None
    else if ctx.Takes(w, s[|s| - 1], |s| - 1) then Some(|s| - 1)
    else LastTaken(ctx, w, s[..|s| - 1])
  }

  /** The order at LastTaken, if any. */
  function LastOrder(ctx: ScanContext, w: Wanted, s: seq<SellOrder>): (r: Option<SellOrder>)
    ensures r.None? <==> !Contains(ctx, w, s)
    ensures r.Some? ==> exists i ::
      && 0 <= i < |s|
      && r.value == s[i]
      && ctx.Takes(w, s[i], i)
      && forall j :: i < j < |s| ==> !ctx.Takes(w, s[j], j)
  {
    match LastTaken(ctx, w, s)
    case None => None
    case Some(j) => Some(s[j])
  }

  /** The index of the first order of `s` that is neither Land nor Estate. */
  function FirstUnknown(ctx: ScanContext, s: seq<SellOrder>): (r: Option<nat>)
    ensures r.Some? ==> r.value < |s| && !ctx.Known(s[r.value])
    ensures r.Some? ==> forall j :: 0 <= j < r.value ==> ctx.Known(s[j])
    ensures r.None? <==> forall j :: 0 <= j < |s| ==> ctx.Known(s[j])
  {
    if |s| == 0 then None
    else match FirstUnknown(ctx, s[..|s| - 1])
      case Some(j) => Some(j)
      case None => if ctx.Known(s[|s| - 1]) then None else Some(|s| - 1)
  }

  /**
   * The least prefix length, at or after `k`, whose orders set both fixtures;
   * `|s|` when there is none.
   */
  function StopFrom(ctx: ScanContext, s: seq<SellOrder>, k: nat): (n: nat)
    requires k <= |s|
    ensures k <= n <= |s|
    ensures n == |s| || BothFound(ctx, s[..n])
    ensures forall m :: k <= m < n ==> !BothFound(ctx, s[..m])
    decreases |s| - k
  {
    if k == |s| || BothFound(ctx, s[..k]) then k else StopFrom(ctx, s, k + 1)
  }

  /**
   * How many orders the scan examines when none of them is unknown: the
   * check at the top of iteration `n` finds both fixtures set, or the list
   * runs out.
   */
  function StopIndex(ctx: ScanContext, s: seq<SellOrder>): (n: nat)
    ensures n <= |s|
    ensures n == |s| || BothFound(ctx, s[..n])
    ensures forall m :: 0 <= m < n ==> !BothFound(ctx, s[..m])
  {
    StopFrom(ctx, s, 0)
  }

  /**
   * What the `before` hook ends with: the fixtures it keeps, or the first
   * expectation that fails.
   */
  function Select(ctx: ScanContext, orders: seq<SellOrder>): (r: Result<Fixtures, SetupError>)
    ensures r == Failure(NoOpenOrders) <==> |orders| == 0
    ensures r.Success? ==> r.value.land in orders && r.value.estate in orders
    ensures r.Success? ==> ctx.IsLand(r.value.land) && ctx.IsEstate(r.value.estate)
  {
    if |orders| == 0 then Failure(NoOpenOrders)
    else
      var seen := orders[..StopIndex(ctx, orders)];
      match FirstUnknown(ctx, seen)
      case Some(i) => Failure(UnknownAsset(i))
      case None =>
        match (LastOrder(ctx, Land, seen), LastOrder(ctx, Estate, seen))
        case (_, None) => Failure(NoEstateFixture)
        case (None, _) => Failure(NoLandFixture)
        case (Some(land), Some(estate)) => Success(Fixtures(land, estate))
  }

  /** Examining order `i` extends the last taken order of kind `w` by that order, or keeps it. */
  lemma LastOrderStep(ctx: ScanContext, w: Wanted, s: seq<SellOrder>, i: nat)
    requires i < |s|
    ensures LastOrder(ctx, w, s[..i + 1]) ==
      if ctx.Takes(w, s[i], i) then Some(s[i]) else LastOrder(ctx, w, s[..i])
  {
    assert s[..i + 1][..i] == s[..i];
  }

  /** The contract of StopIndex determines it. */
  lemma StopIndexUnique(ctx: ScanContext, s: seq<SellOrder>, n: nat)
    requires n <= |s|
    requires n == |s| || BothFound(ctx, s[..n])
    requires forall m :: 0 <= m < n ==> !BothFound(ctx, s[..m])
    ensures StopIndex(ctx, s) == n
  {
  }

  /**
   * An unknown order examined before both fixtures are set, with every
   * earlier order known, ends the hook with that order's index.
   */
  lemma UnknownAssetFails(ctx: ScanContext, s: seq<SellOrder>, i: nat)
    requires i < |s| && !ctx.Known(s[i])
    requires forall j :: 0 <= j < i ==> ctx.Known(s[j])
    requires !BothFound(ctx, s[..i])
    ensures Select(ctx, s) == Failure(UnknownAsset(i))
  {
    var n := StopIndex(ctx, s);
    BothFoundPrefix(ctx, s, n, i);
    var seen := s[..n];
    assert forall j :: 0 <= j < n ==> seen[j] == s[j];
    assert !ctx.Known(seen[i]);
  }

  /** Both fixtures stay set as more orders are examined. */
  lemma BothFoundPrefix(ctx: ScanContext, s: seq<SellOrder>, m: nat, k: nat)
    ensures m <= k <= |s| && BothFound(ctx, s[..m]) ==> BothFound(ctx, s[..k])
  {
    if m <= k <= |s| {
      assert s[..k][..m] == s[..m];
      ContainsPrefix(ctx, Land, s[..k], m);
      ContainsPrefix(ctx, Estate, s[..k], m);
    }
  }

  /** An order taken from a prefix of `s` is taken from `s`. */
  lemma ContainsPrefix(ctx: ScanContext, w: Wanted, s: seq<SellOrder>, m: nat)
    requires m <= |s|
    ensures Contains(ctx, w, s[..m]) ==> Contains(ctx, w, s)
  {
    if Contains(ctx, w, s[..m]) {
      var i :| 0 <= i < m && ctx.Takes(w, s[..m][i], i);
      assert s[..m][i] == s[i];
    }
  }

  /**
   * When the scan has examined the first `n` orders, all known, and the
   * loop ends there, the hook ends as Select says.
   */
  lemma ScanEndsAt(ctx: ScanContext, s: seq<SellOrder>, n: nat)
    requires 0 < n <= |s|
    requires n == |s| || BothFound(ctx, s[..n])
    requires forall m :: 0 <= m < n ==> !BothFound(ctx, s[..m])
    requires forall j :: 0 <= j < n ==> ctx.Known(s[j])
    ensures Select(ctx, s) ==
      match (LastOrder(ctx, Land, s[..n]), LastOrder(ctx, Estate, s[..n]))
      case (_, None) => Failure(NoEstateFixture)
      case (None, _) => Failure(NoLandFixture)
      case (Some(land), Some(estate)) => Success(Fixtures(land, estate))
  {
    StopIndexUnique(ctx, s, n);
    var seen := s[..n];
    assert forall j :: 0 <= j < n ==> seen[j] == s[j];
    assert FirstUnknown(ctx, seen).None?;
  }

  /** The loop of the `before` hook and the two expectations after it. */
  method SelectFixtures(ctx: ScanContext, orders: seq<SellOrder>) returns (r: Result<Fixtures, SetupError>)
    ensures r == Select(ctx, orders)
  {
    if |orders| == 0 {
      return Failure(NoOpenOrders);
    }
    var landForSale: Option<SellOrder> := None;
    var estateForSale: Option<SellOrder> := None;
    var i := 0;
    while i < |orders|
      invariant i <= |orders|
      invariant forall m :: 0 <= m < i ==> !BothFound(ctx, orders[..m])
      invariant forall j :: 0 <= j < i ==> ctx.Known(orders[j])
      invariant landForSale == LastOrder(ctx, Land, orders[..i])
      invariant estateForSale == LastOrder(ctx, Estate, orders[..i])
    {
      if landForSale.Some? && estateForSale.Some? {
        break;
      }
      var order := orders[i];
      var isLand := ctx.sameAddress(order.nftAddress, ctx.landAddress);
      var isEstate := ctx.sameAddress(order.nftAddress, ctx.estateAddress);
      var expired := order.expiresAt < ctx.clock(i);
      LastOrderStep(ctx, Land, orders, i);
      LastOrderStep(ctx, Estate, orders, i);
      if isLand {
        landForSale := Some(order);
      }
      if isEstate && !expired {
        estateForSale := Some(order);
      }
      if !isLand && !isEstate {
        UnknownAssetFails(ctx, orders, i);
        return Failure(UnknownAsset(i));
      }
      i := i + 1;
    }
    ScanEndsAt(ctx, orders, i);
    if estateForSale.None? {
      return Failure(NoEstateFixture);
    }
    if landForSale.None? {
      return Failure(NoLandFixture);
    }
    return Success(Fixtures(landForSale.value, estateForSale.value));
  }

  /** An empty order list fails the first expectation of the hook. */
  lemma EmptyOrdersFail(ctx: ScanContext)
    ensures Select(ctx, []) == Failure(NoOpenOrders)
    ensures forall s: seq<SellOrder> :: Select(ctx, s) == Failure(NoOpenOrders) ==> s == []
  {
  }

  /**
   * The hook fails on order `i` for not being Land or Estate exactly when
   * `i` is the first such order and it is reached before both fixtures are set.
   */
  lemma UnknownAssetIff(ctx: ScanContext, s: seq<SellOrder>, i: nat)
    ensures Select(ctx, s) == Failure(UnknownAsset(i)) <==>
      && i < |s|
      && !ctx.Known(s[i])
      && (forall j :: 0 <= j < i ==> ctx.Known(s[j]))
      && !BothFound(ctx, s[..i])
  {
    if Select(ctx, s) == Failure(UnknownAsset(i)) {
      var n := StopIndex(ctx, s);
      var seen := s[..n];
      assert forall j :: 0 <= j < n ==> seen[j] == s[j];
      assert FirstUnknown(ctx, seen) == Some(i);
    } else if i < |s| && !ctx.Known(s[i]) && (forall j :: 0 <= j < i ==> ctx.Known(s[j])) {
      if !BothFound(ctx, s[..i]) {
        UnknownAssetFails(ctx, s, i);
      }
    }
  }

  /**
   * Setup succeeds exactly when some prefix of the list, all of whose orders
   * are Land or Estate, holds a Land order and a usable Estate order.
   */
  lemma SelectSucceedsIff(ctx: ScanContext, s: seq<SellOrder>)
    ensures Select(ctx, s).Success? <==>
      exists k :: 0 <= k <= |s| && BothFound(ctx, s[..k]) && forall j :: 0 <= j < k ==> ctx.Known(s[j])
  {
    var n := StopIndex(ctx, s);
    var seen := s[..n];
    assert forall j :: 0 <= j < n ==> seen[j] == s[j];
    if Select(ctx, s).Success? {
      assert BothFound(ctx, s[..n]);
    }
    if k :| 0 <= k <= |s| && BothFound(ctx, s[..k]) && forall j :: 0 <= j < k ==> ctx.Known(s[j]) {
      assert n <= k;
      BothFoundPrefix(ctx, s, n, k);
      assert BothFound(ctx, seen);
      assert FirstUnknown(ctx, seen).None?;
    }
  }

  /**
   * Without an unknown order, a missing Estate fixture is reported when no
   * order of the whole list is a usable Estate order, and a missing Land
   * fixture when there is a usable Estate but no Land order. Estate is
   * checked first.
   */
  lemma MissingFixtureIff(ctx: ScanContext, s: seq<SellOrder>)
    ensures Select(ctx, s) == Failure(NoEstateFixture) <==>
      |s| > 0 && (forall j :: 0 <= j < |s| ==> ctx.Known(s[j])) && !Contains(ctx, Estate, s)
    ensures Select(ctx, s) == Failure(NoLandFixture) <==>
      |s| > 0 && (forall j :: 0 <= j < |s| ==> ctx.Known(s[j]))
      && Contains(ctx, Estate, s) && !Contains(ctx, Land, s)
  {
    var n := StopIndex(ctx, s);
    var seen := s[..n];
    assert forall j :: 0 <= j < n ==> seen[j] == s[j];
    if Select(ctx, s).Failure? && Select(ctx, s).error in {NoEstateFixture, NoLandFixture} {
      assert !BothFound(ctx, seen);
      assert n == |s|;
      assert seen == s;
    }
    if |s| > 0 && !BothFound(ctx, s) {
      assert s[..|s|] == s;
      forall m | 0 <= m <= |s|
        ensures !BothFound(ctx, s[..m])
      {
        BothFoundPrefix(ctx, s, m, |s|);
      }
      StopIndexUnique(ctx, s, |s|);
      assert seen == s;
    }
  }

  /**
   * The fixtures kept are unmodified elements of the list, examined before
   * the loop stops: the land is the last Land order among them whatever
   * its expiry, and the estate the last Estate order among them that had
   * not expired when it was examined (one expiring exactly then is kept).
   */
  lemma SelectedFixtures(ctx: ScanContext, s: seq<SellOrder>, f: Fixtures)
    requires Select(ctx, s) == Success(f)
    ensures var n := StopIndex(ctx, s);
      && 0 < n <= |s|
      && (forall j :: 0 <= j < n ==> ctx.Known(s[j]))
      && (exists i :: 0 <= i < n && s[i] == f.land && ctx.IsLand(s[i])
            && forall j :: i < j < n ==> !ctx.IsLand(s[j]))
      && (exists i :: 0 <= i < n && s[i] == f.estate && ctx.IsEstate(s[i])
            && ctx.clock(i) <= s[i].expiresAt
            && forall j :: i < j < n ==> !(ctx.IsEstate(s[j]) && ctx.clock(j) <= s[j].expiresAt))
  {
    var n := StopIndex(ctx, s);
    var seen := s[..n];
    assert forall j :: 0 <= j < n ==> seen[j] == s[j];
    var l := LastTaken(ctx, Land, seen).value;
    var e := LastTaken(ctx, Estate, seen).value;
    assert s[l] == f.land;
    assert s[e] == f.estate;
  }

  /**
   * Once the first `k` orders have set both fixtures, nothing after them is
   * examined: replacing the rest of the list by anything, even orders that
   * are neither Land nor Estate, leaves the outcome unchanged.
   */
  lemma StopsOnceBothFound(ctx: ScanContext, s: seq<SellOrder>, k: nat, rest: seq<SellOrder>)
    requires k <= |s| && BothFound(ctx, s[..k])
    ensures Select(ctx, s) == Select(ctx, s[..k] + rest)
  {
    var t := s[..k] + rest;
    assert t[..k] == s[..k];
    var n := StopIndex(ctx, s);
    assert n <= k;
    assert forall m :: 0 <= m <= k ==> t[..m] == s[..m] by {
      forall m | 0 <= m <= k
        ensures t[..m] == s[..m]
      {
        assert t[..k][..m] == s[..k][..m];
      }
    }
    StopIndexUnique(ctx, t, n);
  }
}
