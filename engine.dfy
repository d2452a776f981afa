/** The game-state engine of one widget: floating items, the three groups, the comparison
    symbols between adjacent groups, the live coins and the coin counter.

    Each method is one synchronous step of the page. Timed waits become separate steps:
    a spawn-loop tick is ShowItem, the removal of a collected coin 300 ms later is
    SettleCoin, and the whale cycle is ShowWhale followed, 300 ms later, by WhaleSweep.
    Random choices are parameters. */
module Engine {
  import opened Wrappers
  import opened ItemPool
  import opened Comparator

  /** A coin on the surface: Spawned until collected, then Collecting until its removal
      timer fires. Collecting coins are still on the surface and still match the coin
      selector. */
  datatype CoinState = Spawned | Collecting

  /** The coins one recomputation adds, one per changed pair. */
  function NewCoins(n: nat): (r: seq<CoinState>)
    ensures |r| == n && forall i :: 0 <= i < n ==> r[i] == Spawned
  {
    if n == 0 then [] else NewCoins(n - 1) + [Spawned]
  }

  /** The items held by the three groups, as a multiset of kinds. */
  function GroupedItems(kinds: seq<Kind>, count: map<Kind, nat>): (r: multiset<Kind>)
    requires |kinds| == SelectedKinds && kinds[0] in count && kinds[1] in count && kinds[2] in count
  {
    multiset{}[kinds[0] := count[kinds[0]]][kinds[1] := count[kinds[1]]][kinds[2] := count[kinds[2]]]
  }

  /** Every item ever spawned is either still floating or held by the group of its own
      kind, and every floating item has a group. */
  ghost predicate Stocked(kinds: seq<Kind>, floating: seq<Kind>, count: map<Kind, nat>, created: multiset<Kind>)
  {
    |kinds| == SelectedKinds && kinds[0] in count && kinds[1] in count && kinds[2] in count
    && (forall i :: 0 <= i < |floating| ==> floating[i] in count)
    && created == multiset(floating) + GroupedItems(kinds, count)
  }

  /** A spawned item of a grouped kind keeps the stock balanced. */
  lemma StockedSpawn(kinds: seq<Kind>, floating: seq<Kind>, count: map<Kind, nat>, created: multiset<Kind>, k: Kind)
    requires Stocked(kinds, floating, count, created) && k in count
    ensures Stocked(kinds, floating + [k], count, created + multiset{k})
  {
  }

  /** One more item in the group of kind k is one more k among the grouped items. */
  lemma GroupedItemsAdd(kinds: seq<Kind>, count: map<Kind, nat>, k: Kind)
    requires |kinds| == SelectedKinds && kinds[0] in count && kinds[1] in count && kinds[2] in count
    requires kinds[0] != kinds[1] && kinds[0] != kinds[2] && kinds[1] != kinds[2]
    requires k == kinds[0] || k == kinds[1] || k == kinds[2]
    ensures GroupedItems(kinds, count[k := count[k] + 1]) == GroupedItems(kinds, count) + multiset{k}
  {
  }

  /** Removing the item at index i: the rest has one k fewer and keeps its other items. */
  lemma RemoveAt(s: seq<Kind>, i: nat)
    requires i < |s|
    ensures multiset(s[..i] + s[i + 1..]) + multiset{s[i]} == multiset(s)
  {
    assert s == s[..i] + [s[i]] + s[i + 1..];
  }

  /** Moving floating item i into the group of its kind keeps the stock balanced. */
  lemma StockedMove(kinds: seq<Kind>, floating: seq<Kind>, count: map<Kind, nat>, created: multiset<Kind>, i: nat)
    requires Stocked(kinds, floating, count, created) && i < |floating|
    requires kinds[0] != kinds[1] && kinds[0] != kinds[2] && kinds[1] != kinds[2]
    requires count.Keys == {kinds[0], kinds[1], kinds[2]}
    ensures floating[i] in count
    ensures Stocked(kinds, floating[..i] + floating[i + 1..], count[floating[i] := count[floating[i]] + 1], created)
  {
    var k := floating[i];
    var rest := floating[..i] + floating[i + 1..];
    RemoveAt(floating, i);
    GroupedItemsAdd(kinds, count, k);
    forall j | 0 <= j < |rest| ensures rest[j] in count {
      assert rest[j] == floating[if j < i then j else j + 1];
    }
  }

  /** With three groups compared by two adjacent pairs, a recomputation that writes every
      pair's counts leaves every group's counter text equal to its live count. */
  lemma ShownAllCounts(kinds: seq<Kind>, pairs: seq<Pair>, count: map<Kind, nat>, displayed: map<Kind, nat>, shown: map<Kind, nat>)
    requires |kinds| == SelectedKinds && pairs == [Pair(kinds[0], kinds[1]), Pair(kinds[1], kinds[2])]
    requires count.Keys == {kinds[0], kinds[1], kinds[2]} && displayed.Keys <= count.Keys
    requires CountsWritten(count, pairs, displayed, shown, |pairs|)
    ensures shown == count
  {
    assert pairs[0].a == kinds[0] && pairs[1].a == kinds[1] && pairs[1].b == kinds[2];
    assert shown.Keys == count.Keys;
  }

  class CleverWhale {
    /** The three selected kinds, in draw order; one group per kind. */
    const kinds: seq<Kind>
    /** The comparison pairs (the equality elements) built from kinds. */
    const pairs: seq<Pair>
    /** The capacity of the floating area. */
    const maxItems: nat

    /** Kinds of the items currently floating on the surface. */
    var floating: seq<Kind>
    /** The live count of each group: the number of items it holds. */
    var count: map<Kind, nat>
    /** The counts as last written to each group's counter text. */
    var displayed: map<Kind, nat>
    /** The symbol shown by each equality element, one per pair. */
    var symbols: seq<Sym>
    /** Coins on the surface, in creation order. */
    var liveCoins: seq<CoinState>
    /** The running total of collected coins. */
    var coins: nat
    /** Whether the whale is showing (between a successful check and its sweep). */
    var whaleActive: bool
    /** Every item ever spawned, by kind. */
    ghost var created: multiset<Kind>

    /** Three distinct groups, adjacent pairs, one live count per group. */
    ghost predicate GroupsValid()
      reads this`count
    {
      |kinds| == SelectedKinds
      && kinds[0] != kinds[1] && kinds[0] != kinds[2] && kinds[1] != kinds[2]
      && pairs == [Pair(kinds[0], kinds[1]), Pair(kinds[1], kinds[2])]
      && count.Keys == {kinds[0], kinds[1], kinds[2]}
    }

    /** The floating area is within capacity and no item is lost or duplicated. */
    ghost predicate ItemsValid()
      reads this`floating, this`count, this`created
    {
      |floating| <= maxItems && Stocked(kinds, floating, count, created)
    }

    /** One symbol per pair, and counter texts only for groups. */
    ghost predicate ViewValid()
      reads this`count, this`displayed, this`symbols
    {
      |symbols| == |pairs| && displayed.Keys <= count.Keys
    }

    ghost predicate Valid()
      reads this`floating, this`count, this`displayed, this`symbols, this`created
    {
      GroupsValid() && ItemsValid() && ViewValid()
    }

    /** The widget as set up on page load: kinds selected from the catalog by the given
        draws, empty groups, unset symbols, no items, no coins. */
    constructor (catalog: seq<Kind>, draws: seq<nat>, capacity: nat)
      requires forall i :: 0 <= i < |draws| ==> draws[i] < |catalog|
      requires |Dedup(Drawn(catalog, draws))| >= SelectedKinds
      ensures Valid() && pairs == Pairs(kinds) && Distinct(kinds)
      ensures kinds == Dedup(Drawn(catalog, draws))[..SelectedKinds]
      ensures maxItems == capacity
      ensures floating == [] && displayed == map[] && symbols == [Unset, Unset]
      ensures count == map[kinds[0] := 0, kinds[1] := 0, kinds[2] := 0]
      ensures liveCoins == [] && coins == 0 && !whaleActive && created == multiset{}
    {
      var r, _ := SelectKinds(catalog, draws);
      var ks := r.value;
      ThreeKindsTwoPairs(ks);
      assert ks[0] != ks[1] && ks[0] != ks[2] && ks[1] != ks[2];
      var zero := map[ks[0] := 0, ks[1] := 0, ks[2] := 0];
      assert GroupedItems(ks, zero) == multiset{};
      kinds := ks;
      pairs := Pairs(ks);
      maxItems := capacity;
      floating := [];
      count := zero;
      displayed := map[];
      symbols := [Unset, Unset];
      liveCoins := [];
      coins := 0;
      whaleActive := false;
      created := multiset{};
    }

    /** One tick of the spawn loop: when fewer than maxItems items float, a new item of
        the kind at kindIdx (the random pick among the selected kinds) appears. */
    method ShowItem(kindIdx: nat) returns (spawned: bool)
      requires Valid() && kindIdx < |kinds|
      modifies this`floating, this`created
      ensures Valid()
      ensures spawned <==> old(|floating|) < maxItems
      ensures floating == if spawned then old(floating) + [kinds[kindIdx]] else old(floating)
      ensures created == if spawned then old(created) + multiset{kinds[kindIdx]} else old(created)
    {
      spawned := |floating| < maxItems;
      if spawned {
        StockedSpawn(kinds, floating, count, created, kinds[kindIdx]);
        floating := floating + [kinds[kindIdx]];
        created := created + multiset{kinds[kindIdx]};
      }
    }

    /** Picking floating item i moves it into the group named by its own kind. */
    method MoveItemToGroup(i: nat)
      requires Valid() && i < |floating|
      modifies this`floating, this`count
      ensures Valid()
      ensures old(floating[i]) in count
      ensures floating == old(floating[..i] + floating[i + 1..])
      ensures count == old(count[floating[i] := count[floating[i]] + 1])
    {
      StockedMove(kinds, floating, count, created, i);
      var k := floating[i];
      floating := floating[..i] + floating[i + 1..];
      count := count[k := count[k] + 1];
    }

    /** Recomputes every pair from the live counts: writes both groups' counter texts,
        writes the new symbol, and spawns one coin when it differs from the old one. */
    method UpdateEquality()
      requires Valid()
      modifies this`symbols, this`displayed, this`liveCoins
      ensures Valid()
      ensures symbols == Symbols(count, pairs)
      ensures liveCoins == old(liveCoins) + NewCoins(Changes(old(symbols), symbols))
      ensures |liveCoins| <= old(|liveCoins|) + |pairs|
      ensures old(symbols) == Symbols(count, pairs) ==> liveCoins == old(liveCoins)
      ensures displayed == count
    {
      var after, shown, spawned := Recompute(count, pairs, symbols, displayed);
      assert spawned <= |pairs| && (symbols == after ==> spawned == 0) by {
        ChangesBound(symbols, after);
        ChangesZero(symbols, after);
      }
      ShownAllCounts(kinds, pairs, count, displayed, shown);
      symbols := after;
      displayed := shown;
      liveCoins := liveCoins + NewCoins(spawned);
    }

    /** The click handler on a floating item: move it, then recompute. */
    method ClickItem(i: nat)
      requires Valid() && i < |floating|
      modifies this`floating, this`count, this`symbols, this`displayed, this`liveCoins
      ensures Valid()
      ensures floating == old(floating[..i] + floating[i + 1..])
      ensures count == old(count[floating[i] := count[floating[i]] + 1])
      ensures symbols == Symbols(count, pairs) && displayed == count
      ensures liveCoins == old(liveCoins) + NewCoins(Changes(old(symbols), symbols))
      ensures |liveCoins| <= old(|liveCoins|) + 2
    {
      MoveItemToGroup(i);
      UpdateEquality();
    }

    /** The click handler on an item already inside group k: re-appending it there leaves
        every count as it was, and the recomputation that follows spawns no coin when the
        symbols already matched the counts. */
    method ClickCountedItem(k: Kind)
      requires Valid() && k in count && count[k] > 0
      modifies this`symbols, this`displayed, this`liveCoins
      ensures Valid()
      ensures symbols == Symbols(count, pairs) && displayed == count
      ensures liveCoins == old(liveCoins) + NewCoins(Changes(old(symbols), symbols))
      ensures |liveCoins| <= old(|liveCoins|) + |pairs|
      ensures old(symbols) == Symbols(count, pairs) ==> liveCoins == old(liveCoins)
    {
      UpdateEquality();
    }

    /** Collecting coin j: it turns Collecting and the counter rises by one. Nothing checks
        whether the coin was already Collecting, so collecting it twice counts it twice. */
    method HideCoin(j: nat)
      requires Valid() && j < |liveCoins|
      modifies this`liveCoins, this`coins
      ensures Valid()
      ensures liveCoins == old(liveCoins[j := Collecting])
      ensures coins == old(coins) + 1
    {
      liveCoins := liveCoins[j := Collecting];
      coins := coins + 1;
    }

    /** The removal timer of a collected coin fires: the coin leaves the surface. */
    method SettleCoin(j: nat)
      requires Valid() && j < |liveCoins| && liveCoins[j] == Collecting
      modifies this`liveCoins
      ensures Valid()
      ensures liveCoins == old(liveCoins[..j] + liveCoins[j + 1..])
    {
      liveCoins := liveCoins[..j] + liveCoins[j + 1..];
    }

    /** Collects every coin on the surface, Collecting ones included. */
    method HideAllCoins()
      requires Valid()
      modifies this`liveCoins, this`coins
      ensures Valid()
      ensures |liveCoins| == old(|liveCoins|)
      ensures forall t :: 0 <= t < |liveCoins| ==> liveCoins[t] == Collecting
      ensures coins == old(coins) + old(|liveCoins|)
    {
      var n := |liveCoins|;
      for j := 0 to n
        invariant Valid()
        invariant |liveCoins| == n
        invariant forall t :: 0 <= t < j ==> liveCoins[t] == Collecting
        invariant coins == old(coins) + j
      {
        HideCoin(j);
      }
    }

    /** The whale check: with any coin on the surface the whale becomes active. */
    method ShowWhale() returns (triggered: bool)
      requires Valid() && !whaleActive
      modifies this`whaleActive
      ensures Valid()
      ensures triggered <==> |liveCoins| > 0
      ensures whaleActive == triggered
    {
      triggered := |liveCoins| > 0;
      whaleActive := triggered;
    }

    /** 300 ms after a successful check: the whale hides and collects every coin then on
        the surface. */
    method WhaleSweep()
      requires Valid() && whaleActive
      modifies this`whaleActive, this`liveCoins, this`coins
      ensures Valid()
      ensures !whaleActive
      ensures |liveCoins| == old(|liveCoins|)
      ensures forall t :: 0 <= t < |liveCoins| ==> liveCoins[t] == Collecting
      ensures coins == old(coins) + old(|liveCoins|)
    {
      whaleActive := false;
      HideAllCoins();
    }

    /** One whale cycle with nothing happening between the check and the sweep: no effect
        without coins, otherwise every coin is collected and counted once. */
    method WhaleStep()
      requires Valid() && !whaleActive
      modifies this`whaleActive, this`liveCoins, this`coins
      ensures Valid()
      ensures !whaleActive
      ensures old(liveCoins) == [] ==> liveCoins == [] && coins == old(coins)
      ensures |liveCoins| == old(|liveCoins|)
      ensures forall t :: 0 <= t < |liveCoins| ==> liveCoins[t] == Collecting
      ensures coins == old(coins) + old(|liveCoins|)
    {
      var triggered := ShowWhale();
      if triggered {
        WhaleSweep();
      }
    }
  }
}
