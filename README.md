# Clever Whale — a Dafny model of the game engine

Clever Whale is a small browser game widget. On page load it picks three distinct item
kinds from a catalog, renders one group per kind and an equality element between each
pair of adjacent groups. Items of the three kinds float on the surface. Clicking an item
moves it into the group of its own kind and recomputes every equality symbol
(`<`, `>` or `=`). Each symbol that changes spawns a coin. Clicking a coin collects it
and raises a counter. From time to time a whale appears and collects every coin on the
surface.

The model has four modules:

- `Wrappers` (`wrappers.dfy`): an `Option` type.
- `ItemPool` (`item_pool.dfy`): kind selection. The random draws are a sequence of
  catalog indices supplied by the caller. `Dedup` specifies the insertion-ordered set the
  page builds.
- `Comparator` (`comparator.dfy`): the pairs rendered from the groups template, the
  symbol for two counts, and one recomputation pass over all pairs. `Symbols` and
  `Changes` specify the new symbols and the number of coins spawned.
- `Engine` (`engine.dfy`): class `CleverWhale`, holding the state the page keeps in its
  DOM as fields:
  - the floating items;
  - the live count of each group;
  - the counter texts;
  - the symbols;
  - the coins on the surface;
  - the coin total;
  - whether the whale is showing.

  A ghost multiset `created` records every item ever spawned. `Valid()` states that each
  of these items is either floating or in the group of its own kind.

Each timed callback of the page is a separate method. A spawn tick is `ShowItem`. A
coin's removal 300 ms after collection is `SettleCoin`. The whale check is `ShowWhale`,
and the collection that follows it is `WhaleSweep`.

## Model

| member | source | states |
|---|---|---|
| ItemPool.SelectKinds | src/js/index.js:57-65 | The loop finishes exactly when the draws name at least three distinct catalog entries. The result is the first three distinct kinds drawn, in draw order, pairwise distinct and all from the catalog. It stops at the first draw that completes the set. When the draws run out first there is no selection. |
| ItemPool.Dedup | src/js/index.js:58-64 | The contents of the insertion-ordered `Set`: distinct, holding exactly the kinds of the input, and no longer than the input. |
| ItemPool.DedupPrefix | src/js/index.js:60-62 | Adding further draws only appends to the set. The set built from a prefix of the draws is a prefix of the set built from all of them. |
| ItemPool.SelectionComplete | src/js/index.js:60-64 | Once the set built from the first draws holds three kinds, those are the first three distinct kinds of all the draws, and they come from the catalog. |
| ItemPool.DrawnFromCatalog | src/js/index.js:61 | Every prefix of the selection consists of distinct catalog entries. |
| ItemPool.DistinctBound | src/js/index.js:58-62 | A sequence of distinct kinds drawn from a pool is no longer than the number of distinct kinds in the pool. |
| ItemPool.SmallCatalogNeverSelects | src/js/index.js:60-62 | With fewer than three distinct catalog entries, no sequence of draws completes the selection, so the page's loop never ends. |
| Comparator.GroupRows | src/js/index.js:45-51 | One template row per selected kind, in selection order. Row i names kind i. A row is marked notLast exactly when it is not the last row, and exactly when it has a comparee. The comparee of every row but the last is the next kind, so the last row has neither. |
| Comparator.PairsAdjacent | src/js/index.js:44-52 | The pairs the template renders (`Pairs`): one equality element for each group except the last, and element i compares group i with group i + 1. |
| Comparator.ThreeKindsTwoPairs | src/js/index.js:44-52 | Three selected kinds give exactly the two pairs (k0, k1) and (k1, k2). |
| Comparator.Cmp | src/js/index.js:115-123 | The symbol is `<` exactly when a < b, `>` exactly when a > b and `=` exactly when a == b. The blank fallback is unreachable. |
| Comparator.SymbolsAt | src/js/index.js:108-123 | The i-th symbol is the true relation between the live counts of its pair's two groups, and is never blank. |
| Comparator.ChangesBound | src/js/index.js:125-127 | One recomputation spawns at most one coin per pair. |
| Comparator.ChangesZero | src/js/index.js:125-127 | No coin is spawned exactly when no symbol changes. |
| Comparator.UntouchedPairKeepsSymbol | src/js/index.js:108-123 | A pair not involving the group that received an item keeps its symbol. |
| Comparator.NamedIff | src/js/index.js:104-107 | A group is among the counter texts a pass writes exactly when some equality element names it as data-a or data-b. |
| Comparator.WriteCounts | src/js/index.js:112-113 | Writing both counter texts of the next pair extends the written prefix: the groups of the pairs seen so far show their live counts, and every other counter text keeps its old value. |
| Comparator.Recompute | src/js/index.js:102-129 | The pass writes the true symbol for every pair. It spawns one coin per pair whose symbol changed. Afterwards both counter texts of every pair show the live counts. The set of counter texts is the old set plus the groups the pairs name, and every text of a group no pair names keeps its old value. |
| Comparator.FirstMoveSpawnsTwo | src/js/index.js:102-129 | From empty groups and unset symbols, one item in the first group makes the symbols `>` and `=` and spawns two coins. |
| Engine.NewCoins | src/js/index.js:179-186 | n fresh coins, none of them collected. |
| Engine.StockedSpawn | src/js/index.js:146-154 | A new item of a grouped kind keeps every spawned item accounted for. |
| Engine.StockedMove | src/js/index.js:85-96 | Moving a floating item into the group of its kind keeps every spawned item accounted for. Only that group's count rises. |
| Engine.ShownAllCounts | src/js/index.js:103-113 | With three groups in two adjacent pairs, a pass that writes every pair's counts leaves every group's counter text equal to its live count. |
| Engine.CleverWhale.constructor | src/js/index.js:17-34 | The kinds are the first three distinct draws. The pairs are the adjacent pairs. The groups are empty, there are no items or coins, the coin total is 0 and the whale is idle. |
| Engine.CleverWhale.ShowItem | src/js/index.js:143-160 | An item is added exactly when fewer than maxItems float. Its kind is one of the three selected kinds. The capacity invariant is kept. |
| Engine.CleverWhale.MoveItemToGroup | src/js/index.js:83-100 | The clicked item leaves the surface, and only the count of the group named by its own kind rises, by one. |
| Engine.CleverWhale.UpdateEquality | src/js/index.js:102-129 | The symbols become the true relations of the live counts. One coin is added per changed symbol, so at most two. No coin is added when the stored symbols already matched the counts, so a second call with unchanged counts adds none. Every counter text equals its live count. |
| Engine.CleverWhale.ClickItem | src/js/index.js:68-76 | A click on a floating item moves it into its group and recomputes, adding at most two coins. |
| Engine.CleverWhale.ClickCountedItem | src/js/index.js:72-75 | A click on an item already in a group leaves every count unchanged, then recomputes: one coin per changed symbol, at most two, and none when the symbols already matched. |
| Engine.CleverWhale.HideCoin | src/js/index.js:188-193 | The coin turns collected and the total rises by exactly one. No guard stops a coin from being collected twice. |
| Engine.CleverWhale.SettleCoin | src/js/index.js:190 | A collected coin leaves the surface when its timer fires. |
| Engine.CleverWhale.HideAllCoins | src/js/index.js:195-199 | Every coin on the surface becomes collected. The total rises by the number of coins on the surface. |
| Engine.CleverWhale.ShowWhale | src/js/index.js:162-166 | The whale becomes active exactly when at least one coin is on the surface. |
| Engine.CleverWhale.WhaleSweep | src/js/index.js:167-171 | The whale hides and collects every coin then on the surface. |
| Engine.CleverWhale.WhaleStep | src/js/index.js:162-177 | With no coins a whale cycle changes nothing. Otherwise the total rises by the number of coins on the surface, and every coin is collected. |

## Left out

- DOM rendering, templates, CSS classes and positions: only the state they stand for is
  modelled. Item, coin and group coordinates are left out.
- The groups template (`groups-template.html`) is not part of this model. Its rendering
  is taken from the row fields `name`, `comparee` and `notLast`: one equality element per
  `notLast` row. An equality element's text before the first recomputation is modelled
  as `Unset`, a value different from every symbol, and no counter text is written before
  the first recomputation.
- `Math.random` is left out. The kind draws and the index of a spawned item's kind are
  parameters, and no distribution is modelled.
- Timers and the two endless `while(true)` loops are left out. Each tick, and each
  callback fired 300 ms later, is a separate method that a caller may interleave.
- ShowItem: the check against `maxItems` is modelled as a comparison with a natural
  number. Non-integer or negative `maxItems` options are not modelled.
- MoveItemToGroup: the move is atomic. The 300 ms window during which the item is still
  on the surface, and could be clicked again, is not modelled.
- SettleCoin: a coin collected twice has two removal timers in the page, and the second
  one fails because the coin has already been detached. The model only removes a
  collected coin once, and that second timer is not modelled.
- `showCoin` is modelled only by the coins it adds (`NewCoins`). Where a coin appears is
  left out.
- `documentReady`, event delegation, `stopPropagation`, `console.log` and the fade-in
  class added 10 ms later are left out.
- The webpack build configuration is not part of this model.
- The code is followed where a plain reading of the game would differ:
  - the whale check counts coins that are already collected but not yet removed, and
    `hideAllCoins` collects those again;
  - clicking an item that is already in a group re-runs the recomputation
    (`ClickCountedItem`);
  - `hideCoin` has no guard against a coin being collected twice.
