/** The comparator: the adjacent pairs of groups and the relation symbol shown between
    them. */
module Comparator {
  import opened Wrappers
  import opened ItemPool

  /** The text of an equality element. Unset is its text before the first recomputation;
      Blank is the page's fallback for counts that compare in none of the three ways. */
  datatype Sym = Unset | Lt | Gt | Eq | Blank

  /** One row of the groups template: a group, the group that follows it, and whether
      there is one. */
  datatype GroupRow = GroupRow(name: Kind, comparee: Option<Kind>, notLast: bool)

  /** The two groups an equality element compares: its data-a and data-b. */
  datatype Pair = Pair(a: Kind, b: Kind)

  /** The symbol written for live counts a and b. */
  function Cmp(a: nat, b: nat): (r: Sym)
    ensures r == Lt <==> a < b
    ensures r == Gt <==> a > b
    ensures r == Eq <==> a == b
    ensures r != Blank && r != Unset
  {
    if a < b then Lt
    else if a > b then Gt
    else if a == b then Eq
    else Blank
  }

  /** The rows handed to the groups template: one per selected kind, in selection order. */
  function GroupRows(kinds: seq<Kind>): (r: seq<GroupRow>)
    ensures |r| == |kinds|
    ensures forall i :: 0 <= i < |r| ==> r[i].name == kinds[i]
    ensures forall i :: 0 <= i < |r| ==> (r[i].notLast <==> i < |r| - 1)
    ensures forall i :: 0 <= i < |r| ==> (r[i].notLast <==> r[i].comparee.Some?)
    ensures forall i :: 0 <= i < |r| - 1 ==> r[i].comparee == Some(kinds[i + 1])
  {
    seq(|kinds|, i requires 0 <= i < |kinds| =>
      GroupRow(kinds[i], if i + 1 < |kinds| then Some(kinds[i + 1]) else None, i < |kinds| - 1))
  }

  /** The equality elements the template renders: one for each row marked notLast. */
  function Equalities(rows: seq<GroupRow>): (r: seq<Pair>)
  {
    if rows == [] then []
    else
      var head := if rows[0].notLast && rows[0].comparee.Some?
                  then [Pair(rows[0].name, rows[0].comparee.value)] else [];
      head + Equalities(rows[1..])
  }

  /** The comparison pairs of a widget whose groups are the given kinds. */
  function Pairs(kinds: seq<Kind>): (r: seq<Pair>)
  {
    Equalities(GroupRows(kinds))
  }

  /** The equality elements rendered from row j onwards compare each remaining group with
      the next one. */
  lemma {:induction false} EqualitiesFrom(kinds: seq<Kind>, j: nat)
    requires 0 < |kinds| && j <= |kinds|
    ensures |Equalities(GroupRows(kinds)[j..])| == if j < |kinds| then |kinds| - 1 - j else 0
    ensures forall i :: 0 <= i < |Equalities(GroupRows(kinds)[j..])| ==>
              Equalities(GroupRows(kinds)[j..])[i] == Pair(kinds[j + i], kinds[j + i + 1])
    decreases |kinds| - j
  {
    var rows := GroupRows(kinds);
    if j < |kinds| {
      EqualitiesFrom(kinds, j + 1);
      assert rows[j..][1..] == rows[j + 1..];
    }
  }

  /** Pairs are adjacent: pair i compares group i with group i + 1, and there is one pair
      for every group but the last. */
  lemma PairsAdjacent(kinds: seq<Kind>)
    requires 0 < |kinds|
    ensures |Pairs(kinds)| == |kinds| - 1
    ensures forall i :: 0 <= i < |Pairs(kinds)| ==> Pairs(kinds)[i] == Pair(kinds[i], kinds[i + 1])
  {
    EqualitiesFrom(kinds, 0);
    assert GroupRows(kinds)[0..] == GroupRows(kinds);
  }

  /** Three selected kinds give exactly two pairs: (first, second) and (second, third). */
  lemma ThreeKindsTwoPairs(kinds: seq<Kind>)
    requires |kinds| == SelectedKinds
    ensures Pairs(kinds) == [Pair(kinds[0], kinds[1]), Pair(kinds[1], kinds[2])]
  {
    PairsAdjacent(kinds);
  }

  /** Every group of a pair has a live count. */
  ghost predicate Counted(count: map<Kind, nat>, pairs: seq<Pair>)
  {
    forall i :: 0 <= i < |pairs| ==> pairs[i].a in count && pairs[i].b in count
  }

  /** The symbols a full recomputation writes, pair by pair. */
  function Symbols(count: map<Kind, nat>, pairs: seq<Pair>): (r: seq<Sym>)
    requires Counted(count, pairs)
    ensures |r| == |pairs|
    decreases |pairs|
  {
    if pairs == [] then []
    else
      var n := |pairs| - 1;
      Symbols(count, pairs[..n]) + [Cmp(count[pairs[n].a], count[pairs[n].b])]
  }

  /** After a recomputation pair i shows the true relation between the live counts of its
      two groups: "<", ">" or "=", never the blank fallback. */
  lemma {:induction false} SymbolsAt(count: map<Kind, nat>, pairs: seq<Pair>, i: nat)
    requires Counted(count, pairs) && i < |pairs|
    ensures Symbols(count, pairs)[i] == Cmp(count[pairs[i].a], count[pairs[i].b])
    ensures var s, a, b := Symbols(count, pairs)[i], count[pairs[i].a], count[pairs[i].b];
            (s == Lt <==> a < b) && (s == Gt <==> a > b) && (s == Eq <==> a == b) && s != Blank
    decreases |pairs|
  {
    var n := |pairs| - 1;
    assert Counted(count, pairs[..n]);
    if i < n {
      SymbolsAt(count, pairs[..n], i);
    }
  }

  /** The number of positions at which two symbol sequences differ: the number of coins
      a recomputation from before to after spawns. */
  function Changes(before: seq<Sym>, after: seq<Sym>): (r: nat)
    requires |before| == |after|
    decreases |before|
  {
    if before == [] then 0
    else
      var n := |before| - 1;
      Changes(before[..n], after[..n]) + (if before[n] != after[n] then 1 else 0)
  }

  /** Recomputing one more pair adds one coin exactly when that pair's symbol changes. */
  lemma ChangesExtend(before: seq<Sym>, after: seq<Sym>, j: nat)
    requires |before| == |after| && j < |before|
    ensures Changes(before[..j + 1], after[..j + 1])
            == Changes(before[..j], after[..j]) + (if before[j] != after[j] then 1 else 0)
  {
    assert before[..j + 1][..j] == before[..j] && after[..j + 1][..j] == after[..j];
  }

  /** Each pair spawns at most one coin per recomputation. */
  lemma {:induction false} ChangesBound(before: seq<Sym>, after: seq<Sym>)
    requires |before| == |after|
    ensures Changes(before, after) <= |before|
    decreases |before|
  {
    if before != [] {
      ChangesBound(before[..|before| - 1], after[..|after| - 1]);
    }
  }

  /** No coin is spawned exactly when no symbol changes. */
  lemma {:induction false} ChangesZero(before: seq<Sym>, after: seq<Sym>)
    requires |before| == |after|
    ensures Changes(before, after) == 0 <==> before == after
    decreases |before|
  {
    if before != [] {
      var n := |before| - 1;
      ChangesZero(before[..n], after[..n]);
      if before[..n] == after[..n] && before[n] == after[n] {
        assert before == before[..n] + [before[n]];
        assert after == after[..n] + [after[n]];
      }
    }
  }

  /** Only the pairs around the group that received an item can change: a pair that does
      not involve kind k keeps its symbol when k's count rises. */
  lemma UntouchedPairKeepsSymbol(count: map<Kind, nat>, pairs: seq<Pair>, k: Kind, i: nat)
    requires Counted(count, pairs) && k in count && i < |pairs|
    requires pairs[i].a != k && pairs[i].b != k
    ensures Symbols(count[k := count[k] + 1], pairs)[i] == Symbols(count, pairs)[i]
  {
    var c := count[k := count[k] + 1];
    assert Counted(c, pairs);
    SymbolsAt(count, pairs, i);
    SymbolsAt(c, pairs, i);
  }

  /** The groups the given equality elements compare: the counter texts a pass over them
      writes. */
  function Named(pairs: seq<Pair>): (r: set<Kind>)
    decreases |pairs|
  {
    if pairs == [] then {}
    else
      var n := |pairs| - 1;
      Named(pairs[..n]) + {pairs[n].a, pairs[n].b}
  }

  /** A group is named exactly when one of the pairs compares it. */
  lemma {:induction false} NamedIff(pairs: seq<Pair>, k: Kind)
    ensures k in Named(pairs) <==> exists i :: 0 <= i < |pairs| && (pairs[i].a == k || pairs[i].b == k)
    decreases |pairs|
  {
    if pairs != [] {
      var n := |pairs| - 1;
      var p := pairs[..n];
      NamedIff(p, k);
      assert forall i :: 0 <= i < n ==> p[i] == pairs[i];
    }
  }

  /** Counter texts after the pass has written the counts of the first j pairs: every
      group those pairs compare shows its live count, every other text is as before. */
  ghost predicate CountsWritten(count: map<Kind, nat>, pairs: seq<Pair>, displayed: map<Kind, nat>, shown: map<Kind, nat>, j: nat)
    requires Counted(count, pairs) && j <= |pairs|
  {
    (forall t :: 0 <= t < j ==>
       pairs[t].a in shown && shown[pairs[t].a] == count[pairs[t].a] &&
       pairs[t].b in shown && shown[pairs[t].b] == count[pairs[t].b])
    && shown.Keys == displayed.Keys + Named(pairs[..j])
    && (forall k :: k in shown ==>
          if k in Named(pairs[..j]) then k in count && shown[k] == count[k]
          else k in displayed && shown[k] == displayed[k])
  }

  /** Writing both counter texts of pair j extends the written prefix by one pair. */
  lemma WriteCounts(count: map<Kind, nat>, pairs: seq<Pair>, displayed: map<Kind, nat>, shown: map<Kind, nat>, j: nat)
    requires Counted(count, pairs) && j < |pairs|
    requires CountsWritten(count, pairs, displayed, shown, j)
    ensures CountsWritten(count, pairs, displayed,
              shown[pairs[j].a := count[pairs[j].a]][pairs[j].b := count[pairs[j].b]], j + 1)
  {
    assert pairs[..j + 1][..j] == pairs[..j];
  }

  /** One recomputation pass over the pairs, in order: for each pair, read both live counts,
      write both counter texts, write the new symbol and count a coin when it differs from
      the symbol shown before. Returns the new symbols, the new counter texts and the
      number of coins spawned. */
  method Recompute(count: map<Kind, nat>, pairs: seq<Pair>, before: seq<Sym>, displayed: map<Kind, nat>)
    returns (after: seq<Sym>, shown: map<Kind, nat>, spawned: nat)
    requires Counted(count, pairs) && |before| == |pairs|
    ensures after == Symbols(count, pairs)
    ensures spawned == Changes(before, after)
    ensures CountsWritten(count, pairs, displayed, shown, |pairs|)
  {
    ghost var target := Symbols(count, pairs);
    after, shown, spawned := before, displayed, 0;
    var j := 0;
    while j < |pairs|
      invariant 0 <= j <= |pairs| && |after| == |pairs|
      invariant forall t :: 0 <= t < j ==> after[t] == target[t]
      invariant forall t :: j <= t < |pairs| ==> after[t] == before[t]
      invariant spawned == Changes(before[..j], target[..j])
      invariant CountsWritten(count, pairs, displayed, shown, j)
    {
      var p := pairs[j];
      var a, b := count[p.a], count[p.b];
      var prev := after[j];
      WriteCounts(count, pairs, displayed, shown, j);
      shown := shown[p.a := a][p.b := b];
      after := after[j := Cmp(a, b)];
      if prev != after[j] {
        spawned := spawned + 1;
      }
      SymbolsAt(count, pairs, j);
      assert spawned == Changes(before[..j + 1], target[..j + 1]) by {
        ChangesExtend(before, target, j);
      }
      j := j + 1;
    }
    assert after == target;
    assert before[..j] == before && target[..j] == target;
  }

  /** The first move of a widget: one item into the first group, starting from empty
      groups and unset symbols, makes the first pair read ">" and the second "=", and so
      spawns two coins. */
  lemma {:induction false} FirstMoveSpawnsTwo(kinds: seq<Kind>)
    requires |kinds| == SelectedKinds && Distinct(kinds)
    ensures var count := map[kinds[0] := 1, kinds[1] := 0, kinds[2] := 0];
            Counted(count, Pairs(kinds))
            && Symbols(count, Pairs(kinds)) == [Gt, Eq]
            && Changes([Unset, Unset], Symbols(count, Pairs(kinds))) == 2
  {
    ThreeKindsTwoPairs(kinds);
    var count := map[kinds[0] := 1, kinds[1] := 0, kinds[2] := 0];
    var s := Symbols(count, Pairs(kinds));
    SymbolsAt(count, Pairs(kinds), 0);
    SymbolsAt(count, Pairs(kinds), 1);
    assert s == [Gt, Eq];
    assert [Unset, Unset][..1] == [Unset] && s[..1] == [Gt];
    assert [Unset][..0] == [] && s[..1][..0] == [];
  }
}
