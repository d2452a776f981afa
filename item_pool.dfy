/** The item pool: choosing the three distinct item kinds one widget plays with.

    The page draws catalog entries at random and adds them to an insertion-ordered set
    until the set holds three kinds. The random source is modelled as a finite sequence
    of draw indices supplied by the caller; running out of draws stands for the loop
    not having finished (it never finishes when the catalog has fewer than three
    distinct entries). */
module ItemPool {
  import opened Wrappers

  /** An item kind is a catalog name such as "ball" or "duck". */
  type Kind = string

  /** How many kinds one widget selects. */
  const SelectedKinds: nat := 3

  ghost predicate Distinct(s: seq<Kind>)
  {
    forall i, j :: 0 <= i < j < |s| ==> s[i] != s[j]
  }

  /** The catalog entries named by the draws, in draw order. */
  function Drawn(catalog: seq<Kind>, draws: seq<nat>): (r: seq<Kind>)
    requires forall i :: 0 <= i < |draws| ==> draws[i] < |catalog|
    ensures |r| == |draws|
    ensures forall i :: 0 <= i < |draws| ==> r[i] == catalog[draws[i]]
  {
    seq(|draws|, i requires 0 <= i < |draws| => catalog[draws[i]])
  }

  /** The contents of an insertion-ordered set after adding the elements of s one by one:
      every kind of s, each once, in the order of its first occurrence. */
  function Dedup(s: seq<Kind>): (r: seq<Kind>)
    ensures Distinct(r)
    ensures forall x :: x in r <==> x in s
    ensures |r| <= |s|
    decreases |s|
  {
    if s == [] then []
    else
      var d := Dedup(s[..|s| - 1]);
      if s[|s| - 1] in d then d else d + [s[|s| - 1]]
  }

  /** Adding one element to the set keeps what was there and grows it by at most one. */
  lemma {:induction false} DedupStep(s: seq<Kind>, x: Kind)
    ensures (s + [x])[..|s|] == s
    ensures Dedup(s + [x]) == if x in Dedup(s) then Dedup(s) else Dedup(s) + [x]
  {
    assert (s + [x])[..|s|] == s;
  }

  /** The set built from a prefix of the draws is a prefix of the set built from all of
      them: later draws only ever append. */
  lemma {:induction false} DedupPrefix(s: seq<Kind>, n: nat)
    requires n <= |s|
    ensures |Dedup(s[..n])| <= |Dedup(s)|
    ensures Dedup(s[..n]) == Dedup(s)[..|Dedup(s[..n])|]
    decreases |s| - n
  {
    if n < |s| {
      var t := s[..|s| - 1];
      assert s == t + [s[|s| - 1]];
      assert s[..n] == t[..n];
      DedupPrefix(t, n);
      DedupStep(t, s[|s| - 1]);
    } else {
      assert s[..n] == s;
    }
  }

  /** A distinct sequence is no longer than the number of distinct kinds of any sequence
      that contains all of its elements. */
  lemma {:induction false} DistinctBound(a: seq<Kind>, b: seq<Kind>)
    requires Distinct(a)
    requires forall x :: x in a ==> x in b
    ensures |a| <= |Dedup(b)|
  {
    DistinctCard(a);
    DistinctCard(Dedup(b));
    assert (set x | x in a) <= (set x | x in Dedup(b));
    SubsetCard(set x | x in a, set x | x in Dedup(b));
  }

  lemma {:induction false} DistinctCard(a: seq<Kind>)
    requires Distinct(a)
    ensures |set x | x in a| == |a|
  {
    if a != [] {
      var t := a[1..];
      DistinctCard(t);
      assert (set x | x in a) == (set x | x in t) + {a[0]};
      assert a[0] !in t;
    }
  }

  lemma {:induction false} SubsetCard(u: set<Kind>, v: set<Kind>)
    requires u <= v
    ensures |u| <= |v|
    decreases u
  {
    if u != {} {
      var x :| x in u;
      SubsetCard(u - {x}, v - {x});
    }
  }

  /** Every kind the draws name is a catalog entry, and so is every kind of a prefix of
      the selection built from them. */
  lemma {:induction false} DrawnFromCatalog(catalog: seq<Kind>, draws: seq<nat>, n: nat)
    requires forall i :: 0 <= i < |draws| ==> draws[i] < |catalog|
    requires n <= |Dedup(Drawn(catalog, draws))|
    ensures forall k :: k in Dedup(Drawn(catalog, draws))[..n] ==> k in catalog
    ensures Distinct(Dedup(Drawn(catalog, draws))[..n])
  {
    var d := Dedup(Drawn(catalog, draws));
    forall k | k in d[..n] ensures k in catalog {
      assert k in d;
      var i :| 0 <= i < |draws| && Drawn(catalog, draws)[i] == k;
    }
  }

  /** When the set built from the first draws holds three kinds, those are the first three
      distinct kinds of all the draws. */
  lemma SelectionComplete(catalog: seq<Kind>, draws: seq<nat>, used: nat)
    requires forall i :: 0 <= i < |draws| ==> draws[i] < |catalog|
    requires used <= |draws| && |Dedup(Drawn(catalog, draws)[..used])| == SelectedKinds
    ensures |Dedup(Drawn(catalog, draws))| >= SelectedKinds
    ensures Dedup(Drawn(catalog, draws)[..used]) == Dedup(Drawn(catalog, draws))[..SelectedKinds]
    ensures Distinct(Dedup(Drawn(catalog, draws)[..used]))
    ensures forall k :: k in Dedup(Drawn(catalog, draws)[..used]) ==> k in catalog
  {
    DedupPrefix(Drawn(catalog, draws), used);
    DrawnFromCatalog(catalog, draws, SelectedKinds);
  }

  /** The page's kind selection: a do-while loop that adds a randomly drawn catalog entry
      to an insertion-ordered set until the set holds three kinds.
      Returns the selection (None when the draws run out first) and how many draws the
      loop consumed. */
  method SelectKinds(catalog: seq<Kind>, draws: seq<nat>) returns (r: Option<seq<Kind>>, used: nat)
    requires forall i :: 0 <= i < |draws| ==> draws[i] < |catalog|
    ensures r.Some? <==> |Dedup(Drawn(catalog, draws))| >= SelectedKinds
    ensures r.Some? ==> r.value == Dedup(Drawn(catalog, draws))[..SelectedKinds]
    ensures r.Some? ==> |r.value| == SelectedKinds && Distinct(r.value)
    ensures r.Some? ==> forall k :: k in r.value ==> k in catalog
    ensures r.Some? ==> 0 < used <= |draws|
                        && |Dedup(Drawn(catalog, draws)[..used])| == SelectedKinds
                        && |Dedup(Drawn(catalog, draws)[..used - 1])| < SelectedKinds
    ensures r.None? ==> used == |draws|
  {
    ghost var all := Drawn(catalog, draws);
    var items: seq<Kind> := [];
    used := 0;
    while |items| < SelectedKinds
      invariant used <= |draws|
      invariant items == Dedup(all[..used])
      invariant |items| <= SelectedKinds
      invariant used > 0 ==> |Dedup(all[..used - 1])| < SelectedKinds
      decreases |draws| - used
    {
      if used == |draws| {
        assert all[..used] == all;
        r := None;
        return;
      }
      var k := catalog[draws[used]];
      assert Dedup(all[..used + 1]) == if k in items then items else items + [k] by {
        assert all[..used + 1] == all[..used] + [k];
        DedupStep(all[..used], k);
      }
      if k !in items {
        items := items + [k];
      }
      used := used + 1;
    }
    SelectionComplete(catalog, draws, used);
    r := Some(items);
  }

  /** With fewer than three distinct catalog entries no sequence of draws completes the
      selection: the page's loop runs forever. */
  lemma {:induction false} SmallCatalogNeverSelects(catalog: seq<Kind>, draws: seq<nat>)
    requires forall i :: 0 <= i < |draws| ==> draws[i] < |catalog|
    requires |Dedup(catalog)| < SelectedKinds
    ensures |Dedup(Drawn(catalog, draws))| < SelectedKinds
  {
    var d := Dedup(Drawn(catalog, draws));
    forall x | x in d ensures x in catalog {
      var i :| 0 <= i < |draws| && Drawn(catalog, draws)[i] == x;
    }
    DistinctBound(d, catalog);
  }
}
