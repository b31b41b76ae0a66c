/** When pages cut from separate queries tile a list although creation times may be equal. */
module Paging {
  import opened Analytics
  import opened LedgerQuery
  import opened Lex
  import opened Seqs

  ghost predicate Listings(listings: seq<seq<Tx>>, rows: seq<Tx>) {
    forall l :: l in listings ==> IsListing(l, rows)
  }

  /** Every row on exactly one page. */
  ghost predicate Tile(pages: seq<Tx>, rows: seq<Tx>) {
    Distinct(pages) && SameElements(pages, rows)
  }

  function Offset(k: nat, limit: nat): nat { k * limit }

  /** No page ends between two rows of one creation time. */
  ghost predicate CleanCuts(listing: seq<Tx>, limit: nat) {
    forall k: nat :: 0 < Offset(k, limit) < |listing| ==>
      listing[Offset(k, limit) - 1].createdAt != listing[Offset(k, limit)].createdAt
  }

  // ---- Clean cuts are enough -----------------------------------------------------------------

  lemma Separated(p: Tx, q: Tx, x: Tx, y: Tx)
    requires Before(p, q) && !Before(p, x) && !Before(y, q)
    ensures Before(x, y)
  {
    if p.createdAt.Some? && x.createdAt.Some? {
      var a, b, c := x.createdAt.value, p.createdAt.value, q.createdAt.value;
      LessTotal(a, b);
      if Less(c, b) && Less(b, a) { LessTransitive(c, b, a); }
      if y.createdAt.Some? {
        var d := y.createdAt.value;
        LessTotal(d, c);
        if Less(d, c) { LessTransitive(d, c, a); }
      }
    } else if q.createdAt.Some? && y.createdAt.Some? {
      LessTotal(y.createdAt.value, q.createdAt.value);
    }
  }

  /** Across a clean cut every earlier row must come before every later one. */
  lemma CutOrders(listing: seq<Tx>, rows: seq<Tx>, b: nat, i: nat, j: nat)
    requires IsListing(listing, rows) && i < b <= j < |listing| && listing[b - 1].createdAt != listing[b].createdAt
    ensures Before(listing[i], listing[j])
  {
    var p, q := listing[b - 1], listing[b];
    if p.createdAt.Some? && q.createdAt.Some? { LessTotal(p.createdAt.value, q.createdAt.value); }
    assert !Before(q, p) && Before(p, q);
    BeforeAsymmetric();
    Separated(p, q, listing[i], listing[j]);
  }

  lemma SubsetSize<T>(a: set<T>, b: set<T>)
    requires a <= b
    ensures |a| <= |b| && (|a| == |b| ==> a == b)
  {
    assert b == a + (b - a);
  }

  lemma SameSize(l: seq<Tx>, listing: seq<Tx>, rows: seq<Tx>)
    requires IsListing(l, rows) && IsListing(listing, rows)
    ensures |l| == |listing| && Elements(l) == Elements(listing)
  {
    DistinctSize(l);
    DistinctSize(listing);
    assert forall x :: (x in l <==> x in rows) && (x in listing <==> x in rows);
    assert Elements(l) == Elements(listing);
  }

  lemma PrefixSize(l: seq<Tx>, b: nat)
    requires Distinct(l) && b <= |l|
    ensures |Elements(l[..b])| == b
  {
    DistinctSize(l[..b]);
  }

  /** So every listing has the same rows before it. */
  lemma CutFixes(l: seq<Tx>, listing: seq<Tx>, rows: seq<Tx>, b: nat)
    requires IsListing(l, rows) && IsListing(listing, rows) && b <= |listing|
    requires 0 < b < |listing| ==> listing[b - 1].createdAt != listing[b].createdAt
    ensures |l| == |listing| && Elements(l[..b]) == Elements(listing[..b])
  {
    SameSize(l, listing, rows);
    PrefixSize(l, b);
    PrefixSize(listing, b);
    if b == |l| {
      assert l[..b] == l && listing[..b] == listing;
    } else {
      var before := Elements(listing[..b]);
      forall i | 0 <= i < b ensures l[i] in before { EarlyRow(l, listing, rows, b, i); }
      SubsetSize(Elements(l[..b]), before);
    }
  }

  lemma EarlyRow(l: seq<Tx>, listing: seq<Tx>, rows: seq<Tx>, b: nat, i: nat)
    requires IsListing(l, rows) && IsListing(listing, rows) && i < b < |listing| == |l|
    requires listing[b - 1].createdAt != listing[b].createdAt
    ensures l[i] in Elements(listing[..b])
  {
    var before := Elements(listing[..b]);
    if l[i] !in before {
      forall x | x in before ensures x in Elements(l[..i]) {
        assert x in listing && x in l;
        var j :| 0 <= j < |l| && l[j] == x;
        if j > i { NotOvertaken(l, listing, rows, b, i, j); }
      }
      PrefixSize(l, i);
      PrefixSize(listing, b);
      SubsetSize(before, Elements(l[..i]));
    }
  }

  /** A row from before the cut does not come after one from behind it. */
  lemma NotOvertaken(l: seq<Tx>, listing: seq<Tx>, rows: seq<Tx>, b: nat, i: nat, j: nat)
    requires IsListing(l, rows) && IsListing(listing, rows) && i < j < |l| && 0 < b < |listing|
    requires listing[b - 1].createdAt != listing[b].createdAt && l[j] in listing[..b]
    ensures l[i] in listing[..b]
  {
    assert l[i] in l && l[i] in listing;
    var u :| 0 <= u < b && listing[u] == l[j];
    var v :| 0 <= v < |listing| && listing[v] == l[i];
    if v >= b {
      assert !Before(l[j], l[i]);
      CutOrders(listing, rows, b, u, v);
    } else {
      assert listing[..b][v] == l[i];
    }
  }

  lemma CutAt(listing: seq<Tx>, limit: nat, k: nat)
    requires CleanCuts(listing, limit)
    ensures var b := Min(k * limit, |listing|);
      0 < b < |listing| ==> listing[b - 1].createdAt != listing[b].createdAt
  {
    assert Offset(k, limit) == k * limit;
  }

  lemma SliceElements(l: seq<Tx>, start: nat, end: nat)
    requires start <= end <= |l| && Distinct(l)
    ensures Elements(l[..end]) == Elements(l[..start]) + Elements(l[start..end])
    ensures Elements(l[..start]) !! Elements(l[start..end])
  {
    assert l[..end] == l[..start] + l[start..end];
  }

  lemma AddSlice(pages: seq<Tx>, l: seq<Tx>, start: nat, end: nat)
    requires start <= end <= |l| && Distinct(l) && Distinct(pages) && Elements(pages) == Elements(l[..start])
    ensures Distinct(pages + l[start..end]) && Elements(pages + l[start..end]) == Elements(l[..end])
  {
    SliceElements(l, start, end);
    forall x | x in l[start..end] ensures x !in pages {
      assert x in Elements(l[start..end]);
      assert x in pages ==> x in Elements(pages);
    }
    DistinctConcat(pages, l[start..end]);
  }

  /** With clean cuts the first n pages hold the first n * limit rows, in whatever order within each page. */
  lemma {:induction false} PagesFixed(rows: seq<Tx>, listing: seq<Tx>, listings: seq<seq<Tx>>, limit: nat, n: nat)
    requires n <= |listings| && Listings(listings, rows) && IsListing(listing, rows)
    requires CleanCuts(listing, limit)
    ensures Distinct(Pages(listings, limit, n))
    ensures Elements(Pages(listings, limit, n)) == Elements(listing[..Min(n * limit, |listing|)])
  {
    if n == 0 {
      assert Elements(listing[..0]) == {};
    } else {
      var l := listings[n - 1];
      assert n * limit == (n - 1) * limit + limit;
      var start, end := Min((n - 1) * limit, |listing|), Min(n * limit, |listing|);
      PagesFixed(rows, listing, listings, limit, n - 1);
      CutAt(listing, limit, n - 1);
      CutAt(listing, limit, n);
      CutFixes(l, listing, rows, start);
      CutFixes(l, listing, rows, end);
      AddSlice(Pages(listings, limit, n - 1), l, start, end);
    }
  }

  // ---- Clean cuts are needed -----------------------------------------------------------------

  function Swap(listing: seq<Tx>, b: nat): (swapped: seq<Tx>)
    requires 0 < b < |listing|
    ensures |swapped| == |listing|
  {
    listing[b - 1 := listing[b]][b := listing[b - 1]]
  }

  /** Neighbours of one creation time may come in either order. */
  lemma SwapIsListing(listing: seq<Tx>, rows: seq<Tx>, b: nat)
    requires IsListing(listing, rows) && 0 < b < |listing| && listing[b - 1].createdAt == listing[b].createdAt
    ensures IsListing(Swap(listing, b), rows)
  {
    var swapped := Swap(listing, b);
    assert forall i :: 0 <= i < |swapped| ==> swapped[i].createdAt == listing[i].createdAt;
    assert listing[b - 1] == swapped[b] && listing[b] == swapped[b - 1];
    assert forall i :: 0 <= i < |swapped| && i != b && i != b - 1 ==> swapped[i] == listing[i];
    assert SameElements(swapped, listing);
    forall i, j | 0 <= i < j < |swapped| ensures !Before(swapped[j], swapped[i]) {
      assert !Before(listing[j], listing[i]);
    }
  }

  lemma {:induction false} PagesGrow(listings: seq<seq<Tx>>, limit: nat, k: nat, n: nat)
    requires k <= n <= |listings|
    ensures Pages(listings, limit, k) <= Pages(listings, limit, n)
  {
    if k < n { PagesGrow(listings, limit, k, n - 1); }
  }

  /** A tie at the end of page k lets its last row come back on the next one. */
  lemma TieRepeats(rows: seq<Tx>, listing: seq<Tx>, limit: nat, n: nat, k: nat) returns (listings: seq<seq<Tx>>)
    requires n * limit >= |listing| && IsListing(listing, rows) && 0 < k * limit < |listing|
    requires listing[k * limit - 1].createdAt == listing[k * limit].createdAt
    ensures |listings| == n && Listings(listings, rows) && !Distinct(Pages(listings, limit, n))
  {
    var b := k * limit;
    var swapped := Swap(listing, b);
    if k >= n { Larger(n, k, limit); }
    listings := seq(n, i => if i == k then swapped else listing);
    SwapIsListing(listing, rows, b);
    RowTwice(listing, swapped, listings, limit, n, k);
  }

  lemma RowTwice(listing: seq<Tx>, swapped: seq<Tx>, listings: seq<seq<Tx>>, limit: nat, n: nat, k: nat)
    requires 0 < k * limit < |listing| && swapped == Swap(listing, k * limit)
    requires k < n == |listings| && listings[k] == swapped && forall i :: 0 <= i < k ==> listings[i] == listing
    ensures !Distinct(Pages(listings, limit, n))
  {
    var b := k * limit;
    TwicePage(listing, swapped, listings, limit, k);
    PagesGrow(listings, limit, k + 1, n);
    assert Pages(listings, limit, n)[b - 1] == Pages(listings, limit, n)[b];
  }

  lemma TwicePage(listing: seq<Tx>, swapped: seq<Tx>, listings: seq<seq<Tx>>, limit: nat, k: nat)
    requires 0 < k * limit < |listing| && swapped == Swap(listing, k * limit)
    requires k < |listings| && listings[k] == swapped && forall i :: 0 <= i < k ==> listings[i] == listing
    ensures var pages, b := Pages(listings, limit, k + 1), k * limit; |pages| > b && pages[b - 1] == pages[b]
  {
    var b := k * limit;
    PagesArePrefix(listing, listings, limit, k);
    assert limit > 0;
    assert Pages(listings, limit, k + 1) == listing[..b] + Page(swapped, limit, b);
  }

  lemma {:induction false} Larger(n: nat, k: nat, limit: nat)
    requires n <= k
    ensures n * limit <= k * limit
  {
    if n < k {
      Larger(n, k - 1, limit);
      assert k * limit == (k - 1) * limit + limit;
    }
  }

  /**
   Pages that cover a list tile it, whatever listing each page's own query produced, iff no page
   ends between two rows of one creation time. One listing tells, as all have the same times in
   the same order.
   */
  lemma PagesTileIff(rows: seq<Tx>, listing: seq<Tx>, limit: nat, n: nat)
    requires n * limit >= |listing| && IsListing(listing, rows)
    ensures (forall listings :: |listings| == n && Listings(listings, rows) ==> Tile(Pages(listings, limit, n), rows)) <==>
      CleanCuts(listing, limit)
  {
    if CleanCuts(listing, limit) {
      forall listings | |listings| == n && Listings(listings, rows) ensures Tile(Pages(listings, limit, n), rows) {
        PagesFixed(rows, listing, listings, limit, n);
        assert listing[..Min(n * limit, |listing|)] == listing;
        assert forall x :: x in Pages(listings, limit, n) <==> x in Elements(listing);
      }
    } else {
      var k: nat :| 0 < Offset(k, limit) < |listing| &&
        listing[Offset(k, limit) - 1].createdAt == listing[Offset(k, limit)].createdAt;
      var listings := TieRepeats(rows, listing, limit, n, k);
      assert !Tile(Pages(listings, limit, n), rows);
    }
  }

  /** Two rows of one time on pages of one: the same row twice and the other never. */
  lemma TiesMayRepeat(a: Tx, b: Tx)
    requires a != b && a.createdAt == b.createdAt
    ensures IsListing([a, b], [a, b]) && IsListing([b, a], [a, b])
    ensures Pages([[a, b], [b, a]], 1, 2) == [a, a]
  {
    BeforeAsymmetric();
    assert Pages([[a, b], [b, a]], 1, 0) == [];
    assert Pages([[a, b], [b, a]], 1, 1) == [a];
  }
}
