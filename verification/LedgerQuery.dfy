/** The filter builder and the pages of GET /api/analytics/transactions (server/routes/analytics.js). */
module LedgerQuery {
  import opened Analytics
  import opened Lex
  import opened Seqs
  import opened Sums
  import opened Wrappers

  // ---- Filters and placeholders ----------------------------------------------------------

  /** The four query parameters; an absent one is as good as an empty one. */
  datatype Filters = Filters(category: string, paymentMethod: string, fromDate: string, toDate: string)

  datatype Column = CategoryColumn | MethodColumn | DayColumn

  datatype Operator = Equal | AtLeast | AtMost

  /** `column operator $placeholder`. */
  datatype Condition = Condition(column: Column, operator: Operator, placeholder: nat)

  datatype Param = TextParam(text: string) | NumberParam(number: int)

  datatype Clause = Clause(conditions: seq<Condition>, params: seq<Param>)

  function Value(t: Tx, column: Column): Option<string> {
    match column
    case CategoryColumn => t.category
    case MethodColumn => t.paymentMethod
    case DayColumn => if t.createdAt.None? then None else Some(Prefix(t.createdAt.value, 10))
  }

  predicate Compare(a: string, operator: Operator, b: string) {
    match operator
    case Equal => a == b
    case AtLeast => !Less(a, b)
    case AtMost => !Less(b, a)
  }

  /** What PostgreSQL makes of a condition: a NULL column or an unbound or ill-typed placeholder selects nothing. */
  predicate HoldsOne(condition: Condition, params: seq<Param>, t: Tx) {
    var v, n := Value(t, condition.column), condition.placeholder;
    v.Some? && 1 <= n <= |params| && params[n - 1].TextParam? && Compare(v.value, condition.operator, params[n - 1].text)
  }

  /** WHERE c1 AND c2 AND ...; without conditions there is no WHERE. */
  predicate Holds(conditions: seq<Condition>, params: seq<Param>, t: Tx) {
    forall c :: c in conditions ==> HoldsOne(c, params, t)
  }

  /** `if (value) { conditions.push(...); params.push(value); }` */
  function Push(clause: Clause, column: Column, operator: Operator, value: string): Clause {
    if value == "" then clause
    else Clause(clause.conditions + [Condition(column, operator, |clause.params| + 1)], clause.params + [TextParam(value)])
  }

  function Where(f: Filters): Clause {
    Push(Push(Push(Push(Clause([], []), CategoryColumn, Equal, f.category),
                   MethodColumn, Equal, f.paymentMethod),
              DayColumn, AtLeast, f.fromDate),
         DayColumn, AtMost, f.toDate)
  }

  method BuildWhere(f: Filters) returns (conditions: seq<Condition>, params: seq<Param>)
    ensures Clause(conditions, params) == Where(f)
  {
    conditions, params := [], [];
    if f.category != "" {
      conditions := conditions + [Condition(CategoryColumn, Equal, |params| + 1)];
      params := params + [TextParam(f.category)];
    }
    if f.paymentMethod != "" {
      conditions := conditions + [Condition(MethodColumn, Equal, |params| + 1)];
      params := params + [TextParam(f.paymentMethod)];
    }
    if f.fromDate != "" {
      conditions := conditions + [Condition(DayColumn, AtLeast, |params| + 1)];
      params := params + [TextParam(f.fromDate)];
    }
    if f.toDate != "" {
      conditions := conditions + [Condition(DayColumn, AtMost, |params| + 1)];
      params := params + [TextParam(f.toDate)];
    }
  }

  /** One filter, said without placeholders. */
  predicate Passes(t: Tx, column: Column, operator: Operator, value: string) {
    value != "" ==> Value(t, column).Some? && Compare(Value(t, column).value, operator, value)
  }

  /** The first ten characters of a time, its day. */
  predicate IsDay(time: string, day: string) {
    if |time| <= 10 then day == time else |day| == 10 && day <= time
  }

  /**
   What a set of filters asks for: the category and the method given, and a day between the two days
   given, both included.
   */
  ghost predicate Matches(f: Filters, t: Tx) {
    && (f.category != "" ==> t.category == Some(f.category))
    && (f.paymentMethod != "" ==> t.paymentMethod == Some(f.paymentMethod))
    && (f.fromDate != "" ==>
          t.createdAt.Some? && exists day :: IsDay(t.createdAt.value, day) && !Less(day, f.fromDate))
    && (f.toDate != "" ==>
          t.createdAt.Some? && exists day :: IsDay(t.createdAt.value, day) && !Less(f.toDate, day))
  }

  lemma PrefixIsDay(time: string, day: string)
    ensures IsDay(time, day) <==> day == Prefix(time, 10)
  {
  }

  lemma PassesDays(t: Tx, value: string)
    requires value != "" && t.createdAt.Some?
    ensures Passes(t, DayColumn, AtLeast, value) <==> exists day :: IsDay(t.createdAt.value, day) && !Less(day, value)
    ensures Passes(t, DayColumn, AtMost, value) <==> exists day :: IsDay(t.createdAt.value, day) && !Less(value, day)
  {
    var day := Prefix(t.createdAt.value, 10);
    PrefixIsDay(t.createdAt.value, day);
    if other :| IsDay(t.createdAt.value, other) && !Less(other, value) { PrefixIsDay(t.createdAt.value, other); }
    if other :| IsDay(t.createdAt.value, other) && !Less(value, other) { PrefixIsDay(t.createdAt.value, other); }
  }

  lemma MatchesIsPasses(f: Filters, t: Tx)
    ensures Matches(f, t) <==>
      && Passes(t, CategoryColumn, Equal, f.category) && Passes(t, MethodColumn, Equal, f.paymentMethod)
      && Passes(t, DayColumn, AtLeast, f.fromDate) && Passes(t, DayColumn, AtMost, f.toDate)
  {
    if t.createdAt.Some? && f.fromDate != "" { PassesDays(t, f.fromDate); }
    if t.createdAt.Some? && f.toDate != "" { PassesDays(t, f.toDate); }
  }

  /** Placeholders number the conditions from 1, and there is a text parameter for each. */
  predicate Numbered(clause: Clause) {
    && |clause.params| == |clause.conditions|
    && (forall i :: 0 <= i < |clause.conditions| ==>
          clause.conditions[i].placeholder == i + 1 && clause.params[i].TextParam?)
  }

  /** A pushed filter adds its own condition; whatever parameters follow later change nothing. */
  lemma PushMeans(clause: Clause, column: Column, operator: Operator, value: string, more: seq<Param>, t: Tx)
    requires Numbered(clause)
    ensures var pushed := Push(clause, column, operator, value);
      && Numbered(pushed)
      && (Holds(pushed.conditions, pushed.params + more, t) <==>
            Holds(clause.conditions, clause.params + more, t) && Passes(t, column, operator, value))
  {
    if value != "" {
      var pushed := Push(clause, column, operator, value);
      var added := pushed.conditions[|clause.conditions|];
      var params, params' := clause.params + more, pushed.params + more;
      forall c | c in clause.conditions ensures HoldsOne(c, params, t) <==> HoldsOne(c, params', t) {
        var i :| 0 <= i < |clause.conditions| && clause.conditions[i] == c;
        assert params[i] == params'[i] == clause.params[i];
      }
      assert params'[|clause.params|] == TextParam(value);
      assert HoldsOne(added, params', t) <==> Passes(t, column, operator, value);
      assert added in pushed.conditions;
      forall c | c in clause.conditions ensures c in pushed.conditions {}
    }
  }

  /**
   For every choice of filters the numbered clause selects exactly the rows that meet the
   filters given, also with LIMIT and OFFSET appended, which the next two numbers bind.
   */
  lemma WhereMeansFilters(f: Filters, limit: int, offset: int, t: Tx)
    ensures var clause := Where(f);
      var all := clause.params + [NumberParam(limit), NumberParam(offset)];
      && (Holds(clause.conditions, clause.params, t) <==> Matches(f, t))
      && (Holds(clause.conditions, all, t) <==> Matches(f, t))
      && all[(|clause.params| + 1) - 1] == NumberParam(limit)
      && all[(|clause.params| + 2) - 1] == NumberParam(offset)
  {
    var page := [NumberParam(limit), NumberParam(offset)];
    FourPushes(f, [], t);
    FourPushes(f, page, t);
    assert Where(f).params + [] == Where(f).params;
  }

  lemma FourPushes(f: Filters, more: seq<Param>, t: Tx)
    ensures Holds(Where(f).conditions, Where(f).params + more, t) <==> Matches(f, t)
  {
    MatchesIsPasses(f, t);
    var none := Clause([], []);
    var one := Push(none, CategoryColumn, Equal, f.category);
    var two := Push(one, MethodColumn, Equal, f.paymentMethod);
    var three := Push(two, DayColumn, AtLeast, f.fromDate);
    PushMeans(none, CategoryColumn, Equal, f.category, more, t);
    PushMeans(one, MethodColumn, Equal, f.paymentMethod, more, t);
    PushMeans(two, DayColumn, AtLeast, f.fromDate, more, t);
    PushMeans(three, DayColumn, AtMost, f.toDate, more, t);
  }

  // ---- Pages -------------------------------------------------------------------------------

  /** ORDER BY created_at DESC: NULLs come first. */
  predicate Before(a: Tx, b: Tx) {
    if a.createdAt.None? then b.createdAt.Some?
    else b.createdAt.Some? && Less(b.createdAt.value, a.createdAt.value)
  }

  /** A listing the database may produce: every row once, no row after one that must follow it. */
  ghost predicate IsListing(listing: seq<Tx>, rows: seq<Tx>) {
    && SameElements(listing, rows) && Distinct(listing)
    && (forall i, j :: 0 <= i < j < |listing| ==> !Before(listing[j], listing[i]))
  }

  function Min(a: nat, b: nat): nat {
    if a < b then a else b
  }

  /** LIMIT limit OFFSET offset. */
  function Page(listing: seq<Tx>, limit: nat, offset: nat): seq<Tx> {
    var start := Min(offset, |listing|);
    listing[start..Min(offset + limit, |listing|)]
  }

  ghost predicate DistinctTimes(rows: seq<Tx>) {
    forall a, b :: a in rows && b in rows && a.createdAt == b.createdAt ==> a == b
  }

  lemma BeforeAsymmetric()
    ensures forall a, b :: Before(a, b) ==> !Before(b, a)
  {
    forall a, b | Before(a, b) ensures !Before(b, a) {
      if a.createdAt.Some? { LessAsymmetric(b.createdAt.value, a.createdAt.value); }
    }
  }

  lemma ListingStrict(listing: seq<Tx>, rows: seq<Tx>)
    requires IsListing(listing, rows) && DistinctTimes(rows)
    ensures SortedBy(Before, listing)
  {
    forall i, j | 0 <= i < j < |listing| ensures Before(listing[i], listing[j]) {
      var a, b := listing[i], listing[j];
      assert a in listing && b in listing;
      assert a in rows && b in rows && a != b;
      if a.createdAt.Some? && b.createdAt.Some? { LessTotal(a.createdAt.value, b.createdAt.value); }
    }
  }

  /** No row is newer than one listed before it, and rows without a time come first. */
  lemma NewestFirst(listing: seq<Tx>, rows: seq<Tx>, i: nat, j: nat)
    requires IsListing(listing, rows) && i < j < |listing|
    ensures listing[j].createdAt.None? ==> listing[i].createdAt.None?
    ensures listing[i].createdAt.Some? && listing[j].createdAt.Some? ==>
      !Less(listing[i].createdAt.value, listing[j].createdAt.value)
  {
    assert !Before(listing[j], listing[i]);
  }

  /** With distinct times there is one listing only. */
  lemma ListingUnique(a: seq<Tx>, b: seq<Tx>, rows: seq<Tx>)
    requires IsListing(a, rows) && IsListing(b, rows) && DistinctTimes(rows)
    ensures a == b
  {
    ListingStrict(a, rows);
    ListingStrict(b, rows);
    BeforeAsymmetric();
    SortedUnique(Before, a, b);
  }

  /** The first `n` pages, each cut from whatever listing its own query produced. */
  function Pages(listings: seq<seq<Tx>>, limit: nat, n: nat): seq<Tx>
    requires n <= |listings|
  {
    if n == 0 then [] else Pages(listings, limit, n - 1) + Page(listings[n - 1], limit, (n - 1) * limit)
  }

  lemma {:induction false} PagesArePrefix(listing: seq<Tx>, listings: seq<seq<Tx>>, limit: nat, n: nat)
    requires n <= |listings| && forall i :: 0 <= i < n ==> listings[i] == listing
    ensures Pages(listings, limit, n) == listing[..Min(n * limit, |listing|)]
  {
    if n > 0 {
      PagesArePrefix(listing, listings, limit, n - 1);
      assert n * limit == (n - 1) * limit + limit;
      var start, end := Min((n - 1) * limit, |listing|), Min(n * limit, |listing|);
      assert listing[..start] + listing[start..end] == listing[..end];
    }
  }

  /**
   Successive pages tile the filtered list, without gap or overlap, although every page is a
   query of its own: with distinct creation times, n pages hold the first n * limit rows.
   */
  lemma PagesTile(rows: seq<Tx>, f: Filters, listing: seq<Tx>, listings: seq<seq<Tx>>, limit: nat, n: nat)
    requires n <= |listings| && DistinctTimes(Select(rows, (t: Tx) => Matches(f, t)))
    requires IsListing(listing, Select(rows, (t: Tx) => Matches(f, t)))
    requires forall l :: l in listings ==> IsListing(l, Select(rows, (t: Tx) => Matches(f, t)))
    ensures Pages(listings, limit, n) == listing[..Min(n * limit, |listing|)]
    ensures n * limit >= |listing| ==> Pages(listings, limit, n) == listing
  {
    forall l | l in listings ensures l == listing {
      ListingUnique(l, listing, Select(rows, (t: Tx) => Matches(f, t)));
    }
    assert forall i :: 0 <= i < n ==> listings[i] in listings;
    PagesArePrefix(listing, listings, limit, n);
  }
}
