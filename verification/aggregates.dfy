/** Counting aggregates shared by `/stats/summary` and the dashboard: the
    per-company tallies and `country_name, COUNT(*) ... GROUP BY country_name
    ORDER BY count DESC`. */
module Aggregates {
  import opened Common
  import opened Sorting
  import opened Grouping
  import opened Schema

  /** Status ids with a fixed meaning in `new_companies_status`. */
  const ActiveStatus := 1
  const InactiveStatus := 3

  /** Counters of `COUNT(CASE WHEN … THEN 1 END)` over `new_companies`. */
  datatype Tally = Tally(
    total: nat,              // COUNT(*)
    active: nat,             // new_companies_status_id = 1
    inactive: nat,           // new_companies_status_id = 3
    borsdataAvailable: nat,  // borsdata_available = 1
    withYield: nat)          // yield IS NOT NULL AND yield > 0

  predicate HasYield(c: Company) {
    c.yieldHundredths.Some? && c.yieldHundredths.value > 0
  }

  /** The counters one company contributes. */
  function TallyOf(c: Company): Tally {
    Tally(1,
      if c.statusId == Some(ActiveStatus) then 1 else 0,
      if c.statusId == Some(InactiveStatus) then 1 else 0,
      if c.borsdataAvailable == Some(1) then 1 else 0,
      if HasYield(c) then 1 else 0)
  }

  function Plus(a: Tally, b: Tally): Tally {
    Tally(a.total + b.total, a.active + b.active, a.inactive + b.inactive,
      a.borsdataAvailable + b.borsdataAvailable, a.withYield + b.withYield)
  }

  /** The counters over a whole table. No row is active and inactive at once,
      so the two together never exceed the total. */
  function Count(cs: seq<Company>): (t: Tally)
    ensures t.total == |cs|
    ensures t.active + t.inactive <= t.total
    ensures t.borsdataAvailable <= t.total
    ensures t.withYield <= t.total
  {
    if |cs| == 0 then Tally(0, 0, 0, 0, 0)
    else Plus(Count(cs[..|cs| - 1]), TallyOf(cs[|cs| - 1]))
  }

  lemma PlusAssociative(x: Tally, y: Tally, z: Tally)
    ensures Plus(Plus(x, y), z) == Plus(x, Plus(y, z))
  {
    var l := Plus(Plus(x, y), z);
    var r := Plus(x, Plus(y, z));
    assert l.total == r.total && l.active == r.active && l.inactive == r.inactive;
    assert l.borsdataAvailable == r.borsdataAvailable && l.withYield == r.withYield;
  }

  lemma PlusZero(x: Tally)
    ensures Plus(x, Tally(0, 0, 0, 0, 0)) == x
  {
  }

  /** Counting is additive: the tallies of two halves of a table add up. */
  lemma {:induction false} CountAppend(a: seq<Company>, b: seq<Company>)
    ensures Count(a + b) == Plus(Count(a), Count(b))
  {
    if |b| == 0 {
      assert a + b == a;
      var zero := Tally(0, 0, 0, 0, 0);
      assert Count(b) == zero;
      PlusZero(Count(a));
    } else {
      var front := b[..|b| - 1];
      var last := b[|b| - 1];
      assert (a + b)[..|a + b| - 1] == a + front;
      assert (a + b)[|a + b| - 1] == last;
      CountAppend(a, front);
      calc {
        Count(a + b);
        Plus(Count(a + front), TallyOf(last));
        Plus(Plus(Count(a), Count(front)), TallyOf(last));
        { PlusAssociative(Count(a), Count(front), TallyOf(last)); }
        Plus(Count(a), Plus(Count(front), TallyOf(last)));
        Plus(Count(a), Count(b));
      }
    }
  }

  /** A table with one row counts exactly that row. */
  lemma CountSingle(c: Company)
    ensures Count([c]) == TallyOf(c)
  {
    assert [c][..0] == [];
    var zero := Tally(0, 0, 0, 0, 0);
    assert Count([]) == zero;
    assert Count([c]) == Plus(zero, TallyOf(c));
  }

  /** The non-NULL `country_name` values, one per such row, in table order. */
  function NonNullCountries(cs: seq<Company>): (r: seq<string>)
    ensures |r| <= |cs|
    ensures forall k :: k in r <==> exists i :: 0 <= i < |cs| && cs[i].countryName == Some(k)
  {
    if |cs| == 0 then []
    else
      var rest := NonNullCountries(cs[1..]);
      assert forall i :: 1 <= i < |cs| ==> cs[i] == cs[1..][i - 1];
      (if cs[0].countryName.Some? then [cs[0].countryName.value] else []) + rest
  }

  /** Groups with larger counts first. */
  predicate CountDesc(a: Group<string>, b: Group<string>) {
    a.count >= b.count
  }

  lemma CountDescPreorder()
    ensures TotalPreorder(CountDesc)
  {
  }

  /** `SELECT country_name, COUNT(*) … WHERE country_name IS NOT NULL GROUP BY
      country_name ORDER BY count DESC`: one group per non-NULL country label,
      largest count first (ties keep first-appearance order). */
  function CountryCounts(cs: seq<Company>): (r: seq<Group<string>>)
    ensures DistinctKeys(r)
    ensures forall k :: HasKey(r, k) <==> exists i :: 0 <= i < |cs| && cs[i].countryName == Some(k)
    ensures forall i :: 0 <= i < |r| ==> r[i].count == Occurrences(NonNullCountries(cs), r[i].key) > 0
    ensures SortedBy(CountDesc, r)
  {
    var gs := GroupCount(NonNullCountries(cs));
    CountDescPreorder();
    var r := Sort(CountDesc, gs);
    GroupsPermutation(gs, r);
    assert forall i :: 0 <= i < |r| ==> exists j :: 0 <= j < |gs| && r[i] == gs[j];
    r
  }
}
