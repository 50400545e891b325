/** The fifth admin dashboard page: the first page's concatenated search with
    only three tabs, the four most recent claims, the rescue rate and the four
    busiest locations. */
module Dashboard5 {
  import opened FoodRecord
  import opened DashboardCommon
  import Dashboard

  /** The tab buttons: `all`, `available` and `taken`; there is no expired tab. */
  const Tabs: seq<Tab> := [AllTab, Only(Available), Only(Taken)]

  /** An expired food is listed only under the `all` tab. */
  lemma ExpiredOnlyUnderAll(foods: seq<Listed>, tab: Tab, search: string, f: Listed)
    requires tab in Tabs && f.status == Expired
    requires f in Dashboard.Rows(foods, tab, search)
    ensures tab == AllTab
  {
  }

  /** `claims`: the first four taken foods in fetched order. */
  function Claims(foods: seq<Listed>): (r: seq<Listed>)
    ensures |r| <= 4
    ensures forall x :: x in r ==> x in foods && x.status == Taken
    ensures var taken := Keep(foods, IsTaken);
      r == taken[..if |taken| <= 4 then |taken| else 4]
  {
    FirstTaken(foods, 4)
  }

  /** `locs`: the histogram reduce, sorted by count and cut to four. */
  method Locs(foods: seq<Listed>) returns (locs: seq<LocCount>)
    ensures IsRanking(locs, foods, 4)
  {
    locs := RankLocations(foods, 4);
  }
}
