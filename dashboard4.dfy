/** The fourth admin dashboard page: a search over title and location only,
    the four most recent claims, the rescue rate, the four busiest locations,
    and a delete that drops the food locally before refetching. */
module Dashboard4 {
  import opened Wrappers
  import opened FoodRecord
  import opened DashboardCommon
  import Dashboard3

  /** The lowercased query occurs in the title or in the location; the poster
      name is not searched. */
  predicate SearchHit(f: Listed, query: string) {
    Contains(Lower(f.title), Lower(query)) || Contains(Lower(f.location), Lower(query))
  }

  /** `filtered`: the fetched foods on the chosen tab that match the query, in
      fetched order. */
  function Filtered(foods: seq<Listed>, activeTab: Tab, query: string): (r: seq<Listed>)
    ensures |r| <= |foods|
    ensures forall f :: f in r <==> f in foods && OnTab(activeTab, f) && SearchHit(f, query)
  {
    Keep(foods, f => OnTab(activeTab, f) && SearchHit(f, query))
  }

  /** Every food this page lists is also listed by the per-field search of the
      third dashboard for the same tab and query. */
  lemma FilteredWithinFilteredFoods(foods: seq<Listed>, tab: Tab, query: string)
    ensures forall f :: f in Filtered(foods, tab, query) ==> f in Dashboard3.FilteredFoods(foods, tab, query)
  {
  }

  /** The containment is strict: a query found only in the poster's name is
      found by the third dashboard and not by this one. */
  lemma PosterNameNotSearched()
    ensures var f := Listed(1, "a", "b", Available, Some("c"), 0);
      f in Dashboard3.FilteredFoods([f], AllTab, "c") && f !in Filtered([f], AllTab, "c")
  {
    var f := Listed(1, "a", "b", Available, Some("c"), 0);
    assert Lower("a") == "a" && Lower("b") == "b" && Lower("c") == "c";
    assert "c" <= "c"[0..];
    assert !Contains("a", "c") by {
      forall i | 0 <= i <= 1 ensures !("c" <= "a"[i..]) {
        if i == 0 {
          assert "a"[0..][0] != "c"[0];
        }
      }
    }
    assert !Contains("b", "c") by {
      forall i | 0 <= i <= 1 ensures !("c" <= "b"[i..]) {
        if i == 0 {
          assert "b"[0..][0] != "c"[0];
        }
      }
    }
  }

  /** `recentClaims`: the first four taken foods in fetched order. */
  function RecentClaims(foods: seq<Listed>): (r: seq<Listed>)
    ensures |r| <= 4
    ensures forall x :: x in r ==> x in foods && x.status == Taken
    ensures var taken := Keep(foods, IsTaken);
      r == taken[..if |taken| <= 4 then |taken| else 4]
  {
    FirstTaken(foods, 4)
  }

  /** `topLocs`: the histogram reduce, sorted by count and cut to four. */
  method TopLocs(foods: seq<Listed>) returns (top: seq<LocCount>)
    ensures IsRanking(top, foods, 4)
  {
    top := RankLocations(foods, 4);
  }

  /** `handleDelete`: nothing happens when the confirm dialog is declined.
      After a successful request the food with that id leaves the list and a
      refetch starts, the stats left to it; a failure leaves the list and
      alerts. `deleteLoading` ends cleared either way. */
  method HandleDelete(p: PanelState, id: int, confirmed: bool, response: DeleteResponse)
    returns (sent: bool, refetch: bool, alert: Option<string>)
    modifies p
    ensures sent == confirmed
    ensures refetch <==> confirmed && response.Deleted?
    ensures !confirmed ==> unchanged(p) && alert.None?
    ensures confirmed ==> p.deleting.None?
    ensures p.stats == old(p.stats) && p.loading == old(p.loading)
    ensures confirmed && response.Deleted? ==> alert.None? && p.foods == WithoutId(old(p.foods), id)
    ensures confirmed && response.DeleteFailed? ==> alert == Some("Failed to delete") && p.foods == old(p.foods)
  {
    sent, refetch, alert := false, false, None;
    if !confirmed {
      return;
    }
    p.deleting := Some(id);
    sent := true;
    match response {
      case Deleted =>
        p.foods := WithoutId(p.foods, id);
        refetch := true;
      case DeleteFailed(_) =>
        alert := Some("Failed to delete");
    }
    p.deleting := None;
  }
}
