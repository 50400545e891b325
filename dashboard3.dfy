/** The third admin dashboard page: a search that matches each field on its
    own, the five most recent claims, the rescue rate, the five busiest
    locations, and a delete that updates the list and the total locally. */
module Dashboard3 {
  import opened Wrappers
  import opened FoodRecord
  import opened FoodService
  import opened DashboardCommon
  import Dashboard

  /** The lowercased query occurs in the title, in the location or in the
      poster name, each searched on its own. */
  predicate SearchHit(f: Listed, query: string) {
    || Contains(Lower(f.title), Lower(query))
    || Contains(Lower(f.location), Lower(query))
    || Contains(Lower(PosterName(f)), Lower(query))
  }

  /** `filteredFoods`: the fetched foods on the chosen tab that match the
      query, in fetched order. */
  function FilteredFoods(foods: seq<Listed>, activeTab: Tab, query: string): (r: seq<Listed>)
    ensures |r| <= |foods|
    ensures forall f :: f in r <==> f in foods && OnTab(activeTab, f) && SearchHit(f, query)
  {
    Keep(foods, f => OnTab(activeTab, f) && SearchHit(f, query))
  }

  /** A query found in one field is found in the concatenation of all three. */
  lemma FieldHitIsConcatenatedHit(f: Listed, query: string)
    requires SearchHit(f, query)
    ensures Dashboard.SearchHit(f, query)
  {
    var t, l, n, q := Lower(f.title), Lower(f.location), Lower(PosterName(f)), Lower(query);
    LowerAppend(f.title + f.location, PosterName(f));
    LowerAppend(f.title, f.location);
    assert Lower(f.title + f.location + PosterName(f)) == t + l + n;
    if Contains(t, q) {
      ContainsInLeft(t, l, q);
      ContainsInLeft(t + l, n, q);
    } else if Contains(l, q) {
      ContainsInRight(t, l, q);
      ContainsInLeft(t + l, n, q);
    } else {
      ContainsInRight(t + l, n, q);
    }
  }

  /** Every food this page lists is also listed by the concatenated search of
      the first dashboard for the same tab and query. */
  lemma FilteredWithinRows(foods: seq<Listed>, tab: Tab, query: string)
    ensures forall f :: f in FilteredFoods(foods, tab, query) ==> f in Dashboard.Rows(foods, tab, query)
  {
    forall f | f in FilteredFoods(foods, tab, query) ensures f in Dashboard.Rows(foods, tab, query) {
      FieldHitIsConcatenatedHit(f, query);
    }
  }

  /** The containment is strict: a query that spans the end of the title and
      the start of the location is found by the concatenated search only. */
  lemma SpanningQueryMissed()
    ensures var f := Listed(1, "ab", "cd", Available, None, 0);
      f in Dashboard.Rows([f], AllTab, "bc") && f !in FilteredFoods([f], AllTab, "bc")
  {
    var f := Listed(1, "ab", "cd", Available, None, 0);
    assert Lower("abcd") == "abcd";
    assert "bc" <= "abcd"[1..];
    assert f.title + f.location + PosterName(f) == "abcd";
    assert Lower("ab") == "ab" && Lower("cd") == "cd" && Lower("") == "" && Lower("bc") == "bc";
    assert !Contains("ab", "bc") by {
      forall i | 0 <= i <= 2 ensures !("bc" <= "ab"[i..]) {
        if i == 0 {
          assert "ab"[0..][0] != "bc"[0];
        } else {
          assert |"ab"[i..]| < 2;
        }
      }
    }
    assert !Contains("cd", "bc") by {
      forall i | 0 <= i <= 2 ensures !("bc" <= "cd"[i..]) {
        if i == 0 {
          assert "cd"[0..][0] != "bc"[0];
        } else {
          assert |"cd"[i..]| < 2;
        }
      }
    }
    assert !Contains("", "bc");
  }

  /** `recentClaims`: the first five taken foods in fetched order. */
  function RecentClaims(foods: seq<Listed>): (r: seq<Listed>)
    ensures |r| <= 5
    ensures forall x :: x in r ==> x in foods && x.status == Taken
    ensures var taken := Keep(foods, IsTaken);
      r == taken[..if |taken| <= 5 then |taken| else 5]
  {
    FirstTaken(foods, 5)
  }

  /** `topLocations`: the histogram reduce, sorted by count and cut to five. */
  method TopLocations(foods: seq<Listed>) returns (top: seq<LocCount>)
    ensures IsRanking(top, foods, 5)
  {
    top := RankLocations(foods, 5);
  }

  /** `handleDelete`: nothing happens when the confirm dialog is declined.
      After a successful request the food with that id leaves the list and
      `total_foods` drops by one, the per-status counts untouched; a failure
      leaves both and alerts. `deleteLoading` ends cleared either way. */
  method HandleDelete(p: PanelState, id: int, confirmed: bool, response: DeleteResponse)
    returns (sent: bool, alert: Option<string>)
    modifies p
    ensures sent == confirmed
    ensures !confirmed ==> unchanged(p) && alert.None?
    ensures confirmed ==> p.deleting.None? && p.loading == old(p.loading)
    ensures confirmed && response.Deleted? ==>
      alert.None? && p.foods == WithoutId(old(p.foods), id) && p.stats == DecrementTotal(old(p.stats))
    ensures confirmed && response.DeleteFailed? ==>
      alert == Some("Failed to delete") && p.foods == old(p.foods) && p.stats == old(p.stats)
  {
    sent, alert := false, None;
    if !confirmed {
      return;
    }
    p.deleting := Some(id);
    sent := true;
    match response {
      case Deleted =>
        p.foods := WithoutId(p.foods, id);
        p.stats := DecrementTotal(p.stats);
      case DeleteFailed(_) =>
        alert := Some("Failed to delete");
    }
    p.deleting := None;
  }

  // ---- The local stats after a delete ------------------------------------------

  /** Stats as the server reports them: non-negative counts adding up to the total. */
  predicate Consistent(s: Stats) {
    && s.available >= 0 && s.taken >= 0 && s.expired >= 0
    && s.totalFoods == s.available + s.taken + s.expired
  }

  /** As written, the local update breaks the sum: after deleting the only two
      foods' first one, both of them taken, the page shows one food of which
      two are taken and a rescue rate of 200 until the next poll. */
  lemma StaleTotalOverstatesRate()
    ensures var before := Stats(2, 0, 2, 0);
      && Consistent(before) && RescueRate(before) == 100
      && !Consistent(DecrementTotal(before)) && RescueRate(DecrementTotal(before)) == 200
  {
    assert (200 * 2 + 1) / (2 * 1) == 200;
  }

  /** The figure `s` gives for status `st`. */
  function StatusCount(s: Stats, st: Status): int {
    match st
    case Available => s.available
    case Taken => s.taken
    case Expired => s.expired
  }

  /** The evidently intended update: the deleted food leaves its status count
      along with the total. Consistent stats stay consistent whenever the
      deleted food's status was counted. */
  function RecountAfterDelete(s: Stats, gone: Status): (r: Stats)
    ensures r.totalFoods == s.totalFoods - 1
    ensures StatusCount(r, gone) == StatusCount(s, gone) - 1
    ensures forall st :: st != gone ==> StatusCount(r, st) == StatusCount(s, st)
    ensures Consistent(s) && StatusCount(s, gone) > 0 ==> Consistent(r)
  {
    match gone
    case Available => Stats(s.totalFoods - 1, s.available - 1, s.taken, s.expired)
    case Taken => Stats(s.totalFoods - 1, s.available, s.taken - 1, s.expired)
    case Expired => Stats(s.totalFoods - 1, s.available, s.taken, s.expired - 1)
  }

  /** The corrected update agrees with what the next poll reports once the
      server has removed the row: the stats before are consistent and count
      the deleted row under its status, so the counts stay consistent and the
      rate stays within 0..100. */
  lemma RecountMatchesNextPoll(rows: seq<Food>, i: nat)
    requires i < |rows|
    ensures Consistent(StatsOf(rows)) && StatusCount(StatsOf(rows), rows[i].status) > 0
    ensures var after := StatsOf(rows[..i] + rows[i + 1..]);
      && RecountAfterDelete(StatsOf(rows), rows[i].status) == after
      && Consistent(after)
      && 0 <= RescueRate(after) <= 100
  {
    StatsAfterDelete(rows, i);
  }

  /** As written, the local update disagrees with the next poll whenever the
      deleted row was counted under a status. */
  lemma DecrementTotalMissesNextPoll(rows: seq<Food>, i: nat)
    requires i < |rows|
    ensures DecrementTotal(StatsOf(rows)) != StatsOf(rows[..i] + rows[i + 1..])
  {
    StatsAfterDelete(rows, i);
  }
}
