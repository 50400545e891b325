/** The second admin dashboard page: the unfiltered food table with a status
    badge per row, and a delete that updates the list and the total locally. */
module Dashboard2 {
  import opened Wrappers
  import opened FoodRecord
  import opened FoodService
  import opened DashboardCommon

  /** `toUpperCase` on one ASCII letter. */
  function UpperChar(c: char): char {
    if 'a' <= c <= 'z' then (c as int - 32) as char else c
  }

  /** `s.charAt(0).toUpperCase() + s.slice(1)`. */
  function Capitalize(s: string): (r: string)
    ensures |r| == |s|
    ensures |s| > 0 ==> r[0] == UpperChar(s[0]) && r[1..] == s[1..]
  {
    if |s| == 0 then s else [UpperChar(s[0])] + s[1..]
  }

  /** What `statusBadge` renders: an icon, a style class and a label. */
  datatype Badge = Badge(icon: string, style: string, text: string)

  function StatusBadge(s: Status): (b: Badge)
    ensures |b.text| == |StatusName(s)| > 0
    ensures b.text[0] == UpperChar(StatusName(s)[0]) && b.text[1..] == StatusName(s)[1..]
  {
    var style := match s
      case Available => "bg-emerald-100 text-emerald-700 border-emerald-200"
      case Taken => "bg-blue-100 text-blue-700 border-blue-200"
      case Expired => "bg-gray-100 text-gray-500 border-gray-200";
    var icon := match s
      case Available => "\U{1F7E2}"
      case Taken => "\U{2705}"
      case Expired => "\U{23F0}";
    Badge(icon, style, Capitalize(StatusName(s)))
  }

  /** The labels read "Available", "Taken" and "Expired". */
  lemma BadgeLabels()
    ensures StatusBadge(Available).text == "Available"
    ensures StatusBadge(Taken).text == "Taken"
    ensures StatusBadge(Expired).text == "Expired"
  {
    assert Capitalize("available") == "Available";
    assert Capitalize("taken") == "Taken";
    assert Capitalize("expired") == "Expired";
  }

  /** The three statuses are told apart by icon, style and label alike. */
  lemma BadgesDistinct(s: Status, t: Status)
    requires s != t
    ensures StatusBadge(s).icon != StatusBadge(t).icon
    ensures StatusBadge(s).style != StatusBadge(t).style
    ensures StatusBadge(s).text != StatusBadge(t).text
  {
    var a, b := StatusBadge(s), StatusBadge(t);
    assert a.icon[0] != b.icon[0];
  }

  /** `'Failed to delete: ' + (err.response?.data?.message || 'Error')`: an
      absent or empty server message reads as "Error". */
  function FailureAlert(message: Option<string>): (r: string)
    ensures message.Some? && message.value != "" ==> r == "Failed to delete: " + message.value
    ensures message.None? || message.value == "" ==> r == "Failed to delete: Error"
  {
    "Failed to delete: " + match message
      case Some(m) => if m != "" then m else "Error"
      case None => "Error"
  }

  /** `handleDelete`: nothing happens when the confirm dialog is declined.
      After a successful request the food with that id leaves the list and
      `total_foods` drops by one, the per-status counts untouched; a failure
      leaves both and alerts. `deleteLoading` ends cleared either way. */
  method HandleDelete(p: PanelState, id: int, confirmed: bool, response: DeleteResponse)
    returns (sent: bool, alert: Option<string>)
    modifies p
    ensures sent == confirmed
    ensures !confirmed ==> unchanged(p) && alert.None?
    ensures confirmed ==> p.deleting.None? && p.loading == old(p.loading)
    ensures confirmed && response.Deleted? ==>
      alert.None? && p.foods == WithoutId(old(p.foods), id) && p.stats == DecrementTotal(old(p.stats))
    ensures confirmed && response.DeleteFailed? ==>
      alert == Some(FailureAlert(response.message)) && p.foods == old(p.foods) && p.stats == old(p.stats)
  {
    sent, alert := false, None;
    if !confirmed {
      return;
    }
    p.deleting := Some(id);
    sent := true;
    match response {
      case Deleted =>
        p.foods := WithoutId(p.foods, id);
        p.stats := DecrementTotal(p.stats);
      case DeleteFailed(message) =>
        alert := Some(FailureAlert(message));
    }
    p.deleting := None;
  }
}
