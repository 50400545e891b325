/** One row of the `foods` table, as its migration declares it. */
module FoodRecord {
  import opened Wrappers

  /** The `status` enum column: exactly three values. */
  datatype Status = Available | Taken | Expired

  /** The string stored in the enum column. */
  function StatusName(s: Status): string {
    match s
    case Available => "available"
    case Taken => "taken"
    case Expired => "expired"
  }

  /** Reading an enum string back; anything but the three names is refused. */
  function ParseStatus(name: string): (r: Option<Status>)
    ensures r.Some? ==> StatusName(r.value) == name
    ensures r.None? <==> forall s: Status :: StatusName(s) != name
  {
    if name == "available" then Some(Available)
    else if name == "taken" then Some(Taken)
    else if name == "expired" then Some(Expired)
    else None
  }

  lemma StatusNameRoundTrip(s: Status)
    ensures ParseStatus(StatusName(s)) == Some(s)
  {
  }

  /** A row. `userId` is the non-null owner; `description`, `imageUrl`,
      `claimedBy` and `claimedAt` are the nullable columns; times are
      integers on one clock. */
  datatype Food = Food(
    id: nat,
    userId: nat,
    title: string,
    description: Option<string>,
    location: string,
    imageUrl: Option<string>,
    status: Status,
    claimedBy: Option<nat>,
    claimedAt: Option<int>,
    createdAt: int,
    updatedAt: int)

  /** The claim columns agree with the status: a taken row has a claimer and a
      claim time, and the claimer is not the owner; any other row has neither. */
  predicate ClaimConsistent(f: Food) {
    if f.status == Taken then
      f.claimedBy.Some? && f.claimedAt.Some? && f.claimedBy.value != f.userId
    else
      f.claimedBy.None? && f.claimedAt.None?
  }

  /** Every row's owner, and its claimer when there is one, is in `users`. */
  predicate ReferencesWithin(rows: seq<Food>, users: set<nat>) {
    forall i :: 0 <= i < |rows| ==>
      rows[i].userId in users && (rows[i].claimedBy.Some? ==> rows[i].claimedBy.value in users)
  }

  /** What the database does to the table when user `uid` is deleted: the
      owner key cascades (their rows go) and the claimer key is set to null. */
  function OnUserDeleted(rows: seq<Food>, uid: nat): (r: seq<Food>)
    ensures |r| <= |rows|
    ensures forall i :: 0 <= i < |r| ==> r[i].userId != uid && r[i].claimedBy != Some(uid)
    ensures forall f :: f in rows && f.userId != uid && f.claimedBy == Some(uid) ==> f.(claimedBy := None) in r
    ensures forall g :: g in r ==> g in rows || (g.claimedBy.None? && g.(claimedBy := Some(uid)) in rows)
  {
    if rows == [] then []
    else
      var f := rows[0];
      var rest := OnUserDeleted(rows[1..], uid);
      if f.userId == uid then rest
      else if f.claimedBy == Some(uid) then [f.(claimedBy := None)] + rest
      else [f] + rest
  }

  /** The referential actions keep every reference pointing at a remaining user. */
  lemma {:induction false} OnUserDeletedKeepsReferences(rows: seq<Food>, users: set<nat>, uid: nat)
    requires ReferencesWithin(rows, users)
    ensures ReferencesWithin(OnUserDeleted(rows, uid), users - {uid})
  {
    if rows != [] {
      assert ReferencesWithin(rows[1..], users) by {
        forall i | 0 <= i < |rows[1..]|
          ensures rows[1..][i].userId in users
          ensures rows[1..][i].claimedBy.Some? ==> rows[1..][i].claimedBy.value in users
        {
          assert rows[1..][i] == rows[i + 1];
        }
      }
      OnUserDeletedKeepsReferences(rows[1..], users, uid);
    }
  }

  /** A row that no longer references `uid` is kept unchanged. */
  lemma {:induction false} OnUserDeletedKeepsOthers(rows: seq<Food>, uid: nat, f: Food)
    requires f in rows && f.userId != uid && f.claimedBy != Some(uid)
    ensures f in OnUserDeleted(rows, uid)
  {
    if rows[0] != f {
      OnUserDeletedKeepsOthers(rows[1..], uid, f);
    }
  }

  /** Setting the claimer to null leaves a taken row without a claimer, so the
      claim invariant above does not survive deleting a user who has claimed. */
  lemma ClaimerDeletionBreaksClaimInvariant()
    ensures exists rows: seq<Food>, uid: nat ::
      (forall i :: 0 <= i < |rows| ==> ClaimConsistent(rows[i])) &&
      exists j :: 0 <= j < |OnUserDeleted(rows, uid)| && !ClaimConsistent(OnUserDeleted(rows, uid)[j])
  {
    var f := Food(1, 1, "Pizza", None, "Library", None, Taken, Some(2), Some(0), 0, 0);
    assert ClaimConsistent(f);
    assert OnUserDeleted([f], 2) == [f.(claimedBy := None)];
    assert !ClaimConsistent(OnUserDeleted([f], 2)[0]);
  }
}
