/** The food endpoints: listing, posting, claiming, deleting and counting
    rows of the `foods` table. */
module FoodService {
  import opened Wrappers
  import opened Http
  import opened Validation
  import opened FoodRecord
  import opened AuthService

  /** The body of GET /foods/stats. */
  datatype Stats = Stats(totalFoods: int, available: int, taken: int, expired: int)

  /** An uploaded image: its extension as detected, its size in kilobytes, and
      the path the public disk stored it under. */
  datatype Upload = Upload(extension: string, kilobytes: nat, storedPath: string)

  /** The body of POST /foods. */
  datatype PostRequest = PostRequest(
    title: Option<string>,
    description: Option<string>,
    location: Option<string>,
    image: Option<Upload>)

  /** `image|mimes:jpeg,jpg,png,webp|max:5120`. */
  predicate ImageOk(u: Upload) {
    u.extension in {"jpeg", "jpg", "png", "webp"} && u.kilobytes <= 5120
  }

  /** The fields POST /foods refuses; the description is `nullable|string` and never refused. */
  function PostErrors(req: PostRequest): (errs: set<string>)
    ensures errs <= {"title", "location", "image"}
    ensures "title" in errs <==> !RequiredAtMost(req.title, 255)
    ensures "location" in errs <==> !RequiredAtMost(req.location, 255)
    ensures "image" in errs <==> req.image.Some? && !ImageOk(req.image.value)
  {
    (if RequiredAtMost(req.title, 255) then {} else {"title"})
      + (if RequiredAtMost(req.location, 255) then {} else {"location"})
      + (if req.image.None? || ImageOk(req.image.value) then {} else {"image"})
  }

  // ---- Queries -------------------------------------------------------------

  /** `orderBy('created_at', 'desc')`: newest first; the order of equal times is not fixed. */
  predicate NewestFirst(s: seq<Food>) {
    forall i, j :: 0 <= i < j < |s| ==> s[i].createdAt >= s[j].createdAt
  }

  function InsertByTime(f: Food, s: seq<Food>): (r: seq<Food>)
    requires NewestFirst(s)
    ensures NewestFirst(r)
    ensures multiset(r) == multiset(s) + multiset{f}
    ensures |r| == |s| + 1
    ensures r[0] == f || (|s| > 0 && r[0] == s[0])
  {
    if s == [] || f.createdAt >= s[0].createdAt then [f] + s
    else
      assert s == [s[0]] + s[1..];
      [s[0]] + InsertByTime(f, s[1..])
  }

  /** The database's ordering step, as an insertion sort. */
  function SortNewest(s: seq<Food>): (r: seq<Food>)
    ensures NewestFirst(r)
    ensures multiset(r) == multiset(s)
  {
    if s == [] then []
    else
      assert s == [s[0]] + s[1..];
      InsertByTime(s[0], SortNewest(s[1..]))
  }

  /** `where('status', name)`, keeping table order. */
  function WithStatus(rows: seq<Food>, name: string): (r: seq<Food>)
    ensures forall f :: multiset(r)[f] == if StatusName(f.status) == name then multiset(rows)[f] else 0
  {
    if rows == [] then []
    else
      assert rows == [rows[0]] + rows[1..];
      (if StatusName(rows[0].status) == name then [rows[0]] else []) + WithStatus(rows[1..], name)
  }

  /** `where('user_id', uid)`, keeping table order. */
  function OwnedBy(rows: seq<Food>, uid: nat): (r: seq<Food>)
    ensures forall f :: multiset(r)[f] == if f.userId == uid then multiset(rows)[f] else 0
  {
    if rows == [] then []
    else
      assert rows == [rows[0]] + rows[1..];
      (if rows[0].userId == uid then [rows[0]] else []) + OwnedBy(rows[1..], uid)
  }

  /** GET /foods: without a `status` parameter the available rows, with one
      exactly the rows whose stored status string equals it; newest first. */
  function Index(rows: seq<Food>, status: Option<string>): (r: seq<Food>)
    ensures NewestFirst(r)
    ensures status.None? ==>
      forall f :: multiset(r)[f] == if f.status == Available then multiset(rows)[f] else 0
    ensures status.Some? ==>
      forall f :: multiset(r)[f] == if StatusName(f.status) == status.value then multiset(rows)[f] else 0
  {
    var wanted := if status.Some? then status.value else "available";
    SortNewest(WithStatus(rows, wanted))
  }

  /** A `status` parameter that names no enum value selects nothing. */
  lemma IndexUnknownStatusIsEmpty(rows: seq<Food>, s: string)
    requires ParseStatus(s).None?
    ensures Index(rows, Some(s)) == []
  {
  }

  /** GET /foods/all: every row, newest first. */
  function All(rows: seq<Food>): (r: seq<Food>)
    ensures NewestFirst(r)
    ensures multiset(r) == multiset(rows)
  {
    SortNewest(rows)
  }

  /** GET /my-foods: exactly the caller's rows, newest first. */
  function MyFoods(rows: seq<Food>, caller: User): (r: seq<Food>)
    ensures NewestFirst(r)
    ensures forall f :: multiset(r)[f] == if f.userId == caller.id then multiset(rows)[f] else 0
  {
    SortNewest(OwnedBy(rows, caller.id))
  }

  /** `Food::where('status', s)->count()`. */
  function Count(rows: seq<Food>, s: Status): (n: nat)
    ensures n <= |rows|
  {
    if rows == [] then 0
    else (if rows[0].status == s then 1 else 0) + Count(rows[1..], s)
  }

  lemma {:induction false} CountAppend(a: seq<Food>, b: seq<Food>, s: Status)
    ensures Count(a + b, s) == Count(a, s) + Count(b, s)
  {
    if a == [] {
      assert a + b == b;
    } else {
      assert (a + b)[0] == a[0];
      assert (a + b)[1..] == a[1..] + b;
      CountAppend(a[1..], b, s);
    }
  }

  /** Every row has exactly one of the three statuses. */
  lemma {:induction false} CountsPartition(rows: seq<Food>)
    ensures Count(rows, Available) + Count(rows, Taken) + Count(rows, Expired) == |rows|
  {
    if rows != [] {
      CountsPartition(rows[1..]);
    }
  }

  /** GET /foods/stats: the row count and one count per status; no status is
      dropped, so the three counts add up to the total. */
  function StatsOf(rows: seq<Food>): (r: Stats)
    ensures r.totalFoods == |rows|
    ensures r.totalFoods == r.available + r.taken + r.expired
    ensures r.available >= 0 && r.taken >= 0 && r.expired >= 0
  {
    CountsPartition(rows);
    Stats(|rows|, Count(rows, Available), Count(rows, Taken), Count(rows, Expired))
  }

  lemma {:induction false} WithStatusCount(rows: seq<Food>, s: Status)
    ensures |WithStatus(rows, StatusName(s))| == Count(rows, s)
  {
    if rows != [] {
      WithStatusCount(rows[1..], s);
      StatusNameRoundTrip(s);
      StatusNameRoundTrip(rows[0].status);
    }
  }

  /** The per-status counts are the sizes of the corresponding listings. */
  lemma StatsMatchListings(rows: seq<Food>)
    ensures StatsOf(rows).available == |Index(rows, None)|
    ensures StatsOf(rows).taken == |Index(rows, Some("taken"))|
    ensures StatsOf(rows).expired == |Index(rows, Some("expired"))|
    ensures StatsOf(rows).totalFoods == |All(rows)|
  {
    WithStatusCount(rows, Available);
    WithStatusCount(rows, Taken);
    WithStatusCount(rows, Expired);
    assert |SortNewest(rows)| == |multiset(SortNewest(rows))|;
    assert |SortNewest(WithStatus(rows, "available"))| == |multiset(WithStatus(rows, "available"))|;
    assert |SortNewest(WithStatus(rows, "taken"))| == |multiset(WithStatus(rows, "taken"))|;
    assert |SortNewest(WithStatus(rows, "expired"))| == |multiset(WithStatus(rows, "expired"))|;
  }

  /** `Food::findOrFail($id)`: the position of the row with that key. */
  function Find(rows: seq<Food>, id: int): (r: Option<nat>)
    ensures r.Some? ==> r.value < |rows| && rows[r.value].id == id
    ensures r.None? <==> forall k :: 0 <= k < |rows| ==> rows[k].id != id
  {
    if rows == [] then None
    else if rows[0].id == id then Some(0)
    else
      match Find(rows[1..], id)
      case None => None
      case Some(k) => Some(k + 1)
  }

  // ---- Guards and the claim update -------------------------------------------

  /** The checks of POST /foods/{id}/claim, in the order the controller makes
      them: missing row (404), then not available (409), then own food (403). */
  function ClaimRefusal(row: Option<Food>, callerId: nat): (r: Option<Error>)
    ensures row.None? ==> r == Some(NotFound)
    ensures row.Some? && row.value.status != Available ==> r == Some(Conflict)
    ensures r == Some(Forbidden) <==> row.Some? && row.value.status == Available && row.value.userId == callerId
    ensures r.None? <==> row.Some? && row.value.status == Available && row.value.userId != callerId
  {
    match row
    case None => Some(NotFound)
    case Some(f) =>
      if f.status != Available then Some(Conflict)
      else if f.userId == callerId then Some(Forbidden)
      else None
  }

  /** The row after a successful claim: the three claim columns change and
      `updated_at` is touched; the claim invariant holds of the result. */
  function Claimed(f: Food, claimer: nat, at: int): (g: Food)
    requires f.status == Available && claimer != f.userId
    ensures ClaimConsistent(g) && g.status == Taken
    ensures g.claimedBy == Some(claimer) && g.claimedAt == Some(at)
    ensures g.id == f.id && g.userId == f.userId && g.title == f.title && g.location == f.location
    ensures g.description == f.description && g.imageUrl == f.imageUrl && g.createdAt == f.createdAt
  {
    f.(status := Taken, claimedBy := Some(claimer), claimedAt := Some(at), updatedAt := at)
  }

  /** Once a claim has gone through, every later claim of that row is refused
      with 409, whoever makes it (the owner included). */
  lemma SecondClaimConflicts(f: Food, first: nat, at: int, second: nat)
    requires ClaimRefusal(Some(f), first).None?
    ensures ClaimRefusal(Some(Claimed(f, first, at)), second) == Some(Conflict)
  {
  }

  /** The checks of DELETE /foods/{id}: the role (403) before the lookup (404). */
  function DestroyRefusal(caller: User, row: Option<Food>): (r: Option<Error>)
    ensures !IsAdmin(caller) ==> r == Some(Forbidden)
    ensures IsAdmin(caller) ==> (r == Some(NotFound) <==> row.None?)
    ensures r.None? <==> IsAdmin(caller) && row.Some?
  {
    if !IsAdmin(caller) then Some(Forbidden)
    else if row.None? then Some(NotFound)
    else None
  }

  // ---- How statistics move --------------------------------------------------

  lemma CountUpdate(rows: seq<Food>, i: nat, g: Food, s: Status)
    requires i < |rows|
    ensures Count(rows[i := g], s) ==
      Count(rows, s) - (if rows[i].status == s then 1 else 0) + (if g.status == s then 1 else 0)
  {
    assert rows == rows[..i] + [rows[i]] + rows[i + 1..];
    assert rows[i := g] == rows[..i] + [g] + rows[i + 1..];
    CountAppend(rows[..i] + [rows[i]], rows[i + 1..], s);
    CountAppend(rows[..i], [rows[i]], s);
    CountAppend(rows[..i] + [g], rows[i + 1..], s);
    CountAppend(rows[..i], [g], s);
  }

  /** A successful claim moves one row from the available count to the taken count. */
  lemma StatsAfterClaim(rows: seq<Food>, i: nat, claimer: nat, at: int)
    requires i < |rows| && rows[i].status == Available && claimer != rows[i].userId
    ensures var before := StatsOf(rows);
      StatsOf(rows[i := Claimed(rows[i], claimer, at)]) ==
        Stats(before.totalFoods, before.available - 1, before.taken + 1, before.expired)
  {
    var g := Claimed(rows[i], claimer, at);
    CountUpdate(rows, i, g, Available);
    CountUpdate(rows, i, g, Taken);
    CountUpdate(rows, i, g, Expired);
  }

  /** A post adds one to the total and to the available count. */
  lemma StatsAfterPost(rows: seq<Food>, f: Food)
    requires f.status == Available
    ensures var before := StatsOf(rows);
      StatsOf(rows + [f]) == Stats(before.totalFoods + 1, before.available + 1, before.taken, before.expired)
  {
    CountAppend(rows, [f], Available);
    CountAppend(rows, [f], Taken);
    CountAppend(rows, [f], Expired);
  }

  /** A deletion takes one off the total and off the deleted row's status count. */
  lemma StatsAfterDelete(rows: seq<Food>, i: nat)
    requires i < |rows|
    ensures var before := StatsOf(rows);
      var after := StatsOf(rows[..i] + rows[i + 1..]);
      after.totalFoods == before.totalFoods - 1 &&
      after.available == before.available - (if rows[i].status == Available then 1 else 0) &&
      after.taken == before.taken - (if rows[i].status == Taken then 1 else 0) &&
      after.expired == before.expired - (if rows[i].status == Expired then 1 else 0)
  {
    assert rows == rows[..i] + [rows[i]] + rows[i + 1..];
    forall s: Status
      ensures Count(rows, s) == Count(rows[..i] + rows[i + 1..], s) + (if rows[i].status == s then 1 else 0)
    {
      CountAppend(rows[..i] + [rows[i]], rows[i + 1..], s);
      CountAppend(rows[..i], [rows[i]], s);
      CountAppend(rows[..i], rows[i + 1..], s);
    }
  }

  // ---- The table ------------------------------------------------------------

  /** How one request may change a row's status: a row that was there keeps
      its status or goes from available to taken, and a new row is available. */
  ghost predicate RowAdvances(before: seq<Food>, g: Food) {
    match Find(before, g.id)
    case None => g.status == Available
    case Some(i) =>
      before[i].status == g.status || (before[i].status == Available && g.status == Taken)
  }

  /** Every row after the request has advanced. So no request produces
      `expired` and none moves a row out of `taken`. */
  ghost predicate StatusesAdvance(before: seq<Food>, after: seq<Food>) {
    forall j :: 0 <= j < |after| ==> RowAdvances(before, after[j])
  }

  /** Primary keys strictly increase along the table. */
  predicate KeysIncreasing(rows: seq<Food>) {
    forall i, j :: 0 <= i < j < |rows| ==> rows[i].id < rows[j].id
  }

  /** With increasing keys, `Find` on a row's own key returns that row's position. */
  lemma FindOwnKey(rows: seq<Food>, i: nat)
    requires KeysIncreasing(rows) && i < |rows|
    ensures Find(rows, rows[i].id) == Some(i)
  {
  }

  lemma AdvanceUnchanged(rows: seq<Food>)
    requires KeysIncreasing(rows)
    ensures StatusesAdvance(rows, rows)
  {
    forall j | 0 <= j < |rows| ensures RowAdvances(rows, rows[j]) {
      FindOwnKey(rows, j);
    }
  }

  lemma AdvanceByAppend(rows: seq<Food>, f: Food)
    requires KeysIncreasing(rows) && f.status == Available
    requires forall k :: 0 <= k < |rows| ==> rows[k].id < f.id
    ensures StatusesAdvance(rows, rows + [f])
  {
    var after := rows + [f];
    forall j | 0 <= j < |after| ensures RowAdvances(rows, after[j]) {
      if j < |rows| {
        assert after[j] == rows[j];
        FindOwnKey(rows, j);
      } else {
        assert after[j] == f;
      }
    }
  }

  lemma AdvanceByUpdate(rows: seq<Food>, i: nat, g: Food)
    requires KeysIncreasing(rows) && i < |rows| && g.id == rows[i].id
    requires rows[i].status == g.status || (rows[i].status == Available && g.status == Taken)
    ensures StatusesAdvance(rows, rows[i := g])
  {
    var after := rows[i := g];
    forall j | 0 <= j < |after| ensures RowAdvances(rows, after[j]) {
      FindOwnKey(rows, j);
      if j == i {
        assert after[j] == g;
      } else {
        assert after[j] == rows[j];
      }
    }
  }

  lemma AdvanceByRemoval(rows: seq<Food>, i: nat)
    requires KeysIncreasing(rows) && i < |rows|
    ensures StatusesAdvance(rows, rows[..i] + rows[i + 1..])
  {
    var after := rows[..i] + rows[i + 1..];
    forall j | 0 <= j < |after| ensures RowAdvances(rows, after[j]) {
      if j < i {
        assert after[j] == rows[j];
        FindOwnKey(rows, j);
      } else {
        assert after[j] == rows[j + 1];
        FindOwnKey(rows, j + 1);
      }
    }
  }

  /** The `foods` table, in primary-key order. `assetUrl` stands for Laravel's
      `asset()` URL builder. */
  class FoodTable {
    var rows: seq<Food>
    var nextId: nat
    const assetUrl: string -> string

    ghost predicate Valid()
      reads this
    {
      && nextId >= 1
      && (forall i :: 0 <= i < |rows| ==> 1 <= rows[i].id < nextId && ClaimConsistent(rows[i]))
      && KeysIncreasing(rows)
    }

    constructor (assetUrl: string -> string)
      ensures Valid() && rows == [] && this.assetUrl == assetUrl
    {
      rows := [];
      nextId := 1;
      this.assetUrl := assetUrl;
    }

    /** POST /foods by `caller` at time `now`. */
    method Store(caller: User, req: PostRequest, now: int) returns (r: Result<Food>)
      requires Valid()
      modifies this
      ensures Valid() && StatusesAdvance(old(rows), rows)
      ensures PostErrors(req) != {} ==>
        r == Err(Invalid(PostErrors(req))) && rows == old(rows) && nextId == old(nextId)
      ensures PostErrors(req) == {} ==>
        && r.Ok?
        && rows == old(rows) + [r.value]
        && nextId == old(nextId) + 1
        && r.value == Food(old(nextId), caller.id, req.title.value, req.description, req.location.value,
                           if req.image.None? then None else Some(assetUrl("storage/" + req.image.value.storedPath)),
                           Available, None, None, now, now)
    {
      var errs := PostErrors(req);
      if errs != {} {
        return Err(Invalid(errs));
      }
      var imageUrl: Option<string> := None;
      if req.image.Some? {
        imageUrl := Some(assetUrl("storage/" + req.image.value.storedPath));
      }
      var f := Food(nextId, caller.id, req.title.value, req.description, req.location.value,
                    imageUrl, Available, None, None, now, now);
      AdvanceByAppend(rows, f);
      rows := rows + [f];
      nextId := nextId + 1;
      r := Ok(f);
    }

    /** POST /foods/{id}/claim by `caller` at time `now`. Every refusal leaves
        the table as it was; a success changes that one row only. */
    method Claim(caller: User, id: int, now: int) returns (r: Result<Food>)
      requires Valid()
      modifies this
      ensures Valid() && nextId == old(nextId) && StatusesAdvance(old(rows), rows)
      ensures var found := Find(old(rows), id);
        var refusal := ClaimRefusal(if found.Some? then Some(old(rows)[found.value]) else None, caller.id);
        if refusal.Some? then
          r == Err(refusal.value) && rows == old(rows)
        else
          && r == Ok(Claimed(old(rows)[found.value], caller.id, now))
          && rows == old(rows)[found.value := r.value]
    {
      var found := Find(rows, id);
      var refusal := ClaimRefusal(if found.Some? then Some(rows[found.value]) else None, caller.id);
      if refusal.Some? {
        AdvanceUnchanged(rows);
        return Err(refusal.value);
      }
      var i := found.value;
      var g := Claimed(rows[i], caller.id, now);
      AdvanceByUpdate(rows, i, g);
      rows := rows[i := g];
      r := Ok(g);
    }

    /** DELETE /foods/{id} by `caller`: only an admin may delete, and a
        deletion removes exactly that row. */
    method Destroy(caller: User, id: int) returns (r: Result<()>)
      requires Valid()
      modifies this
      ensures Valid() && nextId == old(nextId) && StatusesAdvance(old(rows), rows)
      ensures var found := Find(old(rows), id);
        var refusal := DestroyRefusal(caller, if found.Some? then Some(old(rows)[found.value]) else None);
        if refusal.Some? then
          r == Err(refusal.value) && rows == old(rows)
        else
          r == Ok(()) && rows == old(rows)[..found.value] + old(rows)[found.value + 1..]
    {
      var found := Find(rows, id);
      var refusal := DestroyRefusal(caller, if found.Some? then Some(rows[found.value]) else None);
      if refusal.Some? {
        AdvanceUnchanged(rows);
        return Err(refusal.value);
      }
      var i := found.value;
      AdvanceByRemoval(rows, i);
      rows := rows[..i] + rows[i + 1..];
      r := Ok(());
    }
  }

  /** Two claims of the same food in a row, the second by anyone: at most one
      of them succeeds, and when the first does the second is refused with 409. */
  method ClaimTwice(t: FoodTable, first: User, second: User, id: int, now1: int, now2: int)
    returns (r1: Result<Food>, r2: Result<Food>)
    requires t.Valid()
    modifies t
    ensures t.Valid()
    ensures r1.Ok? ==> r2 == Err(Conflict)
    ensures !(r1.Ok? && r2.Ok?)
  {
    ghost var before := t.rows;
    r1 := t.Claim(first, id, now1);
    if r1.Ok? {
      ghost var i := Find(before, id).value;
      FindOwnKey(t.rows, i);
    }
    r2 := t.Claim(second, id, now2);
  }
}
