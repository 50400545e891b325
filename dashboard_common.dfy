/** What the admin dashboards compute from the fetched food list and stats,
    shared by the page modules. */
module DashboardCommon {
  import opened Wrappers
  import opened FoodRecord
  import opened FoodService

  /** A food as GET /foods/all delivers it to the page: the fields the page
      reads, with the poster's name when the `user` relation came along, and
      the creation time in milliseconds. */
  datatype Listed = Listed(
    id: int,
    title: string,
    location: string,
    status: Status,
    posterName: Option<string>,
    createdAtMs: int)

  /** The status tab: `'all'` or one status value. */
  datatype Tab = AllTab | Only(status: Status)

  /** `tab === 'all' || f.status === tab`. */
  predicate OnTab(tab: Tab, f: Listed) {
    tab.AllTab? || f.status == tab.status
  }

  predicate IsTaken(f: Listed) {
    f.status == Taken
  }

  /** `f.user?.name || ''`. */
  function PosterName(f: Listed): string {
    match f.posterName
    case Some(n) => n
    case None => ""
  }

  // ---- Text ------------------------------------------------------------------

  /** `toLowerCase`, on ASCII letters only. */
  function LowerChar(c: char): char {
    if 'A' <= c <= 'Z' then (c as int + 32) as char else c
  }

  function Lower(s: string): (r: string)
    ensures |r| == |s|
    ensures forall i :: 0 <= i < |s| ==> r[i] == LowerChar(s[i])
  {
    seq(|s|, i requires 0 <= i < |s| => LowerChar(s[i]))
  }

  lemma LowerAppend(a: string, b: string)
    ensures Lower(a + b) == Lower(a) + Lower(b)
  {
  }

  /** `hay.includes(needle)`: the needle starts at some position of the hay. */
  predicate Contains(hay: string, needle: string) {
    exists i :: 0 <= i <= |hay| && needle <= hay[i..]
  }

  lemma ContainsEmpty(hay: string)
    ensures Contains(hay, "")
  {
    assert "" <= hay[0..];
  }

  lemma ContainsInLeft(a: string, b: string, q: string)
    requires Contains(a, q)
    ensures Contains(a + b, q)
  {
    var i :| 0 <= i <= |a| && q <= a[i..];
    assert (a + b)[i..] == a[i..] + b;
  }

  lemma ContainsInRight(a: string, b: string, q: string)
    requires Contains(b, q)
    ensures Contains(a + b, q)
  {
    var i :| 0 <= i <= |b| && q <= b[i..];
    assert (a + b)[|a| + i..] == b[i..];
  }

  // ---- Filtering and slicing ---------------------------------------------------

  /** `s.filter(p)`. */
  function Keep(s: seq<Listed>, p: Listed -> bool): (r: seq<Listed>)
    ensures |r| <= |s|
    ensures forall x :: x in r <==> x in s && p(x)
  {
    if s == [] then []
    else (if p(s[0]) then [s[0]] else []) + Keep(s[1..], p)
  }

  /** Filtering keeps the order: it distributes over concatenation. */
  lemma {:induction false} KeepAppend(s: seq<Listed>, t: seq<Listed>, p: Listed -> bool)
    ensures Keep(s + t, p) == Keep(s, p) + Keep(t, p)
  {
    if s == [] {
      assert s + t == t;
    } else {
      assert (s + t)[0] == s[0];
      assert (s + t)[1..] == s[1..] + t;
      KeepAppend(s[1..], t, p);
    }
  }

  lemma {:induction false} KeepAll(s: seq<Listed>, p: Listed -> bool)
    requires forall x :: x in s ==> p(x)
    ensures Keep(s, p) == s
  {
    if s != [] {
      assert s == [s[0]] + s[1..];
      KeepAll(s[1..], p);
    }
  }

  /** `s.slice(0, n)`. */
  function Take(s: seq<Listed>, n: nat): (r: seq<Listed>)
    ensures |r| == if |s| <= n then |s| else n
    ensures forall i :: 0 <= i < |r| ==> r[i] == s[i]
  {
    if |s| <= n then s else s[..n]
  }

  /** `foods.filter(f => f.status === 'taken').slice(0, n)`: the first `n`
      taken foods in fetched order, all of them when there are fewer. */
  function FirstTaken(foods: seq<Listed>, n: nat): (r: seq<Listed>)
    ensures |r| <= n
    ensures forall x :: x in r ==> x in foods && IsTaken(x)
    ensures var taken := Keep(foods, IsTaken);
      |r| == (if |taken| <= n then |taken| else n) && r == taken[..|r|]
  {
    Take(Keep(foods, IsTaken), n)
  }

  // ---- Rescue rate -----------------------------------------------------------

  lemma MulMono(a: int, b: int, c: int)
    requires a <= b && c >= 0
    ensures a * c <= b * c
  {
  }

  /** Rounding half up of `100 * taken / total`: the floor characterisation
      of the quotient, and the percentage bounds when `0 <= taken <= total`. */
  lemma RoundedPercent(taken: int, total: int)
    requires total > 0
    ensures var q := (200 * taken + total) / (2 * total);
      && 2 * q * total <= 200 * taken + total < 2 * (q + 1) * total
      && (0 <= taken <= total ==> 0 <= q <= 100)
  {
    var n := 200 * taken + total;
    var d := 2 * total;
    var q := n / d;
    assert n == d * q + n % d && 0 <= n % d < d;
    assert 2 * q * total <= n < 2 * (q + 1) * total;
    if 0 <= taken <= total {
      assert 0 < n <= 201 * total;
      if q > 100 {
        MulMono(101, q, total);
        assert false;
      }
      if q < 0 {
        MulMono(q + 1, 0, total);
        assert false;
      }
    }
  }

  /** `total > 0 ? Math.round(taken / total * 100) : 0`, with the rounding
      done on the exact ratio. */
  function RescueRate(s: Stats): (r: int)
    ensures s.totalFoods <= 0 ==> r == 0
    ensures s.totalFoods > 0 ==>
      2 * r * s.totalFoods <= 200 * s.taken + s.totalFoods < 2 * (r + 1) * s.totalFoods
    ensures 0 <= s.taken <= s.totalFoods ==> 0 <= r <= 100
  {
    if s.totalFoods > 0 then
      RoundedPercent(s.taken, s.totalFoods);
      (200 * s.taken + s.totalFoods) / (2 * s.totalFoods)
    else 0
  }

  // ---- Elapsed time ----------------------------------------------------------

  /** The label `ago`/`timeAgo` shows; the number is rendered before `m ago`, `h ago` or `d ago`. */
  datatype Ago = JustNow | MinutesAgo(minutes: int) | HoursAgo(hours: int) | DaysAgo(days: int)

  /** The elapsed whole seconds `Math.floor((now - then) / 1000)`, times in milliseconds. */
  function ElapsedSeconds(nowMs: int, thenMs: int): int {
    (nowMs - thenMs) / 1000
  }

  /** The four buckets: under a minute, under an hour, under a day, and days. */
  function TimeAgo(nowMs: int, thenMs: int): (r: Ago)
    ensures var s := ElapsedSeconds(nowMs, thenMs);
      && (r.JustNow? <==> s < 60)
      && (r.MinutesAgo? <==> 60 <= s < 3600)
      && (r.HoursAgo? <==> 3600 <= s < 86400)
      && (r.DaysAgo? <==> 86400 <= s)
      && (r.MinutesAgo? ==> 1 <= r.minutes <= 59 && r.minutes * 60 <= s < (r.minutes + 1) * 60)
      && (r.HoursAgo? ==> 1 <= r.hours <= 23 && r.hours * 3600 <= s < (r.hours + 1) * 3600)
      && (r.DaysAgo? ==> 1 <= r.days && r.days * 86400 <= s < (r.days + 1) * 86400)
  {
    var s := ElapsedSeconds(nowMs, thenMs);
    if s < 60 then JustNow
    else if s < 3600 then MinutesAgo(s / 60)
    else if s < 86400 then HoursAgo(s / 3600)
    else DaysAgo(s / 86400)
  }

  // ---- Location histogram ------------------------------------------------------

  /** One entry of the histogram object: a location and how many foods are there. */
  datatype LocCount = LocCount(location: string, count: nat)

  /** The position of `loc` among the object's keys. */
  function KeyIndex(acc: seq<LocCount>, loc: string): (r: Option<nat>)
    ensures r.Some? ==> r.value < |acc| && acc[r.value].location == loc
    ensures r.Some? ==> forall k :: 0 <= k < r.value ==> acc[k].location != loc
    ensures r.None? <==> forall k :: 0 <= k < |acc| ==> acc[k].location != loc
  {
    if acc == [] then None
    else if acc[0].location == loc then Some(0)
    else
      match KeyIndex(acc[1..], loc)
      case None => None
      case Some(k) => Some(k + 1)
  }

  /** The first entry for `loc` is at position `k`. */
  lemma KeyIndexAt(acc: seq<LocCount>, loc: string, k: nat)
    requires k < |acc| && acc[k].location == loc
    requires forall m :: 0 <= m < k ==> acc[m].location != loc
    ensures KeyIndex(acc, loc) == Some(k)
  {
    var r := KeyIndex(acc, loc);
    if r.Some? {
      assert !(r.value < k) && !(k < r.value);
    }
  }

  /** `a[loc] || 0`: the count stored under `loc`, or 0 when there is none. */
  function CountOf(acc: seq<LocCount>, loc: string): nat {
    match KeyIndex(acc, loc)
    case Some(k) => acc[k].count
    case None => 0
  }

  /** `a[loc] = (a[loc] || 0) + 1` on an object without inherited keys, whose
      keys keep insertion order. */
  function Bump(acc: seq<LocCount>, loc: string): seq<LocCount> {
    match KeyIndex(acc, loc)
    case Some(k) => acc[k := LocCount(loc, acc[k].count + 1)]
    case None => acc + [LocCount(loc, 1)]
  }

  /** One update: the count read under `loc` (0 when absent) goes up by one,
      a new key goes at the end, and no other entry changes. */
  lemma BumpUpdatesOneKey(acc: seq<LocCount>, loc: string)
    ensures var r := Bump(acc, loc);
      && |r| == |acc| + (if KeyIndex(acc, loc).None? then 1 else 0)
      && CountOf(r, loc) == CountOf(acc, loc) + 1
      && forall k :: 0 <= k < |acc| && acc[k].location != loc ==> r[k] == acc[k]
  {
    match KeyIndex(acc, loc)
    case Some(k) => KeyIndexAt(Bump(acc, loc), loc, k);
    case None => KeyIndexAt(Bump(acc, loc), loc, |acc|);
  }

  /** The `reduce` over the foods, as a left fold of `Bump`. */
  function Tally(foods: seq<Listed>): seq<LocCount> {
    if foods == [] then []
    else Bump(Tally(foods[..|foods| - 1]), foods[|foods| - 1].location)
  }

  /** The reduce loop, mutating its accumulator as it goes. */
  method CountLocations(foods: seq<Listed>) returns (acc: seq<LocCount>)
    ensures acc == Tally(foods)
  {
    acc := [];
    var i := 0;
    while i < |foods|
      invariant 0 <= i <= |foods|
      invariant acc == Tally(foods[..i])
    {
      assert foods[..i + 1][..i] == foods[..i];
      var loc := foods[i].location;
      var k := KeyIndex(acc, loc);
      if k.Some? {
        acc := acc[k.value := LocCount(loc, acc[k.value].count + 1)];
      } else {
        acc := acc + [LocCount(loc, 1)];
      }
      i := i + 1;
    }
    assert foods[..|foods|] == foods;
  }

  /** How many of the foods are at `loc`. */
  function Occurrences(foods: seq<Listed>, loc: string): nat {
    if foods == [] then 0
    else Occurrences(foods[..|foods| - 1], loc) + (if foods[|foods| - 1].location == loc then 1 else 0)
  }

  function SumCounts(acc: seq<LocCount>): nat {
    if acc == [] then 0 else acc[0].count + SumCounts(acc[1..])
  }

  lemma {:induction false} SumAppend(acc: seq<LocCount>, e: LocCount)
    ensures SumCounts(acc + [e]) == SumCounts(acc) + e.count
  {
    if acc == [] {
      assert acc + [e] == [e];
    } else {
      assert (acc + [e])[1..] == acc[1..] + [e];
      SumAppend(acc[1..], e);
    }
  }

  lemma {:induction false} SumUpdate(acc: seq<LocCount>, k: nat, e: LocCount)
    requires k < |acc|
    ensures SumCounts(acc[k := e]) == SumCounts(acc) - acc[k].count + e.count
  {
    if k > 0 {
      assert acc[k := e][1..] == acc[1..][k - 1 := e];
      SumUpdate(acc[1..], k - 1, e);
    } else {
      assert acc[k := e][1..] == acc[1..];
    }
  }

  predicate KeysDistinct(acc: seq<LocCount>) {
    forall i, j :: 0 <= i < j < |acc| ==> acc[i].location != acc[j].location
  }

  predicate CountsMatch(acc: seq<LocCount>, foods: seq<Listed>) {
    forall k :: 0 <= k < |acc| ==> acc[k].count == Occurrences(foods, acc[k].location) >= 1
  }

  predicate CoversLocations(acc: seq<LocCount>, foods: seq<Listed>) {
    forall f :: f in foods ==> KeyIndex(acc, f.location).Some?
  }

  /** The histogram of `foods`: distinct keys, each with its number of foods
      (at least one), every food's location a key, and the counts adding up to
      the number of foods. */
  predicate IsHistogram(acc: seq<LocCount>, foods: seq<Listed>) {
    KeysDistinct(acc) && CountsMatch(acc, foods) && CoversLocations(acc, foods) && SumCounts(acc) == |foods|
  }

  lemma OccurrencesSnoc(foods: seq<Listed>, f: Listed, loc: string)
    ensures Occurrences(foods + [f], loc) == Occurrences(foods, loc) + (if f.location == loc then 1 else 0)
  {
    assert (foods + [f])[..|foods|] == foods;
  }

  lemma BumpKeepsDistinct(acc: seq<LocCount>, loc: string)
    requires KeysDistinct(acc)
    ensures KeysDistinct(Bump(acc, loc))
  {
  }

  lemma BumpKeepsCover(acc: seq<LocCount>, foods: seq<Listed>, f: Listed)
    requires CoversLocations(acc, foods)
    ensures CoversLocations(Bump(acc, f.location), foods + [f])
  {
    var b := Bump(acc, f.location);
    var k := KeyIndex(acc, f.location);
    forall g | g in foods + [f] ensures KeyIndex(b, g.location).Some? {
      if g in foods {
        var j := KeyIndex(acc, g.location).value;
        assert b[j].location == g.location;
      } else if k.Some? {
        assert b[k.value].location == g.location;
      } else {
        assert b[|acc|].location == g.location;
      }
    }
  }

  lemma BumpKeepsCounts(acc: seq<LocCount>, foods: seq<Listed>, f: Listed)
    requires KeysDistinct(acc) && CountsMatch(acc, foods) && CoversLocations(acc, foods)
    ensures CountsMatch(Bump(acc, f.location), foods + [f])
  {
    var b := Bump(acc, f.location);
    forall i | 0 <= i < |b|
      ensures b[i].count == Occurrences(foods + [f], b[i].location) >= 1
    {
      OccurrencesSnoc(foods, f, b[i].location);
      if KeyIndex(acc, f.location).None? && i == |acc| {
        OccurrencesAbsent(foods, f.location, acc);
      }
    }
  }

  lemma BumpSum(acc: seq<LocCount>, loc: string)
    ensures SumCounts(Bump(acc, loc)) == SumCounts(acc) + 1
  {
    match KeyIndex(acc, loc)
    case Some(k) => SumUpdate(acc, k, LocCount(loc, acc[k].count + 1));
    case None => SumAppend(acc, LocCount(loc, 1));
  }

  lemma BumpKeepsHistogram(acc: seq<LocCount>, foods: seq<Listed>, f: Listed)
    requires IsHistogram(acc, foods)
    ensures IsHistogram(Bump(acc, f.location), foods + [f])
  {
    BumpKeepsDistinct(acc, f.location);
    BumpKeepsCover(acc, foods, f);
    BumpKeepsCounts(acc, foods, f);
    BumpSum(acc, f.location);
  }

  lemma {:induction false} OccurrencesAbsent(foods: seq<Listed>, loc: string, acc: seq<LocCount>)
    requires forall g :: g in foods ==> KeyIndex(acc, g.location).Some?
    requires KeyIndex(acc, loc).None?
    ensures Occurrences(foods, loc) == 0
  {
    if foods != [] {
      var init := foods[..|foods| - 1];
      assert forall g :: g in init ==> g in foods;
      OccurrencesAbsent(init, loc, acc);
      assert foods[|foods| - 1] in foods;
    }
  }

  /** The reduce computes the location histogram of the fetched foods. */
  lemma {:induction false} TallyIsHistogram(foods: seq<Listed>)
    ensures IsHistogram(Tally(foods), foods)
  {
    if foods != [] {
      var init := foods[..|foods| - 1];
      TallyIsHistogram(init);
      BumpKeepsHistogram(Tally(init), init, foods[|foods| - 1]);
      assert init + [foods[|foods| - 1]] == foods;
    }
  }

  // ---- The accumulator as the pages write it ---------------------------------------

  /** The properties a plain `{}` inherits from `Object.prototype`. */
  const InheritedKeys: set<string> := {
    "constructor", "hasOwnProperty", "isPrototypeOf", "propertyIsEnumerable",
    "toLocaleString", "toString", "valueOf", "__defineGetter__", "__defineSetter__",
    "__lookupGetter__", "__lookupSetter__", "__proto__"}

  /** What the `{}` accumulator holds under a key: a number, or the string that
      `+ 1` makes of an inherited function. */
  datatype JsValue = Num(n: nat) | Text(s: string)

  datatype JsEntry = JsEntry(location: string, value: JsValue)

  /** The source text a built-in function converts to. */
  function NativeSource(key: string): string {
    if key == "constructor" then "function Object() { [native code] }"
    else "function " + key + "() { [native code] }"
  }

  /** The position of `loc` among the object's own keys. */
  function OwnIndex(acc: seq<JsEntry>, loc: string): (r: Option<nat>)
    ensures r.Some? ==> r.value < |acc| && acc[r.value].location == loc
    ensures r.Some? ==> forall k :: 0 <= k < r.value ==> acc[k].location != loc
    ensures r.None? <==> forall k :: 0 <= k < |acc| ==> acc[k].location != loc
  {
    if acc == [] then None
    else if acc[0].location == loc then Some(0)
    else
      match OwnIndex(acc[1..], loc)
      case None => None
      case Some(k) => Some(k + 1)
  }

  /** `a[loc] = (a[loc] || 0) + 1` on a plain `{}`. An own key goes up by one
      (a string gets "1" appended). Otherwise an inherited method is read,
      turned into its source text with "1" appended, and stored as a new own
      key; `__proto__` reads the prototype object, and its setter ignores the
      string it is given; any other key starts at 1. */
  function BumpObject(acc: seq<JsEntry>, loc: string): seq<JsEntry> {
    match OwnIndex(acc, loc)
    case Some(k) =>
      var v := match acc[k].value
        case Num(c) => Num(c + 1)
        case Text(t) => Text(t + "1");
      acc[k := JsEntry(loc, v)]
    case None =>
      if loc == "__proto__" then acc
      else if loc in InheritedKeys then acc + [JsEntry(loc, Text(NativeSource(loc) + "1"))]
      else acc + [JsEntry(loc, Num(1))]
  }

  /** One update of `{}`: other entries are kept, any new key is `loc`, every
      location but `__proto__` ends up an own key, and `__proto__` leaves the
      object as it was. */
  lemma BumpObjectUpdatesOneKey(acc: seq<JsEntry>, loc: string)
    ensures var r := BumpObject(acc, loc);
      && |acc| <= |r| <= |acc| + 1
      && (forall k :: 0 <= k < |acc| && acc[k].location != loc ==> r[k] == acc[k])
      && (forall k :: |acc| <= k < |r| ==> r[k].location == loc)
      && (loc != "__proto__" ==> OwnIndex(r, loc).Some?)
      && (loc == "__proto__" && OwnIndex(acc, loc).None? ==> r == acc)
  {
    var r := BumpObject(acc, loc);
    match OwnIndex(acc, loc)
    case Some(k) => assert r[k].location == loc;
    case None =>
      if loc != "__proto__" {
        assert r[|acc|].location == loc;
      }
  }

  /** The pages' `reduce` from `{}`, as a left fold of `BumpObject`: at most
      one key per food, and never an own `__proto__` key. */
  function TallyObject(foods: seq<Listed>): (r: seq<JsEntry>)
    ensures |r| <= |foods|
    ensures forall k :: 0 <= k < |r| ==> r[k].location != "__proto__"
  {
    if foods == [] then []
    else
      var prev := TallyObject(foods[..|foods| - 1]);
      BumpObjectUpdatesOneKey(prev, foods[|foods| - 1].location);
      BumpObject(prev, foods[|foods| - 1].location)
  }

  /** A histogram read as object entries with numeric values. */
  function Lift(acc: seq<LocCount>): (r: seq<JsEntry>)
    ensures |r| == |acc|
    ensures forall i :: 0 <= i < |acc| ==> r[i] == JsEntry(acc[i].location, Num(acc[i].count))
  {
    seq(|acc|, i requires 0 <= i < |acc| => JsEntry(acc[i].location, Num(acc[i].count)))
  }

  lemma OwnIndexLift(acc: seq<LocCount>, loc: string)
    ensures OwnIndex(Lift(acc), loc) == KeyIndex(acc, loc)
  {
    var a, b := OwnIndex(Lift(acc), loc), KeyIndex(acc, loc);
    if a.Some? && b.Some? {
      assert !(a.value < b.value) && !(b.value < a.value);
    }
  }

  lemma LiftUpdate(acc: seq<LocCount>, k: nat, e: LocCount)
    requires k < |acc|
    ensures Lift(acc[k := e]) == Lift(acc)[k := JsEntry(e.location, Num(e.count))]
  {
  }

  lemma LiftAppend(acc: seq<LocCount>, e: LocCount)
    ensures Lift(acc + [e]) == Lift(acc) + [JsEntry(e.location, Num(e.count))]
  {
  }

  /** One step away from the inherited names: `BumpObject` is `Bump`. */
  lemma BumpObjectLift(acc: seq<LocCount>, loc: string)
    requires loc !in InheritedKeys
    ensures BumpObject(Lift(acc), loc) == Lift(Bump(acc, loc))
  {
    OwnIndexLift(acc, loc);
    match KeyIndex(acc, loc)
    case Some(k) => LiftUpdate(acc, k, LocCount(loc, acc[k].count + 1));
    case None => LiftAppend(acc, LocCount(loc, 1));
  }

  /** Away from the inherited names the `{}` fold is the histogram fold. */
  lemma {:induction false} ObjectTallyOffPrototype(foods: seq<Listed>)
    requires forall f :: f in foods ==> f.location !in InheritedKeys
    ensures TallyObject(foods) == Lift(Tally(foods))
  {
    if foods != [] {
      var init, last := foods[..|foods| - 1], foods[|foods| - 1];
      assert forall f :: f in init ==> f in foods;
      ObjectTallyOffPrototype(init);
      assert last in foods;
      BumpObjectLift(Tally(init), last.location);
    }
  }

  /** A food at "__proto__" is a key of the histogram but never of the `{}`. */
  lemma ProtoLocationDropped()
    ensures var f := Listed(1, "Bread", "__proto__", Available, None, 0);
      TallyObject([f]) == [] && Tally([f]) == [LocCount("__proto__", 1)]
  {
    var f := Listed(1, "Bread", "__proto__", Available, None, 0);
    assert [f][..0] == [];
  }

  /** Two foods at "constructor" leave a string where the count should be. */
  lemma ConstructorCountIsText()
    ensures var f := Listed(1, "Bread", "constructor", Available, None, 0);
      && TallyObject([f, f]) == [JsEntry("constructor", Text("function Object() { [native code] }11"))]
      && Tally([f, f]) == [LocCount("constructor", 2)]
  {
    var f := Listed(1, "Bread", "constructor", Available, None, 0);
    var once := [JsEntry("constructor", Text(NativeSource("constructor") + "1"))];
    assert [f, f][..1] == [f] && [f][..0] == [];
    assert TallyObject([f]) == once;
    assert OwnIndex(once, "constructor") == Some(0);
    assert NativeSource("constructor") + "1" + "1" == "function Object() { [native code] }11";
    assert Tally([f]) == [LocCount("constructor", 1)];
    assert KeyIndex(Tally([f]), "constructor") == Some(0);
  }

  // ---- Top locations -------------------------------------------------------------

  predicate CountsNonIncreasing(s: seq<LocCount>) {
    forall i, j :: 0 <= i < j < |s| ==> s[i].count >= s[j].count
  }

  function InsertByCount(e: LocCount, s: seq<LocCount>): (r: seq<LocCount>)
    requires CountsNonIncreasing(s)
    ensures CountsNonIncreasing(r)
    ensures multiset(r) == multiset(s) + multiset{e}
    ensures |r| == |s| + 1
    ensures r[0] == e || (|s| > 0 && r[0] == s[0])
  {
    if s == [] || e.count >= s[0].count then [e] + s
    else
      var rest := InsertByCount(e, s[1..]);
      assert s == [s[0]] + s[1..];
      assert s[0].count >= rest[0].count;
      [s[0]] + rest
  }

  /** `sort((a, b) => b[1] - a[1])`: by count, largest first. */
  function SortByCount(s: seq<LocCount>): (r: seq<LocCount>)
    ensures CountsNonIncreasing(r)
    ensures multiset(r) == multiset(s)
    ensures |r| == |s|
  {
    if s == [] then []
    else
      assert s == [s[0]] + s[1..];
      InsertByCount(s[0], SortByCount(s[1..]))
  }

  /** No entry left out of `top` has a larger count than the last one kept. */
  predicate NoneLeftOutranks(entries: seq<LocCount>, top: seq<LocCount>) {
    |top| > 0 ==> forall x :: x in multiset(entries) - multiset(top) ==> x.count <= top[|top| - 1].count
  }

  /** Cutting a sorted arrangement of `entries` after `m` items: the kept
      prefix is sorted and drawn from `entries`, and nothing left out has a
      larger count than the last entry kept. */
  lemma SortedSplit(entries: seq<LocCount>, sorted: seq<LocCount>, m: nat)
    requires CountsNonIncreasing(sorted) && multiset(sorted) == multiset(entries) && m <= |sorted|
    ensures CountsNonIncreasing(sorted[..m])
    ensures multiset(sorted[..m]) <= multiset(entries)
    ensures NoneLeftOutranks(entries, sorted[..m])
  {
    var pre, post := sorted[..m], sorted[m..];
    assert sorted == pre + post;
    assert multiset(entries) == multiset(pre) + multiset(post);
    if m > 0 {
      forall x | x in multiset(entries) - multiset(pre) ensures x.count <= pre[m - 1].count {
        assert x in multiset(post);
        var j :| 0 <= j < |post| && post[j] == x;
        assert sorted[m + j] == x && sorted[m - 1] == pre[m - 1];
      }
    }
  }

  /** `Object.entries(hist).sort(...).slice(0, n)`: the `n` largest entries,
      largest first, and nothing left out outranks the last one kept. */
  function TopEntries(entries: seq<LocCount>, n: nat): (r: seq<LocCount>)
    ensures |r| == if |entries| <= n then |entries| else n
    ensures CountsNonIncreasing(r)
    ensures multiset(r) <= multiset(entries)
    ensures NoneLeftOutranks(entries, r)
  {
    var sorted := SortByCount(entries);
    var m := if |entries| <= n then |entries| else n;
    SortedSplit(entries, sorted, m);
    sorted[..m]
  }

  /** What a page's top-locations list promises: at most `n` entries with
      distinct locations, largest first, each a location of the foods with its
      true count, and a location
      left out only when the list is full and it has no more foods than the
      last one kept. */
  predicate IsRanking(top: seq<LocCount>, foods: seq<Listed>, n: nat) {
    && |top| <= n
    && KeysDistinct(top)
    && CountsNonIncreasing(top)
    && (forall i :: 0 <= i < |top| ==> top[i].count == Occurrences(foods, top[i].location) >= 1)
    && (forall f :: f in foods && KeyIndex(top, f.location).None? ==>
          |top| == n && (n > 0 ==> Occurrences(foods, f.location) <= top[n - 1].count))
  }

  /** Keys that are distinct occur at most once each. */
  lemma {:induction false} DistinctOnce(s: seq<LocCount>, x: LocCount)
    requires KeysDistinct(s)
    ensures multiset(s)[x] <= 1
  {
    if s != [] {
      assert s == [s[0]] + s[1..];
      assert KeysDistinct(s[1..]) by {
        forall i, j | 0 <= i < j < |s[1..]| ensures s[1..][i].location != s[1..][j].location {
          assert s[1..][i] == s[i + 1] && s[1..][j] == s[j + 1];
        }
      }
      DistinctOnce(s[1..], x);
      if s[0] == x {
        assert x !in s[1..] by {
          forall k | 0 <= k < |s[1..]| ensures s[1..][k] != x {
            assert s[1..][k] == s[k + 1];
          }
        }
      }
    }
  }

  /** An entry at two positions is counted twice. */
  lemma TwiceCounted(s: seq<LocCount>, i: nat, j: nat)
    requires i < j < |s| && s[i] == s[j]
    ensures multiset(s)[s[i]] >= 2
  {
    assert s == s[..j] + [s[j]] + s[j + 1..];
    assert s[i] == s[..j][i];
  }

  /** Entries drawn from a histogram keep its keys distinct. */
  lemma SubDistinct(top: seq<LocCount>, hist: seq<LocCount>)
    requires KeysDistinct(hist) && multiset(top) <= multiset(hist)
    ensures KeysDistinct(top)
  {
    forall i, j | 0 <= i < j < |top| ensures top[i].location != top[j].location {
      if top[i] == top[j] {
        TwiceCounted(top, i, j);
        DistinctOnce(hist, top[i]);
      } else {
        assert top[i] in multiset(hist) && top[j] in multiset(hist);
        var p :| 0 <= p < |hist| && hist[p] == top[i];
        var q :| 0 <= q < |hist| && hist[q] == top[j];
        assert p != q;
      }
    }
  }

  /** Every kept entry is an entry of the histogram, so its count is right. */
  lemma TopKeepsCounts(hist: seq<LocCount>, foods: seq<Listed>, n: nat)
    requires CountsMatch(hist, foods)
    ensures CountsMatch(TopEntries(hist, n), foods)
  {
    var top := TopEntries(hist, n);
    forall i | 0 <= i < |top| ensures top[i].count == Occurrences(foods, top[i].location) >= 1 {
      assert top[i] in multiset(hist);
    }
  }

  /** Something left over after taking a sub-multiset means it was smaller. */
  lemma LeftoverMeansSmaller(a: multiset<LocCount>, b: multiset<LocCount>, x: LocCount)
    requires b <= a && x in a - b
    ensures |b| < |a|
  {
    assert a == (a - b) + b;
  }

  /** An entry whose location is not among the kept ones was left out. */
  lemma AbsentKeyLeftOut(hist: seq<LocCount>, top: seq<LocCount>, k: nat)
    requires k < |hist| && KeyIndex(top, hist[k].location).None?
    requires multiset(top) <= multiset(hist)
    ensures hist[k] in multiset(hist) - multiset(top)
  {
    assert hist[k] !in top;
  }

  /** A food whose location did not make the list: the list is full and the
      location has no more foods than the last entry kept. */
  lemma OmittedBounded(hist: seq<LocCount>, foods: seq<Listed>, n: nat, f: Listed)
    requires CountsMatch(hist, foods) && CoversLocations(hist, foods)
    requires f in foods && KeyIndex(TopEntries(hist, n), f.location).None?
    ensures var top := TopEntries(hist, n);
      |top| == n && (n > 0 ==> Occurrences(foods, f.location) <= top[n - 1].count)
  {
    var top := TopEntries(hist, n);
    var k := KeyIndex(hist, f.location).value;
    AbsentKeyLeftOut(hist, top, k);
    LeftoverMeansSmaller(multiset(hist), multiset(top), hist[k]);
    assert NoneLeftOutranks(hist, top);
  }

  /** The histogram `reduce` followed by the sort and slice. */
  method RankLocations(foods: seq<Listed>, n: nat) returns (top: seq<LocCount>)
    ensures IsRanking(top, foods, n)
  {
    var hist := CountLocations(foods);
    TallyIsHistogram(foods);
    top := TopEntries(hist, n);
    SubDistinct(top, hist);
    TopKeepsCounts(hist, foods, n);
    forall f | f in foods && KeyIndex(top, f.location).None?
      ensures |top| == n && (n > 0 ==> Occurrences(foods, f.location) <= top[n - 1].count)
    {
      OmittedBounded(hist, foods, n, f);
    }
  }

  /** `topLocations.length > 0 ? topLocations[0][1] : 1`. */
  function MaxCount(top: seq<LocCount>): int {
    if |top| > 0 then top[0].count else 1
  }

  /** `locs[0]?.[1] || 1`: a first count of 0 would also give 1. */
  function FirstCountOr1(top: seq<LocCount>): int {
    if |top| > 0 && top[0].count != 0 then top[0].count else 1
  }

  /** Every bar of the top-locations chart is between 1 and the maximum it is
      scaled by, so no bar is wider than the track; both ways of reading the
      maximum agree on a histogram. */
  lemma BarsFit(foods: seq<Listed>, n: nat)
    ensures var top := TopEntries(Tally(foods), n);
      && MaxCount(top) >= 1
      && FirstCountOr1(top) == MaxCount(top)
      && forall i :: 0 <= i < |top| ==> 1 <= top[i].count <= MaxCount(top)
  {
    var hist := Tally(foods);
    TallyIsHistogram(foods);
    var top := TopEntries(hist, n);
    forall i | 0 <= i < |top| ensures top[i].count >= 1 {
      assert top[i] in multiset(hist);
    }
  }

  /** `foods.filter(f => f.id !== id)`: the list without the deleted food. */
  function WithoutId(foods: seq<Listed>, id: int): (r: seq<Listed>)
    ensures |r| <= |foods|
    ensures forall x :: x in r <==> x in foods && x.id != id
  {
    Keep(foods, (f: Listed) => f.id != id)
  }

  /** The optimistic stats update after a delete: only `total_foods` drops. */
  function DecrementTotal(s: Stats): (r: Stats)
    ensures r.totalFoods == s.totalFoods - 1
    ensures r.available == s.available && r.taken == s.taken && r.expired == s.expired
  {
    s.(totalFoods := s.totalFoods - 1)
  }

  // ---- Component state -----------------------------------------------------------

  /** The answer to DELETE /foods/{id}, with the server's message on failure. */
  datatype DeleteResponse = Deleted | DeleteFailed(message: Option<string>)

  /** The state a dashboard keeps: the last fetched stats and foods, the id
      being deleted, and whether the first fetch is still pending. */
  class PanelState {
    var stats: Stats
    var foods: seq<Listed>
    var deleting: Option<int>
    var loading: bool

    constructor ()
      ensures stats == Stats(0, 0, 0, 0) && foods == [] && deleting.None? && loading
    {
      stats := Stats(0, 0, 0, 0);
      foods := [];
      deleting := None;
      loading := true;
    }

    /** `fetchData`: a successful poll replaces stats and foods together, a
        failed one keeps both; loading ends either way. */
    method Fetch(response: Option<(Stats, seq<Listed>)>)
      modifies this
      ensures !loading && deleting == old(deleting)
      ensures response.Some? ==> stats == response.value.0 && foods == response.value.1
      ensures response.None? ==> stats == old(stats) && foods == old(foods)
    {
      if response.Some? {
        stats := response.value.0;
        foods := response.value.1;
      }
      loading := false;
    }
  }
}
