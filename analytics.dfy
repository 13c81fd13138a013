/**
 * The analytics actions of src/lib/actions/analytics.ts: getAnalytics (daily
 * and per-tag buckets, totals, the current streak, the daily goal),
 * getDailyTotal and updateDailyGoal. The store's collections stand in for the
 * Prisma queries; the clock reading `new Date()` is the parameter `now`.
 */
module Analytics {
  import opened Wrappers
  import opened Records
  import opened Sorting
  import Domain

  const NOT_LOGGED_IN: string := "User must be logged in to get analytics"
  const DAILY_TOTAL_NOT_LOGGED_IN: string := "User must be logged in"
  const GOAL_NOT_LOGGED_IN: string := "User must be logged in"
  const GOAL_OUT_OF_RANGE: string := "Daily goal must be between 0 and 1440 minutes"

  /** getAnalytics's window when no `days` is passed. */
  const DEFAULT_DAYS: int := 30
  /** The goal reported when none (or 0) is stored: eight hours. */
  const DEFAULT_DAILY_GOAL: int := 480
  const MAX_DAILY_GOAL: int := 1440

  /** `log.duration || 0`. */
  function Minutes(log: Log): int {
    if log.duration.Some? then log.duration.value else 0
  }

  /** `startOfDay(log.startedAt)`, the daily map's key. */
  function DayOf(log: Log): int {
    Domain.StartOfDay(log.startedAt)
  }

  function NegStartedAt(log: Log): int {
    -log.startedAt
  }

  function Negate(x: int): int {
    -x
  }

  // ---------------------------------------------------------------------------
  // The query
  // ---------------------------------------------------------------------------

  /** The `where` of getAnalytics's findMany. */
  predicate FinishedSince(log: Log, user: UserId, startDate: int) {
    log.userId == user && log.finishedAt.Some? && log.startedAt >= startDate
  }

  /**
   * `findMany({ where: { userId, finishedAt: { not: null }, startedAt: { gte } },
   * orderBy: { startedAt: "desc" } })`: exactly the user's finished logs
   * started at or after `startDate`, latest first.
   */
  function QueryLogs(logs: seq<Log>, user: UserId, startDate: int): (r: seq<Log>)
    ensures forall l :: l in r ==> l in logs && FinishedSince(l, user, startDate)
    ensures forall k :: 0 <= k < |logs| && FinishedSince(logs[k], user, startDate) ==> logs[k] in r
    ensures forall i, j :: 0 <= i < j < |r| ==> r[i].startedAt >= r[j].startedAt
    ensures forall l :: multiset(r)[l] == if FinishedSince(l, user, startDate) then multiset(logs)[l] else 0
  {
    var matching := Filter(logs, (l: Log) => FinishedSince(l, user, startDate));
    FilterMultiset(logs, (l: Log) => FinishedSince(l, user, startDate));
    var sorted := SortBy(matching, NegStartedAt);
    assert forall l :: l in sorted <==> l in matching by {
      forall l ensures l in sorted <==> l in matching {
        assert l in sorted <==> l in multiset(sorted);
        assert l in matching <==> l in multiset(matching);
      }
    }
    assert forall i, j :: 0 <= i < j < |sorted| ==> NegStartedAt(sorted[i]) <= NegStartedAt(sorted[j]);
    sorted
  }

  /** A log with its tags, as `include: { tags: true }` returns it. */
  datatype LogWithTags = LogWithTags(log: Log, tags: seq<Tag>)

  /** The tags of the store whose id the log lists. */
  function TagsOf(log: Log, tags: seq<Tag>): (r: seq<Tag>)
    ensures forall t :: t in r ==> t in tags && t.id in log.tagIds
    ensures forall k :: 0 <= k < |tags| && tags[k].id in log.tagIds ==> tags[k] in r
  {
    Filter(tags, (t: Tag) => t.id in log.tagIds)
  }

  function WithTags(logs: seq<Log>, tags: seq<Tag>): (r: seq<LogWithTags>)
    ensures |r| == |logs|
    ensures forall k :: 0 <= k < |logs| ==> r[k].log == logs[k] && r[k].tags == TagsOf(logs[k], tags)
  {
    seq(|logs|, k requires 0 <= k < |logs| => LogWithTags(logs[k], TagsOf(logs[k], tags)))
  }

  // ---------------------------------------------------------------------------
  // Buckets: a JavaScript `Map` from key to a mutable record, in insertion order
  // ---------------------------------------------------------------------------

  /** `{ date | tag, totalMinutes, logCount }` under its map key. */
  datatype Bucket<P> = Bucket(key: int, subject: P, totalMinutes: int, logCount: nat)

  /** A daily bucket; its subject is the day start (`date`). */
  type DailyStats = Bucket<int>

  /** A tag bucket; its subject is the tag, its key the tag's id. */
  type TagStats = Bucket<Tag>

  function KeyOf<P>(b: Bucket<P>): int {
    b.key
  }

  function TotalOf<P>(b: Bucket<P>): int {
    b.totalMinutes
  }

  function NegTotalOf<P>(b: Bucket<P>): int {
    -b.totalMinutes
  }

  function CountOf<P>(b: Bucket<P>): int {
    b.logCount
  }

  function Keys<P>(buckets: seq<Bucket<P>>): (r: seq<int>)
    ensures |r| == |buckets| && forall i :: 0 <= i < |buckets| ==> r[i] == buckets[i].key
  {
    seq(|buckets|, i requires 0 <= i < |buckets| => buckets[i].key)
  }

  /** `map.get(key)`: the position of the bucket under `key`. */
  function FindKey<P>(buckets: seq<Bucket<P>>, key: int): (r: Option<nat>)
    ensures r.Some? ==> r.value < |buckets| && buckets[r.value].key == key
    ensures r.None? <==> forall i :: 0 <= i < |buckets| ==> buckets[i].key != key
  {
    if buckets == [] then None
    else if buckets[0].key == key then Some(0)
    else match FindKey(buckets[1..], key)
      case Some(i) => assert buckets[1..][i] == buckets[i + 1]; Some(i + 1)
      case None =>
        assert forall i :: 1 <= i < |buckets| ==> buckets[i] == buckets[1..][i - 1];
        None
  }

  /**
   * One step of the loop: `existing = map.get(key) || { subject, 0, 0 }`,
   * `existing.totalMinutes += minutes`, `existing.logCount += 1`,
   * `map.set(key, existing)`.
   */
  function AddItem<T, P>(buckets: seq<Bucket<P>>, x: T, key: T -> int, subject: T -> P, minutes: T -> int): seq<Bucket<P>> {
    match FindKey(buckets, key(x))
    case Some(j) =>
      buckets[j := buckets[j].(totalMinutes := buckets[j].totalMinutes + minutes(x), logCount := buckets[j].logCount + 1)]
    case None => buckets + [Bucket(key(x), subject(x), minutes(x), 1)]
  }

  /** The buckets after adding every item in order. */
  function Tally<T, P>(items: seq<T>, key: T -> int, subject: T -> P, minutes: T -> int): seq<Bucket<P>> {
    if items == [] then [] else AddItem(Tally(items[..|items| - 1], key, subject, minutes), items[|items| - 1], key, subject, minutes)
  }

  /** The distinct keys of `items` in the order they first occur (a `Map`'s iteration order). */
  function FirstKeys<T>(items: seq<T>, key: T -> int): (r: seq<int>)
    ensures forall i, j :: 0 <= i < j < |r| ==> r[i] != r[j]
    ensures forall k :: k in r <==> exists i :: 0 <= i < |items| && key(items[i]) == k
  {
    if items == [] then []
    else
      var init := items[..|items| - 1];
      var x := items[|items| - 1];
      var r := FirstKeys(init, key);
      assert forall i :: 0 <= i < |init| ==> init[i] == items[i];
      if key(x) in r then r else r + [key(x)]
  }

  /**
   * `buckets` is the map after a loop over `items`: one bucket per distinct
   * key, in first-occurrence order; each holds the subject of its first item,
   * the sum of its items' minutes and their number; and the buckets add up to
   * all the items.
   */
  ghost predicate Tallied<T, P>(buckets: seq<Bucket<P>>, items: seq<T>, key: T -> int, subject: T -> P, minutes: T -> int) {
    Keys(buckets) == FirstKeys(items, key)
    && BucketsHold(buckets, items, key, subject, minutes)
    && SumsHold(buckets, items, minutes)
  }

  /** One bucket holds the subject of the first item under its key, their minutes and their number. */
  ghost predicate BucketHolds<T, P>(bucket: Bucket<P>, items: seq<T>, key: T -> int, subject: T -> P, minutes: T -> int) {
    WithKey(items, key, bucket.key) != []
    && bucket.subject == subject(WithKey(items, key, bucket.key)[0])
    && bucket.totalMinutes == SumBy(WithKey(items, key, bucket.key), minutes)
    && bucket.logCount == |WithKey(items, key, bucket.key)|
  }

  ghost predicate BucketsHold<T, P>(buckets: seq<Bucket<P>>, items: seq<T>, key: T -> int, subject: T -> P, minutes: T -> int) {
    forall b :: 0 <= b < |buckets| ==> BucketHolds(buckets[b], items, key, subject, minutes)
  }

  /** The buckets add up to all the items, in minutes and in count. */
  ghost predicate SumsHold<T, P>(buckets: seq<Bucket<P>>, items: seq<T>, minutes: T -> int) {
    SumBy(buckets, TotalOf) == SumBy(items, minutes) && SumBy(buckets, CountOf) == |items|
  }

  /** The bucket `j` after the item `x` is added to it by the same key. */
  lemma {:induction false} BucketGrows<T, P>(bucket: Bucket<P>, items: seq<T>, x: T, key: T -> int, subject: T -> P, minutes: T -> int)
    requires key(x) == bucket.key
    requires BucketHolds(bucket, items, key, subject, minutes)
    ensures BucketHolds(bucket.(totalMinutes := bucket.totalMinutes + minutes(x), logCount := bucket.logCount + 1),
                        items + [x], key, subject, minutes)
  {
    var these := WithKey(items, key, bucket.key);
    WithKeySnoc(items, x, key, bucket.key);
    SumByConcat(these, [x], minutes);
    assert SumBy([x], minutes) == minutes(x) by { assert [x][1..] == []; }
  }

  /** A bucket under another key than the added item's is unaffected. */
  lemma {:induction false} BucketKept<T, P>(bucket: Bucket<P>, items: seq<T>, x: T, key: T -> int, subject: T -> P, minutes: T -> int)
    requires key(x) != bucket.key
    requires BucketHolds(bucket, items, key, subject, minutes)
    ensures BucketHolds(bucket, items + [x], key, subject, minutes)
  {
    WithKeySnoc(items, x, key, bucket.key);
    assert WithKey(items + [x], key, bucket.key) == WithKey(items, key, bucket.key);
  }

  /** The per-bucket facts after the item is added to the existing bucket `j`. */
  lemma {:induction false} BucketsGrow<T, P>(buckets: seq<Bucket<P>>, items: seq<T>, x: T, key: T -> int, subject: T -> P, minutes: T -> int, j: nat)
    requires BucketsHold(buckets, items, key, subject, minutes)
    requires DistinctBy(buckets, KeyOf)
    requires j < |buckets| && buckets[j].key == key(x)
    ensures BucketsHold(buckets[j := buckets[j].(totalMinutes := buckets[j].totalMinutes + minutes(x), logCount := buckets[j].logCount + 1)],
                        items + [x], key, subject, minutes)
  {
    var nb := buckets[j := buckets[j].(totalMinutes := buckets[j].totalMinutes + minutes(x), logCount := buckets[j].logCount + 1)];
    forall b | 0 <= b < |nb| ensures BucketHolds(nb[b], items + [x], key, subject, minutes) {
      if b == j {
        BucketGrows(buckets[j], items, x, key, subject, minutes);
      } else {
        assert KeyOf(buckets[b]) != KeyOf(buckets[j]);
        BucketKept(buckets[b], items, x, key, subject, minutes);
      }
    }
  }

  /** The per-bucket facts after a new bucket for the item is appended. */
  lemma {:induction false} BucketsExtend<T, P>(buckets: seq<Bucket<P>>, items: seq<T>, x: T, key: T -> int, subject: T -> P, minutes: T -> int)
    requires BucketsHold(buckets, items, key, subject, minutes)
    requires forall i :: 0 <= i < |buckets| ==> buckets[i].key != key(x)
    requires WithKey(items, key, key(x)) == []
    ensures BucketsHold(buckets + [Bucket(key(x), subject(x), minutes(x), 1)], items + [x], key, subject, minutes)
  {
    var nb := buckets + [Bucket(key(x), subject(x), minutes(x), 1)];
    forall b | 0 <= b < |nb| ensures BucketHolds(nb[b], items + [x], key, subject, minutes) {
      if b == |buckets| {
        WithKeySnoc(items, x, key, key(x));
        assert WithKey(items + [x], key, key(x)) == [x];
        assert SumBy([x], minutes) == minutes(x) by { assert [x][1..] == []; }
      } else {
        assert nb[b] == buckets[b];
        BucketKept(buckets[b], items, x, key, subject, minutes);
      }
    }
  }

  /** Distinct keys of the buckets follow from their being the distinct first keys. */
  lemma {:induction false} KeysDistinct<T, P>(buckets: seq<Bucket<P>>, items: seq<T>, key: T -> int)
    requires Keys(buckets) == FirstKeys(items, key)
    ensures DistinctBy(buckets, KeyOf)
  {
    forall i, j | 0 <= i < j < |buckets| ensures KeyOf(buckets[i]) != KeyOf(buckets[j]) {
      assert Keys(buckets)[i] == buckets[i].key && Keys(buckets)[j] == buckets[j].key;
    }
  }

  lemma {:induction false} TalliedExisting<T, P>(buckets: seq<Bucket<P>>, items: seq<T>, x: T, key: T -> int, subject: T -> P, minutes: T -> int, j: nat)
    requires Tallied(buckets, items, key, subject, minutes)
    requires FindKey(buckets, key(x)) == Some(j)
    ensures Tallied(AddItem(buckets, x, key, subject, minutes), items + [x], key, subject, minutes)
  {
    var nb := buckets[j := buckets[j].(totalMinutes := buckets[j].totalMinutes + minutes(x), logCount := buckets[j].logCount + 1)];
    assert AddItem(buckets, x, key, subject, minutes) == nb;
    KeysDistinct(buckets, items, key);
    BucketsGrow(buckets, items, x, key, subject, minutes, j);
    KeysExisting(buckets, items, x, key, j);
    KeysUpdate(buckets, j, nb[j]);
    SumsGrow(buckets, items, x, minutes, j);
  }

  /** Replacing a bucket by one under the same key keeps the key sequence. */
  lemma {:induction false} KeysUpdate<P>(buckets: seq<Bucket<P>>, j: nat, b: Bucket<P>)
    requires j < |buckets| && b.key == buckets[j].key
    ensures Keys(buckets[j := b]) == Keys(buckets)
  {
  }

  /** The sums after the item is added to the bucket `j`. */
  lemma {:induction false} SumsGrow<T, P>(buckets: seq<Bucket<P>>, items: seq<T>, x: T, minutes: T -> int, j: nat)
    requires SumsHold(buckets, items, minutes) && j < |buckets|
    ensures SumsHold(buckets[j := buckets[j].(totalMinutes := buckets[j].totalMinutes + minutes(x), logCount := buckets[j].logCount + 1)],
                     items + [x], minutes)
  {
    var grown := buckets[j].(totalMinutes := buckets[j].totalMinutes + minutes(x), logCount := buckets[j].logCount + 1);
    SumByUpdate(buckets, j, grown, TotalOf);
    SumByUpdate(buckets, j, grown, CountOf);
    SumByConcat(items, [x], minutes);
    assert SumBy([x], minutes) == minutes(x) by { assert [x][1..] == []; }
  }

  /** An item whose key already has a bucket adds no first key. */
  lemma {:induction false} KeysExisting<T, P>(buckets: seq<Bucket<P>>, items: seq<T>, x: T, key: T -> int, j: nat)
    requires Keys(buckets) == FirstKeys(items, key)
    requires j < |buckets| && buckets[j].key == key(x)
    ensures FirstKeys(items + [x], key) == FirstKeys(items, key)
  {
    var s2 := items + [x];
    assert s2[..|s2| - 1] == items;
    assert Keys(buckets)[j] == key(x);
  }

  /** An item with a new key adds that key after the others. */
  lemma {:induction false} KeysNew<T, P>(buckets: seq<Bucket<P>>, items: seq<T>, x: T, key: T -> int)
    requires Keys(buckets) == FirstKeys(items, key)
    requires forall i :: 0 <= i < |buckets| ==> buckets[i].key != key(x)
    ensures FirstKeys(items + [x], key) == FirstKeys(items, key) + [key(x)]
  {
    var s2 := items + [x];
    assert s2[..|s2| - 1] == items;
    assert key(x) !in Keys(buckets);
  }

  lemma {:induction false} TalliedNew<T, P>(buckets: seq<Bucket<P>>, items: seq<T>, x: T, key: T -> int, subject: T -> P, minutes: T -> int)
    requires Tallied(buckets, items, key, subject, minutes)
    requires FindKey(buckets, key(x)).None?
    ensures Tallied(AddItem(buckets, x, key, subject, minutes), items + [x], key, subject, minutes)
  {
    var added := Bucket(key(x), subject(x), minutes(x), 1);
    var nb := buckets + [added];
    assert AddItem(buckets, x, key, subject, minutes) == nb;
    KeysNew(buckets, items, x, key);
    assert key(x) !in FirstKeys(items, key);
    WithKeyEmpty(items, key, key(x));
    BucketsExtend(buckets, items, x, key, subject, minutes);
    assert Keys(nb) == Keys(buckets) + [key(x)];
    SumByConcat(buckets, [added], TotalOf);
    SumByConcat(buckets, [added], CountOf);
    SumByConcat(items, [x], minutes);
    assert [added][1..] == [] && [x][1..] == [];
  }

  /** Adding an item to tallied buckets tallies the longer sequence. */
  lemma {:induction false} TalliedAdd<T, P>(buckets: seq<Bucket<P>>, items: seq<T>, x: T, key: T -> int, subject: T -> P, minutes: T -> int)
    requires Tallied(buckets, items, key, subject, minutes)
    ensures Tallied(AddItem(buckets, x, key, subject, minutes), items + [x], key, subject, minutes)
  {
    match FindKey(buckets, key(x))
    case Some(j) => TalliedExisting(buckets, items, x, key, subject, minutes, j);
    case None => TalliedNew(buckets, items, x, key, subject, minutes);
  }

  /** The loop computes the map `Tallied` describes. */
  lemma {:induction false} TallyTallied<T, P>(items: seq<T>, key: T -> int, subject: T -> P, minutes: T -> int)
    ensures Tallied(Tally(items, key, subject, minutes), items, key, subject, minutes)
    decreases |items|
  {
    if items == [] {
      assert Keys<P>([]) == [];
    } else {
      var init := items[..|items| - 1];
      TallyTallied(init, key, subject, minutes);
      TalliedAdd(Tally(init, key, subject, minutes), init, items[|items| - 1], key, subject, minutes);
      assert init + [items[|items| - 1]] == items;
    }
  }

  /** The keys of the buckets are distinct. */
  lemma {:induction false} TallyDistinct<T, P>(items: seq<T>, key: T -> int, subject: T -> P, minutes: T -> int)
    ensures DistinctBy(Tally(items, key, subject, minutes), KeyOf)
  {
    TallyTallied(items, key, subject, minutes);
    var b := Tally(items, key, subject, minutes);
    forall i, j | 0 <= i < j < |b| ensures KeyOf(b[i]) != KeyOf(b[j]) {
      assert Keys(b)[i] == b[i].key && Keys(b)[j] == b[j].key;
    }
  }

  /** The keys of the buckets, as a set. */
  function KeySet<P>(buckets: seq<Bucket<P>>): set<int> {
    set i | 0 <= i < |buckets| :: buckets[i].key
  }

  /** The keys of the items, as a set. */
  function ItemKeySet<T>(items: seq<T>, key: T -> int): set<int> {
    set k | 0 <= k < |items| :: key(items[k])
  }

  /**
   * In any reordering of the buckets, each bucket is one of the tally's:
   * non-empty, with the subject of its first item, its items' minutes and
   * number; and the keys are exactly the items' keys.
   */
  lemma {:induction false} SortedTallyFacts<T, P>(items: seq<T>, key: T -> int, subject: T -> P, minutes: T -> int, order: Bucket<P> -> int)
    ensures var t := SortBy(Tally(items, key, subject, minutes), order);
      (forall i :: 0 <= i < |t| ==>
         WithKey(items, key, t[i].key) != []
         && t[i].subject == subject(WithKey(items, key, t[i].key)[0])
         && t[i].totalMinutes == SumBy(WithKey(items, key, t[i].key), minutes)
         && t[i].logCount == |WithKey(items, key, t[i].key)|)
      && KeySet(t) == ItemKeySet(items, key)
  {
    SortedTallyBuckets(items, key, subject, minutes, order);
    SortedTallyKeys(items, key, subject, minutes, order);
  }

  lemma {:induction false} SortedTallyBuckets<T, P>(items: seq<T>, key: T -> int, subject: T -> P, minutes: T -> int, order: Bucket<P> -> int)
    ensures var t := SortBy(Tally(items, key, subject, minutes), order);
      forall i :: 0 <= i < |t| ==>
         WithKey(items, key, t[i].key) != []
         && t[i].subject == subject(WithKey(items, key, t[i].key)[0])
         && t[i].totalMinutes == SumBy(WithKey(items, key, t[i].key), minutes)
         && t[i].logCount == |WithKey(items, key, t[i].key)|
  {
    var b := Tally(items, key, subject, minutes);
    var t := SortBy(b, order);
    TallyTallied(items, key, subject, minutes);
    forall i | 0 <= i < |t| ensures
      WithKey(items, key, t[i].key) != []
      && t[i].subject == subject(WithKey(items, key, t[i].key)[0])
      && t[i].totalMinutes == SumBy(WithKey(items, key, t[i].key), minutes)
      && t[i].logCount == |WithKey(items, key, t[i].key)|
    {
      assert t[i] in multiset(b);
      var g :| 0 <= g < |b| && b[g] == t[i];
    }
  }

  /** A key occurs among the tally's buckets exactly when some item has it. */
  lemma {:induction false} TallyKeys<T, P>(items: seq<T>, key: T -> int, subject: T -> P, minutes: T -> int)
    ensures KeySet(Tally(items, key, subject, minutes)) == ItemKeySet(items, key)
  {
    var b := Tally(items, key, subject, minutes);
    TallyTallied(items, key, subject, minutes);
    var fk := FirstKeys(items, key);
    assert Keys(b) == fk;
    forall k ensures k in KeySet(b) <==> k in ItemKeySet(items, key) {
      assert k in KeySet(b) <==> k in Keys(b);
      assert k in fk <==> exists i :: 0 <= i < |items| && key(items[i]) == k;
    }
  }

  lemma {:induction false} SortedTallyKeys<T, P>(items: seq<T>, key: T -> int, subject: T -> P, minutes: T -> int, order: Bucket<P> -> int)
    ensures KeySet(SortBy(Tally(items, key, subject, minutes), order)) == ItemKeySet(items, key)
  {
    var b := Tally(items, key, subject, minutes);
    var t := SortBy(b, order);
    TallyKeys(items, key, subject, minutes);
    forall k ensures k in KeySet(t) <==> k in KeySet(b) {
      if k in KeySet(t) {
        var i :| 0 <= i < |t| && t[i].key == k;
        assert t[i] in multiset(b);
      }
      if k in KeySet(b) {
        var g :| 0 <= g < |b| && b[g].key == k;
        assert b[g] in multiset(t);
      }
    }
  }

  /** Adding one more item is one more step of the loop. */
  lemma {:induction false} TallySnoc<T, P>(items: seq<T>, x: T, key: T -> int, subject: T -> P, minutes: T -> int)
    ensures Tally(items + [x], key, subject, minutes) == AddItem(Tally(items, key, subject, minutes), x, key, subject, minutes)
  {
    assert (items + [x])[..|items|] == items;
  }

  // ---------------------------------------------------------------------------
  // The daily map (analytics.ts:56-72)
  // ---------------------------------------------------------------------------

  /** The daily buckets of `logs`, in the order their days first occur. */
  function DailyTally(logs: seq<Log>): seq<DailyStats> {
    Tally(logs, DayOf, DayOf, Minutes)
  }

  /** The loop filling `dailyMap`. */
  method DailyBuckets(logs: seq<Log>) returns (buckets: seq<DailyStats>)
    ensures buckets == DailyTally(logs)
  {
    buckets := [];
    for i := 0 to |logs|
      invariant buckets == DailyTally(logs[..i])
    {
      var log := logs[i];
      var dateKey := DayOf(log);
      var existing := FindKey(buckets, dateKey);
      assert logs[..i + 1][..i] == logs[..i];
      if existing.Some? {
        var j := existing.value;
        var e := buckets[j];
        buckets := buckets[j := e.(totalMinutes := e.totalMinutes + Minutes(log), logCount := e.logCount + 1)];
      } else {
        buckets := buckets + [Bucket(dateKey, dateKey, Minutes(log), 1)];
      }
    }
    assert logs[..|logs|] == logs;
  }

  /**
   * `dailyStats`: one bucket per distinct day that some log starts on, dated
   * that day, none empty, each holding the sum of its logs' minutes (a null
   * duration counting 0) and their number, strictly ascending by day; the
   * buckets' minutes add up to the logs' total and their counts to the number
   * of logs.
   */
  lemma {:induction false} DailyStatsFacts(logs: seq<Log>)
    ensures var d := SortBy(DailyTally(logs), KeyOf);
      (forall i, j :: 0 <= i < j < |d| ==> d[i].key < d[j].key)
      && (forall i :: 0 <= i < |d| ==>
            d[i].subject == d[i].key && d[i].logCount >= 1
            && d[i].totalMinutes == SumBy(WithKey(logs, DayOf, d[i].key), Minutes)
            && d[i].logCount == |WithKey(logs, DayOf, d[i].key)|)
      && KeySet(d) == ItemKeySet(logs, DayOf)
      && SumBy(d, TotalOf) == SumBy(logs, Minutes)
      && SumBy(d, CountOf) == |logs|
  {
    var b := DailyTally(logs);
    var d := SortBy(b, KeyOf);
    TallyTallied(logs, DayOf, DayOf, Minutes);
    TallyDistinct(logs, DayOf, DayOf, Minutes);
    SortByDistinct(b, KeyOf);
    SumBySort(b, KeyOf, TotalOf);
    SumBySort(b, KeyOf, CountOf);
    SortedTallyFacts(logs, DayOf, DayOf, Minutes, KeyOf);
    forall i | 0 <= i < |d| ensures d[i].subject == d[i].key {
      var these := WithKey(logs, DayOf, d[i].key);
      assert these[0] in these;
    }
  }

  // ---------------------------------------------------------------------------
  // The tag map (analytics.ts:75-92)
  // ---------------------------------------------------------------------------

  function TagKey(p: (Log, Tag)): int {
    p.1.id
  }

  function TagSubject(p: (Log, Tag)): Tag {
    p.1
  }

  function PairMinutes(p: (Log, Tag)): int {
    Minutes(p.0)
  }

  function TagIdOf(t: Tag): int {
    t.id
  }

  /** One log paired with each of its tags, in the tags' order. */
  function PairsOf(l: LogWithTags): (r: seq<(Log, Tag)>)
    ensures |r| == |l.tags| && forall k :: 0 <= k < |r| ==> r[k] == (l.log, l.tags[k])
  {
    seq(|l.tags|, k requires 0 <= k < |l.tags| => (l.log, l.tags[k]))
  }

  /** The (log, tag) pairs the nested loop visits, in visiting order. */
  function TagPairs(ls: seq<LogWithTags>): seq<(Log, Tag)> {
    if ls == [] then [] else TagPairs(ls[..|ls| - 1]) + PairsOf(ls[|ls| - 1])
  }

  /** The tag buckets, in the order the tags are first met. */
  function TagTally(ls: seq<LogWithTags>): seq<TagStats> {
    Tally(TagPairs(ls), TagKey, TagSubject, PairMinutes)
  }

  /** The inner loop of the tag tally: one log's tags added to the buckets in order. */
  method AddLogTags(buckets0: seq<TagStats>, l: LogWithTags, ghost before: seq<(Log, Tag)>) returns (buckets: seq<TagStats>)
    requires buckets0 == Tally(before, TagKey, TagSubject, PairMinutes)
    ensures buckets == Tally(before + PairsOf(l), TagKey, TagSubject, PairMinutes)
  {
    buckets := buckets0;
    assert before + PairsOf(l)[..0] == before;
    for j := 0 to |l.tags|
      invariant buckets == Tally(before + PairsOf(l)[..j], TagKey, TagSubject, PairMinutes)
    {
      ghost var visited := before + PairsOf(l)[..j];
      PairsPrefixSnoc(before, l, j);
      TallySnoc(visited, (l.log, l.tags[j]), TagKey, TagSubject, PairMinutes);
      buckets := AddTag(buckets, l.log, l.tags[j]);
    }
    assert PairsOf(l)[..|l.tags|] == PairsOf(l);
  }

  /** The loop body: the tag's bucket gains the log's minutes and a count of one, or a new bucket starts. */
  method AddTag(buckets0: seq<TagStats>, log: Log, tag: Tag) returns (buckets: seq<TagStats>)
    ensures buckets == AddItem(buckets0, (log, tag), TagKey, TagSubject, PairMinutes)
  {
    AddTagItem(buckets0, log, tag);
    var existing := FindKey(buckets0, tag.id);
    if existing.Some? {
      var k := existing.value;
      var e := buckets0[k];
      buckets := buckets0[k := e.(totalMinutes := e.totalMinutes + Minutes(log), logCount := e.logCount + 1)];
    } else {
      buckets := buckets0 + [Bucket(tag.id, tag, Minutes(log), 1)];
    }
  }

  /** AddItem on a (log, tag) pair, in the terms of the inner loop. */
  lemma {:induction false} AddTagItem(prev: seq<TagStats>, log: Log, tag: Tag)
    ensures AddItem(prev, (log, tag), TagKey, TagSubject, PairMinutes) ==
      match FindKey(prev, tag.id)
      case Some(k) => prev[k := prev[k].(totalMinutes := prev[k].totalMinutes + Minutes(log), logCount := prev[k].logCount + 1)]
      case None => prev + [Bucket(tag.id, tag, Minutes(log), 1)]
  {
  }

  lemma {:induction false} PairsPrefixSnoc(before: seq<(Log, Tag)>, l: LogWithTags, j: nat)
    requires j < |l.tags|
    ensures before + PairsOf(l)[..j + 1] == (before + PairsOf(l)[..j]) + [(l.log, l.tags[j])]
  {
    assert PairsOf(l)[..j + 1] == PairsOf(l)[..j] + [PairsOf(l)[j]];
  }

  /** The nested loop filling `tagMap`. */
  method TagBuckets(ls: seq<LogWithTags>) returns (buckets: seq<TagStats>)
    ensures buckets == TagTally(ls)
  {
    buckets := [];
    for i := 0 to |ls|
      invariant buckets == TagTally(ls[..i])
    {
      buckets := AddLogTags(buckets, ls[i], TagPairs(ls[..i]));
      assert ls[..i + 1] == ls[..i] + [ls[i]];
      TagPairsSnoc(ls[..i], ls[i]);
    }
    assert ls[..|ls|] == ls;
  }

  /**
   * `tagStats`: one bucket per distinct tag id, holding that tag, the sum of
   * the minutes of the pairs that carry it and their number; sorted by total
   * minutes, largest first, and among equal totals in the order the tags were
   * first met over the logs (latest log first).
   */
  lemma {:induction false} TagStatsFacts(ls: seq<LogWithTags>)
    ensures var b: seq<TagStats> := TagTally(ls);
      var t: seq<TagStats> := SortBy(b, NegTotalOf<Tag>);
      multiset(t) == multiset(b)
      && Keys(b) == FirstKeys(TagPairs(ls), TagKey)
      && (forall i, j :: 0 <= i < j < |t| ==> t[i].totalMinutes >= t[j].totalMinutes)
      && (forall m :: WithKey(t, NegTotalOf<Tag>, m) == WithKey(b, NegTotalOf<Tag>, m))
      && (forall i :: 0 <= i < |t| ==>
            t[i].subject.id == t[i].key && t[i].logCount >= 1
            && t[i].totalMinutes == SumBy(WithKey(TagPairs(ls), TagKey, t[i].key), PairMinutes)
            && t[i].logCount == |WithKey(TagPairs(ls), TagKey, t[i].key)|)
  {
    var t: seq<TagStats> := SortBy(TagTally(ls), NegTotalOf<Tag>);
    ByTotalFacts(TagPairs(ls), TagKey, TagSubject, PairMinutes);
    forall i | 0 <= i < |t| ensures t[i].subject.id == t[i].key {
      var these := WithKey(TagPairs(ls), TagKey, t[i].key);
      assert these[0] in these;
    }
  }

  /**
   * The tally sorted by total minutes, largest first: a permutation of the
   * buckets, whose keys are the items' keys in first-occurrence order, with
   * equal totals in bucket order, and each bucket the tally of its key.
   */
  lemma {:induction false} ByTotalFacts<T, P>(items: seq<T>, key: T -> int, subject: T -> P, minutes: T -> int)
    ensures var b := Tally(items, key, subject, minutes);
      var t := SortBy(b, NegTotalOf<P>);
      multiset(t) == multiset(b)
      && Keys(b) == FirstKeys(items, key)
      && (forall i, j :: 0 <= i < j < |t| ==> t[i].totalMinutes >= t[j].totalMinutes)
      && (forall m :: WithKey(t, NegTotalOf<P>, m) == WithKey(b, NegTotalOf<P>, m))
      && (forall i :: 0 <= i < |t| ==>
            WithKey(items, key, t[i].key) != []
            && t[i].subject == subject(WithKey(items, key, t[i].key)[0])
            && t[i].totalMinutes == SumBy(WithKey(items, key, t[i].key), minutes)
            && t[i].logCount == |WithKey(items, key, t[i].key)|)
  {
    var b := Tally(items, key, subject, minutes);
    var t := SortBy(b, NegTotalOf<P>);
    TallyTallied(items, key, subject, minutes);
    SortedTallyFacts(items, key, subject, minutes, NegTotalOf<P>);
    forall m ensures WithKey(t, NegTotalOf<P>, m) == WithKey(b, NegTotalOf<P>, m) {
      SortByStable(b, NegTotalOf<P>, m);
    }
    assert forall i, j :: 0 <= i < j < |t| ==> NegTotalOf(t[i]) <= NegTotalOf(t[j]);
  }

  lemma {:induction false} TagPairsSnoc(ls: seq<LogWithTags>, l: LogWithTags)
    ensures TagPairs(ls + [l]) == TagPairs(ls) + PairsOf(l)
  {
    assert (ls + [l])[..|ls|] == ls;
  }

  /**
   * A log whose tags have distinct ids adds its full minutes and a count of
   * one to the bucket of each of its tags, and nothing to any other bucket.
   */
  lemma {:induction false} TagContribution(ls: seq<LogWithTags>, l: LogWithTags, id: int)
    requires DistinctBy(l.tags, TagIdOf)
    ensures var before := WithKey(TagPairs(ls), TagKey, id);
      var after := WithKey(TagPairs(ls + [l]), TagKey, id);
      var tagged := exists k :: 0 <= k < |l.tags| && l.tags[k].id == id;
      SumBy(after, PairMinutes) == SumBy(before, PairMinutes) + (if tagged then Minutes(l.log) else 0)
      && |after| == |before| + (if tagged then 1 else 0)
  {
    TagPairsSnoc(ls, l);
    WithKeyConcat(TagPairs(ls), PairsOf(l), TagKey, id);
    SumByConcat(WithKey(TagPairs(ls), TagKey, id), WithKey(PairsOf(l), TagKey, id), PairMinutes);
    LogPairsWithKey(l, id);
  }

  /** The pairs of one log with distinct tag ids: one pair under an id it carries, none under any other. */
  lemma {:induction false} LogPairsWithKey(l: LogWithTags, id: int)
    requires DistinctBy(l.tags, TagIdOf)
    ensures var mine := WithKey(PairsOf(l), TagKey, id);
      var tagged := exists k :: 0 <= k < |l.tags| && l.tags[k].id == id;
      SumBy(mine, PairMinutes) == (if tagged then Minutes(l.log) else 0)
      && |mine| == (if tagged then 1 else 0)
  {
    var p := PairsOf(l);
    var mine := WithKey(p, TagKey, id);
    WithKeyEmpty(p, TagKey, id);
    assert DistinctBy(p, TagKey) by {
      forall i, j | 0 <= i < j < |p| ensures TagKey(p[i]) != TagKey(p[j]) {
        assert TagKey(p[i]) == TagIdOf(l.tags[i]) && TagKey(p[j]) == TagIdOf(l.tags[j]);
      }
    }
    DistinctBySingle(p, TagKey, id);
    if exists k :: 0 <= k < |l.tags| && l.tags[k].id == id {
      var k :| 0 <= k < |l.tags| && l.tags[k].id == id;
      assert TagKey(p[k]) == id;
      assert |mine| == 1;
      assert mine[0] in p;
      assert mine == [mine[0]];
      assert SumBy(mine, PairMinutes) == Minutes(l.log) by { assert mine[1..] == []; }
    } else {
      assert mine == [];
    }
  }

  // ---------------------------------------------------------------------------
  // Totals (analytics.ts:95-99) and the goal (analytics.ts:53)
  // ---------------------------------------------------------------------------

  /** `daysWithActivity > 0 ? Math.round(totalMinutes / daysWithActivity) : 0`. */
  function AverageMinutesPerDay(totalMinutes: int, daysWithActivity: nat): (avg: int)
    ensures daysWithActivity == 0 ==> avg == 0
    ensures daysWithActivity > 0 ==>
      2 * daysWithActivity * avg <= 2 * totalMinutes + daysWithActivity < 2 * daysWithActivity * (avg + 1)
  {
    if daysWithActivity > 0 then Domain.RoundDiv(totalMinutes, daysWithActivity) else 0
  }

  /** `userData?.dailyGoal || 480`: the stored goal, unless it is missing or 0. */
  function DailyGoal(goals: map<UserId, int>, user: UserId): (goal: int)
    ensures user in goals && goals[user] != 0 ==> goal == goals[user]
    ensures user !in goals || goals[user] == 0 ==> goal == DEFAULT_DAILY_GOAL
    ensures goal != 0
  {
    if user in goals && goals[user] != 0 then goals[user] else DEFAULT_DAILY_GOAL
  }

  // ---------------------------------------------------------------------------
  // calculateStreak (analytics.ts:116-148)
  // ---------------------------------------------------------------------------

  /** The day `n` days before `anchor`. */
  function DaysBefore(anchor: int, n: nat): (d: int)
    ensures d == anchor - n * Domain.DAY_MS
  {
    if n == 0 then anchor else DaysBefore(anchor, n - 1) - Domain.DAY_MS
  }

  /** `d` is one of `days` and none is later. */
  ghost predicate IsLatest(days: set<int>, d: int) {
    d in days && forall x :: x in days ==> x <= d
  }

  /** `days` holds the `streak` consecutive days ending at `anchor` and not the day before them. */
  ghost predicate RunEndingAt(days: set<int>, anchor: int, streak: nat) {
    (forall n :: 0 <= n < streak ==> DaysBefore(anchor, n) in days) && DaysBefore(anchor, streak) !in days
  }

  /** The day starts of the buckets' dates. */
  ghost function BucketDays(stats: seq<DailyStats>): set<int> {
    set k | 0 <= k < |stats| :: Domain.StartOfDay(stats[k].subject)
  }

  /**
   * calculateStreak's promise: no more than the number of buckets; positive
   * exactly when the latest day is today or yesterday (a later one, in the
   * future, gives 0); and then the number of consecutive days back from that
   * latest day, up to the first gap.
   */
  ghost predicate IsStreak(stats: seq<DailyStats>, today: int, streak: nat) {
    IsStreakOf(BucketDays(stats), |stats|, today, streak)
  }

  /** IsStreak over a set of days drawn from `count` buckets. */
  ghost predicate IsStreakOf(days: set<int>, count: nat, today: int, streak: nat) {
    streak <= count
    && (streak > 0 <==> IsLatest(days, today) || IsLatest(days, today - Domain.DAY_MS))
    && (IsLatest(days, today) ==> RunEndingAt(days, today, streak))
    && (IsLatest(days, today - Domain.DAY_MS) ==> RunEndingAt(days, today - Domain.DAY_MS, streak))
  }

  /** `dailyStats.map(s => startOfDay(new Date(s.date)).getTime())`. */
  function DatesOf(stats: seq<DailyStats>): (r: seq<int>)
    ensures |r| == |stats|
    ensures forall k :: 0 <= k < |stats| ==> r[k] == Domain.StartOfDay(stats[k].subject)
  {
    seq(|stats|, k requires 0 <= k < |stats| => Domain.StartOfDay(stats[k].subject))
  }

  /** The dates sorted most recent first: the bucket days, latest at the front. */
  lemma {:induction false} SortedDatesFacts(stats: seq<DailyStats>)
    ensures var sorted := SortBy(DatesOf(stats), Negate);
      |sorted| == |stats|
      && (forall x :: x in sorted <==> x in BucketDays(stats))
      && (forall i, j :: 0 <= i < j < |sorted| ==> sorted[i] >= sorted[j])
  {
    var dates := DatesOf(stats);
    var sorted := SortBy(dates, Negate);
    forall x ensures x in sorted <==> x in BucketDays(stats) {
      assert x in sorted <==> x in multiset(sorted);
      assert x in dates <==> x in multiset(dates);
      if x in dates {
        var k :| 0 <= k < |dates| && dates[k] == x;
        assert Domain.StartOfDay(stats[k].subject) in BucketDays(stats);
      }
      if x in BucketDays(stats) {
        var k :| 0 <= k < |stats| && Domain.StartOfDay(stats[k].subject) == x;
        assert dates[k] == x;
      }
    }
    assert forall i, j :: 0 <= i < j < |sorted| ==> Negate(sorted[i]) <= Negate(sorted[j]);
  }

  /** In a descending sequence, a day skipped between two neighbours occurs nowhere. */
  lemma {:induction false} GapAbsent(sorted: seq<int>, i: nat, day: int)
    requires forall a, b :: 0 <= a < b < |sorted| ==> sorted[a] >= sorted[b]
    requires i < |sorted| && sorted[i] < day
    requires forall k :: 0 <= k < i ==> sorted[k] > day
    ensures day !in sorted
  {
    forall k | i < k < |sorted| ensures sorted[k] < day {
      assert sorted[i] >= sorted[k];
    }
  }

  /**
   * The dates of the ghost set `days`, most recent first, counted as
   * calculateStreak's loop does: the run must start today or yesterday and
   * stops at the first gap.
   */
  method CountStreak(sortedDates: seq<int>, today: int, ghost days: set<int>) returns (streak: nat)
    requires |sortedDates| > 0
    requires forall a, b :: 0 <= a < b < |sortedDates| ==> sortedDates[a] >= sortedDates[b]
    requires forall x :: x in sortedDates <==> x in days
    ensures IsStreakOf(days, |sortedDates|, today, streak)
  {
    assert IsLatest(days, sortedDates[0]) by {
      forall x | x in days ensures x <= sortedDates[0] {
        var k :| 0 <= k < |sortedDates| && sortedDates[k] == x;
        if k > 0 {
          assert sortedDates[0] >= sortedDates[k];
        }
      }
    }
    streak := 0;
    var expectedDate := today;
    ghost var anchor := today;
    var i := 0;
    while i < |sortedDates|
      invariant 0 <= i <= |sortedDates|
      invariant streak <= i && (i > 0 ==> streak > 0)
      invariant streak == 0 ==> expectedDate == today && anchor == today
      invariant streak > 0 ==> (anchor == today || anchor == today - Domain.DAY_MS) && anchor == sortedDates[0]
      invariant expectedDate == DaysBefore(anchor, streak)
      invariant forall n :: 0 <= n < streak ==> DaysBefore(anchor, n) in days
      invariant forall k :: 0 <= k < i ==> sortedDates[k] > expectedDate
    {
      var dateTime := sortedDates[i];
      if streak == 0 && dateTime != expectedDate {
        var yesterday := today - Domain.DAY_MS;
        if dateTime == yesterday {
          expectedDate := yesterday;
          anchor := yesterday;
        } else {
          // The latest day is neither today nor yesterday.
          break;
        }
      }
      if dateTime == expectedDate {
        streak := streak + 1;
        expectedDate := expectedDate - Domain.DAY_MS;
      } else if dateTime < expectedDate {
        // A gap: every later position holds an earlier day still.
        GapAbsent(sortedDates, i, expectedDate);
        break;
      }
      i := i + 1;
    }
  }

  /** calculateStreak: the streak of the buckets' days as of the day of `now`. */
  method CalculateStreak(stats: seq<DailyStats>, now: int) returns (streak: nat)
    ensures IsStreak(stats, Domain.StartOfDay(now), streak)
  {
    ghost var days := BucketDays(stats);
    if |stats| == 0 {
      assert days == {};
      assert IsStreakOf(days, |stats|, Domain.StartOfDay(now), 0);
      return 0;
    }
    var today := Domain.StartOfDay(now);
    var sortedDates := SortBy(DatesOf(stats), Negate);
    SortedDatesFacts(stats);
    streak := CountStreak(sortedDates, today, days);
  }

  // ---------------------------------------------------------------------------
  // getAnalytics (analytics.ts:23-114)
  // ---------------------------------------------------------------------------

  datatype Analytics = Analytics(
    dailyStats: seq<DailyStats>,
    tagStats: seq<TagStats>,
    totalMinutes: int,
    totalLogs: nat,
    averageMinutesPerDay: int,
    longestSession: int,
    currentStreak: nat,
    dailyGoal: int)

  /** The logs getAnalytics aggregates: the user's finished logs since the start of the day `days` days ago. */
  function AnalyticsLogs(s: Store, user: UserId, days: int, now: int): seq<Log> {
    QueryLogs(s.logs, user, Domain.DaysAgo(days, now))
  }

  /** getAnalytics on the store; `days` is the optional argument, 30 when it is not passed. */
  method GetAnalytics(s: Store, session: Session, days: Option<int>, now: int) returns (r: Result<Analytics, string>)
    ensures session.None? ==> r == Err(NOT_LOGGED_IN)
    ensures session.Some? ==> r.Ok?
    ensures r.Ok? ==>
      var logs := AnalyticsLogs(s, session.value, days.GetOr(DEFAULT_DAYS), now);
      var a := r.value;
      a.dailyStats == SortBy(DailyTally(logs), KeyOf)
      && a.tagStats == SortBy(TagTally(WithTags(logs, s.tags)), NegTotalOf<Tag>)
      && a.totalMinutes == SumBy(logs, Minutes)
      && a.totalLogs == |logs|
      && a.averageMinutesPerDay == AverageMinutesPerDay(a.totalMinutes, |a.dailyStats|)
      && a.longestSession == MaxBy(logs, Minutes)
      && IsStreak(a.dailyStats, Domain.StartOfDay(now), a.currentStreak)
      && a.dailyGoal == DailyGoal(s.dailyGoals, session.value)
  {
    if session.None? {
      return Err(NOT_LOGGED_IN);
    }
    var user := session.value;
    var startDate := Domain.DaysAgo(days.GetOr(DEFAULT_DAYS), now);
    var logs := QueryLogs(s.logs, user, startDate);
    var dailyGoal := DailyGoal(s.dailyGoals, user);
    var dailyMap := DailyBuckets(logs);
    var dailyStats := SortBy(dailyMap, KeyOf);
    var tagMap := TagBuckets(WithTags(logs, s.tags));
    var tagStats := SortBy(tagMap, NegTotalOf<Tag>);
    var totalMinutes := SumBy(logs, Minutes);
    var totalLogs := |logs|;
    var averageMinutesPerDay := AverageMinutesPerDay(totalMinutes, |dailyStats|);
    var longestSession := MaxBy(logs, Minutes);
    var currentStreak := CalculateStreak(dailyStats, now);
    r := Ok(Analytics(dailyStats, tagStats, totalMinutes, totalLogs, averageMinutesPerDay, longestSession, currentStreak, dailyGoal));
  }

  /**
   * The daily buckets of getAnalytics account for every aggregated log: their
   * minutes add up to `totalMinutes` and their counts to `totalLogs`; the
   * average is over the number of distinct days.
   */
  lemma {:induction false} AnalyticsTotals(s: Store, user: UserId, days: int, now: int)
    ensures var logs := AnalyticsLogs(s, user, days, now);
      var d := SortBy(DailyTally(logs), KeyOf);
      SumBy(d, TotalOf) == SumBy(logs, Minutes) && SumBy(d, CountOf) == |logs|
      && (|d| == 0 <==> logs == [])
  {
    var logs := AnalyticsLogs(s, user, days, now);
    DailyStatsFacts(logs);
    if logs != [] {
      assert DayOf(logs[0]) == DayOf(logs[0]);
    }
  }

  // ---------------------------------------------------------------------------
  // getDailyTotal (analytics.ts:150-180)
  // ---------------------------------------------------------------------------

  /** The aggregate's `where`: a finished log of `user` started in `[dayStart, dayStart + 1 day)`. */
  predicate InDayWindow(log: Log, user: UserId, dayStart: int) {
    log.userId == user && log.finishedAt.Some? && dayStart <= log.startedAt < dayStart + Domain.DAY_MS
  }

  function GetDailyTotal(s: Store, session: Session, date: Option<int>, now: int): (r: Result<(int, nat), string>)
    ensures session.None? <==> r.Err?
    ensures r.Err? ==> r.error == DAILY_TOTAL_NOT_LOGGED_IN
  {
    if session.None? then Err(DAILY_TOTAL_NOT_LOGGED_IN)
    else
      var dayStart := Domain.StartOfDay(date.GetOr(now));
      var matching := Filter(s.logs, (l: Log) => InDayWindow(l, session.value, dayStart));
      Ok((SumBy(matching, Minutes), |matching|))
  }

  /**
   * The half-open window is exactly the calendar day: getDailyTotal sums the
   * minutes and counts the user's finished logs that start on the same day as
   * the given date (or, without one, as `now`).
   */
  lemma {:induction false} DailyTotalIsSameDay(s: Store, user: UserId, date: Option<int>, now: int)
    ensures var day := Domain.StartOfDay(date.GetOr(now));
      var sameDay := Filter(s.logs, (l: Log) => l.userId == user && l.finishedAt.Some? && DayOf(l) == day);
      GetDailyTotal(s, Some(user), date, now) == Ok((SumBy(sameDay, Minutes), |sameDay|))
  {
    var day := Domain.StartOfDay(date.GetOr(now));
    var p := (l: Log) => InDayWindow(l, user, day);
    var q := (l: Log) => l.userId == user && l.finishedAt.Some? && DayOf(l) == day;
    forall k | 0 <= k < |s.logs| ensures p(s.logs[k]) == q(s.logs[k]) {
      var t := s.logs[k].startedAt;
      Domain.StartOfDayProperties(t);
      if day <= t < day + Domain.DAY_MS {
        Domain.StartOfDayUnique(t, day);
      }
    }
    FilterCongruent(s.logs, p, q);
  }

  // ---------------------------------------------------------------------------
  // updateDailyGoal (analytics.ts:182-196)
  // ---------------------------------------------------------------------------

  function UpdateDailyGoalOutcome(s: Store, session: Session, minutes: int): (o: Outcome<()>)
    ensures o.result.Err? ==> o.store == s
    ensures o.store.logs == s.logs && o.store.tags == s.tags
  {
    if session.None? then Outcome(Err(GOAL_NOT_LOGGED_IN), s)
    else if minutes < 0 || minutes > MAX_DAILY_GOAL then Outcome(Err(GOAL_OUT_OF_RANGE), s)
    else Outcome(Ok(()), s.(dailyGoals := s.dailyGoals[session.value := minutes]))
  }

  /**
   * updateDailyGoal accepts exactly the goals from 0 to 1440 minutes, both
   * included, stores the goal of the caller only, and writes nothing otherwise.
   */
  lemma {:induction false} UpdateDailyGoalRange(s: Store, session: Session, minutes: int)
    ensures var o := UpdateDailyGoalOutcome(s, session, minutes);
      (o.result.Ok? <==> session.Some? && 0 <= minutes <= MAX_DAILY_GOAL)
      && (session.None? ==> o.result == Err(GOAL_NOT_LOGGED_IN))
      && (session.Some? && (minutes < 0 || minutes > MAX_DAILY_GOAL) ==> o.result == Err(GOAL_OUT_OF_RANGE))
      && (o.result.Ok? ==>
            o.store.dailyGoals[session.value] == minutes
            && forall u :: u in s.dailyGoals && u != session.value ==> u in o.store.dailyGoals && o.store.dailyGoals[u] == s.dailyGoals[u])
  {
  }

  /**
   * A goal of 0 is accepted by updateDailyGoal, yet getAnalytics then reports
   * the default of 480 minutes; every other accepted goal is reported as set.
   */
  lemma {:induction false} GoalAsReported(s: Store, user: UserId, minutes: int)
    requires 0 <= minutes <= MAX_DAILY_GOAL
    ensures var o := UpdateDailyGoalOutcome(s, Some(user), minutes);
      DailyGoal(o.store.dailyGoals, user) == (if minutes == 0 then DEFAULT_DAILY_GOAL else minutes)
  {
  }

  /** updateDailyGoal on the database: the store afterwards and the result are those of UpdateDailyGoalOutcome. */
  method UpdateDailyGoal(db: Database, session: Session, minutes: int) returns (result: Result<(), string>)
    modifies db`dailyGoals
    ensures Outcome(result, db.State()) == UpdateDailyGoalOutcome(old(db.State()), session, minutes)
    ensures old(db.Valid()) ==> db.Valid()
  {
    if session.None? {
      return Err(GOAL_NOT_LOGGED_IN);
    }
    if minutes < 0 || minutes > MAX_DAILY_GOAL {
      return Err(GOAL_OUT_OF_RANGE);
    }
    db.dailyGoals := db.dailyGoals[session.value := minutes];
    result := Ok(());
  }
}
