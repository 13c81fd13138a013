/**
 * The persistent records the server actions read and write: activity logs,
 * tags and each user's daily goal (the Prisma `log`, `tag` and `user`
 * collections), held by one `Database` object whose fields the actions update.
 */
module Records {
  import opened Wrappers

  type UserId = string

  /** A database object id; new ids come from one counter shared by all collections. */
  type Id = nat

  /** A time-tracking record. A running activity has no finish time and no duration. */
  datatype Log = Log(
    id: Id,
    userId: UserId,
    description: Option<string>,
    startedAt: int,
    finishedAt: Option<int>,
    duration: Option<int>,
    tagIds: seq<Id>)

  /** A user's label for activities. */
  datatype Tag = Tag(id: Id, userId: UserId, name: string, color: string, logIds: seq<Id>)

  /** Everything the database holds, as one value. `dailyGoals` lacks users whose goal is null. */
  datatype Store = Store(logs: seq<Log>, tags: seq<Tag>, dailyGoals: map<UserId, int>, nextId: Id)

  /** What an action returns or throws (its message), and the store it leaves behind. */
  datatype Outcome<T> = Outcome(result: Result<T, string>, store: Store)

  /** The signed-in user as `getSession()` reports it; None when there is no session user. */
  type Session = Option<UserId>

  /** `user?.id` is truthy: there is a user and the id is not the empty string. */
  predicate HasUserId(session: Session) {
    session.Some? && session.value != ""
  }

  /** The record is an activity of `user` that is still running (`finishedAt: null`). */
  predicate Running(log: Log, user: UserId) {
    log.userId == user && log.finishedAt.None?
  }

  /** `findFirst({ userId, finishedAt: null })`: the position of the first running record of `user`. */
  function FirstRunning(logs: seq<Log>, user: UserId): (r: Option<nat>)
    ensures r.Some? ==>
      r.value < |logs| && Running(logs[r.value], user) && forall k :: 0 <= k < r.value ==> !Running(logs[k], user)
    ensures r.None? <==> forall k :: 0 <= k < |logs| ==> !Running(logs[k], user)
  {
    if logs == [] then None
    else if Running(logs[0], user) then Some(0)
    else match FirstRunning(logs[1..], user)
      case Some(k) => assert logs[1..][k] == logs[k + 1]; Some(k + 1)
      case None =>
        assert forall k :: 1 <= k < |logs| ==> logs[k] == logs[1..][k - 1];
        None
  }

  /** The number of running records of `user`. */
  function RunningCount(logs: seq<Log>, user: UserId): nat {
    if logs == [] then 0 else (if Running(logs[0], user) then 1 else 0) + RunningCount(logs[1..], user)
  }

  lemma {:induction false} RunningCountAppend(a: seq<Log>, b: seq<Log>, user: UserId)
    ensures RunningCount(a + b, user) == RunningCount(a, user) + RunningCount(b, user)
    decreases |a|
  {
    if a == [] {
      assert a + b == b;
    } else {
      assert (a + b)[1..] == a[1..] + b;
      RunningCountAppend(a[1..], b, user);
    }
  }

  /** No running record is the same as a running count of zero. */
  lemma {:induction false} RunningCountZero(logs: seq<Log>, user: UserId)
    ensures RunningCount(logs, user) == 0 <==> FirstRunning(logs, user).None?
    decreases |logs|
  {
    if logs != [] {
      RunningCountZero(logs[1..], user);
    }
  }

  /** The single-running-activity rule: no user has two running records. */
  predicate AtMostOneRunning(logs: seq<Log>) {
    forall i, j :: 0 <= i < j < |logs| && logs[i].finishedAt.None? && logs[j].finishedAt.None?
      ==> logs[i].userId != logs[j].userId
  }

  /** Under the rule, every user has at most one running record. */
  lemma {:induction false} AtMostOneRunningCount(logs: seq<Log>, user: UserId)
    requires AtMostOneRunning(logs)
    ensures RunningCount(logs, user) <= 1
    decreases |logs|
  {
    if logs != [] {
      assert AtMostOneRunning(logs[1..]) by {
        forall i, j | 0 <= i < j < |logs[1..]| ensures
          logs[1..][i].finishedAt.None? && logs[1..][j].finishedAt.None? ==> logs[1..][i].userId != logs[1..][j].userId
        {
          assert logs[1..][i] == logs[i + 1] && logs[1..][j] == logs[j + 1];
        }
      }
      AtMostOneRunningCount(logs[1..], user);
      if Running(logs[0], user) {
        assert FirstRunning(logs[1..], user).None? by {
          forall k | 0 <= k < |logs[1..]| ensures !Running(logs[1..][k], user) {
            assert logs[1..][k] == logs[k + 1];
          }
        }
        RunningCountZero(logs[1..], user);
      }
    }
  }

  /** Ids are unique within each collection and all below the id counter. */
  predicate WellFormed(s: Store) {
    (forall i, j :: 0 <= i < j < |s.logs| ==> s.logs[i].id != s.logs[j].id)
    && (forall i :: 0 <= i < |s.logs| ==> s.logs[i].id < s.nextId)
    && (forall i, j :: 0 <= i < j < |s.tags| ==> s.tags[i].id != s.tags[j].id)
    && (forall i :: 0 <= i < |s.tags| ==> s.tags[i].id < s.nextId)
  }

  /** Appending a tag under the next id and advancing the counter keeps the ids unique and below the counter. */
  lemma {:induction false} WellFormedAddTag(s: Store, tag: Tag)
    requires WellFormed(s) && tag.id == s.nextId
    ensures WellFormed(s.(tags := s.tags + [tag], nextId := s.nextId + 1))
  {
    var t := s.tags + [tag];
    forall i, j | 0 <= i < j < |t| ensures t[i].id != t[j].id {
      assert t[i] == s.tags[i];
    }
  }

  /** The database: its collections are fields that the actions reassign. */
  class Database {
    var logs: seq<Log>
    var tags: seq<Tag>
    var dailyGoals: map<UserId, int>
    var nextId: Id

    function State(): Store
      reads this
    {
      Store(logs, tags, dailyGoals, nextId)
    }

    /** The database's invariant: unique ids below the counter, and at most one running log per user. */
    predicate Valid()
      reads this
    {
      WellFormed(State()) && AtMostOneRunning(logs)
    }

    /** An empty database. */
    constructor ()
      ensures State() == Store([], [], map[], 0)
      ensures Valid()
    {
      logs := [];
      tags := [];
      dailyGoals := map[];
      nextId := 0;
    }

    /** Scans the logs for the first running record of `user`, as `findFirst` does. */
    method FindRunning(user: UserId) returns (r: Option<nat>)
      ensures r == FirstRunning(logs, user)
    {
      var i := 0;
      while i < |logs|
        invariant 0 <= i <= |logs|
        invariant forall k :: 0 <= k < i ==> !Running(logs[k], user)
      {
        if Running(logs[i], user) {
          FirstRunningIs(logs, user, i);
          return Some(i);
        }
        i := i + 1;
      }
      r := None;
    }

    /** A fresh object id. */
    method NewId() returns (id: Id)
      modifies this`nextId
      ensures id == old(nextId) && nextId == id + 1
    {
      id := nextId;
      nextId := nextId + 1;
    }
  }

  /** The first running record is the one before which none is running. */
  lemma {:induction false} FirstRunningIs(logs: seq<Log>, user: UserId, i: nat)
    requires i < |logs| && Running(logs[i], user)
    requires forall k :: 0 <= k < i ==> !Running(logs[k], user)
    ensures FirstRunning(logs, user) == Some(i)
  {
  }
}
