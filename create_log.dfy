/**
 * createLog (src/lib/actions/createLog.ts): start a new activity for the
 * signed-in user, refusing while another of theirs is still running.
 * The clock reading `new Date()` is the parameter `now`.
 */
module CreateLog {
  import opened Wrappers
  import opened Records

  const NOT_LOGGED_IN: string := "User must be logged in to create logs"
  const ALREADY_RUNNING: string := "You already have a running activity. Stop it first before starting a new one."

  /** `data.description || null`: an absent or empty description is stored as null. */
  function StoredDescription(description: Option<string>): (r: Option<string>)
    ensures r.None? <==> description.None? || description.value == ""
    ensures r.Some? ==> r == description
  {
    if description.Some? && description.value != "" then description else None
  }

  /** The new running record createLog inserts. */
  function NewLog(id: Id, user: UserId, description: Option<string>, tagIds: Option<seq<Id>>, now: int): Log {
    Log(id, user, StoredDescription(description), now, None, None, tagIds.GetOr([]))
  }

  /** What createLog returns or throws, and the store afterwards. */
  function CreateLogOutcome(s: Store, session: Session, description: Option<string>, tagIds: Option<seq<Id>>, now: int)
    : (o: Outcome<Log>)
    ensures o.result.Err? ==> o.store == s
    ensures o.result.Ok? ==> o.store.logs == s.logs + [o.result.value] && o.store.tags == s.tags
  {
    if !HasUserId(session) then Outcome(Err(NOT_LOGGED_IN), s)
    else if FirstRunning(s.logs, session.value).Some? then Outcome(Err(ALREADY_RUNNING), s)
    else
      var log := NewLog(s.nextId, session.value, description, tagIds, now);
      Outcome(Ok(log), s.(logs := s.logs + [log], nextId := s.nextId + 1))
  }

  /** The action fails exactly without a session user or while the user has a running record; nothing is written then. */
  lemma {:induction false} CreateLogErrors(s: Store, session: Session, description: Option<string>, tagIds: Option<seq<Id>>, now: int)
    ensures var o := CreateLogOutcome(s, session, description, tagIds, now);
      (!HasUserId(session) ==> o == Outcome(Err(NOT_LOGGED_IN), s))
      && (HasUserId(session) && RunningCount(s.logs, session.value) > 0 ==> o == Outcome(Err(ALREADY_RUNNING), s))
      && (o.result.Ok? <==> HasUserId(session) && RunningCount(s.logs, session.value) == 0)
  {
    if HasUserId(session) {
      RunningCountZero(s.logs, session.value);
    }
  }

  /**
   * On success the new record is a running activity of the caller started at
   * `now` with the given tags (or none) and a fresh id; every earlier record is
   * kept as it was; the user now has exactly one running record, and the
   * single-running rule and id uniqueness still hold.
   */
  lemma {:induction false} CreateLogSuccess(s: Store, session: Session, description: Option<string>, tagIds: Option<seq<Id>>, now: int)
    requires WellFormed(s)
    requires CreateLogOutcome(s, session, description, tagIds, now).result.Ok?
    ensures var o := CreateLogOutcome(s, session, description, tagIds, now);
      var log := o.result.value;
      log.userId == session.value && log.startedAt == now && log.finishedAt.None? && log.duration.None?
      && log.tagIds == (if tagIds.Some? then tagIds.value else [])
      && log.description == StoredDescription(description)
      && (forall k :: 0 <= k < |s.logs| ==> s.logs[k].id != log.id)
      && o.store.logs[..|s.logs|] == s.logs
      && RunningCount(o.store.logs, session.value) == 1
      && (AtMostOneRunning(s.logs) ==> AtMostOneRunning(o.store.logs))
      && WellFormed(o.store)
  {
    var o := CreateLogOutcome(s, session, description, tagIds, now);
    var log := o.result.value;
    var u := session.value;
    RunningCountZero(s.logs, u);
    RunningCountAppend(s.logs, [log], u);
    assert RunningCount([log], u) == 1 by { assert [log][1..] == []; }
    assert o.store.logs[..|s.logs|] == s.logs;
    if AtMostOneRunning(s.logs) {
      var l := o.store.logs;
      forall i, j | 0 <= i < j < |l| && l[i].finishedAt.None? && l[j].finishedAt.None?
        ensures l[i].userId != l[j].userId
      {
        if j == |s.logs| {
          assert !Running(s.logs[i], u);
        }
      }
    }
  }

  /** createLog on the database: the store afterwards and the result are those of CreateLogOutcome. */
  method CreateLog(db: Database, session: Session, description: Option<string>, tagIds: Option<seq<Id>>, now: int)
    returns (result: Result<Log, string>)
    modifies db
    ensures Outcome(result, db.State()) == CreateLogOutcome(old(db.State()), session, description, tagIds, now)
    ensures old(db.Valid()) ==> db.Valid()
  {
    if !HasUserId(session) {
      return Err(NOT_LOGGED_IN);
    }
    var existingRunning := db.FindRunning(session.value);
    if existingRunning.Some? {
      return Err(ALREADY_RUNNING);
    }
    var id := db.NewId();
    var log := NewLog(id, session.value, description, tagIds, now);
    db.logs := db.logs + [log];
    result := Ok(log);
    if old(db.Valid()) {
      CreateLogSuccess(old(db.State()), session, description, tagIds, now);
    }
  }
}
