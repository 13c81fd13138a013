/**
 * udpateLogStatus (src/lib/actions/updateLogStatus.ts; the source spells the
 * name this way): stop the signed-in user's running activity at `now` and
 * record its rounded duration in minutes.
 */
module UpdateLogStatus {
  import opened Wrappers
  import opened Records
  import Domain

  const NOT_LOGGED_IN: string := "User must be logged in to update logs"
  const NOTHING_RUNNING: string := "No running activity found to stop"

  /** The record stopped at `now`: its finish time and its duration in whole minutes. */
  function Stopped(log: Log, now: int): (r: Log)
    ensures r.finishedAt == Some(now) && r.duration.Some? && r.duration.value >= 0
    ensures r.duration.value == Domain.CalculateDuration(log.startedAt, now)
    ensures r == log.(finishedAt := r.finishedAt, duration := r.duration)
  {
    log.(finishedAt := Some(now), duration := Some(Domain.CalculateDuration(log.startedAt, now)))
  }

  /** What the action returns or throws, and the store afterwards. */
  function StopOutcome(s: Store, session: Session, now: int): (o: Outcome<Log>)
    ensures o.result.Err? ==> o.store == s
    ensures o.store.tags == s.tags && |o.store.logs| == |s.logs|
  {
    if session.None? then Outcome(Err(NOT_LOGGED_IN), s)
    else match FirstRunning(s.logs, session.value)
      case None => Outcome(Err(NOTHING_RUNNING), s)
      case Some(i) =>
        var updated := Stopped(s.logs[i], now);
        Outcome(Ok(updated), s.(logs := s.logs[i := updated]))
  }

  /** Without a session user, or with nothing running for the user, the action throws and writes nothing. */
  lemma {:induction false} StopErrors(s: Store, session: Session, now: int)
    ensures session.None? ==> StopOutcome(s, session, now) == Outcome(Err(NOT_LOGGED_IN), s)
    ensures session.Some? && RunningCount(s.logs, session.value) == 0 ==>
      StopOutcome(s, session, now) == Outcome(Err(NOTHING_RUNNING), s)
    ensures StopOutcome(s, session, now).result.Ok? <==> session.Some? && RunningCount(s.logs, session.value) > 0
  {
    if session.Some? {
      RunningCountZero(s.logs, session.value);
    }
  }

  /**
   * On success exactly one record changes: the user's running record, found
   * by position and identified by its id, gets finish time `now` and its
   * duration; every other record and field is untouched. Under the
   * single-running rule the user has no running record afterwards, and the
   * rule and id uniqueness still hold.
   */
  lemma {:induction false} StopSuccess(s: Store, session: Session, now: int)
    requires StopOutcome(s, session, now).result.Ok?
    ensures var o := StopOutcome(s, session, now);
      var i := FirstRunning(s.logs, session.value).value;
      o.result.value == Stopped(s.logs[i], now) && o.result.value.id == s.logs[i].id
      && Running(s.logs[i], session.value)
      && o.store.logs[i] == o.result.value
      && (forall k :: 0 <= k < |s.logs| && k != i ==> o.store.logs[k] == s.logs[k])
      && (AtMostOneRunning(s.logs) ==> AtMostOneRunning(o.store.logs) && RunningCount(o.store.logs, session.value) == 0)
      && (WellFormed(s) ==> WellFormed(o.store))
  {
    var o := StopOutcome(s, session, now);
    var u := session.value;
    var i := FirstRunning(s.logs, u).value;
    var l := o.store.logs;
    if AtMostOneRunning(s.logs) {
      forall k | 0 <= k < |l| ensures !Running(l[k], u) {
        if k != i {
          assert !(s.logs[k].finishedAt.None? && s.logs[k].userId == u) by {
            if k < i {
              assert s.logs[k].userId != s.logs[i].userId || s.logs[k].finishedAt.Some?;
            } else {
              assert s.logs[i].userId != s.logs[k].userId || s.logs[k].finishedAt.Some?;
            }
          }
        }
      }
      RunningCountZero(l, u);
    }
  }

  /** udpateLogStatus on the database: the store afterwards and the result are those of StopOutcome. */
  method UpdateLogStatus(db: Database, session: Session, now: int) returns (result: Result<Log, string>)
    modifies db
    ensures Outcome(result, db.State()) == StopOutcome(old(db.State()), session, now)
    ensures old(db.Valid()) ==> db.Valid()
  {
    if session.None? {
      return Err(NOT_LOGGED_IN);
    }
    var found := db.FindRunning(session.value);
    if found.None? {
      return Err(NOTHING_RUNNING);
    }
    var i := found.value;
    var updated := Stopped(db.logs[i], now);
    db.logs := db.logs[i := updated];
    result := Ok(updated);
    StopSuccess(old(db.State()), session, now);
  }
}
