/**
 * cancelLog (src/lib/actions/cancelLog.ts): discard the signed-in user's
 * running activity, deleting its record and returning it.
 */
module CancelLog {
  import opened Wrappers
  import opened Records

  const NOT_LOGGED_IN: string := "User must be logged in"
  const NOTHING_RUNNING: string := "No running log found"

  /** The sequence without its element at position `i`. */
  function RemoveAt<T>(s: seq<T>, i: nat): (r: seq<T>)
    requires i < |s|
    ensures |r| == |s| - 1
    ensures forall k :: 0 <= k < i ==> r[k] == s[k]
    ensures forall k :: i <= k < |r| ==> r[k] == s[k + 1]
  {
    s[..i] + s[i + 1..]
  }

  /** What cancelLog returns or throws, and the store afterwards. */
  function CancelOutcome(s: Store, session: Session): (o: Outcome<Log>)
    ensures o.result.Err? ==> o.store == s
    ensures o.result.Ok? ==> o.result.value in s.logs && |o.store.logs| == |s.logs| - 1
    ensures o.store.tags == s.tags
  {
    if !HasUserId(session) then Outcome(Err(NOT_LOGGED_IN), s)
    else match FirstRunning(s.logs, session.value)
      case None => Outcome(Err(NOTHING_RUNNING), s)
      case Some(i) => Outcome(Ok(s.logs[i]), s.(logs := RemoveAt(s.logs, i)))
  }

  /** Without a session user, or with nothing running for the user, the action throws and writes nothing. */
  lemma {:induction false} CancelErrors(s: Store, session: Session)
    ensures !HasUserId(session) ==> CancelOutcome(s, session) == Outcome(Err(NOT_LOGGED_IN), s)
    ensures HasUserId(session) && RunningCount(s.logs, session.value) == 0 ==>
      CancelOutcome(s, session) == Outcome(Err(NOTHING_RUNNING), s)
    ensures CancelOutcome(s, session).result.Ok? <==> HasUserId(session) && RunningCount(s.logs, session.value) > 0
  {
    if HasUserId(session) {
      RunningCountZero(s.logs, session.value);
    }
  }

  /**
   * On success the returned record is the user's running record, and the logs
   * afterwards are the others in their order: exactly one record, the running
   * one, is removed. Under the single-running rule nothing of the user's is
   * left running, and the rule and id uniqueness still hold.
   */
  lemma {:induction false} CancelSuccess(s: Store, session: Session)
    requires CancelOutcome(s, session).result.Ok?
    ensures var o := CancelOutcome(s, session);
      var i := FirstRunning(s.logs, session.value).value;
      o.result.value == s.logs[i] && Running(o.result.value, session.value)
      && o.store.logs == s.logs[..i] + s.logs[i + 1..]
      && RunningCount(o.store.logs, session.value) == RunningCount(s.logs, session.value) - 1
      && (AtMostOneRunning(s.logs) ==> AtMostOneRunning(o.store.logs) && RunningCount(o.store.logs, session.value) == 0)
      && (WellFormed(s) ==> WellFormed(o.store))
  {
    var u := session.value;
    var i := FirstRunning(s.logs, u).value;
    RemoveRunningCount(s.logs, u, i);
    if AtMostOneRunning(s.logs) {
      AtMostOneRunningCount(s.logs, u);
      RemoveKeepsAtMostOne(s.logs, i);
    }
    if WellFormed(s) {
      RemoveKeepsWellFormed(s, i);
    }
  }

  /** Removing a running record of `user` lowers the user's running count by one. */
  lemma {:induction false} RemoveRunningCount(logs: seq<Log>, user: UserId, i: nat)
    requires i < |logs| && Running(logs[i], user)
    ensures RunningCount(RemoveAt(logs, i), user) == RunningCount(logs, user) - 1
  {
    assert logs == logs[..i] + [logs[i]] + logs[i + 1..];
    RunningCountAppend(logs[..i] + [logs[i]], logs[i + 1..], user);
    RunningCountAppend(logs[..i], [logs[i]], user);
    RunningCountAppend(logs[..i], logs[i + 1..], user);
    assert RunningCount([logs[i]], user) == 1 by { assert [logs[i]][1..] == []; }
  }

  /** Removing a record keeps the single-running rule. */
  lemma {:induction false} RemoveKeepsAtMostOne(logs: seq<Log>, i: nat)
    requires i < |logs| && AtMostOneRunning(logs)
    ensures AtMostOneRunning(RemoveAt(logs, i))
  {
    var l := RemoveAt(logs, i);
    forall a, b | 0 <= a < b < |l| && l[a].finishedAt.None? && l[b].finishedAt.None?
      ensures l[a].userId != l[b].userId
    {
      var a' := if a < i then a else a + 1;
      var b' := if b < i then b else b + 1;
      assert l[a] == logs[a'] && l[b] == logs[b'];
    }
  }

  /** Removing a record keeps the ids unique and below the counter. */
  lemma {:induction false} RemoveKeepsWellFormed(s: Store, i: nat)
    requires i < |s.logs| && WellFormed(s)
    ensures WellFormed(s.(logs := RemoveAt(s.logs, i)))
  {
    var l := RemoveAt(s.logs, i);
    forall a, b | 0 <= a < b < |l| ensures l[a].id != l[b].id {
      var a' := if a < i then a else a + 1;
      var b' := if b < i then b else b + 1;
      assert l[a] == s.logs[a'] && l[b] == s.logs[b'];
    }
  }

  /** cancelLog on the database: the store afterwards and the result are those of CancelOutcome. */
  method CancelLog(db: Database, session: Session) returns (result: Result<Log, string>)
    modifies db
    ensures Outcome(result, db.State()) == CancelOutcome(old(db.State()), session)
    ensures old(db.Valid()) ==> db.Valid()
  {
    if !HasUserId(session) {
      return Err(NOT_LOGGED_IN);
    }
    var running := db.FindRunning(session.value);
    if running.None? {
      return Err(NOTHING_RUNNING);
    }
    var i := running.value;
    var deleted := db.logs[i];
    db.logs := RemoveAt(db.logs, i);
    result := Ok(deleted);
    CancelSuccess(old(db.State()), session);
  }
}
