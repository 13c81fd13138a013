/**
 * The timer widget (src/components/logs/createLogs.tsx): its running flag,
 * its stopwatch references, the description and tag selection, and the
 * arguments it hands to the create and update callbacks. React state setters
 * take effect in the order they are called; the animation-frame ticker is not
 * part of this model.
 */
module CreateLogs {
  import opened Wrappers
  import opened JsString
  import Domain

  type TagId = string

  /** toggleTag: remove the id when it is selected, else append it at the end. */
  function Toggle(selected: seq<TagId>, id: TagId): (r: seq<TagId>)
    ensures id in selected ==> id !in r && forall x :: x in r <==> x in selected && x != id
    ensures id !in selected ==> r == selected + [id]
  {
    if id in selected then Without(selected, id) else selected + [id]
  }

  /** `prev.filter(x => x !== id)`. */
  function Without(s: seq<TagId>, id: TagId): (r: seq<TagId>)
    ensures forall x :: x in r <==> x in s && x != id
    ensures |r| <= |s|
  {
    if s == [] then []
    else (if s[0] == id then [] else [s[0]]) + Without(s[1..], id)
  }

  /** A sequence without `id` loses nothing to the filter. */
  lemma {:induction false} WithoutAbsent(s: seq<TagId>, id: TagId)
    requires id !in s
    ensures Without(s, id) == s
  {
    if s != [] {
      WithoutAbsent(s[1..], id);
    }
  }

  /**
   * Toggling the same id twice restores the selection's membership; when the
   * id was not selected it restores the selection exactly.
   */
  lemma {:induction false} ToggleTwice(selected: seq<TagId>, id: TagId)
    ensures forall x :: x in Toggle(Toggle(selected, id), id) <==> x in selected
    ensures id !in selected ==> Toggle(Toggle(selected, id), id) == selected
  {
    if id !in selected {
      WithoutAbsent(selected, id);
      assert Without(selected + [id], id) == Without(selected, id) + Without([id], id) by {
        WithoutConcat(selected, [id], id);
      }
      assert Without([id], id) == [];
    }
  }

  lemma {:induction false} WithoutConcat(a: seq<TagId>, b: seq<TagId>, id: TagId)
    ensures Without(a + b, id) == Without(a, id) + Without(b, id)
  {
    if a == [] {
      assert a + b == b;
    } else {
      assert (a + b)[1..] == a[1..] + b;
      WithoutConcat(a[1..], b, id);
      var head := if a[0] == id then [] else [a[0]];
      assert Without(a + b, id) == head + Without(a[1..] + b, id);
    }
  }

  /** What handleCreateLog passes to handleCreate: a trimmed description or undefined, and the tags only when some are selected. */
  function CreateArguments(description: string, selected: seq<TagId>): (args: (Option<string>, Option<seq<TagId>>))
    ensures args.0.None? <==> Trim(description) == ""
    ensures args.0.Some? ==> args.0.value == Trim(description)
    ensures args.1.None? <==> selected == []
    ensures args.1.Some? ==> args.1.value == selected
  {
    (if Trim(description) != "" then Some(Trim(description)) else None,
     if |selected| > 0 then Some(selected) else None)
  }

  /** The widget's state. The stopwatch readings (`performance.now()`) are integers here. */
  class TimerWidget {
    var elapsed: int
    var running: bool
    var description: string
    var showDescription: bool
    var selectedTagIds: seq<TagId>
    var newTagName: string
    var showTagInput: bool
    var baseElapsed: int
    var startAt: Option<int>
    var initialized: bool

    /** The state at mount. */
    constructor()
      ensures elapsed == 0 && !running && description == "" && !showDescription && selectedTagIds == []
      ensures newTagName == "" && !showTagInput && baseElapsed == 0 && startAt.None? && !initialized
    {
      elapsed := 0;
      running := false;
      description := "";
      showDescription := false;
      selectedTagIds := [];
      newTagName := "";
      showTagInput := false;
      baseElapsed := 0;
      startAt := None;
      initialized := false;
    }

    /** The widget is running exactly while it holds a start reading. */
    predicate Valid()
      reads this
    {
      running <==> startAt.Some?
    }

    /** Every field the reset clears is at its cleared value. */
    predicate Cleared()
      reads this
    {
      elapsed == 0 && baseElapsed == 0 && !running && startAt.None?
      && description == "" && !showDescription && selectedTagIds == [] && newTagName == "" && !showTagInput
    }

    /** start: no effect while running; otherwise run from the reading `now`. */
    method Start(now: int)
      modifies this`running, this`startAt
      ensures old(running) ==> running && startAt == old(startAt)
      ensures !old(running) ==> running && startAt == Some(now)
      ensures old(Valid()) ==> Valid()
    {
      if running {
        return;
      }
      running := true;
      startAt := Some(now);
    }

    /** reset: everything back to its cleared value and not running. */
    method Reset()
      modifies this
      ensures Cleared() && initialized == old(initialized)
      ensures Valid()
    {
      startAt := None;
      baseElapsed := 0;
      elapsed := 0;
      running := false;
      description := "";
      showDescription := false;
      selectedTagIds := [];
      newTagName := "";
      showTagInput := false;
    }

    /** stop: true, after a reset, only when it was running; otherwise nothing changes and it returns undefined (false). */
    method Stop() returns (stopped: bool)
      modifies this
      ensures stopped == old(running)
      ensures !old(running) ==> unchanged(this)
      ensures old(running) ==> Cleared() && initialized == old(initialized)
      ensures Valid() || !stopped
    {
      if !running {
        return false;
      }
      running := false;
      startAt := None;
      Reset();
      return true;
    }

    /** handleUpdateLog: returns whether handleUpdate is called, which happens only when stop succeeds. */
    method HandleUpdateLog() returns (updateCalled: bool)
      modifies this
      ensures updateCalled == old(running)
      ensures old(running) ==> Cleared() && initialized == old(initialized)
      ensures !old(running) ==> unchanged(this)
    {
      updateCalled := Stop();
    }

    /** handleCreateLog: start, then the arguments passed to handleCreate. */
    method HandleCreateLog(now: int) returns (args: (Option<string>, Option<seq<TagId>>))
      modifies this`running, this`startAt
      ensures running
      ensures !old(running) ==> startAt == Some(now)
      ensures old(running) ==> startAt == old(startAt)
      ensures args == CreateArguments(old(description), old(selectedTagIds))
    {
      Start(now);
      args := CreateArguments(description, selectedTagIds);
    }

    /** A tag chip's click: `!running && toggleTag(id)`. */
    method ClickChip(id: TagId)
      modifies this`selectedTagIds
      ensures old(running) ==> selectedTagIds == old(selectedTagIds)
      ensures !old(running) ==> selectedTagIds == Toggle(old(selectedTagIds), id)
    {
      if !running {
        selectedTagIds := Toggle(selectedTagIds, id);
      }
    }

    /**
     * handleAddTag with the outcome of onCreateTag: blank names are ignored and
     * nothing is called (None); otherwise the trimmed name is passed on, and on
     * success the new tag's id is appended to the selection and the input is
     * cleared and hidden; a failure changes nothing.
     */
    method HandleAddTag(created: Result<TagId, string>) returns (requested: Option<string>)
      modifies this`selectedTagIds, this`newTagName, this`showTagInput
      ensures requested.None? <==> Trim(old(newTagName)) == ""
      ensures requested.Some? ==> requested.value == Trim(old(newTagName))
      ensures requested.Some? && created.Ok? ==>
        selectedTagIds == old(selectedTagIds) + [created.value] && newTagName == "" && !showTagInput
      ensures requested.None? || created.Err? ==>
        selectedTagIds == old(selectedTagIds) && newTagName == old(newTagName) && showTagInput == old(showTagInput)
    {
      if Trim(newTagName) == "" {
        return None;
      }
      requested := Some(Trim(newTagName));
      if created.Ok? {
        selectedTagIds := selectedTagIds + [created.value];
        newTagName := "";
        showTagInput := false;
      }
    }

    /**
     * The effect on the running log, once: the stopwatch base from its start,
     * its description when non-empty, its tags when there are some, and a
     * start when the log is still running. `now` is the wall clock that
     * calculateElapsed reads (`Date.now()`), `perfNow` the reading of
     * `performance.now()` that start takes.
     */
    method Initialize(runningLog: Option<(int, Option<string>, Option<int>, seq<TagId>)>, now: int, perfNow: int)
      modifies this`baseElapsed, this`description, this`selectedTagIds, this`running, this`startAt, this`initialized
      ensures runningLog.None? || old(initialized) ==> unchanged(this)
      ensures runningLog.Some? && !old(initialized) ==>
        var (startedAt, desc, finishedAt, tagIds) := runningLog.value;
        initialized
        && baseElapsed == Domain.CalculateElapsed(startedAt, now)
        && description == (if desc.Some? && desc.value != "" then desc.value else old(description))
        && selectedTagIds == (if |tagIds| > 0 then tagIds else old(selectedTagIds))
        && (finishedAt.None? ==> running && startAt == (if old(running) then old(startAt) else Some(perfNow)))
        && (finishedAt.Some? ==> running == old(running) && startAt == old(startAt))
      ensures old(Valid()) ==> Valid()
    {
      if runningLog.None? || initialized {
        return;
      }
      var (startedAt, desc, finishedAt, tagIds) := runningLog.value;
      baseElapsed := Domain.CalculateElapsed(startedAt, now);
      if desc.Some? && desc.value != "" {
        description := desc.value;
      }
      if |tagIds| > 0 {
        selectedTagIds := tagIds;
      }
      if Domain.IsRunning(finishedAt) {
        Start(perfNow);
      }
      initialized := true;
    }
  }
}
