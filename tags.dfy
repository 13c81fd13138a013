/**
 * The tag actions of src/lib/actions/tags.ts: createTag, updateTag,
 * deleteTag and getOrCreateTag. `Math.random()` (for a default colour) is the
 * parameter `random`; Prisma's "record not found" exceptions are the errors
 * RECORD_TO_UPDATE_NOT_FOUND and RECORD_TO_DELETE_NOT_FOUND.
 */
module Tags {
  import opened Wrappers
  import opened JsString
  import opened Records
  import Domain
  import Sorting

  const CREATE_NOT_LOGGED_IN: string := "User must be logged in to create tags"
  const UPDATE_NOT_LOGGED_IN: string := "User must be logged in to update tags"
  const DELETE_NOT_LOGGED_IN: string := "User must be logged in to delete tags"
  const GET_OR_CREATE_NOT_LOGGED_IN: string := "User must be logged in"
  const EMPTY_NAME: string := "Tag name cannot be empty"
  const DUPLICATE_NAME: string := "Tag already exists"
  const RECORD_TO_UPDATE_NOT_FOUND: string := "Record to update not found."
  const RECORD_TO_DELETE_NOT_FOUND: string := "Record to delete does not exist."

  /** `findFirst({ userId, name: { equals: name, mode: "insensitive" } })`: the first tag of `user` named `name` up to case. */
  function FindByName(tags: seq<Tag>, user: UserId, name: string): (r: Option<nat>)
    ensures r.Some? ==> r.value < |tags| && tags[r.value].userId == user && EqualsIgnoreCase(tags[r.value].name, name)
    ensures r.None? <==> forall k :: 0 <= k < |tags| ==> !(tags[k].userId == user && EqualsIgnoreCase(tags[k].name, name))
  {
    if tags == [] then None
    else if tags[0].userId == user && EqualsIgnoreCase(tags[0].name, name) then Some(0)
    else match FindByName(tags[1..], user, name)
      case Some(k) => assert tags[1..][k] == tags[k + 1]; Some(k + 1)
      case None =>
        assert forall k :: 1 <= k < |tags| ==> tags[k] == tags[1..][k - 1];
        None
  }

  /** The position of the tag with id `id`. */
  function FindById(tags: seq<Tag>, id: Id): (r: Option<nat>)
    ensures r.Some? ==> r.value < |tags| && tags[r.value].id == id
    ensures r.None? <==> forall k :: 0 <= k < |tags| ==> tags[k].id != id
  {
    if tags == [] then None
    else if tags[0].id == id then Some(0)
    else match FindById(tags[1..], id)
      case Some(k) => assert tags[1..][k] == tags[k + 1]; Some(k + 1)
      case None =>
        assert forall k :: 1 <= k < |tags| ==> tags[k] == tags[1..][k - 1];
        None
  }

  /** No user has two tags whose names are equal up to case. */
  predicate UniqueNames(tags: seq<Tag>) {
    forall i, j :: 0 <= i < j < |tags| && tags[i].userId == tags[j].userId ==> !EqualsIgnoreCase(tags[i].name, tags[j].name)
  }

  // ---------------------------------------------------------------------------
  // createTag
  // ---------------------------------------------------------------------------

  /** `color || getRandomTagColor()`. */
  function ChosenColor(color: Option<string>, random: real): (c: string)
    requires 0.0 <= random < 1.0
    ensures color.Some? && color.value != "" ==> c == color.value
    ensures color.None? || color.value == "" ==> c in Domain.TAG_COLORS
  {
    if color.Some? && color.value != "" then color.value else Domain.RandomTagColor(random)
  }

  /** What createTag returns or throws, and the store afterwards. */
  function CreateTagOutcome(s: Store, session: Session, name: string, color: Option<string>, random: real): (o: Outcome<Tag>)
    requires 0.0 <= random < 1.0
    ensures o.result.Err? ==> o.store == s
    ensures o.result.Ok? ==> o.store.tags == s.tags + [o.result.value] && o.store.logs == s.logs
  {
    if !HasUserId(session) then Outcome(Err(CREATE_NOT_LOGGED_IN), s)
    else
      var trimmedName := Trim(name);
      if trimmedName == "" then Outcome(Err(EMPTY_NAME), s)
      else if FindByName(s.tags, session.value, trimmedName).Some? then Outcome(Err(DUPLICATE_NAME), s)
      else
        var tag := Tag(s.nextId, session.value, trimmedName, ChosenColor(color, random), []);
        Outcome(Ok(tag), s.(tags := s.tags + [tag], nextId := s.nextId + 1))
  }

  /**
   * createTag throws, writing nothing, without a session user, for a name that
   * is blank after trimming, and for a name one of the user's tags already has
   * up to case; otherwise it succeeds.
   */
  lemma {:induction false} CreateTagErrors(s: Store, session: Session, name: string, color: Option<string>, random: real)
    requires 0.0 <= random < 1.0
    ensures var o := CreateTagOutcome(s, session, name, color, random);
      (!HasUserId(session) ==> o.result == Err(CREATE_NOT_LOGGED_IN))
      && (HasUserId(session) && AllSpaces(name) ==> o.result == Err(EMPTY_NAME))
      && (HasUserId(session) && !AllSpaces(name)
          && (exists k :: 0 <= k < |s.tags| && s.tags[k].userId == session.value && EqualsIgnoreCase(s.tags[k].name, Trim(name)))
          ==> o.result == Err(DUPLICATE_NAME))
      && (o.result.Ok? <==> HasUserId(session) && !AllSpaces(name) && FindByName(s.tags, session.value, Trim(name)).None?)
  {
    TrimEmptyIff(name);
  }

  /**
   * A created tag belongs to the caller, carries the trimmed name, the given
   * colour or else one of the predefined colours, no logs, and a fresh id; it
   * keeps the user's tag names unique up to case, and ids unique.
   */
  lemma {:induction false} CreateTagSuccess(s: Store, session: Session, name: string, color: Option<string>, random: real)
    requires 0.0 <= random < 1.0
    requires CreateTagOutcome(s, session, name, color, random).result.Ok?
    ensures var o := CreateTagOutcome(s, session, name, color, random);
      var tag := o.result.value;
      tag.userId == session.value && tag.name == Trim(name) && tag.name != "" && tag.logIds == []
      && (color.Some? && color.value != "" ==> tag.color == color.value)
      && (color.None? || color.value == "" ==> tag.color in Domain.TAG_COLORS)
      && (UniqueNames(s.tags) ==> UniqueNames(o.store.tags))
      && (WellFormed(s) ==> WellFormed(o.store))
  {
    TrimEmptyIff(name);
    CreateTagCreates(s, session, name, color, random);
    var tag := Tag(s.nextId, session.value, Trim(name), ChosenColor(color, random), []);
    if UniqueNames(s.tags) {
      AppendKeepsUniqueNames(s.tags, tag);
    }
    if WellFormed(s) {
      WellFormedAddTag(s, tag);
    }
  }

  /** A tag whose name no tag of its user has up to case keeps the names unique. */
  lemma {:induction false} AppendKeepsUniqueNames(tags: seq<Tag>, tag: Tag)
    requires UniqueNames(tags) && FindByName(tags, tag.userId, tag.name).None?
    ensures UniqueNames(tags + [tag])
  {
    var t := tags + [tag];
    forall i, j | 0 <= i < j < |t| && t[i].userId == t[j].userId ensures !EqualsIgnoreCase(t[i].name, t[j].name) {
      if j == |tags| {
        assert !(tags[i].userId == tag.userId && EqualsIgnoreCase(tags[i].name, tag.name));
      } else {
        assert t[i] == tags[i] && t[j] == tags[j];
      }
    }
  }

  /** createTag on the database: the store afterwards and the result are those of CreateTagOutcome. */
  method CreateTag(db: Database, session: Session, name: string, color: Option<string>, random: real)
    returns (result: Result<Tag, string>)
    requires 0.0 <= random < 1.0
    modifies db
    ensures Outcome(result, db.State()) == CreateTagOutcome(old(db.State()), session, name, color, random)
    ensures old(db.Valid()) ==> db.Valid()
  {
    CreateTagKeepsValid(db.State(), session, name, color, random);
    if !HasUserId(session) {
      return Err(CREATE_NOT_LOGGED_IN);
    }
    var trimmedName := Trim(name);
    if trimmedName == "" {
      return Err(EMPTY_NAME);
    }
    var existing := FindByNameIn(db.tags, session.value, trimmedName);
    if existing.Some? {
      return Err(DUPLICATE_NAME);
    }
    CreateTagCreates(db.State(), session, name, color, random);
    var id := db.NewId();
    var tag := Tag(id, session.value, trimmedName, ChosenColor(color, random), []);
    db.tags := db.tags + [tag];
    result := Ok(tag);
  }

  /** createTag keeps the store's invariant, whatever its outcome. */
  lemma {:induction false} CreateTagKeepsValid(s: Store, session: Session, name: string, color: Option<string>, random: real)
    requires 0.0 <= random < 1.0
    ensures WellFormed(s) && AtMostOneRunning(s.logs) ==>
      var o := CreateTagOutcome(s, session, name, color, random);
      WellFormed(o.store) && AtMostOneRunning(o.store.logs)
  {
    if CreateTagOutcome(s, session, name, color, random).result.Ok? {
      CreateTagSuccess(s, session, name, color, random);
    }
  }

  /** The success case of CreateTagOutcome, spelled out. */
  lemma {:induction false} CreateTagCreates(s: Store, session: Session, name: string, color: Option<string>, random: real)
    requires 0.0 <= random < 1.0
    requires HasUserId(session) && Trim(name) != "" && FindByName(s.tags, session.value, Trim(name)).None?
    ensures CreateTagOutcome(s, session, name, color, random)
      == Outcome(Ok(Tag(s.nextId, session.value, Trim(name), ChosenColor(color, random), [])),
                 Store(s.logs, s.tags + [Tag(s.nextId, session.value, Trim(name), ChosenColor(color, random), [])],
                       s.dailyGoals, s.nextId + 1))
  {
  }

  /** Scans the tags as `findFirst` does. */
  method FindByNameIn(tags: seq<Tag>, user: UserId, name: string) returns (r: Option<nat>)
    ensures r == FindByName(tags, user, name)
  {
    var i := 0;
    while i < |tags|
      invariant 0 <= i <= |tags|
      invariant forall k :: 0 <= k < i ==> !(tags[k].userId == user && EqualsIgnoreCase(tags[k].name, name))
    {
      if tags[i].userId == user && EqualsIgnoreCase(tags[i].name, name) {
        FindByNameIs(tags, user, name, i);
        return Some(i);
      }
      i := i + 1;
    }
    return None;
  }

  lemma {:induction false} FindByNameIs(tags: seq<Tag>, user: UserId, name: string, i: nat)
    requires i < |tags| && tags[i].userId == user && EqualsIgnoreCase(tags[i].name, name)
    requires forall k :: 0 <= k < i ==> !(tags[k].userId == user && EqualsIgnoreCase(tags[k].name, name))
    ensures FindByName(tags, user, name) == Some(i)
    decreases i
  {
    if i > 0 {
      FindByNameIs(tags[1..], user, name, i - 1);
    }
  }

  // ---------------------------------------------------------------------------
  // updateTag
  // ---------------------------------------------------------------------------

  /** The tag after `update({ ...(name ? { name: name.trim() } : {}), ...(color ? { color } : {}) })`. */
  function Updated(tag: Tag, name: Option<string>, color: Option<string>): (r: Tag)
    ensures r.id == tag.id && r.userId == tag.userId && r.logIds == tag.logIds
    ensures r.name == (if name.Some? && name.value != "" then Trim(name.value) else tag.name)
    ensures r.color == (if color.Some? && color.value != "" then color.value else tag.color)
  {
    var named := if name.Some? && name.value != "" then tag.(name := Trim(name.value)) else tag;
    if color.Some? && color.value != "" then named.(color := color.value) else named
  }

  /**
   * What updateTag returns or throws, and the store afterwards. The tag is
   * looked up by id alone: the action neither checks that it belongs to the
   * caller nor that the new name is unused.
   */
  function UpdateTagOutcome(s: Store, session: Session, id: Id, name: Option<string>, color: Option<string>): (o: Outcome<Tag>)
    ensures o.result.Err? ==> o.store == s
    ensures o.store.logs == s.logs && |o.store.tags| == |s.tags|
  {
    if !HasUserId(session) then Outcome(Err(UPDATE_NOT_LOGGED_IN), s)
    else match FindById(s.tags, id)
      case None => Outcome(Err(RECORD_TO_UPDATE_NOT_FOUND), s)
      case Some(i) =>
        var tag := Updated(s.tags[i], name, color);
        Outcome(Ok(tag), s.(tags := s.tags[i := tag]))
  }

  /**
   * updateTag changes only the tag with that id, and of it only the name
   * (trimmed) when a non-empty name is given and the colour when a non-empty
   * colour is given; without a session user or for an unknown id it throws.
   */
  lemma {:induction false} UpdateTagEffect(s: Store, session: Session, id: Id, name: Option<string>, color: Option<string>)
    ensures var o := UpdateTagOutcome(s, session, id, name, color);
      (!HasUserId(session) ==> o.result == Err(UPDATE_NOT_LOGGED_IN))
      && (HasUserId(session) && (forall k :: 0 <= k < |s.tags| ==> s.tags[k].id != id) ==> o.result == Err(RECORD_TO_UPDATE_NOT_FOUND))
      && (o.result.Ok? ==>
            var i := FindById(s.tags, id).value;
            o.store.tags[i] == o.result.value && o.result.value.id == id
            && (forall k :: 0 <= k < |s.tags| && k != i ==> o.store.tags[k] == s.tags[k])
            && (name.None? || name.value == "" ==> o.result.value.name == s.tags[i].name)
            && (color.None? || color.value == "" ==> o.result.value.color == s.tags[i].color)
            && (name.Some? && name.value != "" ==> o.result.value.name == Trim(name.value))
            && (color.Some? && color.value != "" ==> o.result.value.color == color.value))
  {
  }

  /**
   * updateTag does not keep names unique: renaming a tag to a name another tag
   * of the same user has up to case succeeds; and a name that is only blanks
   * leaves the tag with an empty name.
   */
  lemma {:induction false} UpdateTagIgnoresNameRules(s: Store, session: Session, i: nat, j: nat, name: string)
    requires WellFormed(s) && HasUserId(session)
    requires i < |s.tags| && j < |s.tags| && i != j && s.tags[i].userId == s.tags[j].userId
    ensures name != "" && EqualsIgnoreCase(s.tags[i].name, Trim(name)) ==>
      var o := UpdateTagOutcome(s, session, s.tags[j].id, Some(name), None);
      o.result.Ok? && o.store.tags[i] == s.tags[i] && o.store.tags[j].name == Trim(name)
      && EqualsIgnoreCase(o.store.tags[i].name, o.store.tags[j].name)
      && !UniqueNames(o.store.tags)
    ensures name != "" && AllSpaces(name) ==>
      UpdateTagOutcome(s, session, s.tags[j].id, Some(name), None).result.value.name == ""
  {
    TrimEmptyIff(name);
    var o := UpdateTagOutcome(s, session, s.tags[j].id, Some(name), None);
    assert FindById(s.tags, s.tags[j].id) == Some(j);
    if name != "" && EqualsIgnoreCase(s.tags[i].name, Trim(name)) {
      var t := o.store.tags;
      if i < j {
        assert t[i].userId == t[j].userId && EqualsIgnoreCase(t[i].name, t[j].name);
      } else {
        assert t[j].userId == t[i].userId && EqualsIgnoreCase(t[j].name, t[i].name);
      }
    }
  }

  /** updateTag on the database: the store afterwards and the result are those of UpdateTagOutcome. */
  method UpdateTag(db: Database, session: Session, id: Id, name: Option<string>, color: Option<string>)
    returns (result: Result<Tag, string>)
    modifies db
    ensures Outcome(result, db.State()) == UpdateTagOutcome(old(db.State()), session, id, name, color)
    ensures old(db.Valid()) ==> db.Valid()
  {
    if !HasUserId(session) {
      return Err(UPDATE_NOT_LOGGED_IN);
    }
    var found := FindById(db.tags, id);
    if found.None? {
      return Err(RECORD_TO_UPDATE_NOT_FOUND);
    }
    var i := found.value;
    var tag := Updated(db.tags[i], name, color);
    db.tags := db.tags[i := tag];
    result := Ok(tag);
  }

  // ---------------------------------------------------------------------------
  // deleteTag
  // ---------------------------------------------------------------------------

  /** `tagIds.filter(tid => tid !== id)`. */
  function Without(tagIds: seq<Id>, id: Id): (r: seq<Id>)
    ensures id !in r
    ensures forall t :: t in r <==> t in tagIds && t != id
    ensures id !in tagIds ==> r == tagIds
  {
    if tagIds == [] then []
    else (if tagIds[0] == id then [] else [tagIds[0]]) + Without(tagIds[1..], id)
  }

  /** The `updateMany({ where: { tagIds: { has: id } }, data: { tagIds: { set: [] } } })` step. */
  function ClearTagged(logs: seq<Log>, id: Id): (r: seq<Log>)
    ensures |r| == |logs|
    ensures forall k :: 0 <= k < |logs| ==>
      r[k] == (if id in logs[k].tagIds then logs[k].(tagIds := []) else logs[k])
  {
    seq(|logs|, k requires 0 <= k < |logs| => if id in logs[k].tagIds then logs[k].(tagIds := []) else logs[k])
  }

  /** The per-log step: every log holding `id` gets its tag ids with `id` filtered out. */
  function StripTagged(logs: seq<Log>, id: Id): (r: seq<Log>)
    ensures |r| == |logs|
    ensures forall k :: 0 <= k < |logs| ==>
      r[k] == (if id in logs[k].tagIds then logs[k].(tagIds := Without(logs[k].tagIds, id)) else logs[k])
  {
    seq(|logs|, k requires 0 <= k < |logs| =>
      if id in logs[k].tagIds then logs[k].(tagIds := Without(logs[k].tagIds, id)) else logs[k])
  }

  /**
   * What deleteTag returns or throws, and the store afterwards, as the action
   * is written: clear the tag ids of every log holding the tag, then strip the
   * tag from the logs that still hold it, then delete the tag by id. Deleting
   * an id that no tag has throws after the logs were already rewritten.
   */
  function DeleteTagOutcome(s: Store, session: Session, id: Id): (o: Outcome<()>)
    ensures o.store.tags == s.tags || o.result.Ok?
  {
    if !HasUserId(session) then Outcome(Err(DELETE_NOT_LOGGED_IN), s)
    else
      var logs := StripTagged(ClearTagged(s.logs, id), id);
      match FindById(s.tags, id)
      case None => Outcome(Err(RECORD_TO_DELETE_NOT_FOUND), s.(logs := logs))
      case Some(i) => Outcome(Ok(()), s.(logs := logs, tags := s.tags[..i] + s.tags[i + 1..]))
  }

  /** deleteTag keeps the store's invariant: the logs keep their ids, users and finish times, and a tag is only removed. */
  lemma {:induction false} DeleteTagKeepsValid(s: Store, session: Session, id: Id)
    ensures WellFormed(s) && AtMostOneRunning(s.logs) ==>
      var o := DeleteTagOutcome(s, session, id);
      WellFormed(o.store) && AtMostOneRunning(o.store.logs)
  {
    if WellFormed(s) && AtMostOneRunning(s.logs) && HasUserId(session) {
      var logs := StripTagged(ClearTagged(s.logs, id), id);
      StripAfterClearIsNoOp(s.logs, id);
      RetaggedKeepsValid(s, logs);
      match FindById(s.tags, id)
      case None =>
      case Some(i) => RemoveTagKeepsValid(s.(logs := logs), i);
    }
  }

  /** Rewriting the tag ids of the logs keeps the invariant: ids, users and finish times stay. */
  lemma {:induction false} RetaggedKeepsValid(s: Store, logs: seq<Log>)
    requires WellFormed(s) && AtMostOneRunning(s.logs) && |logs| == |s.logs|
    requires forall k :: 0 <= k < |logs| ==> logs[k] == s.logs[k].(tagIds := logs[k].tagIds)
    ensures WellFormed(s.(logs := logs)) && AtMostOneRunning(logs)
  {
    forall k | 0 <= k < |logs| ensures logs[k].id == s.logs[k].id && logs[k].userId == s.logs[k].userId
      && logs[k].finishedAt == s.logs[k].finishedAt {
      assert logs[k] == s.logs[k].(tagIds := logs[k].tagIds);
    }
  }

  /** Removing one tag keeps the invariant. */
  lemma {:induction false} RemoveTagKeepsValid(s: Store, i: nat)
    requires WellFormed(s) && AtMostOneRunning(s.logs) && i < |s.tags|
    ensures WellFormed(s.(tags := s.tags[..i] + s.tags[i + 1..])) && AtMostOneRunning(s.logs)
  {
    var t := s.tags[..i] + s.tags[i + 1..];
    forall k | 0 <= k < |t| ensures t[k] == s.tags[if k < i then k else k + 1] {
    }
  }

  /** After the clearing step no log holds the tag, so the per-log filtering step changes nothing. */
  lemma {:induction false} StripAfterClearIsNoOp(logs: seq<Log>, id: Id)
    ensures StripTagged(ClearTagged(logs, id), id) == ClearTagged(logs, id)
  {
  }

  /**
   * deleteTag as written: every log that held the tag ends with no tags at all,
   * losing its other tags too; the other logs are untouched; the tag with that
   * id is gone (when it existed, the rest of the tags are kept in order).
   */
  lemma {:induction false} DeleteTagAsWritten(s: Store, session: Session, id: Id)
    requires HasUserId(session)
    ensures var o := DeleteTagOutcome(s, session, id);
      |o.store.logs| == |s.logs|
      && (forall k :: 0 <= k < |s.logs| && id in s.logs[k].tagIds ==> o.store.logs[k] == s.logs[k].(tagIds := []))
      && (forall k :: 0 <= k < |s.logs| && id !in s.logs[k].tagIds ==> o.store.logs[k] == s.logs[k])
      && (o.result.Ok? <==> exists k :: 0 <= k < |s.tags| && s.tags[k].id == id)
      && (WellFormed(s) ==> forall k :: 0 <= k < |o.store.tags| ==> o.store.tags[k].id != id)
      && (o.result.Ok? ==> exists i :: 0 <= i < |s.tags| && s.tags[i].id == id && o.store.tags == s.tags[..i] + s.tags[i + 1..])
      && (o.result.Err? ==> o.store.tags == s.tags)
      && o.store.dailyGoals == s.dailyGoals && o.store.nextId == s.nextId
  {
    StripAfterClearIsNoOp(s.logs, id);
    var o := DeleteTagOutcome(s, session, id);
    match FindById(s.tags, id)
    case None =>
    case Some(i) =>
      if WellFormed(s) {
        forall k | 0 <= k < |o.store.tags| ensures o.store.tags[k].id != id {
          if k < i { assert o.store.tags[k] == s.tags[k]; } else { assert o.store.tags[k] == s.tags[k + 1]; }
        }
      }
  }

  /** A log tagged with two tags loses both when one of them is deleted. */
  lemma {:induction false} DeleteTagLosesOtherTags()
    ensures var s := Store([Log(2, "u", None, 0, Some(60000), Some(1), [0, 1])],
                           [Tag(0, "u", "Work", "#ef4444", []), Tag(1, "u", "Home", "#f97316", [])], map[], 3);
      DeleteTagOutcome(s, Some("u"), 0).store.logs[0].tagIds == []
      && DeleteTagIntendedOutcome(s, Some("u"), 0).store.logs[0].tagIds == [1]
  {
    var s := Store([Log(2, "u", None, 0, Some(60000), Some(1), [0, 1])],
                   [Tag(0, "u", "Work", "#ef4444", []), Tag(1, "u", "Home", "#f97316", [])], map[], 3);
    StripAfterClearIsNoOp(s.logs, 0);
    assert 0 in s.logs[0].tagIds;
    assert Without([0, 1], 0) == [1] by {
      assert [0, 1][1..] == [1];
      assert Without([1], 0) == [1] by { assert [1][1..] == []; }
    }
  }

  /** deleteTag with the clearing step left out: each log only loses the deleted tag. */
  function DeleteTagIntendedOutcome(s: Store, session: Session, id: Id): (o: Outcome<()>)
    ensures o.store.tags == s.tags || o.result.Ok?
  {
    if !HasUserId(session) then Outcome(Err(DELETE_NOT_LOGGED_IN), s)
    else
      var logs := StripTagged(s.logs, id);
      match FindById(s.tags, id)
      case None => Outcome(Err(RECORD_TO_DELETE_NOT_FOUND), s.(logs := logs))
      case Some(i) => Outcome(Ok(()), s.(logs := logs, tags := s.tags[..i] + s.tags[i + 1..]))
  }

  /**
   * With the clearing step left out, deleting a tag removes exactly that id
   * from every log and keeps all the logs' other tags; the tag itself is gone.
   */
  lemma {:induction false} DeleteTagIntendedKeepsOtherTags(s: Store, session: Session, id: Id)
    requires HasUserId(session)
    ensures var o := DeleteTagIntendedOutcome(s, session, id);
      |o.store.logs| == |s.logs|
      && (forall k :: 0 <= k < |s.logs| ==>
            o.store.logs[k] == s.logs[k].(tagIds := o.store.logs[k].tagIds)
            && id !in o.store.logs[k].tagIds
            && forall t :: t in o.store.logs[k].tagIds <==> t in s.logs[k].tagIds && t != id)
      && (o.result.Ok? <==> exists k :: 0 <= k < |s.tags| && s.tags[k].id == id)
  {
    var o := DeleteTagIntendedOutcome(s, session, id);
    forall k | 0 <= k < |s.logs| ensures forall t :: t in o.store.logs[k].tagIds <==> t in s.logs[k].tagIds && t != id {
      if id !in s.logs[k].tagIds {
        assert o.store.logs[k] == s.logs[k];
      }
    }
  }

  /** deleteTag on the database, step by step as the action runs its queries: the outcome of DeleteTagOutcome. */
  method DeleteTag(db: Database, session: Session, id: Id) returns (result: Result<(), string>)
    modifies db
    ensures Outcome(result, db.State()) == DeleteTagOutcome(old(db.State()), session, id)
    ensures old(db.Valid()) ==> db.Valid()
  {
    DeleteTagKeepsValid(db.State(), session, id);
    if !HasUserId(session) {
      return Err(DELETE_NOT_LOGGED_IN);
    }
    ghost var logs0 := db.logs;
    // updateMany: every log holding the tag gets `tagIds: []`.
    var i := 0;
    while i < |db.logs|
      invariant 0 <= i <= |db.logs| == |logs0|
      invariant db.tags == old(db.tags) && db.nextId == old(db.nextId) && db.dailyGoals == old(db.dailyGoals)
      invariant db.logs[..i] == ClearTagged(logs0, id)[..i]
      invariant db.logs[i..] == logs0[i..]
    {
      if id in db.logs[i].tagIds {
        db.logs := db.logs[i := db.logs[i].(tagIds := [])];
      }
      assert db.logs[..i + 1] == db.logs[..i] + [db.logs[i]];
      assert ClearTagged(logs0, id)[..i + 1] == ClearTagged(logs0, id)[..i] + [ClearTagged(logs0, id)[i]];
      assert db.logs[i + 1..] == logs0[i + 1..] by {
        assert db.logs[i + 1..] == db.logs[i..][1..];
        assert logs0[i + 1..] == logs0[i..][1..];
      }
      i := i + 1;
    }
    assert db.logs == ClearTagged(logs0, id) by { assert db.logs == db.logs[..i]; }
    // findMany: the logs that still hold the tag; then one update per log.
    var logsWithTag := TaggedPositions(db.logs, id);
    StripAt(db, id, logsWithTag);
    assert db.logs == ClearTagged(logs0, id);
    StripAfterClearIsNoOp(logs0, id);
    // delete the tag by id.
    var found := FindById(db.tags, id);
    if found.None? {
      return Err(RECORD_TO_DELETE_NOT_FOUND);
    }
    var t := found.value;
    db.tags := db.tags[..t] + db.tags[t + 1..];
    result := Ok(());
  }

  /** One `update` per listed position: that log's tag ids with `id` filtered out. */
  method StripAt(db: Database, id: Id, positions: seq<nat>)
    requires forall p :: p in positions ==> p < |db.logs|
    modifies db`logs
    ensures |db.logs| == |old(db.logs)|
    ensures forall q :: 0 <= q < |db.logs| ==>
      db.logs[q] == (if q in positions then old(db.logs[q]).(tagIds := Without(old(db.logs[q]).tagIds, id)) else old(db.logs[q]))
  {
    var j := 0;
    while j < |positions|
      invariant 0 <= j <= |positions|
      invariant |db.logs| == |old(db.logs)|
      invariant forall q :: 0 <= q < |db.logs| ==>
        db.logs[q] == (if q in positions[..j] then old(db.logs[q]).(tagIds := Without(old(db.logs[q]).tagIds, id)) else old(db.logs[q]))
    {
      var k := positions[j];
      assert k in positions;
      db.logs := db.logs[k := db.logs[k].(tagIds := Without(db.logs[k].tagIds, id))];
      assert positions[..j + 1] == positions[..j] + [k];
      j := j + 1;
    }
    assert positions[..j] == positions;
  }

  /** `findMany({ where: { tagIds: { has: id } } })`: positions of the logs holding `id`, in order. */
  method TaggedPositions(logs: seq<Log>, id: Id) returns (positions: seq<nat>)
    ensures forall p :: p in positions ==> p < |logs| && id in logs[p].tagIds
    ensures forall k :: 0 <= k < |logs| && id in logs[k].tagIds ==> k in positions
    ensures forall i, j :: 0 <= i < j < |positions| ==> positions[i] < positions[j]
  {
    positions := [];
    var k := 0;
    while k < |logs|
      invariant 0 <= k <= |logs|
      invariant forall p :: p in positions ==> p < k && id in logs[p].tagIds
      invariant forall i :: 0 <= i < |positions| ==> positions[i] < k
      invariant forall i, j :: 0 <= i < j < |positions| ==> positions[i] < positions[j]
      invariant forall q :: 0 <= q < k && id in logs[q].tagIds ==> q in positions
    {
      if id in logs[k].tagIds {
        positions := positions + [k];
      }
      k := k + 1;
    }
  }

  // ---------------------------------------------------------------------------
  // getOrCreateTag
  // ---------------------------------------------------------------------------

  /** What getOrCreateTag returns or throws, and the store afterwards. */
  function GetOrCreateTagOutcome(s: Store, session: Session, name: string, random: real): (o: Outcome<Tag>)
    requires 0.0 <= random < 1.0
    ensures o.result.Err? ==> o.store == s
  {
    if !HasUserId(session) then Outcome(Err(GET_OR_CREATE_NOT_LOGGED_IN), s)
    else
      var trimmedName := Trim(name);
      match FindByName(s.tags, session.value, trimmedName)
      case Some(i) => Outcome(Ok(s.tags[i]), s)
      case None => CreateTagOutcome(s, session, trimmedName, None, random)
  }

  /**
   * getOrCreateTag returns the user's first tag matching the trimmed name up to
   * case without writing anything; otherwise it is createTag on the name with
   * a random colour.
   */
  lemma {:induction false} GetOrCreateTagEffect(s: Store, session: Session, name: string, random: real)
    requires 0.0 <= random < 1.0
    requires HasUserId(session)
    ensures var o := GetOrCreateTagOutcome(s, session, name, random);
      var found := FindByName(s.tags, session.value, Trim(name));
      (found.Some? ==>
         o == Outcome(Ok(s.tags[found.value]), s)
         && o.result.value.userId == session.value && EqualsIgnoreCase(o.result.value.name, Trim(name)))
      && (found.None? ==> o == CreateTagOutcome(s, session, name, None, random))
  {
    TrimIdempotent(name);
  }

  /** getOrCreateTag on the database: the store afterwards and the result are those of GetOrCreateTagOutcome. */
  method GetOrCreateTag(db: Database, session: Session, name: string, random: real) returns (result: Result<Tag, string>)
    requires 0.0 <= random < 1.0
    modifies db
    ensures Outcome(result, db.State()) == GetOrCreateTagOutcome(old(db.State()), session, name, random)
    ensures old(db.Valid()) ==> db.Valid()
  {
    if !HasUserId(session) {
      return Err(GET_OR_CREATE_NOT_LOGGED_IN);
    }
    var trimmedName := Trim(name);
    var existing := FindByNameIn(db.tags, session.value, trimmedName);
    if existing.Some? {
      return Ok(db.tags[existing.value]);
    }
    result := CreateTag(db, session, trimmedName, None, random);
  }
}
