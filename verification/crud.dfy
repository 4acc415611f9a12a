/** The create/read/update/delete operations of the backend store. Every
    operation is a pure transition: it takes the database and returns its
    result together with the database afterwards. */
module Crud {
  import opened Base
  import opened Models
  import opened Schemas

  /** The result of an operation and the database after it. */
  datatype Step<T> = Step(result: T, db: Db)

  // ---------------------------------------------------------------------
  // Lookup by primary key (`query(...).filter(id == k).first()`)
  // ---------------------------------------------------------------------

  function FindCat(cats: seq<SpyCat>, id: int): (r: Option<SpyCat>)
    ensures r.Some? <==> exists c :: c in cats && c.id == id
    ensures r.Some? ==> r.value in cats && r.value.id == id
  {
    if cats == [] then None
    else if cats[0].id == id then Some(cats[0])
    else FindCat(cats[1..], id)
  }

  function FindMission(missions: seq<Mission>, id: int): (r: Option<Mission>)
    ensures r.Some? <==> exists m :: m in missions && m.id == id
    ensures r.Some? ==> r.value in missions && r.value.id == id
  {
    if missions == [] then None
    else if missions[0].id == id then Some(missions[0])
    else FindMission(missions[1..], id)
  }

  function FindTarget(targets: seq<Target>, id: int): (r: Option<Target>)
    ensures r.Some? <==> exists t :: t in targets && t.id == id
    ensures r.Some? ==> r.value in targets && r.value.id == id
  {
    if targets == [] then None
    else if targets[0].id == id then Some(targets[0])
    else FindTarget(targets[1..], id)
  }

  // ---------------------------------------------------------------------
  // Spy cats
  // ---------------------------------------------------------------------

  function GetSpyCat(db: Db, catId: int): (r: Option<SpyCat>)
    ensures r.Some? <==> exists c :: c in db.cats && c.id == catId
    ensures r.Some? ==> r.value in db.cats && r.value.id == catId
  {
    FindCat(db.cats, catId)
  }

  /** `offset(skip).limit(limit)` over the cat table. */
  function GetSpyCats(db: Db, skip: nat, limit: nat): (r: seq<SpyCat>)
    ensures forall i :: 0 <= i < |r| ==> skip + i < |db.cats| && r[i] == db.cats[skip + i]
    ensures skip >= |db.cats| ==> r == []
    ensures skip < |db.cats| ==> |r| == (if skip + limit <= |db.cats| then limit else |db.cats| - skip)
  {
    Window(db.cats, skip, limit)
  }

  /** Inserts a cat whose fields are those of the body, under a fresh key. */
  function CreateSpyCat(db: Db, c: SpyCatCreate): (r: Step<SpyCat>)
    ensures r.result.name == c.name && r.result.yearsOfExperience == c.yearsOfExperience
    ensures r.result.breed == c.breed && r.result.salary == c.salary
    ensures r.db.cats == db.cats + [r.result]
    ensures IdsBelowCounters(db) ==> forall x :: x in db.cats ==> x.id != r.result.id
    ensures r.db.missions == db.missions && r.db.targets == db.targets
  {
    var cat := SpyCat(db.nextCatId, c.name, c.yearsOfExperience, c.breed, c.salary);
    Step(cat, db.(cats := db.cats + [cat], nextCatId := db.nextCatId + 1))
  }

  /** Sets the salary of the cat keyed `catId`; `None` when there is none. */
  function UpdateSpyCat(db: Db, catId: int, u: SpyCatUpdate): (r: Step<Option<SpyCat>>)
    ensures r.result.None? <==> GetSpyCat(db, catId).None?
    ensures r.result.None? ==> r.db == db
    ensures r.result.Some? ==> r.result.value == GetSpyCat(db, catId).value.(salary := u.salary)
    ensures |r.db.cats| == |db.cats|
    ensures forall i :: 0 <= i < |db.cats| ==>
      r.db.cats[i] == (if db.cats[i].id == catId then db.cats[i].(salary := u.salary) else db.cats[i])
    ensures r.db.missions == db.missions && r.db.targets == db.targets
  {
    match GetSpyCat(db, catId)
    case None => Step(None, db)
    case Some(cat) =>
      var cats := seq(|db.cats|, i requires 0 <= i < |db.cats| =>
        if db.cats[i].id == catId then db.cats[i].(salary := u.salary) else db.cats[i]);
      Step(Some(cat.(salary := u.salary)), db.(cats := cats))
  }

  /** The mission table with every mission of cat `catId` unassigned. */
  function ReleaseCat(missions: seq<Mission>, catId: int): (r: seq<Mission>)
    ensures |r| == |missions|
    ensures forall i :: 0 <= i < |r| ==>
      r[i] == (if missions[i].catId == Some(catId) then missions[i].(catId := None) else missions[i])
  {
    seq(|missions|, i requires 0 <= i < |missions| =>
      if missions[i].catId == Some(catId) then missions[i].(catId := None) else missions[i])
  }

  /** Deletes the cat keyed `catId`, reporting whether it existed. The
      `SpyCat.missions` relationship has no delete cascade, so the ORM keeps
      the cat's missions and nulls their `cat_id`. */
  function DeleteSpyCat(db: Db, catId: int): (r: Step<bool>)
    ensures r.result <==> exists c :: c in db.cats && c.id == catId
    ensures !r.result ==> r.db == db
    ensures forall c :: c in r.db.cats <==> c in db.cats && c.id != catId
    ensures r.result ==> r.db.missions == ReleaseCat(db.missions, catId)
    ensures r.result ==> forall m :: m in r.db.missions ==> m.catId != Some(catId)
    ensures r.db.targets == db.targets
  {
    if GetSpyCat(db, catId).Some? then
      Step(true, db.(cats := Filter(db.cats, (c: SpyCat) => c.id != catId), missions := ReleaseCat(db.missions, catId)))
    else
      Step(false, db)
  }

  /** Whether some incomplete mission is assigned to cat id `catId`. */
  predicate HasActiveMission(missions: seq<Mission>, catId: int)
  {
    exists m :: m in missions && m.catId == Some(catId) && !m.complete
  }

  /** The cats with no incomplete mission, in table order. */
  function GetAvailableSpyCats(db: Db): (r: seq<SpyCat>)
    ensures forall c :: c in r <==> c in db.cats && forall m :: m in db.missions && m.catId == Some(c.id) ==> m.complete
  {
    Filter(db.cats, (c: SpyCat) => !HasActiveMission(db.missions, c.id))
  }

  // ---------------------------------------------------------------------
  // Missions
  // ---------------------------------------------------------------------

  function GetMission(db: Db, missionId: int): (r: Option<Mission>)
    ensures r.Some? <==> exists m :: m in db.missions && m.id == missionId
    ensures r.Some? ==> r.value in db.missions && r.value.id == missionId
  {
    FindMission(db.missions, missionId)
  }

  function GetMissions(db: Db, skip: nat, limit: nat): (r: seq<Mission>)
    ensures forall i :: 0 <= i < |r| ==> skip + i < |db.missions| && r[i] == db.missions[skip + i]
    ensures skip >= |db.missions| ==> r == []
    ensures skip < |db.missions| ==> |r| == (if skip + limit <= |db.missions| then limit else |db.missions| - skip)
  {
    Window(db.missions, skip, limit)
  }

  /** The target rows inserted for a new mission keyed `missionId`. */
  function NewTargets(db: Db, missionId: int, ts: seq<TargetCreate>): (r: seq<Target>)
    ensures |r| == |ts|
    ensures forall k :: 0 <= k < |r| ==>
      r[k] == NewTarget(db.nextTargetId + k, missionId, ts[k].name, ts[k].country, ts[k].notes)
  {
    seq(|ts|, k requires 0 <= k < |ts| =>
      NewTarget(db.nextTargetId + k, missionId, ts[k].name, ts[k].country, ts[k].notes))
  }

  /** Inserts an unassigned, incomplete mission and then its targets, in order. */
  function CreateMission(db: Db, mc: MissionCreate): (r: Step<Mission>)
    ensures r.result.catId == None && !r.result.complete
    ensures r.db.missions == db.missions + [r.result]
    ensures IdsBelowCounters(db) ==> forall m :: m in db.missions ==> m.id != r.result.id
    ensures |r.db.targets| == |db.targets| + |mc.targets|
    ensures r.db.targets[..|db.targets|] == db.targets
    ensures forall k :: 0 <= k < |mc.targets| ==>
      var t := r.db.targets[|db.targets| + k];
      && t.missionId == r.result.id && !t.complete
      && t.name == mc.targets[k].name && t.country == mc.targets[k].country && t.notes == mc.targets[k].notes
    ensures r.db.cats == db.cats
  {
    var mission := NewMission(db.nextMissionId);
    var targets := NewTargets(db, mission.id, mc.targets);
    Step(mission, db.(
      missions := db.missions + [mission],
      targets := db.targets + targets,
      nextMissionId := db.nextMissionId + 1,
      nextTargetId := db.nextTargetId + |mc.targets|))
  }

  /** Assigns cat `catId` to mission `missionId`. Refused (`None`, nothing
      changes) when either is missing or the cat already holds an incomplete
      mission, that mission itself included. A mission that belongs to another
      cat, or that is complete, is (re)assigned. */
  function AssignCatToMission(db: Db, missionId: int, catId: int): (r: Step<Option<Mission>>)
    ensures r.result.None? <==>
      GetMission(db, missionId).None? || GetSpyCat(db, catId).None? || HasActiveMission(db.missions, catId)
    ensures r.result.None? ==> r.db == db
    ensures r.result.Some? ==>
      && r.result.value == GetMission(db, missionId).value.(catId := Some(catId))
      && r.db == db.(missions := ReplaceByKey(db.missions, r.result.value, MissionKey))
  {
    match GetMission(db, missionId)
    case None => Step(None, db)
    case Some(mission) =>
      if GetSpyCat(db, catId).None? || HasActiveMission(db.missions, catId) then Step(None, db)
      else
        var reassigned := mission.(catId := Some(catId));
        Step(Some(reassigned), db.(missions := ReplaceByKey(db.missions, reassigned, MissionKey)))

  }

  /** Deletes an unassigned mission together with its targets (the
      delete-orphan cascade); refuses any other. */
  function DeleteMission(db: Db, missionId: int): (r: Step<bool>)
    ensures r.result <==> GetMission(db, missionId).Some? && GetMission(db, missionId).value.catId.None?
    ensures !r.result ==> r.db == db
    ensures r.result ==> forall m :: m in r.db.missions <==> m in db.missions && m.id != missionId
    ensures r.result ==> forall t :: t in r.db.targets <==> t in db.targets && t.missionId != missionId
    ensures r.db.cats == db.cats
  {
    match GetMission(db, missionId)
    case Some(mission) =>
      if mission.catId.None? then
        Step(true, db.(
          missions := Filter(db.missions, (m: Mission) => m.id != missionId),
          targets := Filter(db.targets, (t: Target) => t.missionId != missionId)))
      else Step(false, db)
    case None => Step(false, db)
  }

  /** Recomputes `complete` of mission `missionId` as "all its targets are complete". */
  function UpdateMissionCompletion(db: Db, missionId: int): (r: Step<Option<Mission>>)
    ensures r.result.None? <==> GetMission(db, missionId).None?
    ensures r.result.None? ==> r.db == db
    ensures r.result.Some? ==>
      && r.result.value.id == missionId
      && r.result.value.catId == GetMission(db, missionId).value.catId
      && (r.result.value.complete <==> forall t :: t in db.targets && t.missionId == missionId ==> t.complete)
      && r.db == db.(missions := ReplaceByKey(db.missions, r.result.value, MissionKey))
  {
    match GetMission(db, missionId)
    case None => Step(None, db)
    case Some(mission) =>
      var updated := mission.(complete := AllTargetsComplete(db.targets, missionId));
      Step(Some(updated), db.(missions := ReplaceByKey(db.missions, updated, MissionKey)))
  }

  // ---------------------------------------------------------------------
  // Targets
  // ---------------------------------------------------------------------

  function GetTarget(db: Db, targetId: int): (r: Option<Target>)
    ensures r.Some? <==> exists t :: t in db.targets && t.id == targetId
    ensures r.Some? ==> r.value in db.targets && r.value.id == targetId
  {
    FindTarget(db.targets, targetId)
  }

  /** Writes the fields of `u` that are present into `t`. */
  function ApplyTargetUpdate(t: Target, u: TargetUpdate): (r: Target)
    ensures r.id == t.id && r.missionId == t.missionId && r.name == t.name && r.country == t.country
    ensures r.notes == (if u.notes.Some? then u.notes.value else t.notes)
    ensures r.complete == (if u.complete.Some? then u.complete.value else t.complete)
  {
    var withNotes := if u.notes.Some? then t.(notes := u.notes.value) else t;
    if u.complete.Some? then withNotes.(complete := u.complete.value) else withNotes
  }

  /** Updates a target, then recomputes its mission's completion. Refused
      (`None`, nothing changes) for a missing target, a complete target, or a
      target whose mission is complete. */
  function UpdateTarget(db: Db, targetId: int, u: TargetUpdate): (r: Step<Option<Target>>)
    requires TargetsReferenceMissions(db)
    ensures GetTarget(db, targetId).Some? ==> GetMission(db, GetTarget(db, targetId).value.missionId).Some?
    ensures r.result.None? <==>
      || GetTarget(db, targetId).None?
      || GetTarget(db, targetId).value.complete
      || GetMission(db, GetTarget(db, targetId).value.missionId).value.complete
    ensures r.result.None? ==> r.db == db
    ensures r.result.Some? ==>
      var before := GetTarget(db, targetId).value;
      var mission := GetMission(db, before.missionId).value;
      var written := ReplaceByKey(db.targets, r.result.value, TargetKey);
      && r.result.value == ApplyTargetUpdate(before, u)
      && r.db.cats == db.cats
      && r.db.targets == written
      && r.db.missions == ReplaceByKey(db.missions, mission.(complete := AllTargetsComplete(written, mission.id)), MissionKey)
  {
    match GetTarget(db, targetId)
    case None => Step(None, db)
    case Some(target) =>
      assert target.missionId in ReferencedMissionIds(db.targets);
      var mission := GetMission(db, target.missionId).value;
      if target.complete || mission.complete then Step(None, db)
      else
        var updated := ApplyTargetUpdate(target, u);
        var written := db.(targets := ReplaceByKey(db.targets, updated, TargetKey));
        assert GetMission(written, target.missionId) == Some(mission);
        var completion := UpdateMissionCompletion(written, target.missionId);
        assert completion.result == Some(mission.(complete := AllTargetsComplete(written.targets, mission.id)));
        Step(Some(updated), completion.db)
  }
}
