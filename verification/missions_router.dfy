/** The `/missions` endpoints: each turns a store outcome into a status and a body. */
module MissionsRouter {
  import opened Base
  import opened Models
  import opened Schemas
  import opened Crud
  import opened Http

  const MissionNotFound: string := "Mission not found"
  const TargetNotFound: string := "Target not found"
  const CannotAssign: string := "Cannot assign cat to mission. Cat may already have an active mission or mission/cat not found."
  const CannotDelete: string := "Cannot delete mission. Mission may be assigned to a cat or not found."
  const CannotUpdateTarget: string := "Cannot update target. Target may be completed, mission may be completed, or target not found."

  /** A mission as serialised: the row, its cat (if any, and if it still exists) and its targets. */
  datatype MissionView = MissionView(mission: Mission, cat: Option<SpyCat>, targets: seq<Target>)

  /** The serialised mission. An absent cat is shown only for an unassigned
      mission or a dangling key; `AssignedMissionShowsItsCat` gives the
      converse for a consistent store. */
  function View(db: Db, m: Mission): (v: MissionView)
    ensures v.mission == m
    ensures forall t :: t in v.targets <==> t in db.targets && t.missionId == m.id
    ensures m.catId.None? ==> v.cat.None?
    ensures v.cat.Some? ==> v.cat.value in db.cats && Some(v.cat.value.id) == m.catId
  {
    MissionView(m, if m.catId.Some? then GetSpyCat(db, m.catId.value) else None, TargetsOf(db.targets, m.id))
  }

  /** In a consistent store an assigned mission is always shown with its cat. */
  lemma AssignedMissionShowsItsCat(db: Db, m: Mission)
    requires MissionsReferenceCats(db) && m in db.missions && m.catId.Some?
    ensures View(db, m).cat.Some? && View(db, m).cat.value.id == m.catId.value
  {
    assert m.catId.value in AssignedCatIds(db.missions);
  }

  /** `POST /missions/`: body validation (422), then the insert (201). */
  function CreateMissionRoute(db: Db, body: MissionCreate): (x: Exchange<MissionView>)
    ensures !(1 <= |body.targets| <= 3) ==>
      x == Exchange(Reply(UNPROCESSABLE, Invalid([TargetsCountMessage])), db)
    ensures 1 <= |body.targets| <= 3 ==>
      var step := CreateMission(db, body);
      x == Exchange(Reply(CREATED, Json(View(step.db, step.result))), step.db)
  {
    var errs := MissionCreateErrors(body);
    if errs != [] then Exchange(Reply(UNPROCESSABLE, Invalid(errs)), db)
    else
      var step := CreateMission(db, body);
      Exchange(Reply(CREATED, Json(View(step.db, step.result))), step.db)
  }

  /** `GET /missions/?skip=&limit=`. */
  function ReadMissionsRoute(db: Db, skip: nat := 0, limit: nat := 100): (reply: Reply<seq<MissionView>>)
    ensures reply.status == OK && reply.payload.Json?
    ensures |reply.payload.value| == |GetMissions(db, skip, limit)|
    ensures forall i :: 0 <= i < |reply.payload.value| ==>
      skip + i < |db.missions| && reply.payload.value[i] == View(db, db.missions[skip + i])
  {
    var ms := GetMissions(db, skip, limit);
    Reply(OK, Json(seq(|ms|, i requires 0 <= i < |ms| => View(db, ms[i]))))
  }

  /** `GET /missions/{id}`. */
  function ReadMissionRoute(db: Db, missionId: int): (reply: Reply<MissionView>)
    ensures reply.status == NOT_FOUND <==> forall m :: m in db.missions ==> m.id != missionId
    ensures reply.status == NOT_FOUND ==> reply.payload == Detail(MissionNotFound)
    ensures reply.status != NOT_FOUND ==>
      reply.status == OK && reply.payload.Json? && reply.payload.value.mission in db.missions
      && reply.payload.value.mission.id == missionId
    ensures reply.status != NOT_FOUND ==> reply.payload == Json(View(db, GetMission(db, missionId).value))
  {
    match GetMission(db, missionId)
    case None => Reply(NOT_FOUND, Detail(MissionNotFound))
    case Some(m) => Reply(OK, Json(View(db, m)))
  }

  /** `PUT /missions/{id}/assign`: every refusal is the same 400. */
  function AssignCatToMissionRoute(db: Db, missionId: int, catId: int): (x: Exchange<MissionView>)
    ensures x.reply.status == OK <==> AssignCatToMission(db, missionId, catId).result.Some?
    ensures x.reply.status != OK ==> x == Exchange(Reply(BAD_REQUEST, Detail(CannotAssign)), db)
    ensures x.reply.status == OK ==>
      && x.db == AssignCatToMission(db, missionId, catId).db
      && x.reply.payload.Json? && x.reply.payload.value.mission.catId == Some(catId)
    ensures x.reply.status == OK ==>
      x.reply.payload == Json(View(x.db, AssignCatToMission(db, missionId, catId).result.value))
  {
    var step := AssignCatToMission(db, missionId, catId);
    match step.result
    case None => Exchange(Reply(BAD_REQUEST, Detail(CannotAssign)), db)
    case Some(m) => Exchange(Reply(OK, Json(View(step.db, m))), step.db)
  }

  /** `DELETE /missions/{id}`: a missing or assigned mission is a 400, not a 404. */
  function DeleteMissionRoute(db: Db, missionId: int): (x: Exchange<()>)
    ensures x.reply.status == NO_CONTENT <==>
      GetMission(db, missionId).Some? && GetMission(db, missionId).value.catId.None?
    ensures x.reply.status == NO_CONTENT ==> x.reply.payload == Empty && x.db == DeleteMission(db, missionId).db
    ensures x.reply.status != NO_CONTENT ==> x == Exchange(Reply(BAD_REQUEST, Detail(CannotDelete)), db)
  {
    var step := DeleteMission(db, missionId);
    if step.result then Exchange(Reply(NO_CONTENT, Empty), step.db)
    else Exchange(Reply(BAD_REQUEST, Detail(CannotDelete)), db)
  }

  /** `PUT /missions/targets/{id}`: every refusal is the same 400. */
  function UpdateTargetRoute(db: Db, targetId: int, body: TargetUpdate): (x: Exchange<Target>)
    requires TargetsReferenceMissions(db)
    ensures x.reply.status == OK <==> UpdateTarget(db, targetId, body).result.Some?
    ensures x.reply.status != OK ==> x == Exchange(Reply(BAD_REQUEST, Detail(CannotUpdateTarget)), db)
    ensures x.reply.status == OK ==>
      && x.db == UpdateTarget(db, targetId, body).db
      && x.reply.payload == Json(UpdateTarget(db, targetId, body).result.value)
  {
    var step := UpdateTarget(db, targetId, body);
    match step.result
    case None => Exchange(Reply(BAD_REQUEST, Detail(CannotUpdateTarget)), db)
    case Some(t) => Exchange(Reply(OK, Json(t)), step.db)
  }

  /** `GET /missions/targets/{id}`. */
  function ReadTargetRoute(db: Db, targetId: int): (reply: Reply<Target>)
    ensures reply.status == NOT_FOUND <==> forall t :: t in db.targets ==> t.id != targetId
    ensures reply.status == NOT_FOUND ==> reply.payload == Detail(TargetNotFound)
    ensures reply.status != NOT_FOUND ==>
      reply.status == OK && reply.payload.Json? && reply.payload.value in db.targets && reply.payload.value.id == targetId
  {
    match GetTarget(db, targetId)
    case None => Reply(NOT_FOUND, Detail(TargetNotFound))
    case Some(t) => Reply(OK, Json(t))
  }
}
