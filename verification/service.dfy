/** The backend as a whole: any request to either router, applied to the
    database in turn. Every sequence of requests from the empty database
    keeps the store invariant. */
module Service {
  import opened Base
  import opened Models
  import opened Schemas
  import opened Crud
  import opened Http
  import opened ExternalServices
  import opened SpyCatsRouter
  import opened MissionsRouter
  import StoreInvariants

  /** The state-changing requests; the breed fetch of a create is part of the request. */
  datatype Request =
    | CreateCat(body: SpyCatCreate, fetch: BreedFetch)
    | UpdateCat(catId: int, update: SpyCatUpdate)
    | DeleteCat(catId: int)
    | CreateMissionRequest(mission: MissionCreate)
    | AssignCat(missionId: int, assignee: int)
    | DeleteMissionRequest(missionId: int)
    | UpdateTargetRequest(targetId: int, targetUpdate: TargetUpdate)

  /** The status a request is answered with and the database it leaves. */
  function Handle(db: Db, req: Request): (x: Exchange<()>)
    requires TargetsReferenceMissions(db)
  {
    match req
    case CreateCat(body, fetch) =>
      var e := CreateSpyCatRoute(db, body, fetch); Exchange(Reply(e.reply.status, Empty), e.db)
    case UpdateCat(catId, update) =>
      var e := UpdateSpyCatRoute(db, catId, update); Exchange(Reply(e.reply.status, Empty), e.db)
    case DeleteCat(catId) => DeleteSpyCatRoute(db, catId)
    case CreateMissionRequest(mission) =>
      var e := CreateMissionRoute(db, mission); Exchange(Reply(e.reply.status, Empty), e.db)
    case AssignCat(missionId, assignee) =>
      var e := AssignCatToMissionRoute(db, missionId, assignee); Exchange(Reply(e.reply.status, Empty), e.db)
    case DeleteMissionRequest(missionId) => DeleteMissionRoute(db, missionId)
    case UpdateTargetRequest(targetId, targetUpdate) =>
      var e := UpdateTargetRoute(db, targetId, targetUpdate); Exchange(Reply(e.reply.status, Empty), e.db)
  }

  /** Every request keeps the invariant and never reverts a completion. */
  lemma HandleKeepsInvariant(db: Db, req: Request)
    requires Invariant(db)
    ensures Invariant(Handle(db, req).db)
    ensures CompletionKept(db, Handle(db, req).db)
  {
    match req
    case CreateCat(body, fetch) => StoreInvariants.CreateSpyCatKeepsInvariant(db, body);
    case UpdateCat(catId, update) => StoreInvariants.UpdateSpyCatKeepsInvariant(db, catId, update);
    case DeleteCat(catId) => StoreInvariants.DeleteSpyCatKeepsInvariant(db, catId);
    case CreateMissionRequest(mission) =>
      if MissionCreateErrors(mission) == [] { StoreInvariants.CreateMissionKeepsInvariant(db, mission); }
    case AssignCat(missionId, assignee) => StoreInvariants.AssignCatToMissionKeepsInvariant(db, missionId, assignee);
    case DeleteMissionRequest(missionId) => StoreInvariants.DeleteMissionKeepsInvariant(db, missionId);
    case UpdateTargetRequest(targetId, targetUpdate) => StoreInvariants.UpdateTargetKeepsInvariant(db, targetId, targetUpdate);
  }

  /** The database after serving `reqs` in order, starting from `db`. */
  function Run(db: Db, reqs: seq<Request>): (r: Db)
    requires Invariant(db)
    ensures Invariant(r)
    decreases |reqs|
  {
    if reqs == [] then db
    else
      HandleKeepsInvariant(db, reqs[0]);
      Run(Handle(db, reqs[0]).db, reqs[1..])
  }

  /** Whatever requests arrive, a fresh database ends up satisfying the invariant:
      at most one incomplete mission per cat id, and every mission complete
      exactly when all of its targets are. */
  lemma ServedDatabasesKeepInvariant(reqs: seq<Request>)
    ensures Invariant(Run(EmptyDb, reqs))
    ensures AtMostOneActiveMission(Run(EmptyDb, reqs).missions)
    ensures forall m :: m in Run(EmptyDb, reqs).missions ==>
      (m.complete <==> AllTargetsComplete(Run(EmptyDb, reqs).targets, m.id))
  {
  }
}
