/** The three database tables of the backend (spy cats, missions, targets),
    their column defaults, and the integrity facts the store keeps. */
module Models {
  import opened Base

  /** A row of `spy_cats`; all four data columns are non-nullable. */
  datatype SpyCat = SpyCat(id: int, name: string, yearsOfExperience: int, breed: string, salary: real)

  /** A row of `missions`; `catId` is the nullable foreign key to `spy_cats`. */
  datatype Mission = Mission(id: int, catId: Option<int>, complete: bool)

  /** A row of `targets`; `missionId` is the non-nullable foreign key to `missions`. */
  datatype Target = Target(id: int, missionId: int, name: string, country: string, notes: string, complete: bool)

  /** The whole database. Each table is kept in insertion order; the
      `next*` counters stand for the primary-key sequences. */
  datatype Db = Db(
    cats: seq<SpyCat>, missions: seq<Mission>, targets: seq<Target>,
    nextCatId: int, nextMissionId: int, nextTargetId: int)

  /** The freshly created, empty database. */
  const EmptyDb: Db := Db([], [], [], 1, 1, 1)

  /** A mission row as inserted: no cat, `complete` at its column default. */
  function NewMission(id: int): (m: Mission)
    ensures m.id == id && m.catId == None && !m.complete
  {
    Mission(id, None, false)
  }

  /** A target row as inserted: `complete` at its column default. */
  function NewTarget(id: int, missionId: int, name: string, country: string, notes: string): (t: Target)
    ensures t.id == id && t.missionId == missionId && !t.complete
    ensures t.name == name && t.country == country && t.notes == notes
  {
    Target(id, missionId, name, country, notes, false)
  }

  /** The targets of mission `missionId` (the `Mission.targets` relationship). */
  function TargetsOf(targets: seq<Target>, missionId: int): (r: seq<Target>)
    ensures forall t :: t in r <==> t in targets && t.missionId == missionId
  {
    Filter(targets, (t: Target) => t.missionId == missionId)
  }

  /** Whether every target of mission `missionId` is complete (vacuously true without targets). */
  predicate AllTargetsComplete(targets: seq<Target>, missionId: int)
  {
    forall t :: t in targets && t.missionId == missionId ==> t.complete
  }

  // ---------------------------------------------------------------------
  // Integrity of the store
  // ---------------------------------------------------------------------

  /** The primary keys of the mission and target rows. */
  function MissionKey(m: Mission): int { m.id }
  function TargetKey(t: Target): int { t.id }

  predicate CatIdsDiffer(a: SpyCat, b: SpyCat) { a.id != b.id }
  predicate MissionIdsDiffer(a: Mission, b: Mission) { a.id != b.id }
  predicate TargetIdsDiffer(a: Target, b: Target) { a.id != b.id }

  /** Primary keys are unique within each table. */
  predicate UniqueCatIds(cats: seq<SpyCat>) { Pairwise(cats, CatIdsDiffer) }
  predicate UniqueMissionIds(missions: seq<Mission>) { Pairwise(missions, MissionIdsDiffer) }
  predicate UniqueTargetIds(targets: seq<Target>) { Pairwise(targets, TargetIdsDiffer) }

  /** Every primary key issued so far lies below its table's counter. */
  predicate IdsBelowCounters(db: Db)
  {
    && (forall c :: c in db.cats ==> c.id < db.nextCatId)
    && (forall m :: m in db.missions ==> m.id < db.nextMissionId)
    && (forall t :: t in db.targets ==> t.id < db.nextTargetId)
  }

  /** The keys of the mission table. */
  function MissionIds(missions: seq<Mission>): set<int>
  {
    set m | m in missions :: m.id
  }

  /** The mission keys that some target refers to. */
  function ReferencedMissionIds(targets: seq<Target>): set<int>
  {
    set t | t in targets :: t.missionId
  }

  /** The non-nullable `targets.mission_id` foreign key: every target's mission exists. */
  predicate TargetsReferenceMissions(db: Db)
  {
    ReferencedMissionIds(db.targets) <= MissionIds(db.missions)
  }

  /** The keys of the cat table. */
  function CatIds(cats: seq<SpyCat>): set<int>
  {
    set c | c in cats :: c.id
  }

  /** The cat keys that some mission is assigned to. */
  function AssignedCatIds(missions: seq<Mission>): set<int>
  {
    set m | m in missions && m.catId.Some? :: m.catId.value
  }

  /** The nullable `missions.cat_id` foreign key: an assigned cat exists. */
  predicate MissionsReferenceCats(db: Db)
  {
    AssignedCatIds(db.missions) <= CatIds(db.cats)
  }

  /** Keys are unique, below their counters, and targets point at live missions. */
  predicate WellFormed(db: Db)
  {
    && UniqueCatIds(db.cats)
    && UniqueMissionIds(db.missions)
    && UniqueTargetIds(db.targets)
    && IdsBelowCounters(db)
    && TargetsReferenceMissions(db)
  }

  /** Two missions are not both incomplete and assigned to the same cat id. */
  predicate NotBothActiveForOneCat(a: Mission, b: Mission)
  {
    !(a.catId.Some? && a.catId == b.catId && !a.complete && !b.complete)
  }

  /** A cat id may hold at most one incomplete mission. Stated for every id,
      including ids of cats that no longer exist. */
  predicate AtMostOneActiveMission(missions: seq<Mission>)
  {
    Pairwise(missions, NotBothActiveForOneCat)
  }

  /** Every mission has at least one target. */
  predicate MissionsHaveTargets(db: Db)
  {
    MissionIds(db.missions) <= ReferencedMissionIds(db.targets)
  }

  /** A mission is complete exactly when all of its targets are. */
  predicate CompletionConsistent(db: Db)
  {
    forall m :: m in db.missions ==> (m.complete <==> AllTargetsComplete(db.targets, m.id))
  }

  /** The business invariant of the store. */
  predicate Invariant(db: Db)
  {
    && WellFormed(db)
    && MissionsReferenceCats(db)
    && AtMostOneActiveMission(db.missions)
    && MissionsHaveTargets(db)
    && CompletionConsistent(db)
  }

  /** No completed mission or target of `before` is incomplete in `after`. */
  predicate CompletionKept(before: Db, after: Db)
  {
    && (forall m, m' :: m in before.missions && m' in after.missions && m.id == m'.id && m.complete ==> m'.complete)
    && (forall t, t' :: t in before.targets && t' in after.targets && t.id == t'.id && t.complete ==> t'.complete)
  }

}
