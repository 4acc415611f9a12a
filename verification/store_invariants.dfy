/** The store's business rules as invariants: every mutating operation keeps
    `Models.Invariant` and never reverts a completed mission or target. */
module StoreInvariants {
  import opened Base
  import opened Models
  import opened Schemas
  import opened Crud

  // ---------------------------------------------------------------------
  // Reading the invariant
  // ---------------------------------------------------------------------

  /** For any cat id, two incomplete missions assigned to it are the same row. */
  lemma ActiveMissionUnique(missions: seq<Mission>, catId: int, i: int, j: int)
    requires AtMostOneActiveMission(missions)
    requires 0 <= i < |missions| && 0 <= j < |missions|
    requires missions[i].catId == Some(catId) && missions[j].catId == Some(catId)
    requires !missions[i].complete && !missions[j].complete
    ensures i == j
  {
  }

  lemma SameMission(missions: seq<Mission>, a: Mission, b: Mission)
    requires UniqueMissionIds(missions) && a in missions && b in missions && a.id == b.id
    ensures a == b
  {
  }

  lemma SameTarget(targets: seq<Target>, a: Target, b: Target)
    requires UniqueTargetIds(targets) && a in targets && b in targets && a.id == b.id
    ensures a == b
  {
  }

  /** Under the invariant, recomputing a mission's completion changes nothing. */
  lemma UpdateMissionCompletionIsIdle(db: Db, missionId: int)
    requires Invariant(db)
    ensures UpdateMissionCompletion(db, missionId).db == db
  {
  }

  // ---------------------------------------------------------------------
  // Spy-cat operations
  // ---------------------------------------------------------------------

  lemma CreateSpyCatKeepsInvariant(db: Db, c: SpyCatCreate)
    requires Invariant(db)
    ensures Invariant(CreateSpyCat(db, c).db)
    ensures CompletionKept(db, CreateSpyCat(db, c).db)
  {
  }

  lemma UpdateSpyCatKeepsInvariant(db: Db, catId: int, u: SpyCatUpdate)
    requires Invariant(db)
    ensures Invariant(UpdateSpyCat(db, catId, u).db)
    ensures CompletionKept(db, UpdateSpyCat(db, catId, u).db)
  {
  }

  lemma DeleteSpyCatKeepsInvariant(db: Db, catId: int)
    requires Invariant(db)
    ensures Invariant(DeleteSpyCat(db, catId).db)
    ensures CompletionKept(db, DeleteSpyCat(db, catId).db)
  {
    var r := DeleteSpyCat(db, catId);
    if r.result {
      var ms := r.db.missions;
      FilterPairwise(db.cats, CatIdsDiffer, (c: SpyCat) => c.id != catId);
      forall i, j | 0 <= i < j < |ms| ensures MissionIdsDiffer(ms[i], ms[j]) && NotBothActiveForOneCat(ms[i], ms[j]) {
        assert MissionIdsDiffer(db.missions[i], db.missions[j]);
        assert NotBothActiveForOneCat(db.missions[i], db.missions[j]);
      }
      MissionIdsPointwise(ms, db.missions);
      ReleaseCatKeepsRows(db, catId);
      forall x, x' | x in db.missions && x' in ms && x.id == x'.id && x.complete ensures x'.complete {
        var i :| 0 <= i < |ms| && ms[i] == x';
        assert db.missions[i] in db.missions;
        SameMission(db.missions, x, db.missions[i]);
      }
    }
  }

  /** Releasing a deleted cat's missions keeps every other column of each
      mission, and leaves no mission assigned to a missing cat. */
  lemma ReleaseCatKeepsRows(db: Db, catId: int)
    requires Invariant(db) && GetSpyCat(db, catId).Some?
    ensures var r := DeleteSpyCat(db, catId);
      forall x :: x in r.db.missions ==>
        && x.id < db.nextMissionId
        && (x.complete <==> AllTargetsComplete(db.targets, x.id))
        && (x.catId.Some? ==> x.catId.value in CatIds(r.db.cats))
  {
    var r := DeleteSpyCat(db, catId);
    var ms := r.db.missions;
    forall x | x in ms
      ensures x.id < db.nextMissionId
      ensures x.complete <==> AllTargetsComplete(db.targets, x.id)
      ensures x.catId.Some? ==> x.catId.value in CatIds(r.db.cats)
    {
      var i :| 0 <= i < |ms| && ms[i] == x;
      var m := db.missions[i];
      assert m in db.missions;
      if x.catId.Some? {
        assert m.catId == x.catId && x.catId != Some(catId);
        assert x.catId.value in AssignedCatIds(db.missions);
        var c :| c in db.cats && c.id == x.catId.value;
        assert c in r.db.cats;
      }
    }
  }

  // ---------------------------------------------------------------------
  // Missions
  // ---------------------------------------------------------------------

  /** The new targets of a mission carry increasing fresh keys. */
  lemma NewTargetsUnique(db: Db, missionId: int, ts: seq<TargetCreate>)
    requires IdsBelowCounters(db) && UniqueTargetIds(db.targets)
    ensures UniqueTargetIds(db.targets + NewTargets(db, missionId, ts))
  {
  }

  /** Creating a mission with at least one target keeps the invariant; the
      schema's 1..3 rule supplies that target. */
  lemma CreateMissionKeepsInvariant(db: Db, mc: MissionCreate)
    requires Invariant(db)
    requires MissionCreateErrors(mc) == []
    ensures Invariant(CreateMission(db, mc).db)
    ensures CompletionKept(db, CreateMission(db, mc).db)
  {
    var r := CreateMission(db, mc);
    var m := r.result;
    var nt := NewTargets(db, m.id, mc.targets);
    assert r.db.targets == db.targets + nt;
    NewTargetsUnique(db, m.id, mc.targets);
    forall i | 0 <= i < |db.missions| ensures MissionIdsDiffer(db.missions[i], m) && NotBothActiveForOneCat(db.missions[i], m) {
      assert db.missions[i] in db.missions;
    }
    PairwiseAppend(db.missions, m, MissionIdsDiffer);
    PairwiseAppend(db.missions, m, NotBothActiveForOneCat);
    // no new target belongs to an existing mission
    forall t | t in nt ensures t.missionId == m.id && !t.complete && t.id >= db.nextTargetId {
      var k :| 0 <= k < |nt| && nt[k] == t;
    }
    assert nt[0] in r.db.targets;
    assert AssignedCatIds(r.db.missions) == AssignedCatIds(db.missions);
    forall x | x in MissionIds(r.db.missions) ensures x in ReferencedMissionIds(r.db.targets) {
      var y :| y in r.db.missions && y.id == x;
      if y == m {
        assert nt[0].missionId == x;
      } else {
        assert x in MissionIds(db.missions);
        var t :| t in db.targets && t.missionId == x;
        assert t in r.db.targets;
      }
    }
    forall x | x in ReferencedMissionIds(r.db.targets) ensures x in MissionIds(r.db.missions) {
      var t :| t in r.db.targets && t.missionId == x;
      if t in db.targets {
        assert x in ReferencedMissionIds(db.targets);
        var y :| y in db.missions && y.id == x;
        assert y in r.db.missions;
      } else {
        assert m in r.db.missions;
      }
    }
    forall x | x in r.db.missions
      ensures x.complete <==> AllTargetsComplete(r.db.targets, x.id)
    {
      if x == m {
        assert nt[0].missionId == x.id && !nt[0].complete;
      } else {
        assert x in db.missions;
      }
    }
    forall x, x' | x in db.missions && x' in r.db.missions && x.id == x'.id && x.complete
      ensures x'.complete
    {
      if x' != m { SameMission(db.missions, x, x'); }
    }
    forall t, t' | t in db.targets && t' in r.db.targets && t.id == t'.id && t.complete
      ensures t'.complete
    {
      if t' in db.targets { SameTarget(db.targets, t, t'); }
    }
  }

  /** Rewriting rows without touching their keys keeps the key set. */
  lemma MissionIdsPointwise(a: seq<Mission>, b: seq<Mission>)
    requires |a| == |b| && forall i :: 0 <= i < |a| ==> a[i].id == b[i].id
    ensures MissionIds(a) == MissionIds(b)
  {
  }

  /** `after` is `missions` with the row `before` rewritten to `row`. */
  predicate MissionRewritten(missions: seq<Mission>, after: seq<Mission>, before: Mission, row: Mission)
  {
    |after| == |missions| &&
    forall i :: 0 <= i < |missions| ==> after[i] == (if missions[i] == before then row else missions[i])
  }

  /** `after` is `targets` with the row `before` rewritten to `row`. */
  predicate TargetRewritten(targets: seq<Target>, after: seq<Target>, before: Target, row: Target)
  {
    |after| == |targets| &&
    forall i :: 0 <= i < |targets| ==> after[i] == (if targets[i] == before then row else targets[i])
  }

  /** Under unique keys, replacing a row by its key rewrites exactly that row. */
  lemma ReplaceMissionRewrites(missions: seq<Mission>, before: Mission, row: Mission)
    requires UniqueMissionIds(missions) && before in missions && row.id == before.id
    ensures MissionRewritten(missions, ReplaceByKey(missions, row, MissionKey), before, row)
  {
  }

  lemma ReplaceTargetRewrites(targets: seq<Target>, before: Target, row: Target)
    requires UniqueTargetIds(targets) && before in targets && row.id == before.id
    ensures TargetRewritten(targets, ReplaceByKey(targets, row, TargetKey), before, row)
  {
  }

  /** Rewriting a mission row without changing its key keeps the keys. */
  lemma MissionRewriteKeys(missions: seq<Mission>, after: seq<Mission>, before: Mission, row: Mission)
    requires MissionRewritten(missions, after, before, row) && row.id == before.id
    requires UniqueMissionIds(missions)
    ensures UniqueMissionIds(after)
    ensures MissionIds(after) == MissionIds(missions)
    ensures forall x :: x in after ==> x == row || x in missions
  {
  }

  lemma TargetRewriteKeys(targets: seq<Target>, after: seq<Target>, before: Target, row: Target)
    requires TargetRewritten(targets, after, before, row) && row.id == before.id && row.missionId == before.missionId
    requires UniqueTargetIds(targets)
    ensures UniqueTargetIds(after)
    ensures ReferencedMissionIds(after) == ReferencedMissionIds(targets)
    ensures forall x :: x in after ==> x == row || x in targets
  {
  }

  /** Assigning a cat with no active mission keeps "at most one active mission per cat". */
  lemma AssignKeepsOneActive(missions: seq<Mission>, after: seq<Mission>, before: Mission, catId: int)
    requires MissionRewritten(missions, after, before, before.(catId := Some(catId)))
    requires AtMostOneActiveMission(missions) && !HasActiveMission(missions, catId)
    requires UniqueMissionIds(missions)
    ensures AtMostOneActiveMission(after)
  {
  }

  lemma AssignCatToMissionKeepsInvariant(db: Db, missionId: int, catId: int)
    requires Invariant(db)
    ensures Invariant(AssignCatToMission(db, missionId, catId).db)
    ensures CompletionKept(db, AssignCatToMission(db, missionId, catId).db)
  {
    var r := AssignCatToMission(db, missionId, catId);
    if r.result.Some? {
      var before := GetMission(db, missionId).value;
      var row := r.result.value;
      var ms := r.db.missions;
      ReplaceMissionRewrites(db.missions, before, row);
      MissionRewriteKeys(db.missions, ms, before, row);
      AssignKeepsOneActive(db.missions, ms, before, catId);
      forall x | x in AssignedCatIds(ms) ensures x in CatIds(db.cats) {
        var y :| y in ms && y.catId == Some(x);
        if y != row { assert y in db.missions; } else { assert GetSpyCat(db, catId).value in db.cats; }
      }
      assert forall x :: x in ms ==> x.id < db.nextMissionId;
      assert CompletionConsistent(r.db);
      forall x, x' | x in db.missions && x' in ms && x.id == x'.id && x.complete ensures x'.complete {
        if x' != row { SameMission(db.missions, x, x'); } else { SameMission(db.missions, x, before); }
      }
    }
  }

  lemma DeleteMissionKeepsInvariant(db: Db, missionId: int)
    requires Invariant(db)
    ensures Invariant(DeleteMission(db, missionId).db)
    ensures CompletionKept(db, DeleteMission(db, missionId).db)
  {
    var r := DeleteMission(db, missionId);
    if r.result {
      FilterPairwise(db.missions, MissionIdsDiffer, (m: Mission) => m.id != missionId);
      FilterPairwise(db.missions, NotBothActiveForOneCat, (m: Mission) => m.id != missionId);
      FilterPairwise(db.targets, TargetIdsDiffer, (t: Target) => t.missionId != missionId);
      assert AssignedCatIds(r.db.missions) <= AssignedCatIds(db.missions);
      forall x | x in ReferencedMissionIds(r.db.targets) ensures x in MissionIds(r.db.missions) {
        var t :| t in r.db.targets && t.missionId == x;
        assert x in ReferencedMissionIds(db.targets);
        var y :| y in db.missions && y.id == x;
        assert y in r.db.missions;
      }
      forall x | x in MissionIds(r.db.missions) ensures x in ReferencedMissionIds(r.db.targets) {
        var y :| y in r.db.missions && y.id == x;
        assert x in MissionIds(db.missions);
        var t :| t in db.targets && t.missionId == x;
        assert t in r.db.targets;
      }
      forall x | x in r.db.missions
        ensures x.complete <==> AllTargetsComplete(r.db.targets, x.id)
      {
        assert x in db.missions;
      }
      forall x, x' | x in db.missions && x' in r.db.missions && x.id == x'.id && x.complete ensures x'.complete {
        SameMission(db.missions, x, x');
      }
      forall t, t' | t in db.targets && t' in r.db.targets && t.id == t'.id && t.complete ensures t'.complete {
        SameTarget(db.targets, t, t');
      }
    }
  }

  // ---------------------------------------------------------------------
  // Targets
  // ---------------------------------------------------------------------

  /** Writing an accepted target update touches only targets of its own mission. */
  lemma UpdateTargetOtherMissions(db: Db, before: Target, after: Target, missionId: int)
    requires WellFormed(db) && before in db.targets
    requires after.id == before.id && after.missionId == before.missionId
    requires missionId != before.missionId
    ensures AllTargetsComplete(ReplaceByKey(db.targets, after, TargetKey), missionId) <==> AllTargetsComplete(db.targets, missionId)
  {
  }

  /** Recomputing the completion of a mission whose target was just written. */
  lemma RecomputedCompletion(db: Db, missions: seq<Mission>, written: seq<Target>, before: Target, row: Target, mission: Mission)
    requires WellFormed(db) && CompletionConsistent(db) && AtMostOneActiveMission(db.missions)
    requires before in db.targets && mission in db.missions && mission.id == before.missionId && !mission.complete
    requires TargetRewritten(db.targets, written, before, row) && row.id == before.id && row.missionId == before.missionId
    requires MissionRewritten(db.missions, missions, mission, mission.(complete := AllTargetsComplete(written, mission.id)))
    ensures forall x :: x in missions ==> (x.complete <==> AllTargetsComplete(written, x.id))
    ensures AtMostOneActiveMission(missions)
  {
  }

  lemma UpdateTargetKeepsInvariant(db: Db, targetId: int, u: TargetUpdate)
    requires Invariant(db)
    ensures Invariant(UpdateTarget(db, targetId, u).db)
    ensures CompletionKept(db, UpdateTarget(db, targetId, u).db)
  {
    var r := UpdateTarget(db, targetId, u);
    if r.result.Some? {
      var before := GetTarget(db, targetId).value;
      var mission := GetMission(db, before.missionId).value;
      var row := r.result.value;
      var done := mission.(complete := AllTargetsComplete(r.db.targets, mission.id));
      ReplaceTargetRewrites(db.targets, before, row);
      ReplaceMissionRewrites(db.missions, mission, done);
      UpdateTargetRewrites(db, r.db, before, row, mission, done);
    }
  }

  /** The invariant and completion facts of a target update, stated on the rewritten tables. */
  lemma UpdateTargetRewrites(db: Db, db': Db, before: Target, row: Target, mission: Mission, done: Mission)
    requires Invariant(db)
    requires before in db.targets && mission in db.missions && mission.id == before.missionId
    requires !before.complete && !mission.complete
    requires row.id == before.id && row.missionId == before.missionId
    requires done == mission.(complete := AllTargetsComplete(db'.targets, mission.id))
    requires TargetRewritten(db.targets, db'.targets, before, row)
    requires MissionRewritten(db.missions, db'.missions, mission, done)
    requires db' == db.(targets := db'.targets, missions := db'.missions)
    ensures Invariant(db')
    ensures CompletionKept(db, db')
  {
    TargetRewriteKeys(db.targets, db'.targets, before, row);
    MissionRewriteKeys(db.missions, db'.missions, mission, done);
    RecomputedCompletion(db, db'.missions, db'.targets, before, row, mission);
    forall x | x in AssignedCatIds(db'.missions) ensures x in AssignedCatIds(db.missions) {
      var y :| y in db'.missions && y.catId == Some(x);
      if y == done { assert mission.catId == Some(x); } else { assert y in db.missions; }
    }
    forall x, x' | x in db.missions && x' in db'.missions && x.id == x'.id && x.complete ensures x'.complete {
      if x' != done { SameMission(db.missions, x, x'); }
    }
    forall t, t' | t in db.targets && t' in db'.targets && t.id == t'.id && t.complete ensures t'.complete {
      if t' != row { SameTarget(db.targets, t, t'); } else { SameTarget(db.targets, t, before); }
    }
  }

  // ---------------------------------------------------------------------
  // Behaviour of the mission rules on particular inputs
  // ---------------------------------------------------------------------

  /** A mission that belongs to another cat is handed over without complaint,
      and a completed mission may still be assigned. */
  lemma AssignOverridesOwnerAndCompletion(db: Db, missionId: int, catId: int)
    requires GetMission(db, missionId).Some? && GetSpyCat(db, catId).Some?
    requires !HasActiveMission(db.missions, catId)
    ensures AssignCatToMission(db, missionId, catId).result == Some(GetMission(db, missionId).value.(catId := Some(catId)))
  {
  }

  /** Assigning a cat to the incomplete mission it already holds is refused. */
  lemma ReassigningOwnActiveMissionFails(db: Db, missionId: int, catId: int)
    requires GetMission(db, missionId).Some?
    requires GetMission(db, missionId).value.catId == Some(catId) && !GetMission(db, missionId).value.complete
    ensures AssignCatToMission(db, missionId, catId).result.None?
    ensures AssignCatToMission(db, missionId, catId).db == db
  {
  }

  /** Without the schema's lower bound the store would break: a mission created
      with no targets is incomplete although all of its (zero) targets are complete. */
  lemma EmptyMissionBreaksCompletion(db: Db)
    requires WellFormed(db)
    ensures !CompletionConsistent(CreateMission(db, MissionCreate([])).db)
  {
    var r := CreateMission(db, MissionCreate([]));
    var m := r.result;
    assert r.db.targets == db.targets;
    forall t | t in r.db.targets ensures t.missionId != m.id {
      assert t.missionId in ReferencedMissionIds(db.targets);
      var y :| y in db.missions && y.id == t.missionId;
    }
    assert m in r.db.missions;
  }

  /** A target update with neither field present rewrites nothing in the row. */
  lemma EmptyTargetUpdateKeepsRow(t: Target)
    ensures ApplyTargetUpdate(t, ParseTargetUpdate(None, None)) == t
  {
  }
}
