/** The request handlers of the farm survey API over an in-memory store.
    Each handler is one atomic step on the two tables. Request bodies are
    validated before a handler looks anything up, as the web framework does;
    HTTP statuses become the constructors of Error (422 Validation,
    404 NotFound, 409 Conflict). Clock readings are arguments. */
module Api {
  import opened Schemas
  import opened Models

  datatype Error = NotFound | Conflict | Validation

  datatype Result<T> = Ok(value: T) | Err(error: Error)

  /** How far, in microseconds, a client's last-seen timestamp may be from
      the stored one before an update counts as a conflict: one second. */
  const TOLERANCE: int := 1_000_000

  function Abs(x: int): int { if x < 0 then -x else x }

  /** The optimistic-concurrency test of a survey update. With no timestamp
      supplied there is no check; otherwise the update conflicts exactly when
      the supplied timestamp lies outside the closed one-second window around
      the stored last_updated. */
  function Conflicts(stored: int, lastSeen: Option<int>): (c: bool)
    ensures c <==> lastSeen.Some? && !(stored - TOLERANCE <= lastSeen.value <= stored + TOLERANCE)
  {
    lastSeen.Some? && Abs(stored - lastSeen.value) > TOLERANCE
  }

  /** The conflict test does not care which side is ahead. */
  lemma ConflictSymmetric(a: int, b: int)
    ensures Conflicts(a, Some(b)) == Conflicts(b, Some(a))
  {
  }

  /** Exactly one second apart still passes; one microsecond more conflicts. */
  lemma ConflictBoundary(stored: int)
    ensures !Conflicts(stored, None)
    ensures !Conflicts(stored, Some(stored))
    ensures !Conflicts(stored, Some(stored + TOLERANCE)) && !Conflicts(stored, Some(stored - TOLERANCE))
    ensures Conflicts(stored, Some(stored + TOLERANCE + 1)) && Conflicts(stored, Some(stored - TOLERANCE - 1))
  {
  }

  /** A client that read survey `s` loses the race to another client whose
      update commits more than a second after `s` was written: the stale
      client's update is then refused. */
  lemma LostUpdateDetected(s: SurveyRow, other: SurveyUpdate, now: int)
    requires now > s.last_updated + TOLERANCE
    ensures Conflicts(ApplySurveyUpdate(s, other, now).last_updated, Some(s.last_updated))
  {
  }

  /** The tolerance is not a staleness window: an intervening update that
      commits within a second of `s` is not detected, and the stale client's
      update goes through. */
  lemma UpdateWithinToleranceNotDetected(s: SurveyRow, other: SurveyUpdate, now: int)
    requires s.last_updated <= now <= s.last_updated + TOLERANCE
    ensures !Conflicts(ApplySurveyUpdate(s, other, now).last_updated, Some(s.last_updated))
  {
  }

  // Converters from stored rows to response records

  function TreeToSchema(t: TreeRow): (o: TreeOut)
    ensures TreeRowOf(o) == t
    ensures ValidTreeRow(t) ==> ValidTreeOut(o)
  {
    TreeOut(t.tree_id, t.survey_id, t.species_name, t.tree_count, t.height_avg,
            t.diameter_avg, t.age_avg, t.notes, t.created_at, t.updated_at)
  }

  /** The stored row a tree response was rendered from. */
  function TreeRowOf(o: TreeOut): TreeRow {
    TreeRow(o.tree_id, o.survey_id, o.species_name, o.tree_count, o.height_avg,
            o.diameter_avg, o.age_avg, o.notes, o.created_at, o.updated_at)
  }

  /** A survey response: the stored columns with the coordinates nested into
      a location, and (when asked for) the survey's trees, or none at all. */
  function SurveyToSchema(s: SurveyRow, trees: seq<TreeRow>, includeTrees: bool): (o: SurveyOut)
    ensures SurveyRowOf(o) == s
    ensures |o.trees| == if includeTrees then |trees| else 0
    ensures forall i :: 0 <= i < |o.trees| ==> TreeRowOf(o.trees[i]) == trees[i]
    ensures ValidSurveyRow(s) && (forall i :: 0 <= i < |trees| ==> ValidTreeRow(trees[i])) ==> ValidSurveyOut(o)
  {
    var out := if includeTrees && |trees| > 0
               then seq(|trees|, i requires 0 <= i < |trees| => TreeToSchema(trees[i]))
               else [];
    SurveyOut(s.survey_id, s.farmer_name, s.crop_type, GeoLocation(s.latitude, s.longitude),
              s.sync_status, s.last_updated, out)
  }

  /** The stored row a survey response was rendered from. */
  function SurveyRowOf(o: SurveyOut): SurveyRow {
    SurveyRow(o.survey_id, o.farmer_name, o.crop_type, o.geo_location.latitude,
              o.geo_location.longitude, o.sync_status, o.last_updated)
  }

  function Min(a: int, b: int): int { if a < b then a else b }
  function Max(a: int, b: int): int { if a < b then b else a }

  /** OFFSET/LIMIT as the SQL engine applies them: a negative offset counts
      as none and a negative limit as no limit. */
  function Page<T>(xs: seq<T>, skip: int, limit: int): (r: seq<T>)
    ensures |r| == if limit < 0 then Max(0, |xs| - Max(skip, 0)) else Min(limit, Max(0, |xs| - Max(skip, 0)))
    ensures forall i :: 0 <= i < |r| ==> r[i] == xs[Max(skip, 0) + i]
  {
    var start := Min(Max(skip, 0), |xs|);
    var stop := if limit < 0 then |xs| else Min(start + limit, |xs|);
    xs[start..stop]
  }

  /** Two consecutive pages of an id-ordered listing share no record. */
  lemma {:induction false} ConsecutivePagesDisjoint(xs: seq<SurveyRow>, skip: int, limit: int, limit2: int)
    requires forall i, j :: 0 <= i < j < |xs| ==> xs[i].survey_id < xs[j].survey_id
    requires skip >= 0 && limit >= 0
    ensures forall a, b :: a in Page(xs, skip, limit) && b in Page(xs, skip + limit, limit2) ==>
      a.survey_id < b.survey_id
  {
    var p, q := Page(xs, skip, limit), Page(xs, skip + limit, limit2);
    assert |p| <= limit;
    assert |q| <= |xs| - (skip + limit) || |q| == 0;
    forall a, b | a in p && b in q ensures a.survey_id < b.survey_id {
      var i :| 0 <= i < |p| && p[i] == a;
      var j :| 0 <= j < |q| && q[j] == b;
      assert Max(skip, 0) == skip && Max(skip + limit, 0) == skip + limit;
      assert a == xs[skip + i];
      assert b == xs[skip + limit + j];
      assert skip + i < skip + limit + j < |xs|;
    }
  }

  /** The store: the two tables and the next id each hands out. */
  class FarmStore {
    var surveys: map<int, SurveyRow>
    var trees: map<int, TreeRow>
    var nextSurveyId: int
    var nextTreeId: int

    ghost predicate Valid()
      reads this
    {
      Tables(surveys, trees, nextSurveyId, nextTreeId)
    }

    /** The trees of survey `surveyId`, as the relationship loads them. */
    function TreesOf(surveyId: int): seq<TreeRow>
      reads this
    {
      TreesIn(trees, surveyId, 1, nextTreeId)
    }

    /** Every survey, in table order. */
    function Listing(): seq<SurveyRow>
      reads this
    {
      SurveysIn(surveys, 1, nextSurveyId)
    }

    /** A survey's response record, trees embedded. */
    function Render(s: SurveyRow): SurveyOut
      reads this
    {
      SurveyToSchema(s, TreesOf(s.survey_id), true)
    }

    /** An empty store (the tables just created). */
    constructor ()
      ensures Valid()
      ensures surveys == map[] && trees == map[]
    {
      surveys, trees := map[], map[];
      nextSurveyId, nextTreeId := 1, 1;
    }

    /** The trees of a stored survey are exactly its rows in the tree table, each valid. */
    lemma TreesOfExactly(surveyId: int)
      requires Valid()
      ensures forall t :: t in TreesOf(surveyId) <==>
        t.tree_id in trees && trees[t.tree_id] == t && t.survey_id == surveyId
      ensures forall i :: 0 <= i < |TreesOf(surveyId)| ==> ValidTreeRow(TreesOf(surveyId)[i])
      ensures forall i, j :: 0 <= i < j < |TreesOf(surveyId)| ==>
        TreesOf(surveyId)[i].tree_id < TreesOf(surveyId)[j].tree_id
    {
      TreesInExactly(trees, surveyId, 1, nextTreeId);
      forall i | 0 <= i < |TreesOf(surveyId)| ensures ValidTreeRow(TreesOf(surveyId)[i]) {
        assert TreesOf(surveyId)[i] in TreesOf(surveyId);
      }
    }

    /** POST /surveys/: store a validated survey under a fresh id, stamped with the clock. */
    method CreateSurvey(body: SurveyBody, now: int) returns (r: Result<SurveyOut>)
      requires Valid()
      modifies this
      ensures Valid()
      ensures ParseSurveyCreate(body).None? ==> r == Err(Validation) && unchanged(this)
      ensures ParseSurveyCreate(body).Some? ==>
        var c, id := ParseSurveyCreate(body).value, old(nextSurveyId);
        && id !in old(surveys)
        && surveys == old(surveys)[id := NewSurveyRow(id, c, now)]
        && nextSurveyId == id + 1
        && trees == old(trees) && nextTreeId == old(nextTreeId)
        && r.Ok? && r.value.survey_id == id
        && r.value.farmer_name == c.farmer_name && r.value.crop_type == c.crop_type
        && r.value.geo_location == c.geo_location && r.value.sync_status == c.sync_status
        && r.value.last_updated == now && r.value.trees == []
    {
      var p := ParseSurveyCreate(body);
      if p.None? {
        return Err(Validation);
      }
      var id := nextSurveyId;
      var row := NewSurveyRow(id, p.value, now);
      assert ValidSurveyRow(row);
      surveys := surveys[id := row];
      nextSurveyId := id + 1;
      TreesInNone(trees, id, 1, nextTreeId);
      r := Ok(Render(row));
    }

    /** GET /surveys/?skip&limit: a page of the survey listing, trees embedded. */
    method GetSurveys(skip: int := 0, limit: int := 100) returns (r: seq<SurveyOut>)
      requires Valid()
      ensures |r| == |Page(Listing(), skip, limit)|
      ensures forall i :: 0 <= i < |r| ==> r[i] == Render(Page(Listing(), skip, limit)[i])
      ensures skip >= 0 && limit >= 0 ==> |r| == Min(limit, Max(0, |surveys| - skip))
      ensures forall i :: 0 <= i < |r| ==>
        r[i].survey_id in surveys && SurveyRowOf(r[i]) == surveys[r[i].survey_id] && ValidSurveyOut(r[i])
      ensures forall i, j :: 0 <= i < j < |r| ==> r[i].survey_id < r[j].survey_id
    {
      var page := Page(SurveysIn(surveys, 1, nextSurveyId), skip, limit);
      var ts, hi := trees, nextTreeId;
      r := seq(|page|, i requires 0 <= i < |page| => SurveyToSchema(page[i], TreesIn(ts, page[i].survey_id, 1, hi), true));
      SurveysInExactly(surveys, 1, nextSurveyId);
      SurveysInCount(surveys, 1, nextSurveyId);
      assert KeysIn(surveys, 1, nextSurveyId) == surveys.Keys;
      forall i | 0 <= i < |r|
        ensures r[i].survey_id in surveys && SurveyRowOf(r[i]) == surveys[r[i].survey_id] && ValidSurveyOut(r[i])
      {
        assert page[i] in Listing();
        TreesOfExactly(page[i].survey_id);
      }
    }

    /** GET /surveys/{id}. */
    method GetSurvey(id: int) returns (r: Result<SurveyOut>)
      requires Valid()
      ensures r.Err? <==> id !in surveys
      ensures r.Err? ==> r.error == NotFound
      ensures r.Ok? ==> r.value == Render(surveys[id])
      ensures r.Ok? ==> SurveyRowOf(r.value) == surveys[id] && ValidSurveyOut(r.value)
      ensures r.Ok? ==> forall i, j :: 0 <= i < j < |r.value.trees| ==>
        r.value.trees[i].tree_id < r.value.trees[j].tree_id
      ensures r.Ok? ==> forall o :: o in r.value.trees <==>
        o.tree_id in trees && trees[o.tree_id] == TreeRowOf(o) && o.survey_id == id
    {
      if id !in surveys {
        return Err(NotFound);
      }
      r := Ok(Render(surveys[id]));
      TreesOfExactly(id);
      forall o | o in r.value.trees
        ensures o.tree_id in trees && trees[o.tree_id] == TreeRowOf(o) && o.survey_id == id
      {
        var i :| 0 <= i < |r.value.trees| && r.value.trees[i] == o;
        assert TreesOf(id)[i] in TreesOf(id);
      }
      forall o: TreeOut | o.tree_id in trees && trees[o.tree_id] == TreeRowOf(o) && o.survey_id == id
        ensures o in r.value.trees
      {
        var t := TreeRowOf(o);
        assert t in TreesOf(id);
        var i :| 0 <= i < |TreesOf(id)| && TreesOf(id)[i] == t;
        assert r.value.trees[i] == o;
      }
    }

    /** PUT /surveys/{id}?last_updated=: the conflict-checked partial update. */
    method UpdateSurvey(id: int, body: SurveyBody, lastSeen: Option<int>, now: int) returns (r: Result<SurveyOut>)
      requires Valid()
      modifies this
      ensures Valid()
      ensures r.Err? ==> unchanged(this)
      ensures ParseSurveyUpdate(body).None? ==> r == Err(Validation)
      ensures ParseSurveyUpdate(body).Some? && id !in old(surveys) ==> r == Err(NotFound)
      ensures ParseSurveyUpdate(body).Some? && id in old(surveys) ==>
        (r == Err(Conflict) <==> Conflicts(old(surveys)[id].last_updated, lastSeen))
      ensures r.Ok? <==>
        ParseSurveyUpdate(body).Some? && id in old(surveys) && !Conflicts(old(surveys)[id].last_updated, lastSeen)
      ensures r.Ok? ==>
        && surveys == old(surveys)[id := ApplySurveyUpdate(old(surveys)[id], ParseSurveyUpdate(body).value, now)]
        && trees == old(trees) && nextSurveyId == old(nextSurveyId) && nextTreeId == old(nextTreeId)
        && r.value == Render(surveys[id]) && r.value.last_updated == now
    {
      var p := ParseSurveyUpdate(body);
      if p.None? {
        return Err(Validation);
      }
      if id !in surveys {
        return Err(NotFound);
      }
      if Conflicts(surveys[id].last_updated, lastSeen) {
        return Err(Conflict);
      }
      var row := ApplySurveyUpdate(surveys[id], p.value, now);
      surveys := surveys[id := row];
      r := Ok(Render(row));
    }

    /** DELETE /surveys/{id}: remove the survey and, with it, all its trees. */
    method DeleteSurvey(id: int) returns (r: Result<()>)
      requires Valid()
      modifies this
      ensures Valid()
      ensures id !in old(surveys) ==> r == Err(NotFound) && unchanged(this)
      ensures id in old(surveys) ==>
        && r == Ok(())
        && surveys == old(surveys) - {id}
        && trees == WithoutSurvey(old(trees), id)
        && nextSurveyId == old(nextSurveyId) && nextTreeId == old(nextTreeId)
      ensures forall tid :: tid in trees ==> trees[tid].survey_id != id
      ensures TreesOf(id) == []
      ensures forall s :: s != id ==> TreesOf(s) == old(TreesOf(s))
    {
      if id !in surveys {
        TreesInNone(trees, id, 1, nextTreeId);
        return Err(NotFound);
      }
      ghost var before := trees;
      surveys := surveys - {id};
      trees := WithoutSurvey(trees, id);
      forall s | true
        ensures TreesIn(trees, s, 1, nextTreeId) == if s == id then [] else TreesIn(before, s, 1, nextTreeId)
      {
        CascadeDelete(before, id, s, 1, nextTreeId);
      }
      r := Ok(());
    }

    /** POST /surveys/{id}/trees/: add a validated tree under an existing
        survey. The handler reads the clock twice, once per timestamp. */
    method CreateTree(surveyId: int, body: TreeBody, createdAt: int, updatedAt: int) returns (r: Result<TreeOut>)
      requires Valid()
      modifies this
      ensures Valid()
      ensures ParseTreeCreate(body).None? ==> r == Err(Validation) && unchanged(this)
      ensures ParseTreeCreate(body).Some? && surveyId !in old(surveys) ==> r == Err(NotFound) && unchanged(this)
      ensures ParseTreeCreate(body).Some? && surveyId in old(surveys) ==>
        var c, id := ParseTreeCreate(body).value, old(nextTreeId);
        && id !in old(trees)
        && trees == old(trees)[id := NewTreeRow(id, surveyId, c, createdAt, updatedAt)]
        && nextTreeId == id + 1
        && surveys == old(surveys) && nextSurveyId == old(nextSurveyId)
        && r == Ok(TreeToSchema(trees[id]))
        && r.value.survey_id == surveyId && r.value.created_at == createdAt && r.value.updated_at == updatedAt
        && TreesOf(surveyId) == old(TreesOf(surveyId)) + [trees[id]]
      ensures forall s :: s != surveyId ==> TreesOf(s) == old(TreesOf(s))
    {
      var p := ParseTreeCreate(body);
      if p.None? {
        return Err(Validation);
      }
      if surveyId !in surveys {
        return Err(NotFound);
      }
      var id := nextTreeId;
      var row := NewTreeRow(id, surveyId, p.value, createdAt, updatedAt);
      assert ValidTreeRow(row);
      ghost var before := trees;
      trees := trees[id := row];
      nextTreeId := id + 1;
      forall s | true
        ensures TreesIn(trees, s, 1, nextTreeId)
             == TreesIn(before, s, 1, id) + (if s == surveyId then [row] else [])
      {
        TreesInInsert(before, row, s, 1);
      }
      r := Ok(TreeToSchema(row));
    }

    /** GET /surveys/{id}/trees/: the trees of an existing survey. */
    method GetTrees(surveyId: int) returns (r: Result<seq<TreeOut>>)
      requires Valid()
      ensures r.Err? <==> surveyId !in surveys
      ensures r.Err? ==> r.error == NotFound
      ensures r.Ok? ==> forall o :: o in r.value <==>
        o.tree_id in trees && trees[o.tree_id] == TreeRowOf(o) && o.survey_id == surveyId
      ensures r.Ok? ==> forall i, j :: 0 <= i < j < |r.value| ==> r.value[i].tree_id < r.value[j].tree_id
      ensures r.Ok? ==> forall i :: 0 <= i < |r.value| ==> ValidTreeOut(r.value[i])
    {
      if surveyId !in surveys {
        return Err(NotFound);
      }
      var rows := TreesOf(surveyId);
      TreesOfExactly(surveyId);
      var out := seq(|rows|, i requires 0 <= i < |rows| => TreeToSchema(rows[i]));
      forall o | o in out
        ensures o.tree_id in trees && trees[o.tree_id] == TreeRowOf(o) && o.survey_id == surveyId
      {
        var i :| 0 <= i < |out| && out[i] == o;
        assert rows[i] in rows;
      }
      forall o: TreeOut | o.tree_id in trees && trees[o.tree_id] == TreeRowOf(o) && o.survey_id == surveyId
        ensures o in out
      {
        assert TreeRowOf(o) in rows;
        var i :| 0 <= i < |rows| && rows[i] == TreeRowOf(o);
        assert out[i] == o;
      }
      r := Ok(out);
    }

    /** GET /trees/{id}. */
    method GetTree(id: int) returns (r: Result<TreeOut>)
      requires Valid()
      ensures r.Err? <==> id !in trees
      ensures r.Err? ==> r.error == NotFound
      ensures r.Ok? ==> TreeRowOf(r.value) == trees[id] && r.value.tree_id == id
      ensures r.Ok? ==> r.value.survey_id in surveys && ValidTreeOut(r.value)
    {
      if id !in trees {
        return Err(NotFound);
      }
      r := Ok(TreeToSchema(trees[id]));
    }

    /** PUT /trees/{id}: partial update; no timestamp check. */
    method UpdateTree(id: int, body: TreeBody, now: int) returns (r: Result<TreeOut>)
      requires Valid()
      modifies this
      ensures Valid()
      ensures r.Err? ==> unchanged(this)
      ensures ParseTreeUpdate(body).None? ==> r == Err(Validation)
      ensures ParseTreeUpdate(body).Some? ==> (r.Err? <==> id !in old(trees))
      ensures ParseTreeUpdate(body).Some? && id !in old(trees) ==> r == Err(NotFound)
      ensures r.Ok? ==>
        && trees == old(trees)[id := ApplyTreeUpdate(old(trees)[id], ParseTreeUpdate(body).value, now)]
        && surveys == old(surveys) && nextSurveyId == old(nextSurveyId) && nextTreeId == old(nextTreeId)
        && r.value == TreeToSchema(trees[id]) && r.value.updated_at == now
    {
      var p := ParseTreeUpdate(body);
      if p.None? {
        return Err(Validation);
      }
      if id !in trees {
        return Err(NotFound);
      }
      var row := ApplyTreeUpdate(trees[id], p.value, now);
      trees := trees[id := row];
      r := Ok(TreeToSchema(row));
    }

    /** DELETE /trees/{id}. */
    method DeleteTree(id: int) returns (r: Result<()>)
      requires Valid()
      modifies this
      ensures Valid()
      ensures id !in old(trees) ==> r == Err(NotFound) && unchanged(this)
      ensures id in old(trees) ==>
        && r == Ok(())
        && trees == old(trees) - {id}
        && surveys == old(surveys) && nextSurveyId == old(nextSurveyId) && nextTreeId == old(nextTreeId)
    {
      if id !in trees {
        return Err(NotFound);
      }
      trees := trees - {id};
      r := Ok(());
    }
  }
}
