/** The two tables of the store: farm surveys and the trees recorded under
    them. Each row type holds exactly the columns of its table; nullable
    columns are Options. Timestamps are integers (microseconds). This module
    states the table invariant (primary keys, the foreign key, the column
    constraints), the effect of an insert (defaults) and of an update
    (`onupdate` timestamps), the cascade that removes a survey's trees, and
    the ordered scans that queries return. */
module Models {
  import opened Schemas

  datatype SurveyRow = SurveyRow(
    survey_id: int, farmer_name: string, crop_type: string,
    latitude: real, longitude: real, sync_status: bool, last_updated: int)

  datatype TreeRow = TreeRow(
    tree_id: int, survey_id: int, species_name: string, tree_count: int,
    height_avg: Option<real>, diameter_avg: Option<real>, age_avg: Option<int>,
    notes: Option<string>, created_at: int, updated_at: int)

  /** The constraints a stored survey always satisfies (only valid payloads reach the table). */
  predicate ValidSurveyRow(s: SurveyRow) {
    NonEmpty(s.farmer_name) && NonEmpty(s.crop_type)
    && ValidLatitude(s.latitude) && ValidLongitude(s.longitude)
  }

  predicate ValidTreeRow(t: TreeRow) {
    && NonEmpty(t.species_name) && t.tree_count > 0
    && NonNegative(t.height_avg) && NonNegative(t.diameter_avg) && NonNegativeInt(t.age_avg)
  }

  /** The table invariant: every row is stored under its own primary key,
      below the next id to hand out; every tree references an existing
      survey; every row satisfies its column constraints. */
  ghost predicate Tables(surveys: map<int, SurveyRow>, trees: map<int, TreeRow>,
                         nextSurveyId: int, nextTreeId: int)
    ensures Tables(surveys, trees, nextSurveyId, nextTreeId) ==>
      nextSurveyId !in surveys && nextTreeId !in trees
  {
    && 1 <= nextSurveyId && 1 <= nextTreeId
    && (forall id :: id in surveys ==>
          surveys[id].survey_id == id && 1 <= id < nextSurveyId && ValidSurveyRow(surveys[id]))
    && (forall id :: id in trees ==>
          trees[id].tree_id == id && 1 <= id < nextTreeId && ValidTreeRow(trees[id])
          && trees[id].survey_id in surveys)
  }

  /** The survey row an insert stores: last_updated is stamped with the clock. */
  function NewSurveyRow(id: int, c: SurveyCreate, now: int): (s: SurveyRow)
    ensures s.survey_id == id && s.last_updated == now
    ensures s.farmer_name == c.farmer_name && s.crop_type == c.crop_type && s.sync_status == c.sync_status
    ensures GeoLocation(s.latitude, s.longitude) == c.geo_location
    ensures ValidSurveyRow(s) <==> ValidSurveyCreate(c)
  {
    SurveyRow(id, c.farmer_name, c.crop_type, c.geo_location.latitude, c.geo_location.longitude,
              c.sync_status, now)
  }

  /** The tree row an insert stores. created_at and updated_at are two
      separate readings of the clock, taken one after the other. */
  function NewTreeRow(id: int, surveyId: int, c: TreeCreate, createdAt: int, updatedAt: int): (t: TreeRow)
    ensures t.tree_id == id && t.survey_id == surveyId
    ensures t.created_at == createdAt && t.updated_at == updatedAt
    ensures t.species_name == c.species_name && t.tree_count == c.tree_count && t.notes == c.notes
    ensures t.height_avg == c.height_avg && t.diameter_avg == c.diameter_avg && t.age_avg == c.age_avg
    ensures ValidTreeRow(t) <==> ValidTreeCreate(c)
  {
    TreeRow(id, surveyId, c.species_name, c.tree_count, c.height_avg, c.diameter_avg,
            c.age_avg, c.notes, createdAt, updatedAt)
  }

  /** A survey after a partial update at time `now`: a supplied field
      overwrites (false included), an unsupplied one stays, the location
      moves as a whole, and last_updated becomes the clock. */
  function ApplySurveyUpdate(s: SurveyRow, u: SurveyUpdate, now: int): (r: SurveyRow)
    ensures r.survey_id == s.survey_id && r.last_updated == now
    ensures u.farmer_name.Some? ==> r.farmer_name == u.farmer_name.value
    ensures u.crop_type.Some? ==> r.crop_type == u.crop_type.value
    ensures u.sync_status.Some? ==> r.sync_status == u.sync_status.value
    ensures u.geo_location.Some? ==> GeoLocation(r.latitude, r.longitude) == u.geo_location.value
    ensures r.farmer_name != s.farmer_name ==> u.farmer_name.Some?
    ensures r.crop_type != s.crop_type ==> u.crop_type.Some?
    ensures r.sync_status != s.sync_status ==> u.sync_status.Some?
    ensures r.latitude != s.latitude || r.longitude != s.longitude ==> u.geo_location.Some?
    ensures ValidSurveyRow(s) && ValidSurveyUpdate(u) ==> ValidSurveyRow(r)
  {
    var geo := if u.geo_location.Some? then u.geo_location.value else GeoLocation(s.latitude, s.longitude);
    SurveyRow(
      s.survey_id,
      if u.farmer_name.Some? then u.farmer_name.value else s.farmer_name,
      if u.crop_type.Some? then u.crop_type.value else s.crop_type,
      geo.latitude, geo.longitude,
      if u.sync_status.Some? then u.sync_status.value else s.sync_status,
      now)
  }

  /** A tree after a partial update at time `now`. The identity, the owning
      survey and created_at never change; a nullable column that holds a
      value can never be cleared, since null reads as "not supplied". */
  function ApplyTreeUpdate(t: TreeRow, u: TreeUpdate, now: int): (r: TreeRow)
    ensures r.tree_id == t.tree_id && r.survey_id == t.survey_id && r.created_at == t.created_at
    ensures r.updated_at == now
    ensures u.species_name.Some? ==> r.species_name == u.species_name.value
    ensures u.tree_count.Some? ==> r.tree_count == u.tree_count.value
    ensures u.height_avg.Some? ==> r.height_avg == u.height_avg
    ensures u.diameter_avg.Some? ==> r.diameter_avg == u.diameter_avg
    ensures u.age_avg.Some? ==> r.age_avg == u.age_avg
    ensures u.notes.Some? ==> r.notes == u.notes
    ensures r.species_name != t.species_name ==> u.species_name.Some?
    ensures r.tree_count != t.tree_count ==> u.tree_count.Some?
    ensures r.height_avg != t.height_avg ==> u.height_avg.Some?
    ensures r.diameter_avg != t.diameter_avg ==> u.diameter_avg.Some?
    ensures r.age_avg != t.age_avg ==> u.age_avg.Some?
    ensures r.notes != t.notes ==> u.notes.Some?
    ensures t.height_avg.Some? ==> r.height_avg.Some?
    ensures t.diameter_avg.Some? ==> r.diameter_avg.Some?
    ensures t.age_avg.Some? ==> r.age_avg.Some?
    ensures t.notes.Some? ==> r.notes.Some?
    ensures ValidTreeRow(t) && ValidTreeUpdate(u) ==> ValidTreeRow(r)
  {
    TreeRow(
      t.tree_id, t.survey_id,
      if u.species_name.Some? then u.species_name.value else t.species_name,
      if u.tree_count.Some? then u.tree_count.value else t.tree_count,
      if u.height_avg.Some? then u.height_avg else t.height_avg,
      if u.diameter_avg.Some? then u.diameter_avg else t.diameter_avg,
      if u.age_avg.Some? then u.age_avg else t.age_avg,
      if u.notes.Some? then u.notes else t.notes,
      t.created_at, now)
  }

  /** The later of two partial updates wins field by field. */
  function Later<T>(first: Option<T>, second: Option<T>): Option<T> {
    if second.Some? then second else first
  }

  function MergeSurveyUpdates(u1: SurveyUpdate, u2: SurveyUpdate): SurveyUpdate {
    SurveyUpdate(Later(u1.farmer_name, u2.farmer_name), Later(u1.crop_type, u2.crop_type),
                 Later(u1.geo_location, u2.geo_location), Later(u1.sync_status, u2.sync_status))
  }

  /** Two successive survey updates act as one update carrying, per field, the later supplied value. */
  lemma SurveyUpdatesCompose(s: SurveyRow, u1: SurveyUpdate, u2: SurveyUpdate, t1: int, t2: int)
    ensures ApplySurveyUpdate(ApplySurveyUpdate(s, u1, t1), u2, t2)
         == ApplySurveyUpdate(s, MergeSurveyUpdates(u1, u2), t2)
  {
  }

  /** Replaying the same survey update changes nothing but the timestamp. */
  lemma SurveyUpdateIdempotent(s: SurveyRow, u: SurveyUpdate, t1: int, t2: int)
    ensures ApplySurveyUpdate(ApplySurveyUpdate(s, u, t1), u, t2) == ApplySurveyUpdate(s, u, t2)
  {
  }

  /** An empty survey update only moves last_updated. */
  lemma EmptySurveyUpdate(s: SurveyRow, now: int)
    ensures ApplySurveyUpdate(s, SurveyUpdate(None, None, None, None), now) == s.(last_updated := now)
  {
  }

  /** An empty tree update only moves updated_at. */
  lemma EmptyTreeUpdate(t: TreeRow, now: int)
    ensures ApplyTreeUpdate(t, TreeUpdate(None, None, None, None, None, None), now) == t.(updated_at := now)
  {
  }

  /** The trees left after the cascade that deletes survey `surveyId`. */
  function WithoutSurvey(trees: map<int, TreeRow>, surveyId: int): map<int, TreeRow> {
    map id | id in trees && trees[id].survey_id != surveyId :: trees[id]
  }

  /** Deleting a survey together with its trees leaves no orphan tree and
      keeps the whole table invariant. */
  lemma CascadeKeepsTables(surveys: map<int, SurveyRow>, trees: map<int, TreeRow>,
                           nextSurveyId: int, nextTreeId: int, surveyId: int)
    requires Tables(surveys, trees, nextSurveyId, nextTreeId)
    ensures Tables(surveys - {surveyId}, WithoutSurvey(trees, surveyId), nextSurveyId, nextTreeId)
  {
  }

  // Ordered scans. Rows come back in ascending primary-key order.

  /** The surveys whose ids lie in [lo, hi), in ascending id order. */
  function SurveysIn(surveys: map<int, SurveyRow>, lo: int, hi: int): seq<SurveyRow>
    decreases hi - lo
  {
    if hi <= lo then []
    else if lo in surveys then [surveys[lo]] + SurveysIn(surveys, lo + 1, hi)
    else SurveysIn(surveys, lo + 1, hi)
  }

  /** The trees of survey `surveyId` whose ids lie in [lo, hi), in ascending id order. */
  function TreesIn(trees: map<int, TreeRow>, surveyId: int, lo: int, hi: int): seq<TreeRow>
    decreases hi - lo
  {
    if hi <= lo then []
    else if lo in trees && trees[lo].survey_id == surveyId then [trees[lo]] + TreesIn(trees, surveyId, lo + 1, hi)
    else TreesIn(trees, surveyId, lo + 1, hi)
  }

  ghost predicate SurveyKeysMatch(surveys: map<int, SurveyRow>) {
    forall id :: id in surveys ==> surveys[id].survey_id == id
  }

  ghost predicate TreeKeysMatch(trees: map<int, TreeRow>) {
    forall id :: id in trees ==> trees[id].tree_id == id
  }

  /** The survey scan holds exactly the stored surveys with ids in range, in strictly ascending id order. */
  lemma {:induction false} SurveysInExactly(surveys: map<int, SurveyRow>, lo: int, hi: int)
    requires SurveyKeysMatch(surveys)
    ensures forall s :: s in SurveysIn(surveys, lo, hi) <==>
      lo <= s.survey_id < hi && s.survey_id in surveys && surveys[s.survey_id] == s
    ensures forall i, j :: 0 <= i < j < |SurveysIn(surveys, lo, hi)| ==>
      SurveysIn(surveys, lo, hi)[i].survey_id < SurveysIn(surveys, lo, hi)[j].survey_id
    decreases hi - lo
  {
    if lo < hi {
      SurveysInExactly(surveys, lo + 1, hi);
      var rest := SurveysIn(surveys, lo + 1, hi);
      if lo in surveys {
        assert SurveysIn(surveys, lo, hi) == [surveys[lo]] + rest;
        forall i, j | 0 <= i < j < |SurveysIn(surveys, lo, hi)|
          ensures SurveysIn(surveys, lo, hi)[i].survey_id < SurveysIn(surveys, lo, hi)[j].survey_id
        {
          assert rest[j - 1] in rest;
          if i > 0 { assert rest[i - 1] in rest; }
        }
      }
    }
  }

  /** The tree scan of one survey holds exactly that survey's stored trees
      with ids in range, in strictly ascending id order. */
  lemma {:induction false} TreesInExactly(trees: map<int, TreeRow>, surveyId: int, lo: int, hi: int)
    requires TreeKeysMatch(trees)
    ensures forall t :: t in TreesIn(trees, surveyId, lo, hi) <==>
      lo <= t.tree_id < hi && t.tree_id in trees && trees[t.tree_id] == t && t.survey_id == surveyId
    ensures forall i, j :: 0 <= i < j < |TreesIn(trees, surveyId, lo, hi)| ==>
      TreesIn(trees, surveyId, lo, hi)[i].tree_id < TreesIn(trees, surveyId, lo, hi)[j].tree_id
    decreases hi - lo
  {
    if lo < hi {
      TreesInExactly(trees, surveyId, lo + 1, hi);
      var rest := TreesIn(trees, surveyId, lo + 1, hi);
      if lo in trees && trees[lo].survey_id == surveyId {
        assert TreesIn(trees, surveyId, lo, hi) == [trees[lo]] + rest;
        forall i, j | 0 <= i < j < |TreesIn(trees, surveyId, lo, hi)|
          ensures TreesIn(trees, surveyId, lo, hi)[i].tree_id < TreesIn(trees, surveyId, lo, hi)[j].tree_id
        {
          assert rest[j - 1] in rest;
          if i > 0 { assert rest[i - 1] in rest; }
        }
      }
    }
  }

  ghost function KeysIn<R>(m: map<int, R>, lo: int, hi: int): set<int> {
    set id | id in m && lo <= id < hi
  }

  /** The survey scan over [lo, hi) has one row per stored id in that range. */
  lemma {:induction false} SurveysInCount(surveys: map<int, SurveyRow>, lo: int, hi: int)
    ensures |SurveysIn(surveys, lo, hi)| == |KeysIn(surveys, lo, hi)|
    decreases hi - lo
  {
    if hi <= lo {
      assert KeysIn(surveys, lo, hi) == {};
    } else {
      SurveysInCount(surveys, lo + 1, hi);
      if lo in surveys {
        assert KeysIn(surveys, lo, hi) == {lo} + KeysIn(surveys, lo + 1, hi);
      } else {
        assert KeysIn(surveys, lo, hi) == KeysIn(surveys, lo + 1, hi);
      }
    }
  }

  /** The cascade leaves no tree under the deleted survey and leaves every
      other survey's tree list exactly as it was. */
  lemma {:induction false} CascadeDelete(trees: map<int, TreeRow>, surveyId: int, other: int, lo: int, hi: int)
    ensures TreesIn(WithoutSurvey(trees, surveyId), surveyId, lo, hi) == []
    ensures other != surveyId ==>
      TreesIn(WithoutSurvey(trees, surveyId), other, lo, hi) == TreesIn(trees, other, lo, hi)
    decreases hi - lo
  {
    if lo < hi {
      CascadeDelete(trees, surveyId, other, lo + 1, hi);
    }
  }

  /** A survey that no tree references has an empty tree list. */
  lemma {:induction false} TreesInNone(trees: map<int, TreeRow>, surveyId: int, lo: int, hi: int)
    requires forall id :: id in trees ==> trees[id].survey_id != surveyId
    ensures TreesIn(trees, surveyId, lo, hi) == []
    decreases hi - lo
  {
    if lo < hi {
      TreesInNone(trees, surveyId, lo + 1, hi);
    }
  }

  /** Inserting a tree with an id above every stored one appends it to its
      own survey's tree list and leaves every other survey's list as it was. */
  lemma {:induction false} TreesInInsert(trees: map<int, TreeRow>, t: TreeRow, surveyId: int, lo: int)
    requires forall id :: id in trees ==> id < t.tree_id
    requires lo <= t.tree_id
    ensures TreesIn(trees[t.tree_id := t], surveyId, lo, t.tree_id + 1)
         == TreesIn(trees, surveyId, lo, t.tree_id) + (if t.survey_id == surveyId then [t] else [])
    decreases t.tree_id - lo
  {
    if lo < t.tree_id {
      TreesInInsert(trees, t, surveyId, lo + 1);
    }
  }
}
