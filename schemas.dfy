/** Request and response shapes of the farm survey API and the field
    constraints that the request validator enforces before any handler runs.
    A request body is modelled as it arrives (every field may be missing,
    null or given) and a parser turns it into a validated payload or rejects it. */
module Schemas {

  datatype Option<T> = None | Some(value: T)

  /** One field of a JSON request body as received. */
  datatype Wire<T> = Absent | Null | Given(value: T)

  /** What an optional field carries once null and absence both mean "not supplied". */
  function Supplied<T>(w: Wire<T>): Option<T> {
    match w
    case Given(v) => Some(v)
    case _ => None
  }

  datatype GeoLocation = GeoLocation(latitude: real, longitude: real)

  // Field constraints (ge/le/gt/min_length)

  predicate ValidLatitude(x: real) { -90.0 <= x <= 90.0 }
  predicate ValidLongitude(x: real) { -180.0 <= x <= 180.0 }
  predicate ValidGeo(g: GeoLocation) { ValidLatitude(g.latitude) && ValidLongitude(g.longitude) }
  predicate NonEmpty(s: string) { |s| >= 1 }
  predicate NonNegative(x: Option<real>) { x.Some? ==> x.value >= 0.0 }
  predicate NonNegativeInt(x: Option<int>) { x.Some? ==> x.value >= 0 }

  // Validated payloads

  datatype SurveyCreate = SurveyCreate(
    farmer_name: string, crop_type: string, geo_location: GeoLocation, sync_status: bool)

  datatype SurveyUpdate = SurveyUpdate(
    farmer_name: Option<string>, crop_type: Option<string>,
    geo_location: Option<GeoLocation>, sync_status: Option<bool>)

  datatype TreeCreate = TreeCreate(
    species_name: string, tree_count: int,
    height_avg: Option<real>, diameter_avg: Option<real>, age_avg: Option<int>,
    notes: Option<string>)

  datatype TreeUpdate = TreeUpdate(
    species_name: Option<string>, tree_count: Option<int>,
    height_avg: Option<real>, diameter_avg: Option<real>, age_avg: Option<int>,
    notes: Option<string>)

  predicate ValidSurveyCreate(c: SurveyCreate) {
    NonEmpty(c.farmer_name) && NonEmpty(c.crop_type) && ValidGeo(c.geo_location)
  }

  predicate ValidSurveyUpdate(u: SurveyUpdate) {
    && (u.farmer_name.Some? ==> NonEmpty(u.farmer_name.value))
    && (u.crop_type.Some? ==> NonEmpty(u.crop_type.value))
    && (u.geo_location.Some? ==> ValidGeo(u.geo_location.value))
  }

  predicate ValidTreeCreate(c: TreeCreate) {
    && NonEmpty(c.species_name) && c.tree_count > 0
    && NonNegative(c.height_avg) && NonNegative(c.diameter_avg) && NonNegativeInt(c.age_avg)
  }

  predicate ValidTreeUpdate(u: TreeUpdate) {
    && (u.species_name.Some? ==> NonEmpty(u.species_name.value))
    && (u.tree_count.Some? ==> u.tree_count.value > 0)
    && NonNegative(u.height_avg) && NonNegative(u.diameter_avg) && NonNegativeInt(u.age_avg)
  }

  // Request bodies as received

  datatype GeoLocationBody = GeoLocationBody(latitude: Wire<real>, longitude: Wire<real>)

  /** The JSON body of both the create and the update request of a survey. */
  datatype SurveyBody = SurveyBody(
    farmer_name: Wire<string>, crop_type: Wire<string>,
    geo_location: Wire<GeoLocationBody>, sync_status: Wire<bool>)

  /** The JSON body of both the create and the update request of a tree. */
  datatype TreeBody = TreeBody(
    species_name: Wire<string>, tree_count: Wire<int>,
    height_avg: Wire<real>, diameter_avg: Wire<real>, age_avg: Wire<int>,
    notes: Wire<string>)

  function EncodeGeoLocation(g: GeoLocation): GeoLocationBody {
    GeoLocationBody(Given(g.latitude), Given(g.longitude))
  }

  /** GeoLocation: both coordinates are required and must lie in range. */
  function ParseGeoLocation(b: GeoLocationBody): (r: Option<GeoLocation>)
    ensures r.Some? ==> ValidGeo(r.value)
    ensures r.Some? ==> b == EncodeGeoLocation(r.value)
  {
    match (b.latitude, b.longitude)
    case (Given(lat), Given(lon)) =>
      if ValidLatitude(lat) && ValidLongitude(lon) then Some(GeoLocation(lat, lon)) else None
    case _ => None
  }

  /** FarmSurveyCreate: name, crop and location are required, sync_status
      defaults to false when left out (an explicit null is not a bool). */
  function ParseSurveyCreate(b: SurveyBody): (r: Option<SurveyCreate>)
    ensures r.Some? ==> ValidSurveyCreate(r.value)
    ensures r.Some? ==>
      && b.farmer_name == Given(r.value.farmer_name)
      && b.crop_type == Given(r.value.crop_type)
      && b.geo_location == Given(EncodeGeoLocation(r.value.geo_location))
    ensures r.Some? ==>
      b.sync_status == Given(r.value.sync_status) || (b.sync_status == Absent && !r.value.sync_status)
  {
    if b.farmer_name.Given? && NonEmpty(b.farmer_name.value)
      && b.crop_type.Given? && NonEmpty(b.crop_type.value)
      && b.geo_location.Given? && ParseGeoLocation(b.geo_location.value).Some?
      && !b.sync_status.Null?
    then
      var sync := if b.sync_status.Given? then b.sync_status.value else false;
      Some(SurveyCreate(b.farmer_name.value, b.crop_type.value,
                        ParseGeoLocation(b.geo_location.value).value, sync))
    else None
  }

  function EncodeSurveyCreate(c: SurveyCreate): SurveyBody {
    SurveyBody(Given(c.farmer_name), Given(c.crop_type),
               Given(EncodeGeoLocation(c.geo_location)), Given(c.sync_status))
  }

  /** FarmSurveyUpdate: every field optional; a field that is given must meet
      the same constraint as on create. */
  function ParseSurveyUpdate(b: SurveyBody): (r: Option<SurveyUpdate>)
    ensures r.Some? ==> ValidSurveyUpdate(r.value)
    ensures r.Some? ==>
      && r.value.farmer_name == Supplied(b.farmer_name)
      && r.value.crop_type == Supplied(b.crop_type)
      && r.value.sync_status == Supplied(b.sync_status)
      && (r.value.geo_location.Some? <==> b.geo_location.Given?)
      && (r.value.geo_location.Some? ==> b.geo_location.value == EncodeGeoLocation(r.value.geo_location.value))
  {
    if (b.farmer_name.Given? ==> NonEmpty(b.farmer_name.value))
      && (b.crop_type.Given? ==> NonEmpty(b.crop_type.value))
      && (b.geo_location.Given? ==> ParseGeoLocation(b.geo_location.value).Some?)
    then
      var geo := if b.geo_location.Given? then ParseGeoLocation(b.geo_location.value) else None;
      Some(SurveyUpdate(Supplied(b.farmer_name), Supplied(b.crop_type), geo, Supplied(b.sync_status)))
    else None
  }

  function Send<T>(x: Option<T>): Wire<T> {
    match x
    case Some(v) => Given(v)
    case None => Absent
  }

  /** Sending an optional value and reading it back gives the value; a
      field read back and sent again is the same field, except that null
      comes back as absent. */
  lemma SuppliedSend<T>(x: Option<T>, w: Wire<T>)
    ensures Supplied(Send(x)) == x
    ensures Send(Supplied(w)) == if w.Null? then Absent else w
  {
  }

  function EncodeSurveyUpdate(u: SurveyUpdate): SurveyBody {
    var geo := if u.geo_location.Some? then Given(EncodeGeoLocation(u.geo_location.value)) else Absent;
    SurveyBody(Send(u.farmer_name), Send(u.crop_type), geo, Send(u.sync_status))
  }

  /** TreeCreate: species and a positive count are required; measurements
      are optional but non-negative; notes are free text. */
  function ParseTreeCreate(b: TreeBody): (r: Option<TreeCreate>)
    ensures r.Some? ==> ValidTreeCreate(r.value)
    ensures r.Some? ==>
      && b.species_name == Given(r.value.species_name)
      && b.tree_count == Given(r.value.tree_count)
      && r.value.height_avg == Supplied(b.height_avg)
      && r.value.diameter_avg == Supplied(b.diameter_avg)
      && r.value.age_avg == Supplied(b.age_avg)
      && r.value.notes == Supplied(b.notes)
  {
    var c := TreeCreate(
      if b.species_name.Given? then b.species_name.value else "",
      if b.tree_count.Given? then b.tree_count.value else 0,
      Supplied(b.height_avg), Supplied(b.diameter_avg), Supplied(b.age_avg), Supplied(b.notes));
    if b.species_name.Given? && b.tree_count.Given? && ValidTreeCreate(c) then Some(c) else None
  }

  function EncodeTreeCreate(c: TreeCreate): TreeBody {
    TreeBody(Given(c.species_name), Given(c.tree_count),
             Send(c.height_avg), Send(c.diameter_avg), Send(c.age_avg), Send(c.notes))
  }

  /** TreeUpdate: the TreeCreate constraints, applied only to given fields. */
  function ParseTreeUpdate(b: TreeBody): (r: Option<TreeUpdate>)
    ensures r.Some? ==> ValidTreeUpdate(r.value)
    ensures r.Some? ==>
      && r.value.species_name == Supplied(b.species_name)
      && r.value.tree_count == Supplied(b.tree_count)
      && r.value.height_avg == Supplied(b.height_avg)
      && r.value.diameter_avg == Supplied(b.diameter_avg)
      && r.value.age_avg == Supplied(b.age_avg)
      && r.value.notes == Supplied(b.notes)
  {
    var u := TreeUpdate(Supplied(b.species_name), Supplied(b.tree_count), Supplied(b.height_avg),
                        Supplied(b.diameter_avg), Supplied(b.age_avg), Supplied(b.notes));
    if ValidTreeUpdate(u) then Some(u) else None
  }

  function EncodeTreeUpdate(u: TreeUpdate): TreeBody {
    TreeBody(Send(u.species_name), Send(u.tree_count), Send(u.height_avg),
             Send(u.diameter_avg), Send(u.age_avg), Send(u.notes))
  }

  // Round trips: each parser accepts exactly the encodings of valid payloads.

  lemma GeoLocationRoundTrip(g: GeoLocation)
    ensures ParseGeoLocation(EncodeGeoLocation(g)) == if ValidGeo(g) then Some(g) else None
  {
  }

  lemma SurveyCreateRoundTrip(c: SurveyCreate)
    ensures ParseSurveyCreate(EncodeSurveyCreate(c)) == if ValidSurveyCreate(c) then Some(c) else None
  {
    GeoLocationRoundTrip(c.geo_location);
  }

  /** Leaving sync_status out is the same as sending false. */
  lemma SurveyCreateSyncDefault(c: SurveyCreate)
    requires ValidSurveyCreate(c)
    ensures ParseSurveyCreate(EncodeSurveyCreate(c).(sync_status := Absent)) == Some(c.(sync_status := false))
  {
    GeoLocationRoundTrip(c.geo_location);
  }

  /** A create body that leaves out (or nulls) a name, the crop or the location is rejected. */
  lemma SurveyCreateRequiresFields(b: SurveyBody)
    requires !b.farmer_name.Given? || !b.crop_type.Given? || !b.geo_location.Given?
    ensures ParseSurveyCreate(b) == None
  {
  }

  lemma SurveyUpdateRoundTrip(u: SurveyUpdate)
    ensures ParseSurveyUpdate(EncodeSurveyUpdate(u)) == if ValidSurveyUpdate(u) then Some(u) else None
  {
    if u.geo_location.Some? { GeoLocationRoundTrip(u.geo_location.value); }
  }

  /** An empty update body is accepted and supplies nothing. */
  lemma SurveyUpdateEmptyBody()
    ensures ParseSurveyUpdate(SurveyBody(Absent, Absent, Absent, Absent))
         == Some(SurveyUpdate(None, None, None, None))
  {
  }

  lemma TreeCreateRoundTrip(c: TreeCreate)
    ensures ParseTreeCreate(EncodeTreeCreate(c)) == if ValidTreeCreate(c) then Some(c) else None
  {
  }

  lemma TreeUpdateRoundTrip(u: TreeUpdate)
    ensures ParseTreeUpdate(EncodeTreeUpdate(u)) == if ValidTreeUpdate(u) then Some(u) else None
  {
  }

  /** Latitude 90 and longitude 180 are accepted, 91 and 181 are not (and likewise below). */
  lemma GeoLocationBoundaries()
    ensures ParseGeoLocation(GeoLocationBody(Given(90.0), Given(0.0))).Some?
    ensures ParseGeoLocation(GeoLocationBody(Given(-90.0), Given(0.0))).Some?
    ensures ParseGeoLocation(GeoLocationBody(Given(91.0), Given(0.0))).None?
    ensures ParseGeoLocation(GeoLocationBody(Given(-91.0), Given(0.0))).None?
    ensures ParseGeoLocation(GeoLocationBody(Given(0.0), Given(180.0))).Some?
    ensures ParseGeoLocation(GeoLocationBody(Given(0.0), Given(-180.0))).Some?
    ensures ParseGeoLocation(GeoLocationBody(Given(0.0), Given(181.0))).None?
    ensures ParseGeoLocation(GeoLocationBody(Given(0.0), Given(-181.0))).None?
  {
  }

  // Response shapes (FarmSurvey and Tree); building one re-checks the base constraints.

  datatype TreeOut = TreeOut(
    tree_id: int, survey_id: int, species_name: string, tree_count: int,
    height_avg: Option<real>, diameter_avg: Option<real>, age_avg: Option<int>,
    notes: Option<string>, created_at: int, updated_at: int)

  datatype SurveyOut = SurveyOut(
    survey_id: int, farmer_name: string, crop_type: string, geo_location: GeoLocation,
    sync_status: bool, last_updated: int, trees: seq<TreeOut>)

  predicate ValidTreeOut(t: TreeOut) {
    && NonEmpty(t.species_name) && t.tree_count > 0
    && NonNegative(t.height_avg) && NonNegative(t.diameter_avg) && NonNegativeInt(t.age_avg)
  }

  predicate ValidSurveyOut(s: SurveyOut) {
    && NonEmpty(s.farmer_name) && NonEmpty(s.crop_type) && ValidGeo(s.geo_location)
    && forall i :: 0 <= i < |s.trees| ==> ValidTreeOut(s.trees[i])
  }
}
