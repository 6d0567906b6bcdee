/** The `Post` document of backend/models/postModel.js: its fields, the enumerations
    they range over, their defaults, and the cast-and-validate step Mongoose runs on save. */
module PostModel {
  import opened Common

  datatype PostType = Request | Offer
  datatype PostStatus = Open | Closed
  datatype GeoType = Point

  /** The `location` sub-document; `coordinates` is a GeoJSON position, [longitude, latitude]. */
  datatype Location = Location(kind: GeoType, coordinates: seq<real>, address: Option<string>)

  datatype Post = Post(
    id: ObjectId,
    user: ObjectId,
    title: string,
    description: string,
    kind: PostType,
    category: string,
    status: PostStatus,
    location: Location,
    createdAt: Timestamp,
    updatedAt: Timestamp)

  /** A stored post meets the schema: the required strings are non-empty. */
  predicate WellFormed(p: Post)
  {
    p.title != "" && p.description != "" && p.category != "" && p.createdAt <= p.updatedAt
  }

  /** The raw values handed to `new Post({...})`; None is `undefined` or `null`. */
  datatype PostFields = PostFields(
    user: Option<ObjectId>,
    title: Option<string>,
    description: Option<string>,
    kind: Option<string>,
    category: Option<string>,
    status: Option<string>,
    locationKind: Option<string>,
    coordinates: Option<seq<JsNumber>>,
    address: Option<string>)

  datatype Failure = RequiredMissing | NotInEnum | CastFailed

  /** One entry of a Mongoose ValidationError: the path and why it failed. */
  datatype PathError = PathError(path: string, why: Failure)

  function ParseType(s: string): (t: Option<PostType>)
  {
    if s == "request" then Some(Request)
    else if s == "offer" then Some(Offer)
    else None
  }

  function ParseStatus(s: string): (t: Option<PostStatus>)
  {
    if s == "open" then Some(Open)
    else if s == "closed" then Some(Closed)
    else None
  }

  predicate AllNumbers(xs: seq<JsNumber>)
  {
    forall i :: 0 <= i < |xs| ==> xs[i].Num?
  }

  function Numbers(xs: seq<JsNumber>): (r: seq<real>)
    requires AllNumbers(xs)
    ensures |r| == |xs|
    ensures forall i :: 0 <= i < |xs| ==> r[i] == xs[i].value
  {
    seq(|xs|, i requires 0 <= i < |xs| => xs[i].value)
  }

  /** `required: true` on a String path: undefined, null and "" all fail. */
  function RequiredString(path: string, v: Option<string>): set<PathError>
  {
    if Truthy(v) then {} else {PathError(path, RequiredMissing)}
  }

  /** Every path the document fails on; Mongoose reports them together. */
  function Violations(f: PostFields): set<PathError>
  {
    (if f.user.Some? then {} else {PathError("user", RequiredMissing)})
    + RequiredString("title", f.title)
    + RequiredString("description", f.description)
    + RequiredString("category", f.category)
    + (if !Truthy(f.kind) then {PathError("type", RequiredMissing)}
       else if ParseType(f.kind.value).None? then {PathError("type", NotInEnum)}
       else {})
    + (if f.status.Some? && ParseStatus(f.status.value).None? then {PathError("status", NotInEnum)} else {})
    + (if f.locationKind.Some? && f.locationKind.value != "Point" then {PathError("location.type", NotInEnum)} else {})
    + (if f.coordinates.None? then {PathError("location.coordinates", RequiredMissing)}
       else if !AllNumbers(f.coordinates.value) then {PathError("location.coordinates", CastFailed)}
       else {})
  }

  /** Casting and validating the fields of a new document; `timestamps: true` stamps both
      dates with the time of the save. */
  function Cast(f: PostFields, id: ObjectId, now: Timestamp): (r: Result<Post, set<PathError>>)
    ensures r.Ok? <==>
      && f.user.Some?
      && Truthy(f.title) && Truthy(f.description) && Truthy(f.category)
      && Truthy(f.kind) && f.kind.value in {"request", "offer"}
      && (f.status.None? || f.status.value in {"open", "closed"})
      && (f.locationKind.None? || f.locationKind.value == "Point")
      && f.coordinates.Some? && (forall i :: 0 <= i < |f.coordinates.value| ==> f.coordinates.value[i].Num?)
    ensures r.Err? ==> r.error != {}
    ensures r.Ok? ==>
      && WellFormed(r.value)
      && r.value.id == id
      && r.value.user == f.user.value
      && r.value.title == f.title.value
      && r.value.description == f.description.value
      && r.value.category == f.category.value
      && (r.value.kind == Request <==> f.kind.value == "request")
      && (r.value.status == Closed <==> f.status == Some("closed"))
      && |r.value.location.coordinates| == |f.coordinates.value|
      && (forall i :: 0 <= i < |f.coordinates.value| ==> r.value.location.coordinates[i] == f.coordinates.value[i].value)
      && r.value.location.address == f.address
      && r.value.createdAt == now && r.value.updatedAt == now
  {
    var errors := Violations(f);
    if errors != {} then Err(errors)
    else
      Ok(Post(
        id, f.user.value, f.title.value, f.description.value,
        ParseType(f.kind.value).value, f.category.value,
        if f.status.Some? then ParseStatus(f.status.value).value else Open,
        Location(Point, Numbers(f.coordinates.value), f.address),
        now, now))
  }
}
