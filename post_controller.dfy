/** The post handlers of backend/controllers/postController.js: how `getPosts` turns
    query parameters into a filter and an order, and how `createPost` and `deletePost`
    change the posts collection. */
module PostController {
  import opened Common
  import opened PostModel
  import Sequences

  /** A GeoJSON position is written longitude first, then latitude. */
  function LngLat(lng: real, lat: real): (p: seq<real>)
    ensures |p| == 2 && p[0] == lng && p[1] == lat
  {
    [lng, lat]
  }

  /** `$near`'s `$maxDistance` in metres: `dist` is in kilometres, 10 km when absent. */
  function RadiusMetres(dist: Option<real>): (m: real)
    ensures dist.None? ==> m == 10000.0
    ensures dist.Some? ==> m == dist.value * 1000.0
  {
    match dist
    case None => 10000.0
    case Some(km) => km * 1000.0
  }

  datatype NearFilter = NearFilter(point: seq<real>, maxDistance: real)

  /** The query object `getPosts` hands to `Post.find`. */
  datatype PostQuery = PostQuery(near: Option<NearFilter>, excludeUser: Option<ObjectId>)

  /** Builds the query from `lat`, `lng`, `dist` and `excludeId`; None stands for a
      parameter that is absent or empty, i.e. falsy. */
  function BuildQuery(lat: Option<real>, lng: Option<real>, dist: Option<real>, excludeId: Option<ObjectId>): (q: PostQuery)
    ensures q.near.Some? <==> lat.Some? && lng.Some?
    ensures q.near.Some? ==> q.near.value == NearFilter(LngLat(lng.value, lat.value), RadiusMetres(dist))
    ensures q.excludeUser == excludeId
  {
    var near := if lat.Some? && lng.Some? then Some(NearFilter(LngLat(lng.value, lat.value), RadiusMetres(dist))) else None;
    PostQuery(near, excludeId)
  }

  /** `within(origin, position, metres)` stands for MongoDB's spherical `$near` test,
      which the model does not interpret. */
  type Within = (seq<real>, seq<real>, real) -> bool

  predicate Matches(q: PostQuery, within: Within, p: Post)
  {
    && (q.near.Some? ==> within(q.near.value.point, p.location.coordinates, q.near.value.maxDistance))
    && (q.excludeUser.Some? ==> p.user != q.excludeUser.value)
  }

  function CreatedAt(p: Post): int { p.createdAt }

  /** `Post.find(query).sort({ createdAt: -1 })`. */
  function FindPosts(posts: seq<Post>, q: PostQuery, within: Within): (r: seq<Post>)
  {
    Sequences.SortDesc(Sequences.Filter(posts, (p: Post) => Matches(q, within, p)), CreatedAt)
  }

  /** The response of `getPosts` for the given query parameters. */
  function GetPosts(posts: seq<Post>, lat: Option<real>, lng: Option<real>, dist: Option<real>,
                    excludeId: Option<ObjectId>, within: Within): (r: seq<Post>)
  {
    FindPosts(posts, BuildQuery(lat, lng, dist, excludeId), within)
  }

  /** What `getPosts` returns: every stored post that lies within `dist` km (10 km by default)
      of [lng, lat] when both are given and that `excludeId` does not own, each as often as it
      is stored, newest first. */
  lemma GetPostsSpec(posts: seq<Post>, lat: Option<real>, lng: Option<real>, dist: Option<real>,
                     excludeId: Option<ObjectId>, within: Within)
    ensures var r := GetPosts(posts, lat, lng, dist, excludeId, within);
      && (forall i :: 0 <= i < |r| ==>
            && r[i] in posts
            && (lat.Some? && lng.Some? ==> within([lng.value, lat.value], r[i].location.coordinates, RadiusMetres(dist)))
            && (excludeId.Some? ==> r[i].user != excludeId.value))
      && (forall p :: p in posts ==>
            multiset(r)[p] ==
              if (lat.Some? && lng.Some? ==> within([lng.value, lat.value], p.location.coordinates, RadiusMetres(dist)))
                 && (excludeId.Some? ==> p.user != excludeId.value)
              then multiset(posts)[p] else 0)
      && (forall i, j :: 0 <= i < j < |r| ==> r[i].createdAt >= r[j].createdAt)
  {
    var q := BuildQuery(lat, lng, dist, excludeId);
    var keep := (p: Post) => Matches(q, within, p);
    var kept := Sequences.Filter(posts, keep);
    var r := GetPosts(posts, lat, lng, dist, excludeId, within);
    assert multiset(r) == multiset(kept);
    forall i | 0 <= i < |r|
      ensures r[i] in kept
    {
      assert r[i] in multiset(r);
    }
    forall p | p in posts
      ensures multiset(r)[p] == if keep(p) then multiset(posts)[p] else 0
    {
      Sequences.FilterCount(posts, keep, p);
    }
  }

  /** The `2dsphere` index accepts a position only with longitude in [-180, 180] and
      latitude in [-90, 90]. */
  predicate InGeoRange(point: seq<real>)
  {
    |point| == 2 && -180.0 <= point[0] <= 180.0 && -90.0 <= point[1] <= 90.0
  }

  /** MongoDB rejects a `$near` query whose point is off the globe or whose
      `$maxDistance` is negative. */
  predicate NearAccepted(q: PostQuery)
  {
    q.near.Some? ==> InGeoRange(q.near.value.point) && q.near.value.maxDistance >= 0.0
  }

  /** The HTTP reply of `getPosts`: the status and the JSON body's posts. */
  datatype Listing = Listing(status: Status, body: seq<Post>)

  /** `getPosts` as a whole: a query MongoDB rejects ends in the `catch`, with 500. */
  function GetPostsReply(posts: seq<Post>, lat: Option<real>, lng: Option<real>, dist: Option<real>,
                         excludeId: Option<ObjectId>, within: Within): (r: Listing)
    ensures r.status == Ok200 || r.status == ServerError500
    ensures r.status == ServerError500 <==>
      lat.Some? && lng.Some? &&
      !(-180.0 <= lng.value <= 180.0 && -90.0 <= lat.value <= 90.0 && (dist.Some? ==> dist.value >= 0.0))
    ensures r.status == ServerError500 ==> r.body == []
    ensures r.status == Ok200 ==> r.body == GetPosts(posts, lat, lng, dist, excludeId, within)
  {
    if NearAccepted(BuildQuery(lat, lng, dist, excludeId)) then Listing(Ok200, GetPosts(posts, lat, lng, dist, excludeId, within))
    else Listing(ServerError500, [])
  }

  /** With neither `lat` nor `lng` (or only one of them), no proximity filter applies. */
  lemma NoLocationNoProximity(posts: seq<Post>, lat: Option<real>, lng: Option<real>, dist: Option<real>,
                              within: Within)
    requires lat.None? || lng.None?
    ensures multiset(GetPosts(posts, lat, lng, dist, None, within)) == multiset(posts)
  {
    var keep := (p: Post) => Matches(BuildQuery(lat, lng, dist, None), within, p);
    forall p
      ensures multiset(GetPosts(posts, lat, lng, dist, None, within))[p] == multiset(posts)[p]
    {
      Sequences.FilterCount(posts, keep, p);
    }
  }

  /** The body fields `createPost` reads; `latitude` and `longitude` after `Number(...)`. */
  datatype CreateBody = CreateBody(
    title: Option<string>,
    description: Option<string>,
    kind: Option<string>,
    category: Option<string>,
    latitude: JsNumber,
    longitude: JsNumber,
    address: Option<string>)

  /** The document `createPost` builds: owner is the caller, status is left to its default,
      and the position is [longitude, latitude]. */
  function NewPostFields(caller: ObjectId, body: CreateBody): (f: PostFields)
  {
    PostFields(Some(caller), body.title, body.description, body.kind, body.category, None,
               Some("Point"), Some([body.longitude, body.latitude]), body.address)
  }

  predicate UniqueIds(posts: seq<Post>)
  {
    forall i, j :: 0 <= i < j < |posts| ==> posts[i].id != posts[j].id
  }

  /** The posts other than `id`: what `deleteOne` on the post with the unique `id` leaves. */
  function IdIsNot(id: ObjectId): Post -> bool
  {
    (p: Post) => p.id != id
  }

  /** Removing the one post carrying `id` from a collection with unique ids is filtering out `id`. */
  lemma RemoveAtIsFilter(posts: seq<Post>, k: nat, id: ObjectId)
    requires UniqueIds(posts)
    requires k < |posts| && posts[k].id == id
    ensures posts[..k] + posts[k + 1..] == Sequences.Filter(posts, IdIsNot(id))
  {
    forall i | 0 <= i < |posts| && i != k
      ensures IdIsNot(id)(posts[i])
    {
      if i < k {
        assert posts[i].id != posts[k].id;
      } else {
        assert posts[k].id != posts[i].id;
      }
    }
    Sequences.FilterDropsOne(posts, IdIsNot(id), k);
  }

  /** Ids are unique and below the next id to hand out; every stored post is well formed and
      has a position the `2dsphere` index accepts. */
  predicate StoreInvariant(posts: seq<Post>, nextId: ObjectId)
  {
    && UniqueIds(posts)
    && (forall i :: 0 <= i < |posts| ==> posts[i].id < nextId)
    && (forall i :: 0 <= i < |posts| ==> WellFormed(posts[i]))
    && (forall i :: 0 <= i < |posts| ==> InGeoRange(posts[i].location.coordinates))
  }

  lemma RemoveAtKeepsInvariant(posts: seq<Post>, nextId: ObjectId, k: nat)
    requires StoreInvariant(posts, nextId) && k < |posts|
    ensures StoreInvariant(posts[..k] + posts[k + 1..], nextId)
  {
    var r := posts[..k] + posts[k + 1..];
    assert forall i :: 0 <= i < |r| ==> r[i] == posts[if i < k then i else i + 1];
  }

  /** The posts collection. */
  class PostStore {
    var posts: seq<Post>
    var nextId: ObjectId

    ghost predicate Valid()
      reads this
    {
      StoreInvariant(posts, nextId)
    }

    constructor ()
      ensures Valid() && posts == []
    {
      posts := [];
      nextId := 0;
    }

    /** `createPost`: 201 with the saved post, or 500 when validation fails or the `2dsphere`
        index refuses the position, and nothing is saved. */
    method CreatePost(caller: ObjectId, body: CreateBody, now: Timestamp) returns (status: Status, created: Option<Post>)
      requires Valid()
      modifies this
      ensures Valid()
      ensures status == Created201 || status == ServerError500
      ensures status == Created201 <==>
        && Cast(NewPostFields(caller, body), old(nextId), now).Ok?
        && body.longitude.Num? && body.latitude.Num?
        && -180.0 <= body.longitude.value <= 180.0 && -90.0 <= body.latitude.value <= 90.0
      ensures status == ServerError500 ==> created.None? && posts == old(posts)
      ensures status == Created201 ==>
        && created.Some?
        && created.value == Cast(NewPostFields(caller, body), old(nextId), now).value
        && created.value.id == old(nextId)
        && posts == old(posts) + [created.value]
        && created.value.user == caller
        && created.value.status == Open
        && created.value.location.kind == Point
        && body.longitude.Num? && body.latitude.Num?
        && created.value.location.coordinates == LngLat(body.longitude.value, body.latitude.value)
        && created.value.location.address == body.address
        && created.value.createdAt == now
    {
      var f := NewPostFields(caller, body);
      match Cast(f, nextId, now)
      case Ok(p) =>
        assert f.coordinates.value[0] == body.longitude && f.coordinates.value[1] == body.latitude;
        if InGeoRange(p.location.coordinates) {
          posts := posts + [p];
          nextId := nextId + 1;
          status, created := Created201, Some(p);
        } else {
          // the index refuses the insert, `save` throws
          status, created := ServerError500, None;
        }
      case Err(_) =>
        status, created := ServerError500, None;
    }

    /** `deletePost`: 404 when no post has `id`, 401 with nothing changed when the caller does
        not own it, otherwise exactly that post is removed. */
    method DeletePost(caller: ObjectId, id: ObjectId) returns (status: Status)
      requires Valid()
      modifies this
      ensures Valid()
      ensures status == NotFound404 <==> (forall i :: 0 <= i < |old(posts)| ==> old(posts)[i].id != id)
      ensures status == Unauthorized401 <==>
        (exists i :: 0 <= i < |old(posts)| && old(posts)[i].id == id && old(posts)[i].user != caller)
      ensures status != Ok200 ==> posts == old(posts)
      ensures status == Ok200 ==> posts == Sequences.Filter(old(posts), IdIsNot(id))
      ensures status in {Ok200, NotFound404, Unauthorized401}
    {
      var k := 0;
      while k < |posts| && posts[k].id != id
        invariant 0 <= k <= |posts|
        invariant forall i :: 0 <= i < k ==> posts[i].id != id
      {
        k := k + 1;
      }
      if k == |posts| {
        status := NotFound404;
      } else if posts[k].user != caller {
        status := Unauthorized401;
      } else {
        RemoveAtIsFilter(posts, k, id);
        RemoveAtKeepsInvariant(posts, nextId, k);
        posts := posts[..k] + posts[k + 1..];
        status := Ok200;
      }
    }
  }
}
