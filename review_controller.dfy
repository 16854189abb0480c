/**
 The review handlers of `controllers/reviewController.js`: `setTourUserId`,
 which fills in the tour and the author of a new review in place, and
 `getAllReviews`, which lists the reviews of one tour or of all tours. The
 store is an input: what `Review.find(filter)` resolves to.
 */
module ReviewController {
  import opened Js
  import opened Http

  /** The body after `setTourUserId`, and the message of the `TypeError` it
      passes to `next` when it needs the user and there is none. */
  datatype Defaulted = Defaulted(body: map<string, Value>, thrown: Option<string>)

  /** `req.params.tourId` as a body value (`undefined` when the route has none). */
  function TourIdValue(params: map<string, string>): Value
  {
    if "tourId" in params then Str(params["tourId"]) else Undefined
  }

  /** What `setTourUserId` does to a body. A truthy `tour` or `user` is kept;
      a missing or falsy one is taken from the route or from the signed-in
      user. The tour is set before the user is read, so it stays set when
      reading the user throws. */
  function DefaultTourUser(body: map<string, Value>, params: map<string, string>, user: Option<string>): (r: Defaulted)
    ensures Truthy(Get(body, "tour")) ==> Get(r.body, "tour") == Get(body, "tour")
    ensures !Truthy(Get(body, "tour")) ==> Get(r.body, "tour") == TourIdValue(params)
    ensures Truthy(Get(body, "user")) ==> Get(r.body, "user") == Get(body, "user") && r.thrown == None
    ensures !Truthy(Get(body, "user")) && user.Some? ==> Get(r.body, "user") == Str(user.value) && r.thrown == None
    ensures !Truthy(Get(body, "user")) && user.None? ==>
      Get(r.body, "user") == Get(body, "user") && r.thrown == Some(ReadOfUndefined("id"))
    ensures forall k :: k != "tour" && k != "user" ==> Get(r.body, k) == Get(body, k)
  {
    var withTour := if !Truthy(Get(body, "tour")) then body["tour" := TourIdValue(params)] else body;
    if Truthy(Get(withTour, "user")) then Defaulted(withTour, None)
    else match user
      case Some(id) => Defaulted(withTour["user" := Str(id)], None)
      case None => Defaulted(withTour, Some(ReadOfUndefined("id")))
  }

  /** `setTourUserId`: updates `req.body` in place and calls `next` once,
      with the error thrown, if any. */
  method SetTourUserId(req: Request) returns (next: Option<string>)
    modifies req`body
    ensures Defaulted(req.body, next) == DefaultTourUser(old(req.body), req.params, req.user)
  {
    if !Truthy(Get(req.body, "tour")) {
      req.body := req.body["tour" := TourIdValue(req.params)];
    }
    if !Truthy(Get(req.body, "user")) {
      match req.user
      case None =>
        return Some(ReadOfUndefined("id"));
      case Some(id) =>
        req.body := req.body["user" := Str(id)];
    }
    return None;
  }

  /** Running `setTourUserId` on a body it has already completed changes
      nothing, whenever the first run did not throw. */
  lemma DefaultTourUserIdempotent(body: map<string, Value>, params: map<string, string>, user: Option<string>)
    requires DefaultTourUser(body, params, user).thrown == None
    ensures var once := DefaultTourUser(body, params, user).body;
      DefaultTourUser(once, params, user) == Defaulted(once, None)
  {
    var once := DefaultTourUser(body, params, user).body;
    var twice := DefaultTourUser(once, params, user).body;
    assert forall k :: Get(twice, k) == Get(once, k);
    assert twice == once by {
      assert twice.Keys == once.Keys;
    }
  }

  /** The `data` of a successful listing. */
  datatype Reviews<Doc> = Reviews(count: nat, reviews: seq<Doc>)

  /** `getAllReviews`. `find` is what `Review.find(filter)` resolves to. */
  method GetAllReviews<Doc>(req: Request, find: map<string, string> -> Outcome<seq<Doc>>)
    returns (filter: map<string, string>, resp: Response<Reviews<Doc>>)
    ensures StringTruthy(req.params, "tourId") ==> filter == map["tour" := req.params["tourId"]]
    ensures !StringTruthy(req.params, "tourId") ==> filter == map[]
    ensures find(filter).Ok? ==> resp == Success(200, Reviews(|find(filter).value|, find(filter).value))
    ensures find(filter).Failed? ==> resp == Fail(500, find(filter).message)
    ensures resp.data.Some? ==> resp.data.value.count == |resp.data.value.reviews|
  {
    filter := map[];
    if StringTruthy(req.params, "tourId") {
      filter := map["tour" := req.params["tourId"]];
    }
    match find(filter)
    case Ok(reviews) =>
      var count := |reviews|;
      resp := Success(200, Reviews(count, reviews));
    case Failed(m) =>
      resp := Fail(500, m);
  }
}
