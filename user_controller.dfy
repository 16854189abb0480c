/**
 The self-service user handlers of `controllers/userController.js`: the field
 whitelist `filterObj`, `updateMe` with its password guard, the soft delete
 `deleteMe`, and the three handlers that are not written yet. The update the
 store performs is an input: what `User.findByIdAndUpdate` resolves to.
 */
module UserController {
  import opened Js
  import opened Http

  /** `filterObj(obj, ...allowedFields)` as a value: the entries of `obj`
      whose key is allowed. */
  function Filtered(obj: map<string, Value>, allowedFields: seq<string>): map<string, Value>
  {
    map k | k in obj && k in allowedFields :: obj[k]
  }

  /** `filterObj`: walks the keys of `obj` and copies each allowed entry into
      a new object; `obj` itself is a value and is not changed. */
  method FilterObj(obj: map<string, Value>, allowedFields: seq<string>) returns (newObj: map<string, Value>)
    ensures forall k :: k in newObj <==> k in obj && k in allowedFields
    ensures forall k :: k in newObj ==> newObj[k] == obj[k]
    ensures newObj == Filtered(obj, allowedFields)
  {
    newObj := map[];
    var keys := obj.Keys;
    while keys != {}
      invariant keys <= obj.Keys
      invariant forall k :: k in newObj <==> k in obj && k !in keys && k in allowedFields
      invariant forall k :: k in newObj ==> newObj[k] == obj[k]
      decreases keys
    {
      var key :| key in keys;
      if key in allowedFields {
        newObj := newObj[key := obj[key]];
      }
      keys := keys - {key};
    }
  }

  /** Filtering again with the same list changes nothing. */
  lemma FilteredIdempotent(obj: map<string, Value>, allowedFields: seq<string>)
    ensures Filtered(Filtered(obj, allowedFields), allowedFields) == Filtered(obj, allowedFields)
  {
  }

  /** Filtering keeps a sub-map: every entry kept is an entry of the input. */
  lemma FilteredSubMap(obj: map<string, Value>, allowedFields: seq<string>)
    ensures var f := Filtered(obj, allowedFields);
      f.Keys <= obj.Keys && (forall k :: k in f ==> f[k] == obj[k])
      && (forall k :: k in obj && k in allowedFields ==> k in f)
  {
  }

  /** An update issued to the store: the id of the user and the fields to set. */
  datatype Update = Update(id: string, payload: map<string, Value>)

  /** The `data` of a successful `updateMe`. */
  datatype UserData<Doc> = UserData(user: Doc)

  const PasswordRouteMessage := "This route is not for password updates. Please use /update-password."

  /** The guard of `updateMe`: the body carries a password. */
  predicate PasswordGiven(body: map<string, Value>)
  {
    Truthy(Get(body, "password")) || Truthy(Get(body, "passwordConfirm"))
  }

  /** `updateMe`. `findByIdAndUpdate` is what the store's update resolves to;
      `issued` is the update handed to it, if any. */
  method UpdateMe<Doc>(req: Request, findByIdAndUpdate: Update -> Outcome<Doc>)
    returns (issued: Option<Update>, handled: Handled<UserData<Doc>>)
    ensures PasswordGiven(req.body) ==>
      issued == None && handled == Forward(AppError(PasswordRouteMessage, 400))
    ensures !PasswordGiven(req.body) && req.user.None? ==>
      issued == None && handled == Respond(Fail(500, ReadOfUndefined("_id")))
    ensures !PasswordGiven(req.body) && req.user.Some? ==>
      issued == Some(Update(req.user.value, Filtered(req.body, ["name", "email"])))
      && handled == Respond(match findByIdAndUpdate(issued.value)
                            case Ok(user) => Success(200, UserData(user))
                            case Failed(m) => Fail(500, m))
    ensures issued.Some? ==>
      issued.value.payload.Keys <= {"name", "email"}
      && forall k :: k in issued.value.payload ==> issued.value.payload[k] == req.body[k]
  {
    if PasswordGiven(req.body) {
      return None, Forward(AppError(PasswordRouteMessage, 400));
    }
    var filteredBody := FilterObj(req.body, ["name", "email"]);
    if req.user.None? {
      // `req.user._id` throws before the store is called.
      return None, Respond(Fail(500, ReadOfUndefined("_id")));
    }
    var update := Update(req.user.value, filteredBody);
    issued := Some(update);
    match findByIdAndUpdate(update)
    case Ok(user) =>
      handled := Respond(Success(200, UserData(user)));
    case Failed(m) =>
      handled := Respond(Fail(500, m));
  }

  /** The only update `deleteMe` issues. */
  const Deactivate: map<string, Value> := map["isActive" := Bool(false)]

  /** `deleteMe`: a soft delete of the current user. `findByIdAndUpdate` is
      what the store's update resolves to. */
  function DeleteMe<Doc>(user: Option<string>, findByIdAndUpdate: Update -> Outcome<Doc>)
    : (r: (Option<Update>, Response<UserData<Doc>>))
    ensures user.None? ==> r == (None, Fail(500, ReadOfUndefined("_id")))
    ensures user.Some? ==> r.0 == Some(Update(user.value, Deactivate))
    ensures user.Some? && findByIdAndUpdate(r.0.value).Ok? ==> r.1 == Response(204, "success", None, None)
    ensures user.Some? && findByIdAndUpdate(r.0.value).Failed? ==>
      r.1 == Fail(500, findByIdAndUpdate(r.0.value).message)
  {
    match user
    case None => (None, Fail(500, ReadOfUndefined("_id")))
    case Some(id) =>
      var update := Update(id, Deactivate);
      (Some(update),
       match findByIdAndUpdate(update)
       case Ok(_) => Response(204, "success", None, None)
       case Failed(m) => Fail(500, m))
  }

  /** The soft delete keeps the user: the update writes one field, `isActive`,
      and sets it to false. */
  lemma DeleteIsSoft<Doc>(id: string, findByIdAndUpdate: Update -> Outcome<Doc>)
    ensures var u := DeleteMe(Some(id), findByIdAndUpdate).0.value;
      u.id == id && u.payload.Keys == {"isActive"} && !Truthy(u.payload["isActive"])
  {
  }

  const NotDefined := "This route is not yet defined!"

  /** The answer of a handler that is not written yet. */
  function NotYetDefined(message: string): Response<()>
  {
    Response(500, "error", Some(message), None)
  }

  /** `getUser`. */
  function GetUser(): (r: Response<()>)
    ensures r.code == 500 && r.status == "error" && r.message == Some(NotDefined) && r.data == None
  {
    NotYetDefined(NotDefined)
  }

  /** `createUser`. */
  function CreateUser(): (r: Response<()>)
    ensures r.code == 500 && r.status == "error" && r.message == Some(NotDefined) && r.data == None
  {
    NotYetDefined(NotDefined)
  }

  /** `updateUser`, with its message as written. */
  function UpdateUser(): (r: Response<()>)
    ensures r.code == 500 && r.status == "error" && r.message == Some("This route is not yet defineddddd!") && r.data == None
  {
    NotYetDefined("This route is not yet defineddddd!")
  }
}
