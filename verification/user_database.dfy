/**
 * database/database.py, class UserDatabase: the users collection, one record per Telegram
 * user, keyed by `user_id`.
 */
module UserDb {
  import opened Wrappers
  import opened Store

  function UserKey(uid: int): Key
  {
    Key("user_id", Int(uid))
  }

  /** `{**{"user_id": user_id}, **additional}`: later keys win. */
  function RawUser(uid: int, additional: Record): (r: Record)
    ensures r.Keys == additional.Keys + {"user_id"}
    ensures forall f | f in additional :: r[f] == additional[f]
    ensures "user_id" !in additional ==> Matches(r, UserKey(uid))
  {
    map["user_id" := Int(uid)] + additional
  }

  /** `add_raw(user_id, additional)`: upload of the raw record on the user's key. */
  method AddRaw(db: Database, uid: int, additional: Record)
    modifies db
    ensures db.records == Uploaded(old(db.records), UserKey(uid), RawUser(uid, additional))
  {
    db.Upload(UserKey(uid), RawUser(uid, additional));
  }

  /**
   * Registering again replaces the user's record wholesale: afterwards the user's record
   * holds `user_id` and the additional fields and nothing else, so an e-mail, name or type
   * stored earlier is gone.
   */
  lemma AddRawDiscardsEarlierFields(rs: seq<Record>, uid: int, additional: Record)
    requires "user_id" !in additional
    ensures var out := Uploaded(rs, UserKey(uid), RawUser(uid, additional));
      && FindOne(out, UserKey(uid)).Some?
      && FindOne(out, UserKey(uid)).value.Keys == additional.Keys + {"user_id"}
      && forall f | f in additional :: FindOne(out, UserKey(uid)).value[f] == additional[f]
  {
    UploadedFindOne(rs, UserKey(uid), RawUser(uid, additional));
  }

  /** `exists(user_id)`: a record with that id is present. */
  function Exists(rs: seq<Record>, uid: int): (b: bool)
    ensures b <==> exists j | 0 <= j < |rs| :: Matches(rs[j], UserKey(uid))
  {
    FindOne(rs, UserKey(uid)).Some?
  }

  /** `get_type(user_id)`: the stored `type`, or the TypeError/KeyError Python raises. */
  function GetType(rs: seq<Record>, uid: int): (r: Result<Value, DbError>)
    ensures r.Success? <==> Exists(rs, uid) && "type" in FindOne(rs, UserKey(uid)).value
    ensures r.Success? ==> r.value == FindOne(rs, UserKey(uid)).value["type"]
    ensures !Exists(rs, uid) ==> r == Failure(NoRecord)
  {
    match FindOne(rs, UserKey(uid))
    case None => Failure(NoRecord)
    case Some(user) => if "type" in user then Success(user["type"]) else Failure(MissingField("type"))
  }

  /** `update(user_id, info)`: `$set` with upsert on the user's key; the result is dropped. */
  method Update(db: Database, uid: int, info: Record)
    modifies db
    ensures db.records == FieldsSet(old(db.records), UserKey(uid), info)
  {
    var _ := db.Update(UserKey(uid), info);
  }

  /**
   * After `update` the user exists and holds the given fields, and keeps the fields it
   * already had; with no record before, the new one holds `user_id` and the given fields.
   */
  lemma UpdateKeepsUser(rs: seq<Record>, uid: int, info: Record)
    requires "user_id" !in info
    ensures var out := FieldsSet(rs, UserKey(uid), info);
      && Exists(out, uid)
      && var user := FindOne(out, UserKey(uid)).value;
      && (forall f | f in info :: f in user && user[f] == info[f])
      && (Exists(rs, uid) ==>
            var prior := FindOne(rs, UserKey(uid)).value;
            forall f | f in prior && f !in info :: f in user && user[f] == prior[f])
      && (!Exists(rs, uid) ==> user.Keys == info.Keys + {"user_id"})
  {
    UpdateSetsFields(rs, UserKey(uid), info);
  }

  /** Registration order: `add_raw` and then `update` of the type leaves a user whose type reads back. */
  lemma TypeAfterRegistration(rs: seq<Record>, uid: int, kind: string)
    ensures var registered := Uploaded(rs, UserKey(uid), RawUser(uid, map[]));
      GetType(FieldsSet(registered, UserKey(uid), map["type" := Str(kind)]), uid) == Success(Str(kind))
  {
    var registered := Uploaded(rs, UserKey(uid), RawUser(uid, map[]));
    UpdateKeepsUser(registered, uid, map["type" := Str(kind)]);
  }
}
