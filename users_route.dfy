/** The user router: `POST /` records the caller as a user the first time
    and does nothing on later calls. */
module UsersRoute {
  import opened Wrappers
  import opened Lists
  import opened Models
  import opened Errors
  import opened Http
  import opened Store

  /** What `POST /` does for the decoded claims: an existing user with the
      caller's uid is answered 200 with nothing written; otherwise a new
      user is saved and answered 201; any failure, a validation or unique
      index failure among them, is answered 500. */
  function SyncSpec(s: Snapshot, c: Claims, freshId: ObjectId, now: nat, faults: set<Call>): (Outcome, Snapshot) {
    var failed := Respond(500, ErrorBody("Internal Server Error"));
    if UserFindOne in faults then (failed, s)
    else if FindOne(s.users, UserIdIs(c.uid)).Some? then (Respond(200, MessageBody("User already exists")), s)
    else match NewUser(freshId, c.uid, c.email, c.displayname, now)
      case Err(_) => (failed, s)
      case Ok(u) =>
        if UserSave in faults || FindOne(s.users, UserKeyIs(freshId)).Some?
           || FindOne(s.users, UserEmailIs(u.email)).Some? then (failed, s)
        else (Respond(201, MessageBody("User saved")), s.(users := s.users + [u], log := s.log + [UserInserted(c.uid)]))
  }

  /** The handler, step by step. */
  method SyncUser(b: Backend, c: Claims, freshId: ObjectId, now: nat, faults: set<Call>) returns (out: Outcome)
    requires b.Valid()
    modifies b
    ensures b.Valid()
    ensures (out, b.State()) == SyncSpec(old(b.State()), c, freshId, now, faults)
  {
    var existing := b.FindOneUser(c.uid, UserFindOne in faults);
    if existing.Err? {
      return Respond(500, ErrorBody("Internal Server Error"));
    }
    if existing.value.Some? {
      return Respond(200, MessageBody("User already exists"));
    }
    var saved := b.SaveUser(freshId, c.uid, c.email, c.displayname, now, UserSave in faults);
    if saved.Err? {
      return Respond(500, ErrorBody("Internal Server Error"));
    }
    return Respond(201, MessageBody("User saved"));
  }

  /** The handler answers only 200, 201 or 500; it writes only on 201, and
      then exactly the caller's user record. */
  lemma SyncOutcomes(s: Snapshot, c: Claims, freshId: ObjectId, now: nat, faults: set<Call>)
    ensures var r := SyncSpec(s, c, freshId, now, faults);
      && r.0.Respond? && r.0.status in {200, 201, 500}
      && (r.0.status != 201 ==> r.1 == s)
      && (r.0.status == 201 ==>
            && r.1.users == s.users + [User(freshId, c.uid, c.email.value, c.displayname, now)]
            && r.1.albums == s.albums && r.1.media == s.media && r.1.log == s.log + [UserInserted(c.uid)])
  {
  }

  /** A failed store call is answered 500 and writes nothing. */
  lemma SyncStoreFailure(s: Snapshot, c: Claims, freshId: ObjectId, now: nat, faults: set<Call>)
    requires UserFindOne in faults || (FindOne(s.users, UserIdIs(c.uid)).None? && UserSave in faults)
    ensures SyncSpec(s, c, freshId, now, faults) == (Respond(500, ErrorBody("Internal Server Error")), s)
  {
  }

  /** At most one user has a given uid when uids are distinct. */
  lemma {:induction false} AtMostOneWithUid(users: seq<User>, uid: string)
    requires DistinctBy(users, UserUid)
    ensures |Filter(users, UserIdIs(uid))| <= 1
  {
    if users != [] {
      var t := users[1..];
      assert DistinctBy(t, UserUid) by {
        forall i, j | 0 <= i < j < |t| ensures UserUid(t[i]) != UserUid(t[j]) {
          assert t[i] == users[i + 1] && t[j] == users[j + 1];
        }
      }
      if users[0].userId == uid {
        forall i | 0 <= i < |t| ensures !UserIdIs(uid)(t[i]) {
          assert t[i] == users[i + 1];
        }
        FilterDropsAll(t, UserIdIs(uid));
      } else {
        AtMostOneWithUid(t, uid);
      }
    }
  }

  /** After a sync that succeeds, exactly one user record has the caller's
      uid. */
  lemma SyncLeavesOneUser(s: Snapshot, c: Claims, freshId: ObjectId, now: nat, faults: set<Call>)
    requires UsersOk(s.users)
    requires SyncSpec(s, c, freshId, now, faults).0.status in {200, 201}
    ensures |Filter(SyncSpec(s, c, freshId, now, faults).1.users, UserIdIs(c.uid))| == 1
  {
    var r := SyncSpec(s, c, freshId, now, faults);
    var p := UserIdIs(c.uid);
    match FindOne(s.users, p)
    case Some(u) =>
      AtMostOneWithUid(s.users, c.uid);
      FilterMember(s.users, p, u);
    case None =>
      var u := User(freshId, c.uid, c.email.value, c.displayname, now);
      FilterDropsAll(s.users, p);
      FilterAppend(s.users, [u], p);
      assert Filter([u], p) == [u];
  }

  /** Syncing twice: whatever the first call did, a second call that can
      reach the store is answered 200 and writes nothing. */
  lemma SyncIdempotent(s: Snapshot, c: Claims, id1: ObjectId, id2: ObjectId, now1: nat, now2: nat,
                       faults1: set<Call>, faults2: set<Call>)
    requires SyncSpec(s, c, id1, now1, faults1).0.status in {200, 201}
    requires UserFindOne !in faults2
    ensures var s1 := SyncSpec(s, c, id1, now1, faults1).1;
      SyncSpec(s1, c, id2, now2, faults2) == (Respond(200, MessageBody("User already exists")), s1)
  {
    var s1 := SyncSpec(s, c, id1, now1, faults1).1;
    if FindOne(s.users, UserIdIs(c.uid)).None? {
      var u := User(id1, c.uid, c.email.value, c.displayname, now1);
      assert s1.users[|s.users|] == u;
    }
  }
}
