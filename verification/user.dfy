/** Sign-up and sign-in of the app's users: `register` refuses a phone
    number or nickname already in use, `login` finds the user by phone and
    compares the name. */
module UserAccount {
  import opened Common
  import opened Schema

  /** Which fields of a sign-up are already in use: the keys of the
      handler's `errors` object. */
  datatype Duplicates = Duplicates(phone: bool, nickname: bool)

  /** The `SELECT … WHERE user_phone = ? OR user_nickname = ?` of
      `register`: the rows that share the phone or the nickname, in the
      order of `ids`. */
  function Clashing(users: map<int, User>, ids: seq<int>, phone: string, nickname: string): (r: seq<User>)
    requires forall i :: 0 <= i < |ids| ==> ids[i] in users
    ensures forall u :: u in r ==> u in users.Values && (u.phone == phone || u.nickname == nickname)
    ensures forall i :: 0 <= i < |ids| && (users[ids[i]].phone == phone || users[ids[i]].nickname == nickname) ==>
              users[ids[i]] in r
  {
    if ids == [] then []
    else
      var u := users[ids[0]];
      (if u.phone == phone || u.nickname == nickname then [u] else []) + Clashing(users, ids[1..], phone, nickname)
  }

  /** The `forEach` over the clashing rows: each field is flagged when some
      row carries it. */
  method FindDuplicates(rows: seq<User>, phone: string, nickname: string) returns (errors: Duplicates)
    ensures errors.phone <==> exists i :: 0 <= i < |rows| && rows[i].phone == phone
    ensures errors.nickname <==> exists i :: 0 <= i < |rows| && rows[i].nickname == nickname
  {
    errors := Duplicates(false, false);
    var k := 0;
    while k < |rows|
      invariant 0 <= k <= |rows|
      invariant errors.phone <==> exists i :: 0 <= i < k && rows[i].phone == phone
      invariant errors.nickname <==> exists i :: 0 <= i < k && rows[i].nickname == nickname
    {
      if rows[k].phone == phone {
        errors := errors.(phone := true);
      }
      if rows[k].nickname == nickname {
        errors := errors.(nickname := true);
      }
      k := k + 1;
    }
  }

  /** The first user, in key order from `k` up to `n`, with that phone: the
      row `results[0]` of `login`. */
  function FirstWithPhone(users: map<int, User>, phone: string, k: int, n: int): (r: Option<int>)
    ensures r.Some? ==> r.value in users && users[r.value].phone == phone && k <= r.value < n
    ensures r.Some? ==> forall j :: k <= j < r.value && j in users ==> users[j].phone != phone
    ensures r.None? ==> forall j :: k <= j < n && j in users ==> users[j].phone != phone
    decreases n - k
  {
    if k >= n then None
    else if k in users && users[k].phone == phone then Some(k)
    else FirstWithPhone(users, phone, k + 1, n)
  }

  /** The users table and its AUTO_INCREMENT counter.  `defaults` holds the
      values the table gives the columns `register` does not write. */
  class UserDb {
    var users: map<int, User>
    var nextId: int
    const defaults: User

    ghost predicate Valid()
      reads this
    {
      nextId >= 1 && forall k :: k in users ==> 1 <= k < nextId
    }

    constructor (users: map<int, User>, nextId: int, defaults: User)
      requires nextId >= 1 && forall k :: k in users ==> 1 <= k < nextId
      ensures Valid()
      ensures this.users == users && this.nextId == nextId && this.defaults == defaults
    {
      this.users := users;
      this.nextId := nextId;
      this.defaults := defaults;
    }

    /** A field already in use by some user. */
    predicate PhoneTaken(phone: string)
      reads this
    {
      exists id :: id in users && users[id].phone == phone
    }

    predicate NicknameTaken(nickname: string)
      reads this
    {
      exists id :: id in users && users[id].nickname == nickname
    }

    /** `register`: a missing or empty field answers 400 before any query;
        a phone or nickname in use answers 409 naming each taken field;
        otherwise the user is inserted and 201 carries the new key (inside
        the token).  An insert refused as a duplicate key (`dupKey`) also
        answers 409. */
    method Register(name: Option<string>, nickname: Option<string>, phone: Option<string>, address: Option<string>,
                    fault: Fault, dupKey: bool)
      returns (code: int, errors: Duplicates, userId: int)
      requires Valid()
      modifies this`users, this`nextId
      ensures Valid()
      ensures code != CREATED ==> users == old(users) && nextId == old(nextId)
      ensures Falsy(name) || Falsy(nickname) || Falsy(phone) || Falsy(address) ==> code == BAD_REQUEST
      ensures !(Falsy(name) || Falsy(nickname) || Falsy(phone) || Falsy(address)) ==>
                if FailsAt(fault, 0) then code == SERVER_ERROR
                else
                  && errors.phone == old(PhoneTaken(phone.value))
                  && errors.nickname == old(NicknameTaken(nickname.value))
                  && (errors.phone || errors.nickname ==> code == CONFLICT)
                  && (!errors.phone && !errors.nickname && FailsAt(fault, 1) ==>
                        code == (if dupKey then CONFLICT else SERVER_ERROR))
                  && (!errors.phone && !errors.nickname && !FailsAt(fault, 1) ==>
                        && code == CREATED
                        && userId == old(nextId) && userId !in old(users)
                        && users == old(users)[userId := defaults.(name := name.value, nickname := nickname.value,
                                                                   phone := phone.value, address := address.value)]
                        && nextId == userId + 1)
    {
      errors := Duplicates(false, false);
      userId := 0;
      if Falsy(name) || Falsy(nickname) || Falsy(phone) || Falsy(address) {
        return BAD_REQUEST, errors, userId;
      }
      if FailsAt(fault, 0) {
        return SERVER_ERROR, errors, userId;
      }
      errors := LookUpDuplicates(users, nextId, phone.value, nickname.value);
      if errors.phone || errors.nickname {
        return CONFLICT, errors, userId;
      }
      if FailsAt(fault, 1) {
        return (if dupKey then CONFLICT else SERVER_ERROR), errors, userId;
      }
      userId := nextId;
      users := users[userId := defaults.(name := name.value, nickname := nickname.value,
                                         phone := phone.value, address := address.value)];
      nextId := nextId + 1;
      code := CREATED;
    }

    /** `login`: 400 for a missing or empty field, 401 when no user has the
        phone or when the trimmed name differs from the stored one, else 200
        for that user. */
    method Login(name: Option<string>, phone: Option<string>, fault: Fault) returns (code: int, userId: Option<int>)
      requires Valid()
      ensures userId.Some? <==> code == OK
      ensures Falsy(name) || Falsy(phone) ==> code == BAD_REQUEST
      ensures !(Falsy(name) || Falsy(phone)) ==>
                if FailsAt(fault, 0) then code == SERVER_ERROR
                else
                  var first := FirstWithPhone(users, phone.value, 0, nextId);
                  && (first.None? ==> code == UNAUTHORIZED)
                  && (first.Some? ==>
                        (code == OK <==> Trim(name.value) == users[first.value].name)
                        && (code != OK ==> code == UNAUTHORIZED)
                        && (code == OK ==> userId == first))
    {
      if Falsy(name) || Falsy(phone) {
        return BAD_REQUEST, None;
      }
      if FailsAt(fault, 0) {
        return SERVER_ERROR, None;
      }
      var first := FirstWithPhone(users, phone.value, 0, nextId);
      if first.None? {
        return UNAUTHORIZED, None;
      }
      if Trim(name.value) != users[first.value].name {
        return UNAUTHORIZED, None;
      }
      return OK, first;
    }
  }

  /** `register` stores the name as sent while `login` trims the name it is
      given: a name stored with white space at either end matches no login
      input. */
  lemma PaddedNameNeverMatches(input: string, stored: string)
    requires stored != [] && (IsSpace(stored[0]) || IsSpace(stored[|stored| - 1]))
    ensures Trim(input) != stored
  {
    TrimIsSlice(input);
  }

  /** The duplicate check of `register`: the `SELECT` of the clashing rows,
      then the `forEach` that flags the fields they carry. */
  method LookUpDuplicates(users: map<int, User>, nextId: int, phone: string, nickname: string)
    returns (errors: Duplicates)
    requires forall k :: k in users ==> 0 <= k < nextId
    ensures errors.phone <==> exists id :: id in users && users[id].phone == phone
    ensures errors.nickname <==> exists id :: id in users && users[id].nickname == nickname
  {
    var ids := KeysDescBelow(users.Keys, nextId);
    assert forall i :: 0 <= i < |ids| ==> ids[i] in ids;
    var rows := Clashing(users, ids, phone, nickname);
    errors := FindDuplicates(rows, phone, nickname);
    ClashingFlagsTakenFields(users, ids, phone, nickname, rows);
  }

  /** The clashing rows flag exactly the fields some user of the table
      already has. */
  lemma ClashingFlagsTakenFields(users: map<int, User>, ids: seq<int>, phone: string, nickname: string, rows: seq<User>)
    requires forall i :: 0 <= i < |ids| ==> ids[i] in users
    requires forall id :: id in users ==> id in ids
    requires rows == Clashing(users, ids, phone, nickname)
    ensures (exists i :: 0 <= i < |rows| && rows[i].phone == phone) <==> exists id :: id in users && users[id].phone == phone
    ensures (exists i :: 0 <= i < |rows| && rows[i].nickname == nickname) <==>
            exists id :: id in users && users[id].nickname == nickname
  {
    ClashingFlagsPhone(users, ids, phone, nickname, rows);
    ClashingFlagsNickname(users, ids, phone, nickname, rows);
  }

  lemma ClashingFlagsPhone(users: map<int, User>, ids: seq<int>, phone: string, nickname: string, rows: seq<User>)
    requires forall i :: 0 <= i < |ids| ==> ids[i] in users
    requires forall id :: id in users ==> id in ids
    requires rows == Clashing(users, ids, phone, nickname)
    ensures (exists i :: 0 <= i < |rows| && rows[i].phone == phone) <==> exists id :: id in users && users[id].phone == phone
  {
    if exists id :: id in users && users[id].phone == phone {
      var id :| id in users && users[id].phone == phone;
      var j :| 0 <= j < |ids| && ids[j] == id;
      var i :| 0 <= i < |rows| && rows[i] == users[id];
    }
    if exists i :: 0 <= i < |rows| && rows[i].phone == phone {
      var i :| 0 <= i < |rows| && rows[i].phone == phone;
      assert rows[i] in rows;
    }
  }

  lemma ClashingFlagsNickname(users: map<int, User>, ids: seq<int>, phone: string, nickname: string, rows: seq<User>)
    requires forall i :: 0 <= i < |ids| ==> ids[i] in users
    requires forall id :: id in users ==> id in ids
    requires rows == Clashing(users, ids, phone, nickname)
    ensures (exists i :: 0 <= i < |rows| && rows[i].nickname == nickname) <==>
            exists id :: id in users && users[id].nickname == nickname
  {
    if exists id :: id in users && users[id].nickname == nickname {
      var id :| id in users && users[id].nickname == nickname;
      var j :| 0 <= j < |ids| && ids[j] == id;
      var i :| 0 <= i < |rows| && rows[i] == users[id];
    }
    if exists i :: 0 <= i < |rows| && rows[i].nickname == nickname {
      var i :| 0 <= i < |rows| && rows[i].nickname == nickname;
      assert rows[i] in rows;
    }
  }
}
