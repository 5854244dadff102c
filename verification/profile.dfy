/** The profile page: reading one's user row and renaming oneself under a
    nickname no other user has. */
module Profile {
  import opened Common
  import opened Schema

  /** `COUNT(*) … WHERE user_nickname = ? AND user_id != ?` is not zero.  A
      missing `user_id` compares as NULL, which matches no row. */
  predicate TakenByOther(users: map<int, User>, userId: Option<int>, nickname: string)
  {
    userId.Some? && exists id :: id in users && id != userId.value && users[id].nickname == nickname
  }

  /** No two users share a nickname. */
  predicate UniqueNicknames(users: map<int, User>)
  {
    forall a, b :: a in users && b in users && a != b ==> users[a].nickname != users[b].nickname
  }

  /** Keeping one's own nickname is never refused while nicknames are
      unique, and a nickname someone else holds always is. */
  lemma OwnNicknameNotTaken(users: map<int, User>, userId: int, other: int)
    requires UniqueNicknames(users)
    requires userId in users && other in users && other != userId
    ensures !TakenByOther(users, Some(userId), users[userId].nickname)
    ensures TakenByOther(users, Some(userId), users[other].nickname)
  {
  }

  /** A rename that passed the check keeps nicknames unique, and changes
      only that user's nickname. */
  lemma {:induction false} RenameKeepsUnique(users: map<int, User>, userId: int, nickname: string)
    requires UniqueNicknames(users)
    requires userId in users && !TakenByOther(users, Some(userId), nickname)
    ensures var after := users[userId := users[userId].(nickname := nickname)];
            && UniqueNicknames(after)
            && after[userId].nickname == nickname
            && (forall id :: id in users && id != userId ==> after[id] == users[id])
  {
    var after := users[userId := users[userId].(nickname := nickname)];
    forall a, b | a in after && b in after && a != b
      ensures after[a].nickname != after[b].nickname
    {
      if a == userId {
        assert b in users && b != userId;
      } else if b == userId {
        assert a in users && a != userId;
      } else {
        assert after[a] == users[a] && after[b] == users[b];
      }
    }
  }

  /** The users table as the profile handlers see it. */
  class ProfileDb {
    var users: map<int, User>

    constructor (users: map<int, User>)
      ensures this.users == users
    {
      this.users := users;
    }

    /** `getProfile`: the whole row, or 404 when no user has that key. */
    method GetProfile(userId: int, fault: Fault) returns (code: int, user: Option<User>)
      ensures FailsAt(fault, 0) ==> code == SERVER_ERROR && user.None?
      ensures !FailsAt(fault, 0) ==> (code == NOT_FOUND <==> userId !in users)
      ensures code == OK <==> !FailsAt(fault, 0) && userId in users
      ensures code == OK ==> user == Some(users[userId])
      ensures code != OK ==> user.None?
    {
      if FailsAt(fault, 0) {
        return SERVER_ERROR, None;
      }
      if userId !in users {
        return NOT_FOUND, None;
      }
      return OK, Some(users[userId]);
    }

    /** `updateNickname`: 400 when another user holds the nickname, else
        the update, which answers 404 when no row has the key (a missing
        `user_id` included); only that user's nickname changes. */
    method UpdateNickname(userId: Option<int>, nickname: string, fault: Fault) returns (code: int)
      modifies this
      ensures FailsAt(fault, 0) ==> code == SERVER_ERROR
      ensures !FailsAt(fault, 0) && TakenByOther(old(users), userId, nickname) ==> code == BAD_REQUEST
      ensures !FailsAt(fault, 0) && !TakenByOther(old(users), userId, nickname) && !FailsAt(fault, 1) ==>
                code == (if userId.Some? && userId.value in old(users) then OK else NOT_FOUND)
      ensures code == OK <==>
                !FailsBefore(fault, 2) && !TakenByOther(old(users), userId, nickname)
                && userId.Some? && userId.value in old(users)
      ensures code != OK ==> users == old(users)
      ensures code == OK ==> users == old(users)[userId.value := old(users)[userId.value].(nickname := nickname)]
      ensures UniqueNicknames(old(users)) ==> UniqueNicknames(users)
    {
      if FailsAt(fault, 0) {
        return SERVER_ERROR;
      }
      if userId.Some? && exists id :: id in users && id != userId.value && users[id].nickname == nickname {
        return BAD_REQUEST;
      }
      if FailsAt(fault, 1) {
        return SERVER_ERROR;
      }
      if userId.None? || userId.value !in users {
        return NOT_FOUND;
      }
      if UniqueNicknames(users) {
        RenameKeepsUnique(users, userId.value, nickname);
      }
      users := users[userId.value := users[userId.value].(nickname := nickname)];
      code := OK;
    }
  }
}
