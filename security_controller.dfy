/** User registration (backend/Controllers/SecurityController.cs, Register). */
module SecurityController {
  import opened Wrappers
  import opened Strings
  import opened Exceptions
  import opened Models
  import opened Collaborators
  import opened Http

  /** The request body; either field may be null. */
  datatype RegisterDto = RegisterDto(userName: Option<string>, password: Option<string>)

  const EmptyCredentialsMessage: string := "Empty username or password!"
  const UserExistsMessage: string := "User exist!"

  /** The argument handed to string.Equals(object): a string, or a login row. */
  datatype Object = StringObject(text: string) | LoginObject(login: UserLogin)

  /** string.Equals(object): true only for a string with the same characters. */
  predicate StringEqualsObject(s: string, o: Object) {
    o.StringObject? && o.text == s
  }

  /** No two rows share a user name. */
  predicate UniqueUsernames(logins: seq<UserLogin>) {
    forall i, j :: 0 <= i < j < |logins| ==> logins[i].username != logins[j].username
  }

  /** `FirstOrDefault(user => user.Username.Equals(user))` as written: the
      lambda's `user` is the row itself, so each row's name is compared
      with the row, not with the requested name. */
  function FindDuplicateAsWritten(logins: seq<UserLogin>): (found: Option<UserLogin>)
    ensures found.Some? ==> found.value in logins
  {
    if logins == [] then None
    else if StringEqualsObject(logins[0].username, LoginObject(logins[0])) then Some(logins[0])
    else FindDuplicateAsWritten(logins[1..])
  }

  /** The duplicate test as intended: the first row with the requested name. */
  function FindDuplicate(logins: seq<UserLogin>, name: string): (found: Option<UserLogin>)
    ensures found.Some? ==> found.value in logins && found.value.username == name
    ensures found.None? <==> forall u :: u in logins ==> u.username != name
  {
    if logins == [] then None
    else if logins[0].username == name then Some(logins[0])
    else FindDuplicate(logins[1..], name)
  }

  /** The as-written test never finds anything, whatever the table holds. */
  lemma {:induction false} AsWrittenFindsNothing(logins: seq<UserLogin>)
    ensures FindDuplicateAsWritten(logins) == None
  {
    if logins != [] {
      AsWrittenFindsNothing(logins[1..]);
    }
  }

  /** With "alice" registered, a second "alice" passes the as-written test
      and its row breaks the uniqueness of user names; the intended test
      refuses it. */
  lemma SecondAliceIsAdmitted()
    ensures var logins := [UserLogin("alice", "first")];
      && FindDuplicateAsWritten(logins) == None
      && FindDuplicate(logins, "alice") == Some(UserLogin("alice", "first"))
      && UniqueUsernames(logins)
      && !UniqueUsernames(logins + [UserLogin("alice", "second")])
  {
    var logins := [UserLogin("alice", "first")];
    AsWrittenFindsNothing(logins);
    var after := logins + [UserLogin("alice", "second")];
    assert after[0].username == after[1].username;
  }

  /** Register as written.  `db.readError` is what GetAllAsync throws (not
      caught), `db.saveError` what CompleteAsync throws; a user name already
      in the table is not refused. */
  method RegisterAsWritten(dto: RegisterDto, db: Database, uow: UnitOfWork)
    returns (r: Result<ActionResult, Exception>, calls: seq<Call>)
    modifies uow`userLogins
    ensures IsNullOrEmpty(dto.userName) || IsNullOrEmpty(dto.password) ==>
      r == Success(BadRequest(EmptyCredentialsMessage)) && calls == [] && uow.userLogins == old(uow.userLogins)
    ensures !IsNullOrEmpty(dto.userName) && !IsNullOrEmpty(dto.password) ==>
      && (db.readError.Some? ==>
            r == Failure(db.readError.value) && calls == [ReadLogins] && uow.userLogins == old(uow.userLogins))
      && (db.readError.None? && db.saveError.Some? ==>
            r == Success(BadRequest(db.saveError.value.message)) && calls == [ReadLogins, SaveChanges]
            && uow.userLogins == old(uow.userLogins))
      && (db.readError.None? && db.saveError.None? ==>
            r == Success(ActionResult(StatusOk, NoBody)) && calls == [ReadLogins, SaveChanges]
            && uow.userLogins == old(uow.userLogins) + [UserLogin(dto.userName.value, dto.password.value)])
  {
    if IsNullOrEmpty(dto.userName) || IsNullOrEmpty(dto.password) {
      return Success(BadRequest(EmptyCredentialsMessage)), [];
    }
    var user, pwd := dto.userName.value, dto.password.value;
    calls := [ReadLogins];
    if db.readError.Some? {
      return Failure(db.readError.value), calls;
    }
    var duplicate := FindDuplicateAsWritten(uow.userLogins);
    AsWrittenFindsNothing(uow.userLogins);
    if duplicate.Some? {
      return Success(BadRequest(UserExistsMessage)), calls;
    }
    calls := calls + [SaveChanges];
    if db.saveError.Some? {
      return Success(BadRequest(db.saveError.value.message)), calls;
    }
    uow.userLogins := uow.userLogins + [UserLogin(user, pwd)];
    r := Success(ActionResult(StatusOk, NoBody));
  }

  /** Register with the duplicate test comparing against the requested
      name: a taken name is refused, and unique user names stay unique. */
  method Register(dto: RegisterDto, db: Database, uow: UnitOfWork)
    returns (r: Result<ActionResult, Exception>, calls: seq<Call>)
    modifies uow`userLogins
    ensures IsNullOrEmpty(dto.userName) || IsNullOrEmpty(dto.password) ==>
      r == Success(BadRequest(EmptyCredentialsMessage)) && calls == [] && uow.userLogins == old(uow.userLogins)
    ensures !IsNullOrEmpty(dto.userName) && !IsNullOrEmpty(dto.password) ==>
      var taken := FindDuplicate(old(uow.userLogins), dto.userName.value).Some?;
      && (db.readError.Some? ==>
            r == Failure(db.readError.value) && calls == [ReadLogins] && uow.userLogins == old(uow.userLogins))
      && (db.readError.None? && taken ==>
            r == Success(BadRequest(UserExistsMessage)) && calls == [ReadLogins]
            && uow.userLogins == old(uow.userLogins))
      && (db.readError.None? && !taken && db.saveError.Some? ==>
            r == Success(BadRequest(db.saveError.value.message)) && calls == [ReadLogins, SaveChanges]
            && uow.userLogins == old(uow.userLogins))
      && (db.readError.None? && !taken && db.saveError.None? ==>
            r == Success(ActionResult(StatusOk, NoBody)) && calls == [ReadLogins, SaveChanges]
            && uow.userLogins == old(uow.userLogins) + [UserLogin(dto.userName.value, dto.password.value)])
    ensures UniqueUsernames(old(uow.userLogins)) ==> UniqueUsernames(uow.userLogins)
  {
    if IsNullOrEmpty(dto.userName) || IsNullOrEmpty(dto.password) {
      return Success(BadRequest(EmptyCredentialsMessage)), [];
    }
    var user, pwd := dto.userName.value, dto.password.value;
    calls := [ReadLogins];
    if db.readError.Some? {
      return Failure(db.readError.value), calls;
    }
    var duplicate := FindDuplicate(uow.userLogins, user);
    if duplicate.Some? {
      return Success(BadRequest(UserExistsMessage)), calls;
    }
    calls := calls + [SaveChanges];
    if db.saveError.Some? {
      return Success(BadRequest(db.saveError.value.message)), calls;
    }
    AdmitKeepsUnique(uow.userLogins, UserLogin(user, pwd));
    uow.userLogins := uow.userLogins + [UserLogin(user, pwd)];
    r := Success(ActionResult(StatusOk, NoBody));
  }

  /** Appending a row whose name no row has keeps the names unique. */
  lemma AdmitKeepsUnique(logins: seq<UserLogin>, login: UserLogin)
    requires FindDuplicate(logins, login.username).None?
    ensures UniqueUsernames(logins) ==> UniqueUsernames(logins + [login])
  {
    var after := logins + [login];
    if UniqueUsernames(logins) {
      forall i, j | 0 <= i < j < |after| ensures after[i].username != after[j].username {
        if j == |logins| {
          assert after[i] == logins[i] && logins[i] in logins;
        }
      }
    }
  }
}
