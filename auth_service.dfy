/**
 * `AuthService` (epicevents/app/auth/service.py): user administration over
 * the `users` table. Password hashing and token signing are abstract: a
 * `Hasher` stands for argon2, and a token is represented by the payload it
 * carries (what `decode_access_token` gives back for a token it accepts).
 */
module AuthService {
  import opened Wrappers
  import opened Rows
  import opened AuthModels
  import opened Errors
  import opened BaseRepository
  import ClientModel
  import ContractModel
  import EventModel
  import ClientRepo
  import ContractRepo
  import EventRepo

  /** `hash_password` and `verify_password`. */
  datatype Hasher = Hasher(hash: string -> string, verify: (string, string) -> bool)

  /** The one property assumed of the hasher: a password verifies against its own hash. */
  ghost predicate Sound(h: Hasher) {
    forall p :: h.verify(p, h.hash(p))
  }

  /** The claims `authenticate` signs into the token (the expiry is left to the token layer). */
  datatype TokenData = TokenData(userId: int, email: string, department: string, employeeId: string)

  /** No two users share an email (the column's unique constraint). */
  ghost predicate UniqueEmails(rows: map<int, User>) {
    forall i, j :: i in rows && j in rows && rows[i].email == rows[j].email ==> i == j
  }

  /**
   * `create_user(...)`: refused when any user already has this email or this
   * employee id; otherwise an active user with the hashed password is stored.
   */
  method CreateUser(users: Table<User>, employeeId: string, fullName: string, email: string, password: string,
                    department: Department, h: Hasher, now: int) returns (r: Result<(int, User)>)
    requires users.Valid()
    modifies users
    ensures users.Valid()
    ensures (exists id :: id in old(users.rows) && (old(users.rows)[id].email == email || old(users.rows)[id].employeeId == employeeId))
      ==> r == Err(DuplicateUser) && users.rows == old(users.rows)
    ensures (forall id :: id in old(users.rows) ==> old(users.rows)[id].email != email && old(users.rows)[id].employeeId != employeeId)
      ==> && r.Ok? && r.value.0 !in old(users.rows)
          && r.value.1 == NewUser(employeeId, fullName, email, h.hash(password), department, now)
          && users.rows == old(users.rows)[r.value.0 := r.value.1]
    ensures r.Ok? ==> r.value.1.isActive && r.value.1.department == department
    ensures r.Ok? && Sound(h) ==> h.verify(password, r.value.1.passwordHash)
  {
    if exists id :: id in users.rows && (users.rows[id].email == email || users.rows[id].employeeId == employeeId) {
      return Err(DuplicateUser);
    }
    var user := NewUser(employeeId, fullName, email, h.hash(password), department, now);
    var id := users.Create(user);
    r := Ok((id, user));
  }

  /** The claims of the token issued to user `id`. */
  function TokenFor(id: int, u: User): (t: TokenData)
    ensures t.userId == id && t.email == u.email && t.employeeId == u.employeeId
    ensures DepartmentNamed(t.department) == Some(u.department)
  {
    TokenData(id, u.email, u.department.Text(), u.employeeId)
  }

  /**
   * `authenticate(email, password)`: `.first()` user with that email; `None`
   * when there is none, when it is inactive, or when the password does not
   * verify; otherwise the token for it.
   */
  method Authenticate(users: Table<User>, email: string, password: string, h: Hasher) returns (r: Option<TokenData>)
    requires users.Valid()
    ensures (forall id :: id in users.rows ==> users.rows[id].email != email) ==> r.None?
    ensures r.Some? ==>
      var id := r.value.userId;
      && id in users.rows && users.rows[id].email == email && users.rows[id].isActive
      && h.verify(password, users.rows[id].passwordHash)
      && r.value == TokenFor(id, users.rows[id])
      && GetCurrentUser(users, r) == Some(Identity(id, users.rows[id]))
    ensures UniqueEmails(users.rows) ==>
      (r.Some? <==> exists id :: id in users.rows && users.rows[id].email == email && users.rows[id].isActive
                                 && h.verify(password, users.rows[id].passwordHash))
  {
    if !exists id :: id in users.rows && users.rows[id].email == email {
      return None;
    }
    var id :| id in users.rows && users.rows[id].email == email;
    var user := users.rows[id];
    if !user.isActive {
      return None;
    }
    if !h.verify(password, user.passwordHash) {
      return None;
    }
    r := Some(TokenFor(id, user));
  }

  /**
   * `get_current_user(token)`: the user named by the token's `user_id`;
   * `None` for a token that does not decode, for a falsy id, or for an id
   * no user has. Whether the user is active is not looked at.
   */
  function GetCurrentUser(users: Table<User>, payload: Option<TokenData>): (r: Option<Identity>)
    reads users
    ensures r.Some? <==> payload.Some? && payload.value.userId != 0 && payload.value.userId in users.rows
    ensures r.Some? ==> r.value == Identity(payload.value.userId, users.rows[payload.value.userId])
  {
    match payload
    case None => None
    case Some(p) =>
      if p.userId == 0 then None
      else match users.GetById(p.userId)
        case Some(u) => Some(Identity(p.userId, u))
        case None => None
  }

  /** A deactivated user's token keeps resolving to that user. */
  lemma InactiveUserStillResolves(users: Table<User>, id: int)
    requires users.Valid() && id in users.rows && !users.rows[id].isActive
    ensures GetCurrentUser(users, Some(TokenFor(id, users.rows[id]))) == Some(Identity(id, users.rows[id]))
  {
  }

  /**
   * `update_user(user_id, ...)`: "User not found" for an absent id;
   * otherwise `full_name`, `email` and `department` change only when given
   * and truthy, `is_active` whenever given; nothing else changes (no
   * `updated_at` refresh).
   */
  method UpdateUser(users: Table<User>, userId: int, fullName: Option<string>, email: Option<string>,
                    department: Option<Department>, isActive: Option<bool>) returns (r: Result<User>)
    requires users.Valid()
    modifies users
    ensures users.Valid() && users.nextId == old(users.nextId)
    ensures userId !in old(users.rows) ==> r == Err(UserNotFound) && users.rows == old(users.rows)
    ensures userId in old(users.rows) ==>
      var u := old(users.rows)[userId];
      && r == Ok(u.(fullName := if fullName.Some? && fullName.value != "" then fullName.value else u.fullName,
                    email := if email.Some? && email.value != "" then email.value else u.email,
                    department := department.GetOr(u.department),
                    isActive := isActive.GetOr(u.isActive)))
      && users.rows == old(users.rows)[userId := r.value]
  {
    var found := users.GetById(userId);
    if found.None? {
      return Err(UserNotFound);
    }
    var user := found.value;
    if fullName.Some? && fullName.value != "" {
      user := user.(fullName := fullName.value);
    }
    if email.Some? && email.value != "" {
      user := user.(email := email.value);
    }
    if department.Some? {
      user := user.(department := department.value);
    }
    if isActive.Some? {
      user := user.(isActive := isActive.value);
    }
    users.Save(userId, user);
    r := Ok(user);
  }

  /**
   * `change_password(user_id, new_password)`: false for an absent id;
   * otherwise the stored hash is replaced and the new password verifies.
   */
  method ChangePassword(users: Table<User>, userId: int, newPassword: string, h: Hasher) returns (changed: bool)
    requires users.Valid()
    modifies users
    ensures users.Valid() && users.nextId == old(users.nextId)
    ensures changed <==> userId in old(users.rows)
    ensures !changed ==> users.rows == old(users.rows)
    ensures changed ==>
      users.rows == old(users.rows)[userId := old(users.rows)[userId].(passwordHash := h.hash(newPassword))]
    ensures changed && Sound(h) ==> h.verify(newPassword, users.rows[userId].passwordHash)
  {
    var found := users.GetById(userId);
    if found.None? {
      return false;
    }
    users.Save(userId, found.value.(passwordHash := h.hash(newPassword)));
    changed := true;
  }

  /**
   * What the ORM does to the clients of a deleted user: the relationship
   * `User.clients` has no delete cascade, so at flush every client whose
   * `commercial_id` named the user gets `commercial_id = NULL`.
   */
  function UnlinkClients(rows: map<int, ClientModel.Client>, userId: int): (r: map<int, ClientModel.Client>)
    ensures r.Keys == rows.Keys
    ensures forall id :: id in r ==> r[id].commercialId != Some(userId)
    ensures forall id :: id in r ==> r[id].(commercialId := rows[id].commercialId) == rows[id]
    ensures forall id :: id in r && rows[id].commercialId != Some(userId) ==> r[id] == rows[id]
  {
    map id | id in rows :: if rows[id].commercialId == Some(userId) then rows[id].(commercialId := None) else rows[id]
  }

  /** The same for `User.contracts`: `contracts.commercial_id` naming the user becomes NULL. */
  function UnlinkContracts(rows: map<int, ContractModel.Contract>, userId: int): (r: map<int, ContractModel.Contract>)
    ensures r.Keys == rows.Keys
    ensures forall id :: id in r ==> r[id].commercialId != Some(userId)
    ensures forall id :: id in r ==> r[id].(commercialId := rows[id].commercialId) == rows[id]
    ensures forall id :: id in r && rows[id].commercialId != Some(userId) ==> r[id] == rows[id]
  {
    map id | id in rows :: if rows[id].commercialId == Some(userId) then rows[id].(commercialId := None) else rows[id]
  }

  /** The same for `User.events`: `events.support_contact_id` naming the user becomes NULL. */
  function UnlinkEvents(rows: map<int, EventModel.Event>, userId: int): (r: map<int, EventModel.Event>)
    ensures r.Keys == rows.Keys
    ensures forall id :: id in r ==> r[id].supportContactId != Some(userId)
    ensures forall id :: id in r ==> r[id].(supportContactId := rows[id].supportContactId) == rows[id]
    ensures forall id :: id in r && rows[id].supportContactId != Some(userId) ==> r[id] == rows[id]
  {
    map id | id in rows :: if rows[id].supportContactId == Some(userId) then rows[id].(supportContactId := None) else rows[id]
  }

  /**
   * `delete_user(user_id)`: true and the user removed when present; false
   * and no change otherwise. Removing the user also unlinks the clients,
   * contracts and events that referred to it.
   */
  method DeleteUser(users: Table<User>, clients: Table<ClientModel.Client>, contracts: Table<ContractModel.Contract>,
                    events: Table<EventModel.Event>, userId: int) returns (deleted: bool)
    requires users.Valid() && clients.Valid() && contracts.Valid() && events.Valid()
    modifies users, clients, contracts, events
    ensures users.Valid() && clients.Valid() && contracts.Valid() && events.Valid()
    ensures deleted <==> userId in old(users.rows)
    ensures users.rows == old(users.rows) - {userId}
    ensures deleted ==> && clients.rows == UnlinkClients(old(clients.rows), userId)
                        && contracts.rows == UnlinkContracts(old(contracts.rows), userId)
                        && events.rows == UnlinkEvents(old(events.rows), userId)
    ensures !deleted ==> && clients.rows == old(clients.rows)
                         && contracts.rows == old(contracts.rows)
                         && events.rows == old(events.rows)
  {
    deleted := users.Delete(userId);
    if deleted {
      clients.rows := UnlinkClients(clients.rows, userId);
      contracts.rows := UnlinkContracts(contracts.rows, userId);
      events.rows := UnlinkEvents(events.rows, userId);
    }
  }

  /**
   * After the unlinking nothing is owned by or assigned to the deleted user
   * any more, and what it owned is now listed as unowned.
   */
  lemma UnlinkedRowsAreOrphans(clients: map<int, ClientModel.Client>, contracts: map<int, ContractModel.Contract>,
                               events: map<int, EventModel.Event>, userId: int)
    ensures ClientRepo.ByCommercial(UnlinkClients(clients, userId), userId) == map[]
    ensures ContractRepo.ByCommercial(UnlinkContracts(contracts, userId), userId) == map[]
    ensures EventRepo.BySupportContact(UnlinkEvents(events, userId), userId) == map[]
    ensures ClientRepo.ByCommercial(clients, userId).Keys <= ClientRepo.WithoutCommercial(UnlinkClients(clients, userId)).Keys
    ensures EventRepo.BySupportContact(events, userId).Keys <= EventRepo.WithoutSupport(UnlinkEvents(events, userId)).Keys
  {
  }
}
