/** Registration and login. Password hashing is a foreign library: a
    registration receives the hash it stores, and a login receives the
    library's check as a function. */
module Auth {
  import opened Types
  import opened Store

  /** The identity a successful login places in the session. */
  datatype Session = Session(userId: Id, username: string)

  predicate EmailTaken(st: State, email: string) {
    exists u :: u in st.users && st.users[u].email == email
  }

  /** The first user, in identifier (that is, insertion) order from `from`
      below `bound`, whose email is `email`. */
  function FirstWithEmail(users: map<Id, User>, email: string, from: nat, bound: nat): (r: Option<Id>)
    ensures r.Some? ==> from <= r.value < bound && r.value in users && users[r.value].email == email
    ensures r.Some? ==> forall u :: from <= u < r.value && u in users ==> users[u].email != email
    ensures r.None? ==> forall u :: from <= u < bound && u in users ==> users[u].email != email
    decreases bound - from
  {
    if from >= bound then None
    else if from in users && users[from].email == email then Some(from)
    else FirstWithEmail(users, email, from + 1, bound)
  }

  /** Adds a user unless the email is already stored. The stored password is
      the hash handed in. */
  function Register(st: State, username: string, email: string, hash: Hash): (r: Step<Id>)
    requires IdsBelowCounter(st)
    ensures EmailTaken(st, email) ==> r == Step(st, Err(DuplicateEmail))
    ensures !EmailTaken(st, email) ==>
      && r.out.Ok?
      && var u := r.out.value;
      && u !in st.users && u !in st.stories && u !in st.nodes
      && r.st.users.Keys == st.users.Keys + {u}
      && r.st.users[u] == User(username, email, hash, [])
      && (forall v :: v in st.users ==> r.st.users[v] == st.users[v])
      && r.st.stories == st.stories
      && r.st.nodes == st.nodes
      && IdsBelowCounter(r.st)
  {
    if EmailTaken(st, email) then Step(st, Err(DuplicateEmail))
    else
      var userId := st.nextId;
      Step(st.(users := st.users[userId := User(username, email, hash, [])], nextId := st.nextId + 1),
           Ok(userId))
  }

  /** Looks the email up and checks the password against the stored hash. */
  function Login(st: State, email: string, password: string, checkpw: (string, Hash) -> bool): (r: Result<Session, Error>)
    ensures r.Err? ==> r.error == InvalidCredentials
    ensures r.Ok? ==>
      && r.value.userId in st.users
      && st.users[r.value.userId].email == email
      && checkpw(password, st.users[r.value.userId].password)
      && r.value.username == st.users[r.value.userId].username
  {
    match FirstWithEmail(st.users, email, 0, st.nextId)
    case None => Err(InvalidCredentials)
    case Some(u) =>
      if checkpw(password, st.users[u].password) then Ok(Session(u, st.users[u].username))
      else Err(InvalidCredentials)
  }

  /** In a valid store, login succeeds exactly when the email belongs to a
      user whose stored hash accepts the password. */
  lemma LoginSucceedsIff(st: State, email: string, password: string, checkpw: (string, Hash) -> bool)
    requires Valid(st)
    ensures Login(st, email, password, checkpw).Ok? <==>
      exists u :: u in st.users && st.users[u].email == email && checkpw(password, st.users[u].password)
  {
  }

  /** Registration keeps emails unique and every other invariant. */
  lemma RegisterPreservesValid(st: State, username: string, email: string, hash: Hash)
    requires Valid(st)
    ensures Valid(Register(st, username, email, hash).st)
  {
  }

  /** Once registered, a user can log in with a password the stored hash
      accepts, and the session carries the registered name. */
  lemma RegisterThenLogin(st: State, username: string, email: string, password: string, hash: Hash,
                          checkpw: (string, Hash) -> bool)
    requires Valid(st) && !EmailTaken(st, email) && checkpw(password, hash)
    ensures var r := Register(st, username, email, hash);
      Login(r.st, email, password, checkpw) == Ok(Session(r.out.value, username))
  {
  }

  /** A second registration with the same email fails and leaves the first
      user's record as it was. */
  lemma DuplicateRegistrationRejected(st: State, name1: string, name2: string, email: string, hash1: Hash, hash2: Hash)
    requires IdsBelowCounter(st) && !EmailTaken(st, email)
    ensures var first := Register(st, name1, email, hash1);
      && Register(first.st, name2, email, hash2) == Step(first.st, Err(DuplicateEmail))
      && first.st.users[first.out.value] == User(name1, email, hash1, [])
  {
  }
}
