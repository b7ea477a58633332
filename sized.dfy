/**
 * The validated users, creation commands and keyed repositories of
 * `1_concepts/1_7_sized`. A user and a command are built only through
 * constructors that check the email and then the id; the in-memory and the
 * mock repositories keep users in a map keyed by id, and the mock also
 * counts its `add` calls and can be told to refuse them.
 */
module SizedUsers {
  import opened Wrappers
  import opened Integers
  import opened Text

  /** `UserError`. */
  datatype UserError = AlreadyExists(id: U64) | NotFound(id: U64) | InvalidEmail(email: string) | InvalidId(id: U64)

  /**
   * The email check shared by `User::new` and `CreateUser::new`: an '@'
   * somewhere, at most 255 bytes of UTF-8, and not empty.
   */
  predicate EmailAccepted(email: string) {
    '@' in email && ByteLen(email) <= 255 && email != []
  }

  /** An email that holds an '@' is not empty, so the last check never decides. */
  lemma EmptyEmailHasNoAt(email: string)
    ensures EmailAccepted(email) <==> '@' in email && ByteLen(email) <= 255
  {
  }

  /** `User`: a value that repositories store by copy. */
  datatype User = User(id: U64, email: string, activated: bool)
  {
    /**
     * `User::new`: the email is checked before the id, and a new user is
     * not activated.
     */
    static function New(id: U64, email: string): (r: Result<User, UserError>)
      ensures r.Success? <==> EmailAccepted(email) && id != 0
      ensures !EmailAccepted(email) ==> r == Failure(InvalidEmail(email))
      ensures EmailAccepted(email) && id == 0 ==> r == Failure(InvalidId(0))
      ensures r.Success? ==> r.value.id == id && r.value.email == email && !r.value.IsActivated()
    {
      if !('@' in email) || ByteLen(email) > 255 || email == [] then Failure(InvalidEmail(email))
      else if id == 0 then Failure(InvalidId(id))
      else Success(User(id, email, false))
    }

    /** `is_activated`. */
    predicate IsActivated() {
      activated
    }

    /** `activate`: the same user with the flag set. */
    function Activate(): (r: User)
      ensures r.IsActivated()
      ensures r.id == id && r.email == email
    {
      this.(activated := true)
    }
  }

  /** Activating twice is activating once, and nothing but the flag changes. */
  lemma ActivateIdempotent(u: User)
    ensures u.Activate().Activate() == u.Activate()
    ensures u.Activate() == u <==> u.IsActivated()
  {
  }

  /** `CreateUser`: a command whose fields a caller may also fill in directly. */
  datatype CreateUser = CreateUser(id: U64, email: string)
  {
    /** `CreateUser::new`: the checks of `User::new`, in the same order. */
    static function New(id: U64, email: string): (r: Result<CreateUser, UserError>)
      ensures r.Success? <==> EmailAccepted(email) && id != 0
      ensures !EmailAccepted(email) ==> r == Failure(InvalidEmail(email))
      ensures EmailAccepted(email) && id == 0 ==> r == Failure(InvalidId(0))
      ensures r.Success? ==> r.value == CreateUser(id, email)
    {
      if !('@' in email) || ByteLen(email) > 255 || email == [] then Failure(InvalidEmail(email))
      else if id == 0 then Failure(InvalidId(id))
      else Success(CreateUser(id, email))
    }
  }

  /** The two constructors accept the same inputs and report the same errors. */
  lemma CommandAgreesWithUser(id: U64, email: string)
    ensures CreateUser.New(id, email).Success? <==> User.New(id, email).Success?
    ensures CreateUser.New(id, email).Failure? ==> CreateUser.New(id, email).error == User.New(id, email).error
  {
  }

  /**
   * `handle_command` for `CreateUser`, against a context seen through its
   * stored users: an id already present is refused, otherwise the outcome
   * of building the user. Nothing is stored.
   */
  function HandleCommand(cmd: CreateUser, stored: map<U64, User>): (r: Outcome<UserError>)
    ensures cmd.id in stored ==> r == Fail(AlreadyExists(cmd.id))
    ensures cmd.id !in stored ==> (r == Pass <==> User.New(cmd.id, cmd.email).Success?)
    ensures cmd.id !in stored && r != Pass ==> r == Fail(User.New(cmd.id, cmd.email).error)
  {
    if cmd.id in stored then Fail(AlreadyExists(cmd.id))
    else
      match User.New(cmd.id, cmd.email)
      case Failure(e) => Fail(e)
      case Success(_) => Pass
  }

  /** A command built by `CreateUser::new` is handled successfully exactly when its id is new. */
  lemma ValidatedCommandHandled(id: U64, email: string, stored: map<U64, User>)
    requires CreateUser.New(id, email).Success?
    ensures HandleCommand(CreateUser.New(id, email).value, stored) == Pass <==> id !in stored
  {
  }

  /** Every user is stored under its own id. */
  predicate KeyedById(users: map<U64, User>) {
    forall k | k in users :: users[k].id == k
  }

  /** `InMemoryUserRepository`. */
  class InMemoryUserRepository {
    var users: map<U64, User>

    /** The repository invariant: users are keyed by their ids. */
    predicate Valid()
      reads this
    {
      KeyedById(users)
    }

    /** `new` and `with_capacity`: an empty repository (the capacity is a hint only). */
    constructor New()
      ensures Valid() && users == map[]
    {
      users := map[];
    }

    /** `count`. */
    function Count(): (n: nat)
      reads this
      ensures n == 0 <==> users == map[]
    {
      |users|
    }

    /** `get`. */
    function Get(id: U64): (r: Option<User>)
      reads this
      ensures r.Some? ==> id in users && r.value == users[id]
      ensures r.None? ==> id !in users
    {
      if id in users then Some(users[id]) else None
    }

    /** `exists`, the trait's default: `get` found something. */
    predicate Exists(id: U64)
      reads this
      ensures Exists(id) <==> Get(id).Some?
    {
      id in users
    }

    /** `add`: refuses an id already present and leaves the map as it was. */
    method Add(user: User) returns (r: Outcome<UserError>)
      requires Valid()
      modifies this
      ensures Valid()
      ensures r == Pass <==> user.id !in old(users)
      ensures r == Pass ==> users == old(users)[user.id := user]
      ensures r != Pass ==> r == Fail(AlreadyExists(user.id)) && users == old(users)
    {
      if user.id in users {
        return Fail(AlreadyExists(user.id));
      }
      users := users[user.id := user];
      return Pass;
    }

    /** `update`: refuses an absent id, otherwise replaces the stored user. */
    method Update(user: User) returns (r: Outcome<UserError>)
      requires Valid()
      modifies this
      ensures Valid()
      ensures r == Pass <==> user.id in old(users)
      ensures r == Pass ==> users == old(users)[user.id := user]
      ensures r != Pass ==> r == Fail(NotFound(user.id)) && users == old(users)
    {
      if user.id !in users {
        return Fail(NotFound(user.id));
      }
      users := users[user.id := user];
      return Pass;
    }

    /** `remove`: hands back the stored user, if any, and forgets it. */
    method Remove(id: U64) returns (r: Option<User>)
      requires Valid()
      modifies this
      ensures Valid()
      ensures r == old(Get(id))
      ensures users == old(users) - {id}
    {
      r := Get(id);
      users := users - {id};
    }
  }

  /**
   * `MockUserRepository`. `callCountGet` is never changed by the source
   * (`get` takes `&self`).
   */
  class MockUserRepository {
    var users: map<U64, User>
    var callCountAdd: nat
    var callCountGet: nat
    var shouldFailAdd: bool

    /** The repository invariant: users are keyed by their ids. */
    predicate Valid()
      reads this
    {
      KeyedById(users)
    }

    /** `new` (`Default`): empty, counters at zero, not failing. */
    constructor New()
      ensures Valid()
      ensures users == map[] && callCountAdd == 0 && callCountGet == 0 && !shouldFailAdd
    {
      users := map[];
      callCountAdd := 0;
      callCountGet := 0;
      shouldFailAdd := false;
    }

    /**
     * `with_users`: inserts the users in order, so a later user replaces an
     * earlier one with the same id; the counters stay at zero.
     */
    constructor WithUsers(initial: seq<User>)
      ensures Valid()
      ensures users == MapOfUsers(initial)
      ensures callCountAdd == 0 && callCountGet == 0 && !shouldFailAdd
    {
      users := map[];
      callCountAdd := 0;
      callCountGet := 0;
      shouldFailAdd := false;
      new;
      for i := 0 to |initial|
        invariant users == MapOfUsers(initial[..i])
        invariant callCountAdd == 0 && callCountGet == 0 && !shouldFailAdd
      {
        assert initial[..i + 1][..i] == initial[..i];
        users := users[initial[i].id := initial[i]];
      }
      assert initial[..|initial|] == initial;
      MapOfUsersKeyedById(initial);
    }

    /** `get`. */
    function Get(id: U64): (r: Option<User>)
      reads this
      ensures r.Some? ==> id in users && r.value == users[id]
      ensures r.None? ==> id !in users
    {
      if id in users then Some(users[id]) else None
    }

    /** `exists`, the trait's default: `get` found something. */
    predicate Exists(id: U64)
      reads this
      ensures Exists(id) <==> Get(id).Some?
    {
      id in users
    }

    /**
     * `add`: counts the call first, whatever happens; when told to fail, or
     * when the id is present, refuses with `AlreadyExists` and stores nothing.
     */
    method Add(user: User) returns (r: Outcome<UserError>)
      requires Valid()
      modifies this
      ensures Valid()
      ensures callCountAdd == old(callCountAdd) + 1
      ensures callCountGet == old(callCountGet) && shouldFailAdd == old(shouldFailAdd)
      ensures r == Pass <==> !old(shouldFailAdd) && user.id !in old(users)
      ensures r == Pass ==> users == old(users)[user.id := user]
      ensures r != Pass ==> r == Fail(AlreadyExists(user.id)) && users == old(users)
    {
      callCountAdd := callCountAdd + 1;
      if shouldFailAdd {
        return Fail(AlreadyExists(user.id));
      }
      if user.id in users {
        return Fail(AlreadyExists(user.id));
      }
      users := users[user.id := user];
      return Pass;
    }

    /** `update`: refuses an absent id, otherwise replaces the stored user. */
    method Update(user: User) returns (r: Outcome<UserError>)
      requires Valid()
      modifies this
      ensures Valid()
      ensures callCountAdd == old(callCountAdd) && callCountGet == old(callCountGet)
      ensures shouldFailAdd == old(shouldFailAdd)
      ensures r == Pass <==> user.id in old(users)
      ensures r == Pass ==> users == old(users)[user.id := user]
      ensures r != Pass ==> r == Fail(NotFound(user.id)) && users == old(users)
    {
      if user.id !in users {
        return Fail(NotFound(user.id));
      }
      users := users[user.id := user];
      return Pass;
    }

    /** `remove`: hands back the stored user, if any, and forgets it. */
    method Remove(id: U64) returns (r: Option<User>)
      requires Valid()
      modifies this
      ensures Valid()
      ensures callCountAdd == old(callCountAdd) && callCountGet == old(callCountGet)
      ensures shouldFailAdd == old(shouldFailAdd)
      ensures r == old(Get(id))
      ensures users == old(users) - {id}
    {
      r := Get(id);
      users := users - {id};
    }

    /** Setting the public `should_fail_add` field. */
    method SetShouldFailAdd(fail: bool)
      modifies this
      ensures shouldFailAdd == fail
      ensures users == old(users) && callCountAdd == old(callCountAdd) && callCountGet == old(callCountGet)
    {
      shouldFailAdd := fail;
    }
  }

  /** The map that inserting `users` one after another into an empty map builds. */
  function MapOfUsers(users: seq<User>): map<U64, User> {
    if users == [] then map[]
    else
      var last := users[|users| - 1];
      MapOfUsers(users[..|users| - 1])[last.id := last]
  }

  /** The map built from a list of users holds exactly their ids, each under its own id. */
  lemma {:induction false} MapOfUsersKeyedById(users: seq<User>)
    ensures KeyedById(MapOfUsers(users))
    ensures forall k :: k in MapOfUsers(users) <==> exists i | 0 <= i < |users| :: users[i].id == k
  {
    if users != [] {
      var init := users[..|users| - 1];
      MapOfUsersKeyedById(init);
      forall k
        ensures k in MapOfUsers(users) <==> exists i | 0 <= i < |users| :: users[i].id == k
      {
        if k in MapOfUsers(init) {
          var i :| 0 <= i < |init| && init[i].id == k;
          assert users[i].id == k;
        }
        if i :| 0 <= i < |users| && users[i].id == k {
          if i < |users| - 1 {
            assert init[i].id == k;
          }
        }
      }
    }
  }

  /** The user stored under an id is the last one in the list with that id. */
  lemma {:induction false} MapOfUsersLastWins(users: seq<User>, i: nat)
    requires i < |users|
    requires forall j | i < j < |users| :: users[j].id != users[i].id
    ensures users[i].id in MapOfUsers(users) && MapOfUsers(users)[users[i].id] == users[i]
  {
    if i < |users| - 1 {
      var init := users[..|users| - 1];
      MapOfUsersLastWins(init, i);
    }
  }

  /** The addresses the tests build users and commands from are accepted. */
  lemma TestEmailAccepted(email: string, at: nat)
    requires email == "test@example.com" || email == "valid@example.com" || email == "some@some.some"
    requires at == if email == "valid@example.com" then 5 else 4
    ensures EmailAccepted(email)
  {
    assert email[at] == '@';
  }

  /** What the two constructors build from an accepted address. */
  lemma AcceptedEmailBuilds(id: U64, email: string)
    requires EmailAccepted(email)
    ensures id == 0 ==> User.New(id, email) == Failure(InvalidId(0)) && CreateUser.New(id, email) == Failure(InvalidId(0))
    ensures id != 0 ==> User.New(id, email) == Success(User(id, email, false))
    ensures id != 0 ==> CreateUser.New(id, email) == Success(CreateUser(id, email))
  {
  }

  /** The addresses without an '@' that the tests reject. */
  lemma NoAtRejected(email: string)
    requires email == "invalid.com" || email == "no-at-sign" || email == ""
    ensures !EmailAccepted(email)
    ensures User.New(1, email) == Failure(InvalidEmail(email))
    ensures CreateUser.New(1, email) == Failure(InvalidEmail(email))
  {
    assert '@' !in email;
  }

  /** The user the repository tests add. */
  function TestUser(): User {
    User(1, "test@example.com", false)
  }

  /** `test_trait_object_with_concrete_repo`: an added user is found through `get`. */
  method ConcreteRepositoryScenario() returns (found: Option<User>)
    ensures found == Some(TestUser())
  {
    var repo := new InMemoryUserRepository.New();
    var added := repo.Add(TestUser());
    found := repo.Get(1);
  }

  /** `test_add_and_get` and `test_add_duplicate_fails`: the second add is refused, and both are counted. */
  method MockAddScenario() returns (first: Outcome<UserError>, found: Option<User>, second: Outcome<UserError>, calls: nat)
    ensures first == Pass && found == Some(TestUser())
    ensures second == Fail(AlreadyExists(1)) && calls == 2
  {
    var mock := new MockUserRepository.New();
    first := mock.Add(TestUser());
    found := mock.Get(1);
    second := mock.Add(TestUser());
    calls := mock.callCountAdd;
  }

  /** `test_update_existing_user`: the activated copy replaces the stored user. */
  method UpdateScenario() returns (updated: Outcome<UserError>, activated: bool)
    ensures updated == Pass && activated
  {
    var mock := new MockUserRepository.New();
    var added := mock.Add(TestUser());
    var user := TestUser().Activate();
    updated := mock.Update(user);
    activated := mock.Get(1).Some? && mock.Get(1).value.IsActivated();
  }

  /** `test_update_nonexistent_fails`. */
  method UpdateMissingScenario() returns (r: Outcome<UserError>)
    ensures r == Fail(NotFound(999))
  {
    var mock := new MockUserRepository.New();
    r := mock.Update(User(999, "test@example.com", false));
  }

  /** `test_remove_user` and `test_exists`. */
  method RemoveScenario() returns (before: bool, after: bool, removed: Option<User>, gone: Option<User>)
    ensures !before && after
    ensures removed == Some(TestUser()) && gone == None
  {
    var mock := new MockUserRepository.New();
    before := mock.Exists(1);
    var added := mock.Add(TestUser());
    after := mock.Exists(1);
    removed := mock.Remove(1);
    gone := mock.Get(1);
  }

  /** `test_mock_can_simulate_failures`: the refused call is still counted and nothing is stored. */
  method FailingMockScenario() returns (r: Outcome<UserError>, calls: nat, stored: bool)
    ensures r.Fail? && calls == 1 && !stored
  {
    var mock := new MockUserRepository.New();
    mock.SetShouldFailAdd(true);
    r := mock.Add(TestUser());
    calls := mock.callCountAdd;
    stored := mock.Exists(1);
  }

  /** `test_mock_with_prepopulated_data`: users given to `with_users` are found by their ids. */
  method PrepopulatedScenario() returns (first: Option<User>, second: Option<User>)
    ensures first == Some(User(1, "user1@example.com", false))
    ensures second == Some(User(2, "user2@example.com", false))
  {
    var u1 := User(1, "user1@example.com", false);
    var u2 := User(2, "user2@example.com", false);
    var mock := new MockUserRepository.WithUsers([u1, u2]);
    MapOfUsersLastWins([u1, u2], 0);
    MapOfUsersLastWins([u1, u2], 1);
    first := mock.Get(1);
    second := mock.Get(2);
  }

  /**
   * `test_heterogeneous_repository_collection`: user 1 added to an
   * in-memory repository and user 2 added to a mock are each read back
   * from the repository that holds it, and neither holds the other's user.
   */
  method HeterogeneousRepositoriesScenario() returns (answers: seq<Option<User>>, crossed: seq<Option<User>>)
    ensures answers == [Some(User(1, "user1@example.com", false)), Some(User(2, "user2@example.com", false))]
    ensures crossed == [None, None]
  {
    var u1 := User(1, "user1@example.com", false);
    var u2 := User(2, "user2@example.com", false);
    var concrete := new InMemoryUserRepository.New();
    var mock := new MockUserRepository.New();
    var first := concrete.Add(u1);
    var second := mock.Add(u2);
    var a := concrete.Get(1);
    var b := mock.Get(2);
    answers := [a, b];
    var c := concrete.Get(2);
    var d := mock.Get(1);
    crossed := [c, d];
  }

  /**
   * The handler demonstration, where `email` is "some@some.some": id 2 is
   * new and id 1 is already stored.
   */
  method HandlerScenario(email: string) returns (accepted: Outcome<UserError>, taken: Outcome<UserError>)
    requires email == "some@some.some"
    ensures accepted == Pass && taken == Fail(AlreadyExists(1))
  {
    var repo := new InMemoryUserRepository.New();
    var added := repo.Add(User(1, "alice@example.com", false));
    TestEmailAccepted(email, 4);
    accepted := HandleCommand(CreateUser(2, email), repo.users);
    taken := HandleCommand(CreateUser(1, email), repo.users);
  }
}
