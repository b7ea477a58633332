/**
 * The immutable users repository of `3_ecosystem/3_5_collections`: validated
 * identifiers and nicknames, a persistent map from ids to users that is
 * copied on every insert, and the three read-only queries of the
 * `UsersRepository` interface.
 *
 * The persistent map is a `BTreeMap` behind an `Arc`; it is modelled by its
 * contents, a list of entries in strictly ascending key order, which is the
 * order its `values()` iterator yields them in. Being a value, an inserted
 * copy cannot share or disturb the map it was made from.
 */
module Collections {
  import opened Wrappers
  import opened Integers
  import opened Text

  // ---------------------------------------------------------------------------
  // Validated identifiers
  // ---------------------------------------------------------------------------

  datatype UserIdError = ZeroValue

  /** A user id: a non-zero `u64`, ordered by its value. */
  datatype UserId = UserId(value: NonZeroU64)
  {
    /** `UserId::new`: zero is refused, any other value is kept. */
    static function New(value: U64): (r: Result<UserId, UserIdError>)
      ensures r.Success? <==> value != 0
      ensures r.Success? ==> r.value.Get() == value
      ensures r.Failure? ==> r.error == ZeroValue
    {
      if value == 0 then Failure(ZeroValue) else Success(UserId(value))
    }

    /** `UserId::get`. */
    function Get(): (n: U64)
      ensures n != 0
    {
      value
    }
  }

  /** Every id is what `UserId::new` makes of its value. */
  lemma UserIdRoundTrip(id: UserId)
    ensures UserId.New(id.Get()) == Success(id)
  {
  }

  datatype NicknameError = EmptyValue

  /** A nickname: any string that is not blank. */
  datatype Nickname = Nickname(value: string)
  {
    /** `Nickname::new`: a string that trims to nothing is refused; any other is kept as given. */
    static function New(value: string): (r: Result<Nickname, NicknameError>)
      ensures r.Failure? <==> AllWhitespace(value)
      ensures r.Success? ==> r.value.AsStr() == value
      ensures r.Failure? ==> r.error == NicknameError.EmptyValue
    {
      TrimEmptyIffAllWhitespace(value);
      if Trim(value) == [] then Failure(NicknameError.EmptyValue) else Success(Nickname(value))
    }

    /** `Nickname::as_str`. */
    function AsStr(): string {
      value
    }
  }

  datatype NicknameQueryError = EmptyValue

  /** A search query over nicknames: any string that is not blank. */
  datatype NicknameQuery = NicknameQuery(value: string)
  {
    /** `NicknameQuery::new`: a string that trims to nothing is refused; any other is kept as given. */
    static function New(value: string): (r: Result<NicknameQuery, NicknameQueryError>)
      ensures r.Failure? <==> AllWhitespace(value)
      ensures r.Success? ==> r.value.AsStr() == value
      ensures r.Failure? ==> r.error == NicknameQueryError.EmptyValue
    {
      TrimEmptyIffAllWhitespace(value);
      if Trim(value) == [] then Failure(NicknameQueryError.EmptyValue) else Success(NicknameQuery(value))
    }

    /** `NicknameQuery::as_str`. */
    function AsStr(): string {
      value
    }
  }

  /** A blank string is never a nickname, and a query keeps exactly what it was made from. */
  lemma NicknameRoundTrip(n: Nickname, q: NicknameQuery)
    requires !AllWhitespace(n.value) && !AllWhitespace(q.value)
    ensures Nickname.New(n.AsStr()) == Success(n)
    ensures NicknameQuery.New(q.AsStr()) == Success(q)
  {
  }

  datatype User = User(id: UserId, nickname: Nickname)

  // ---------------------------------------------------------------------------
  // The persistent map
  // ---------------------------------------------------------------------------

  datatype Entry = Entry(key: UserId, user: User)

  /** Keys strictly ascending: the order of a `BTreeMap`. */
  predicate Ascending(es: seq<Entry>) {
    forall i, j | 0 <= i < j < |es| :: es[i].key.value < es[j].key.value
  }

  /** `PersistentUsersMap`: the entries of the shared `BTreeMap`, in key order. */
  type PersistentUsersMap = es: seq<Entry> | Ascending(es) witness []

  /** Some entry of `es` has key `k`. */
  predicate HasKey(es: seq<Entry>, k: UserId) {
    exists i | 0 <= i < |es| :: es[i].key == k
  }

  /** The map the entries stand for. */
  function AsMap(es: seq<Entry>): (m: map<UserId, User>)
    ensures forall k :: k in m <==> HasKey(es, k)
  {
    if es == [] then map[]
    else
      var rest := AsMap(es[1..]);
      assert forall k | HasKey(es[1..], k) :: HasKey(es, k) by {
        forall k | HasKey(es[1..], k) ensures HasKey(es, k) {
          var i :| 0 <= i < |es| - 1 && es[1..][i].key == k;
          assert es[i + 1].key == k;
        }
      }
      assert forall k | HasKey(es, k) && k != es[0].key :: HasKey(es[1..], k) by {
        forall k | HasKey(es, k) && k != es[0].key ensures HasKey(es[1..], k) {
          var i :| 0 <= i < |es| && es[i].key == k;
          assert es[1..][i - 1].key == k;
        }
      }
      assert HasKey(es, es[0].key);
      rest[es[0].key := es[0].user]
  }

  /** Past the first entry of a map, every key is above the first one. */
  lemma KeysAbove(m: PersistentUsersMap)
    requires m != []
    ensures forall k | k in AsMap(m[1..]) :: m[0].key.value < k.value
  {
    forall k | k in AsMap(m[1..]) ensures m[0].key.value < k.value {
      var i :| 0 <= i < |m| - 1 && m[1..][i].key == k;
      assert m[i + 1] == m[1..][i];
    }
  }

  /** The first entry of a map is added on top of the rest, whose keyed-by-id invariant it keeps. */
  lemma AsMapRest(m: PersistentUsersMap)
    requires m != []
    ensures AsMap(m) == AsMap(m[1..])[m[0].key := m[0].user]
    ensures m[0].key !in AsMap(m[1..])
    ensures KeyedById(m) ==> KeyedById(m[1..])
  {
    KeysAbove(m);
    if KeyedById(m) {
      forall k | k in AsMap(m[1..]) ensures AsMap(m[1..])[k].id == k {
        assert k in AsMap(m) && AsMap(m)[k] == AsMap(m[1..])[k];
      }
    }
  }

  /** In a `BTreeMap` every key is stored once, so each entry is what the map holds. */
  lemma {:induction false} AsMapAt(m: PersistentUsersMap, i: nat)
    requires i < |m|
    ensures m[i].key in AsMap(m) && AsMap(m)[m[i].key] == m[i].user
  {
    assert HasKey(m, m[i].key);
    if i > 0 {
      AsMapAt(m[1..], i - 1);
      assert m[1..][i - 1] == m[i];
    }
  }

  /** `PersistentUsersMap::get`: the stored user for a present key, `None` otherwise. */
  function Get(m: PersistentUsersMap, id: UserId): (r: Option<User>)
    ensures r == if id in AsMap(m) then Some(AsMap(m)[id]) else None
  {
    if m == [] then None
    else if m[0].key == id then Some(m[0].user)
    else if id.value < m[0].key.value then
      KeysAbove(m);
      None
    else Get(m[1..], id)
  }

  /** `PersistentUsersMap::contains_key`. */
  function ContainsKey(m: PersistentUsersMap, id: UserId): (b: bool)
    ensures b <==> id in AsMap(m)
  {
    Get(m, id).Some?
  }

  /**
   * `PersistentUsersMap::insert`: a new map that holds the entry, replacing
   * any entry with the same key; the receiver is left as it was.
   */
  function Insert(m: PersistentUsersMap, id: UserId, user: User): (r: PersistentUsersMap)
    ensures AsMap(r) == AsMap(m)[id := user]
  {
    if m == [] then [Entry(id, user)]
    else if id.value < m[0].key.value then
      AsMapCons(Entry(id, user), m);
      [Entry(id, user)] + m
    else if id == m[0].key then
      AsMapCons(Entry(id, user), m[1..]);
      UpdateTwice(AsMap(m[1..]), id, m[0].user, user);
      [Entry(id, user)] + m[1..]
    else
      var rest := Insert(m[1..], id, user);
      KeysAbove(m);
      ConsAscending(m[0], rest);
      AsMapCons(m[0], rest);
      UpdateCommutes(AsMap(m[1..]), id, user, m[0].key, m[0].user);
      [m[0]] + rest
  }

  /** An entry below every key of a map can go in front of it. */
  lemma ConsAscending(e: Entry, rest: PersistentUsersMap)
    requires forall k | k in AsMap(rest) :: e.key.value < k.value
    ensures Ascending([e] + rest)
  {
    forall j | 0 <= j < |rest| ensures e.key.value < rest[j].key.value {
      assert HasKey(rest, rest[j].key);
    }
    assert forall j | 0 < j <= |rest| :: ([e] + rest)[j] == rest[j - 1];
  }

  /** The map of an entry followed by more entries. */
  lemma AsMapCons(e: Entry, es: seq<Entry>)
    ensures AsMap([e] + es) == AsMap(es)[e.key := e.user]
  {
    assert ([e] + es)[1..] == es;
  }

  lemma UpdateTwice<K, V>(m: map<K, V>, k: K, v: V, w: V)
    ensures m[k := v][k := w] == m[k := w]
  {
  }

  lemma UpdateCommutes<K, V>(m: map<K, V>, k: K, v: V, l: K, w: V)
    requires k != l
    ensures m[k := v][l := w] == m[l := w][k := v]
  {
  }

  /** `Insert` on a copy never disturbs the entries of any other key. */
  lemma InsertKeepsOthers(m: PersistentUsersMap, id: UserId, user: User, other: UserId)
    requires other != id
    ensures Get(Insert(m, id, user), other) == Get(m, other)
    ensures Get(Insert(m, id, user), id) == Some(user)
  {
  }

  /** Every entry's key is its user's id: what the repository stores. */
  predicate KeyedById(m: PersistentUsersMap) {
    forall k | k in AsMap(m) :: AsMap(m)[k].id == k
  }

  // ---------------------------------------------------------------------------
  // Building a repository
  // ---------------------------------------------------------------------------

  datatype UsersRepositoryError = DuplicateUserId(id: UserId)

  /** No two users share an id. */
  predicate DistinctIds(users: seq<User>) {
    forall i, j | 0 <= i < j < |users| :: users[i].id != users[j].id
  }

  /** The id of some user of `users`. */
  predicate HasId(users: seq<User>, id: UserId) {
    exists i | 0 <= i < |users| :: users[i].id == id
  }

  /** The position of the first user whose id an earlier user already has. */
  function FirstRepeat(users: seq<User>): (r: Option<nat>)
    ensures r.None? <==> DistinctIds(users)
    ensures r.Some? ==> r.value < |users| && DistinctIds(users[..r.value]) && HasId(users[..r.value], users[r.value].id)
  {
    if users == [] then None
    else
      var init := users[..|users| - 1];
      var rest := FirstRepeat(init);
      if rest.Some? then
        assert init[..rest.value] == users[..rest.value];
        assert forall i | 0 <= i < rest.value :: init[i] == users[i];
        rest
      else if HasId(init, users[|users| - 1].id) then
        Some(|users| - 1)
      else
        assert forall i | 0 <= i < |init| :: init[i] == users[i];
        None
  }

  /** A position whose id repeats an earlier one, itself preceded only by distinct ids, is the first repeat. */
  lemma {:induction false} FirstRepeatAt(users: seq<User>, k: nat)
    requires k < |users| && DistinctIds(users[..k]) && HasId(users[..k], users[k].id)
    ensures FirstRepeat(users) == Some(k)
  {
    var init := users[..|users| - 1];
    if k == |users| - 1 {
      assert init == users[..k];
    } else {
      assert init[..k] == users[..k];
      assert init[k] == users[k];
      FirstRepeatAt(init, k);
    }
  }

  /** The users keyed by id, a later user replacing an earlier one with the same id. */
  function MapOf(users: seq<User>): map<UserId, User> {
    if users == [] then map[]
    else MapOf(users[..|users| - 1])[users[|users| - 1].id := users[|users| - 1]]
  }

  /** The keys of `MapOf(users)` are exactly the ids of `users`. */
  lemma {:induction false} MapOfKeys(users: seq<User>)
    ensures forall id | id in MapOf(users) :: HasId(users, id)
    ensures forall i | 0 <= i < |users| :: users[i].id in MapOf(users)
  {
    if users != [] {
      var init := users[..|users| - 1];
      MapOfKeys(init);
      assert forall i | 0 <= i < |init| :: init[i] == users[i];
      forall id | id in MapOf(users) ensures HasId(users, id) {
        if id != users[|users| - 1].id {
          var i :| 0 <= i < |init| && init[i].id == id;
          assert users[i].id == id;
        }
      }
    }
  }

  /** With distinct ids, `MapOf(users)` maps each user's id to that user. */
  lemma {:induction false} MapOfAt(users: seq<User>, i: nat)
    requires DistinctIds(users) && i < |users|
    ensures users[i].id in MapOf(users) && MapOf(users)[users[i].id] == users[i]
  {
    if i < |users| - 1 {
      var init := users[..|users| - 1];
      assert init[i] == users[i];
      MapOfAt(init, i);
    }
  }

  /** One more user: its id is added, and the ids stay distinct when it was new. */
  lemma MapOfSnoc(users: seq<User>, i: nat)
    requires i < |users|
    ensures MapOf(users[..i + 1]) == MapOf(users[..i])[users[i].id := users[i]]
    ensures DistinctIds(users[..i]) && users[i].id !in MapOf(users[..i]) ==> DistinctIds(users[..i + 1])
  {
    var init := users[..i + 1][..i];
    assert init == users[..i];
    MapOfKeys(users[..i]);
    if DistinctIds(users[..i]) && users[i].id !in MapOf(users[..i]) {
      forall j, k | 0 <= j < k <= i ensures users[j].id != users[k].id {
        assert users[j] == users[..i][j];
        if k < i {
          assert users[k] == users[..i][k];
        }
      }
      assert forall j | 0 <= j <= i :: users[..i + 1][j] == users[j];
    }
  }

  /** `ImmutableUsersRepository`: the persistent map, every entry keyed by its user's id. */
  datatype ImmutableUsersRepository = ImmutableUsersRepository(users: PersistentUsersMap)
  {
    predicate Valid() {
      KeyedById(users)
    }

    /**
     * `ImmutableUsersRepository::new`: insert the users one by one into a
     * fresh copy of the map, failing with the id of the first user whose id
     * is already present.
     */
    static method New(users: seq<User>) returns (r: Result<ImmutableUsersRepository, UsersRepositoryError>)
      ensures r.Failure? <==> !DistinctIds(users)
      ensures r.Failure? ==> FirstRepeat(users).Some? && r.error == DuplicateUserId(users[FirstRepeat(users).value].id)
      ensures r.Success? ==> r.value.Valid() && AsMap(r.value.users) == MapOf(users)
    {
      var usersMap: PersistentUsersMap := [];
      for i := 0 to |users|
        invariant KeyedById(usersMap)
        invariant DistinctIds(users[..i])
        invariant AsMap(usersMap) == MapOf(users[..i])
      {
        var user := users[i];
        var userId := user.id;
        MapOfKeys(users[..i]);
        if ContainsKey(usersMap, userId) {
          FirstRepeatAt(users, i);
          return Failure(DuplicateUserId(userId));
        }
        MapOfSnoc(users, i);
        usersMap := Insert(usersMap, userId, user);
      }
      assert users[..|users|] == users;
      r := Success(ImmutableUsersRepository(usersMap));
    }

    /** `get_user_by_id`: the stored user with that id, or `None`. */
    function GetUserById(id: UserId): (r: Option<User>)
      ensures r == if id in AsMap(users) then Some(AsMap(users)[id]) else None
    {
      Get(users, id)
    }

    /** `get_users_by_ids`: the users found for the requested ids, in their order, repeats kept. */
    function GetUsersByIds(ids: seq<UserId>): (r: seq<User>)
      ensures |r| <= |ids|
    {
      if ids == [] then []
      else
        var rest := GetUsersByIds(ids[1..]);
        match GetUserById(ids[0])
        case Some(u) => [u] + rest
        case None => rest
    }

    /** `search_user_ids_by_nickname`: the ids whose nickname contains the query, in ascending order. */
    function SearchUserIdsByNickname(query: NicknameQuery): (r: seq<UserId>)
      requires Valid()
      ensures AscendingIds(r)
      ensures forall id :: id in r <==> id in AsMap(users) && ContainsSubstring(AsMap(users)[id].nickname.AsStr(), query.AsStr())
    {
      MatchingIdsSpec(users, query.AsStr());
      MatchingIds(users, query.AsStr())
    }
  }

  /** The ids, in key order, of the entries whose nickname contains `q`. */
  function MatchingIds(m: seq<Entry>, q: string): seq<UserId> {
    if m == [] then []
    else (if ContainsSubstring(m[0].user.nickname.AsStr(), q) then [m[0].user.id] else []) + MatchingIds(m[1..], q)
  }

  /** Ids strictly ascending. */
  predicate AscendingIds(r: seq<UserId>) {
    forall i, j | 0 <= i < j < |r| :: r[i].value < r[j].value
  }

  /** An id below every id of an ascending list can go in front of it. */
  lemma PrependBelow(head: seq<UserId>, x: UserId, r: seq<UserId>)
    requires head == [] || head == [x]
    requires AscendingIds(r) && forall id | id in r :: x.value < id.value
    ensures AscendingIds(head + r)
  {
    if head == [x] {
      forall i, j | 0 <= i < j < |head + r| ensures (head + r)[i].value < (head + r)[j].value {
        assert (head + r)[j] == r[j - 1];
        if i > 0 {
          assert (head + r)[i] == r[i - 1];
        } else {
          assert r[j - 1] in r;
        }
      }
    } else {
      assert head + r == r;
    }
  }

  /** The matching ids come out ascending, and they are exactly the stored ids whose user matches. */
  lemma {:induction false} MatchingIdsSpec(m: PersistentUsersMap, q: string)
    requires KeyedById(m)
    ensures AscendingIds(MatchingIds(m, q))
    ensures forall id :: id in MatchingIds(m, q) <==> id in AsMap(m) && ContainsSubstring(AsMap(m)[id].nickname.AsStr(), q)
  {
    if m != [] {
      KeysAbove(m);
      AsMapRest(m);
      MatchingIdsSpec(m[1..], q);
      AsMapAt(m, 0);
      var rest := MatchingIds(m[1..], q);
      var head := if ContainsSubstring(m[0].user.nickname.AsStr(), q) then [m[0].user.id] else [];
      assert MatchingIds(m, q) == head + rest;
      assert m[0].user.id == m[0].key;
      PrependBelow(head, m[0].key, rest);
      forall id ensures id in head + rest <==> id in AsMap(m) && ContainsSubstring(AsMap(m)[id].nickname.AsStr(), q) {
        if id != m[0].key {
          assert id in head + rest <==> id in rest;
          assert id in AsMap(m) <==> id in AsMap(m[1..]);
        }
      }
    }
  }

  /** A user found by id has that id. */
  lemma FoundUserHasId(repo: ImmutableUsersRepository, id: UserId)
    requires repo.Valid()
    ensures repo.GetUserById(id).Some? ==> repo.GetUserById(id).value.id == id
  {
    if id in AsMap(repo.users) {
      var i :| 0 <= i < |repo.users| && repo.users[i].key == id;
      AsMapAt(repo.users, i);
    }
  }

  /** Looking ids up list after list is looking up the concatenation. */
  lemma {:induction false} GetUsersByIdsAppend(repo: ImmutableUsersRepository, a: seq<UserId>, b: seq<UserId>)
    ensures repo.GetUsersByIds(a + b) == repo.GetUsersByIds(a) + repo.GetUsersByIds(b)
  {
    if a == [] {
      assert a + b == b;
    } else {
      assert (a + b)[0] == a[0];
      assert (a + b)[1..] == a[1..] + b;
      GetUsersByIdsAppend(repo, a[1..], b);
    }
  }

  /** Every user returned was found for one of the requested ids. */
  lemma {:induction false} GetUsersByIdsFound(repo: ImmutableUsersRepository, ids: seq<UserId>, u: User)
    requires u in repo.GetUsersByIds(ids)
    ensures exists k | 0 <= k < |ids| :: repo.GetUserById(ids[k]) == Some(u)
  {
    if repo.GetUserById(ids[0]) != Some(u) {
      GetUsersByIdsFound(repo, ids[1..], u);
      var k :| 0 <= k < |ids| - 1 && repo.GetUserById(ids[1..][k]) == Some(u);
      assert ids[1..][k] == ids[k + 1];
    }
  }

  /** When every requested id is stored, the answer is their users, one for one and in order. */
  lemma {:induction false} GetUsersByIdsAllFound(repo: ImmutableUsersRepository, ids: seq<UserId>)
    requires forall k | 0 <= k < |ids| :: ids[k] in AsMap(repo.users)
    ensures |repo.GetUsersByIds(ids)| == |ids|
    ensures forall k | 0 <= k < |ids| :: repo.GetUsersByIds(ids)[k] == AsMap(repo.users)[ids[k]]
  {
    if ids != [] {
      assert forall k | 0 <= k < |ids| - 1 :: ids[1..][k] == ids[k + 1];
      GetUsersByIdsAllFound(repo, ids[1..]);
    }
  }

  /** One id yields its user when stored and nothing when missing. */
  lemma GetUsersByIdsSingle(repo: ImmutableUsersRepository, id: UserId)
    ensures repo.GetUsersByIds([id]) == if id in AsMap(repo.users) then [AsMap(repo.users)[id]] else []
  {
    assert [id][1..] == [];
  }

  // ---------------------------------------------------------------------------
  // The unit tests
  // ---------------------------------------------------------------------------

  function TestUser(id: NonZeroU64, nickname: string): User {
    User(UserId(id), Nickname(nickname))
  }

  function TestUsers(): seq<User> {
    [TestUser(1, "alice"), TestUser(2, "bob"), TestUser(3, "alice_wonder")]
  }

  /** A strictly ascending list of ids holding exactly `a` and `b`, `a` below `b`, is `[a, b]`. */
  lemma AscendingPair(r: seq<UserId>, a: UserId, b: UserId)
    requires a.value < b.value
    requires AscendingIds(r)
    requires forall id :: id in r <==> id == a || id == b
    ensures r == [a, b]
  {
    assert a in r && b in r;
    var i :| 0 <= i < |r| && r[i] == a;
    var j :| 0 <= j < |r| && r[j] == b;
    assert i < j;
    forall k | 0 <= k < |r| ensures r[k] == a || r[k] == b {
      assert r[k] in r;
    }
    assert r[0] == a && r[1] == b && r[|r| - 1] == b;
  }

  /** What the three test users add up to. */
  predicate HoldsTestUsers(m: map<UserId, User>) {
    && (forall id | id in m :: id == UserId(1) || id == UserId(2) || id == UserId(3))
    && UserId(1) in m && m[UserId(1)] == TestUser(1, "alice")
    && UserId(2) in m && m[UserId(2)] == TestUser(2, "bob")
    && UserId(3) in m && m[UserId(3)] == TestUser(3, "alice_wonder")
  }

  /** The three test users have distinct ids and are keyed by them. */
  lemma TestUsersMap()
    ensures DistinctIds(TestUsers()) && HoldsTestUsers(MapOf(TestUsers()))
  {
    var users := TestUsers();
    assert DistinctIds(users);
    MapOfKeys(users);
    MapOfAt(users, 0);
    MapOfAt(users, 1);
    MapOfAt(users, 2);
    forall id | id in MapOf(users) ensures id == UserId(1) || id == UserId(2) || id == UserId(3) {
      assert HasId(users, id);
    }
  }

  /** `repository()` of the tests: the three users are accepted and stored by id. */
  method TestRepository() returns (repo: ImmutableUsersRepository)
    ensures repo.Valid() && HoldsTestUsers(AsMap(repo.users))
  {
    TestUsersMap();
    var made := ImmutableUsersRepository.New(TestUsers());
    repo := made.value;
  }

  /** `get_user_by_id_returns_matching_user`. */
  method GetUserByIdScenario() returns (found: Option<User>)
    ensures found == Some(TestUser(2, "bob"))
  {
    var repo := TestRepository();
    found := repo.GetUserById(UserId(2));
  }

  /** `get_users_by_ids_returns_existing_users_in_requested_order`. */
  method GetUsersByIdsScenario() returns (users: seq<User>)
    ensures users == [TestUser(2, "bob"), TestUser(1, "alice"), TestUser(2, "bob")]
  {
    var repo := TestRepository();
    var ids := [UserId(2), UserId(99), UserId(1), UserId(2)];
    users := repo.GetUsersByIds(ids);
    assert ids == [UserId(2)] + [UserId(99)] + [UserId(1)] + [UserId(2)];
    GetUsersByIdsAppend(repo, [UserId(2)] + [UserId(99)] + [UserId(1)], [UserId(2)]);
    GetUsersByIdsAppend(repo, [UserId(2)] + [UserId(99)], [UserId(1)]);
    GetUsersByIdsAppend(repo, [UserId(2)], [UserId(99)]);
    GetUsersByIdsSingle(repo, UserId(2));
    GetUsersByIdsSingle(repo, UserId(99));
    GetUsersByIdsSingle(repo, UserId(1));
  }

  /** `search_user_ids_by_nickname_returns_matching_ids`. */
  method SearchScenario() returns (found: seq<UserId>)
    ensures found == [UserId(1), UserId(3)]
  {
    var repo := TestRepository();
    var query := NicknameQuery("alice");
    found := repo.SearchUserIdsByNickname(query);
    assert OccursAt("alice", "alice", 0);
    assert OccursAt("alice_wonder", "alice", 0) by {
      assert "alice_wonder"[0..5] == "alice";
    }
    AscendingPair(found, UserId(1), UserId(3));
  }

  /** `repository_creation_fails_on_duplicate_user_id`. */
  method DuplicateScenario() returns (r: Result<ImmutableUsersRepository, UsersRepositoryError>)
    ensures r == Failure(DuplicateUserId(UserId(7)))
  {
    var twins := [TestUser(7, "first"), TestUser(7, "second")];
    r := ImmutableUsersRepository.New(twins);
    assert HasId(twins[..1], twins[1].id);
    FirstRepeatAt(twins, 1);
  }

  /** `nickname_query_rejects_empty_value`. */
  lemma BlankQueryRejected()
    ensures NicknameQuery.New("   ") == Failure(NicknameQueryError.EmptyValue)
  {
  }
}
