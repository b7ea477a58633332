/**
 * The key-value storages and user repositories of `1_concepts/1_6_dispatch`.
 * A `HashMapStorage` and a `BTreeMapStorage` offer the same set / get /
 * remove interface; a statically dispatched `UserRepository<S>` and a
 * dynamically dispatched `UserRepositoryDyn` build the same add / get /
 * update / remove / count operations on top of either.
 */
module Dispatch {
  import opened Wrappers
  import opened Integers
  import opened Text

  /** `User`: stored by copy. */
  datatype User = User(id: U64, email: string, activated: bool)
  {
    /** `User::new`: not yet activated. */
    static function New(id: U64, email: string): (u: User)
      ensures u.id == id && u.email == email && !u.activated
    {
      User(id, email, false)
    }

    /** `activate`: the same user with the flag set. */
    function Activate(): (u: User)
      ensures u.activated && u.id == id && u.email == email
    {
      this.(activated := true)
    }
  }

  // ---------------------------------------------------------------------
  // Storages
  // ---------------------------------------------------------------------

  /** `HashMapStorage<K, V>`. */
  class HashMapStorage<K(==), V> {
    var items: map<K, V>

    /** `new` and `with_capacity` (the capacity is a hint only): empty. */
    constructor New()
      ensures items == map[]
    {
      items := map[];
    }

    /** `set`: inserts, overwriting any value under the key. */
    method Set(key: K, val: V)
      modifies this
      ensures items == old(items)[key := val]
    {
      items := items[key := val];
    }

    /** `get`. */
    function Get(key: K): (r: Option<V>)
      reads this
      ensures r.Some? <==> key in items
      ensures r.Some? ==> r.value == items[key]
    {
      if key in items then Some(items[key]) else None
    }

    /** `remove`: hands back the value under the key, if any, and forgets it. */
    method Remove(key: K) returns (r: Option<V>)
      modifies this
      ensures r == old(Get(key))
      ensures items == old(items) - {key}
    {
      r := Get(key);
      items := items - {key};
    }
  }

  /** One key-value pair of a `BTreeMap`. */
  datatype Entry<V> = Entry(key: U64, value: V)

  /** Keys strictly ascending: the order a `BTreeMap` keeps. */
  predicate Ascending<V>(es: seq<Entry<V>>) {
    forall i, j | 0 <= i < j < |es| :: es[i].key < es[j].key
  }

  /** Some entry of `es` has key `k`. */
  predicate HasKey<V>(es: seq<Entry<V>>, k: U64) {
    exists i | 0 <= i < |es| :: es[i].key == k
  }

  /** The map that a list of entries stands for (the first entry of a key wins). */
  function AsMap<V>(es: seq<Entry<V>>): (m: map<U64, V>)
    ensures forall k :: k in m <==> HasKey(es, k)
  {
    if es == [] then map[]
    else
      var rest := AsMap(es[1..]);
      assert forall k | HasKey(es[1..], k) :: HasKey(es, k) by {
        forall k | HasKey(es[1..], k) ensures HasKey(es, k) {
          var i :| 0 <= i < |es| - 1 && es[1..][i].key == k;
          assert es[i + 1].key == k;
        }
      }
      assert forall k | HasKey(es, k) && k != es[0].key :: HasKey(es[1..], k) by {
        forall k | HasKey(es, k) && k != es[0].key ensures HasKey(es[1..], k) {
          var i :| 0 <= i < |es| && es[i].key == k;
          assert es[1..][i - 1].key == k;
        }
      }
      assert HasKey(es, es[0].key);
      rest[es[0].key := es[0].value]
  }

  /** Past the first entry of ascending entries, every key is above the first one. */
  lemma KeysAbove<V>(es: seq<Entry<V>>)
    requires Ascending(es) && es != []
    ensures forall k | k in AsMap(es[1..]) :: es[0].key < k
  {
    forall k | k in AsMap(es[1..]) ensures es[0].key < k {
      var i :| 0 <= i < |es| - 1 && es[1..][i].key == k;
      assert es[i + 1] == es[1..][i];
    }
  }

  /** The map of an entry followed by more entries. */
  lemma AsMapCons<V>(e: Entry<V>, es: seq<Entry<V>>)
    ensures AsMap([e] + es) == AsMap(es)[e.key := e.value]
  {
    assert ([e] + es)[1..] == es;
  }

  /** An entry below every key of ascending entries can go in front of them. */
  lemma ConsAscending<V>(e: Entry<V>, rest: seq<Entry<V>>)
    requires Ascending(rest)
    requires forall k | k in AsMap(rest) :: e.key < k
    ensures Ascending([e] + rest)
  {
    forall j | 0 <= j < |rest| ensures e.key < rest[j].key {
      assert HasKey(rest, rest[j].key);
      assert rest[j].key in AsMap(rest);
    }
    assert forall j | 0 < j <= |rest| :: ([e] + rest)[j] == rest[j - 1];
  }

  /** `BTreeMap::get`: the search stops at the first key above the one sought. */
  function Lookup<V>(es: seq<Entry<V>>, k: U64): (r: Option<V>)
    requires Ascending(es)
    ensures r.Some? <==> k in AsMap(es)
    ensures r.Some? ==> r.value == AsMap(es)[k]
  {
    if es == [] then None
    else if es[0].key == k then Some(es[0].value)
    else if k < es[0].key then
      KeysAbove(es);
      None
    else Lookup(es[1..], k)
  }

  /** `BTreeMap::insert`: the entry goes in key order, replacing one with the same key. */
  function Insert<V>(es: seq<Entry<V>>, k: U64, v: V): (r: seq<Entry<V>>)
    requires Ascending(es)
    ensures Ascending(r)
    ensures AsMap(r) == AsMap(es)[k := v]
  {
    if es == [] then [Entry(k, v)]
    else if k < es[0].key then
      KeysAbove(es);
      ConsAscending(Entry(k, v), es);
      AsMapCons(Entry(k, v), es);
      [Entry(k, v)] + es
    else if k == es[0].key then
      KeysAbove(es);
      ConsAscending(Entry(k, v), es[1..]);
      AsMapCons(Entry(k, v), es[1..]);
      UpdateTwice(AsMap(es[1..]), k, es[0].value, v);
      [Entry(k, v)] + es[1..]
    else
      var rest := Insert(es[1..], k, v);
      KeysAbove(es);
      ConsAscending(es[0], rest);
      AsMapCons(es[0], rest);
      UpdateCommutes(AsMap(es[1..]), k, v, es[0].key, es[0].value);
      [es[0]] + rest
  }

  /** `BTreeMap::remove`, on the entries: the entry of the key, if any, is dropped. */
  function Delete<V>(es: seq<Entry<V>>, k: U64): (r: seq<Entry<V>>)
    requires Ascending(es)
    ensures Ascending(r)
    ensures AsMap(r) == AsMap(es) - {k}
  {
    if es == [] then []
    else if es[0].key == k then
      KeysAbove(es);
      RemoveUpdated(AsMap(es[1..]), k, es[0].value);
      es[1..]
    else if k < es[0].key then
      KeysAbove(es);
      es
    else
      var rest := Delete(es[1..], k);
      KeysAbove(es);
      ConsAscending(es[0], rest);
      AsMapCons(es[0], rest);
      RemoveCommutes(AsMap(es[1..]), k, es[0].key, es[0].value);
      [es[0]] + rest
  }

  lemma UpdateTwice<K, V>(m: map<K, V>, k: K, v: V, w: V)
    ensures m[k := v][k := w] == m[k := w]
  {
  }

  lemma UpdateCommutes<K, V>(m: map<K, V>, k: K, v: V, l: K, w: V)
    requires k != l
    ensures m[k := v][l := w] == m[l := w][k := v]
  {
  }

  lemma RemoveUpdated<K, V>(m: map<K, V>, k: K, v: V)
    requires k !in m
    ensures m[k := v] - {k} == m
  {
  }

  lemma RemoveCommutes<K, V>(m: map<K, V>, k: K, l: K, w: V)
    requires k != l
    ensures m[l := w] - {k} == (m - {k})[l := w]
  {
  }

  /** `BTreeMapStorage<K, V>`, for the `u64` keys it is used with. */
  class BTreeMapStorage<V> {
    var entries: seq<Entry<V>>

    /** The `BTreeMap` invariant: one entry per key, in key order. */
    predicate Valid()
      reads this
    {
      Ascending(entries)
    }

    /** The map the entries stand for. */
    function Contents(): map<U64, V>
      reads this
    {
      AsMap(entries)
    }

    /** `new`: empty. */
    constructor New()
      ensures Valid() && Contents() == map[]
    {
      entries := [];
    }

    /** `set`: inserts, overwriting any value under the key. */
    method Set(key: U64, val: V)
      requires Valid()
      modifies this
      ensures Valid()
      ensures Contents() == old(Contents())[key := val]
    {
      entries := Insert(entries, key, val);
    }

    /** `get`. */
    function Get(key: U64): (r: Option<V>)
      requires Valid()
      reads this
      ensures r.Some? <==> key in Contents()
      ensures r.Some? ==> r.value == Contents()[key]
    {
      Lookup(entries, key)
    }

    /** `remove`: hands back the value under the key, if any, and forgets it. */
    method Remove(key: U64) returns (r: Option<V>)
      requires Valid()
      modifies this
      ensures Valid()
      ensures r == old(Get(key))
      ensures Contents() == old(Contents()) - {key}
    {
      r := Get(key);
      entries := Delete(entries, key);
    }
  }

  /**
   * A `Storage<u64, User>` implementation: the storage a generic
   * `UserRepository<S>` is instantiated with, or the one boxed behind
   * `Box<dyn Storage>`. Matching on the variant is the dispatch.
   */
  datatype Storage = HashStorage(hash: HashMapStorage<U64, User>) | TreeStorage(tree: BTreeMapStorage<User>)
  {
    /** The storage object. */
    function Repr(): set<object> {
      match this
      case HashStorage(h) => {h}
      case TreeStorage(t) => {t}
    }

    predicate Valid()
      reads Repr()
    {
      TreeStorage? ==> tree.Valid()
    }

    /** What the storage holds, whichever the implementation. */
    function Contents(): map<U64, User>
      reads Repr()
    {
      match this
      case HashStorage(h) => h.items
      case TreeStorage(t) => t.Contents()
    }

    /** `Storage::get`. */
    function Get(key: U64): (r: Option<User>)
      requires Valid()
      reads Repr()
      ensures r.Some? <==> key in Contents()
      ensures r.Some? ==> r.value == Contents()[key]
    {
      match this
      case HashStorage(h) => h.Get(key)
      case TreeStorage(t) => t.Get(key)
    }

    /** `Storage::set`. */
    method Set(key: U64, val: User)
      requires Valid()
      modifies Repr()
      ensures Valid()
      ensures Contents() == old(Contents())[key := val]
    {
      match this
      case HashStorage(h) => h.Set(key, val);
      case TreeStorage(t) => t.Set(key, val);
    }

    /** `Storage::remove`. */
    method Remove(key: U64) returns (r: Option<User>)
      requires Valid()
      modifies Repr()
      ensures Valid()
      ensures r == old(Get(key))
      ensures Contents() == old(Contents()) - {key}
    {
      match this
      case HashStorage(h) => r := h.Remove(key);
      case TreeStorage(t) => r := t.Remove(key);
    }
  }

  // ---------------------------------------------------------------------
  // What the repositories do, stated on the map the storage holds
  // ---------------------------------------------------------------------

  /** The message of a refused `add`. */
  function AlreadyExistsMessage(id: U64): string {
    "User with id " + NatToDecimal(id) + " already exists"
  }

  /** The message of a refused `update`. */
  function NotFoundMessage(id: U64): string {
    "User with id " + NatToDecimal(id) + " not found"
  }

  /** A string ending in `q` contains `q`. */
  lemma EndsWithContains(prefix: string, q: string)
    ensures ContainsSubstring(prefix + q, q)
  {
    assert (prefix + q)[|prefix|..|prefix| + |q|] == q;
    assert OccursAt(prefix + q, q, |prefix|);
  }

  /** The messages hold the phrases the tests look for. */
  lemma MessagesNameTheFailure(id: U64)
    ensures ContainsSubstring(AlreadyExistsMessage(id), "already exists")
    ensures ContainsSubstring(NotFoundMessage(id), "not found")
  {
    var prefix := "User with id " + NatToDecimal(id) + " ";
    EndsWithContains(prefix, "already exists");
    assert AlreadyExistsMessage(id) == prefix + "already exists";
    EndsWithContains(prefix, "not found");
    assert NotFoundMessage(id) == prefix + "not found";
  }

  /** `add` on the stored map: the result and the new map. */
  function AddSpec(m: map<U64, User>, user: User): (Result<(), string>, map<U64, User>) {
    if user.id in m then (Failure(AlreadyExistsMessage(user.id)), m)
    else (Success(()), m[user.id := user])
  }

  /** `update` on the stored map: the result and the new map. */
  function UpdateSpec(m: map<U64, User>, user: User): (Result<(), string>, map<U64, User>) {
    if user.id !in m then (Failure(NotFoundMessage(user.id)), m)
    else (Success(()), m[user.id := user])
  }

  /** `remove` on the stored map: the removed user and the new map. */
  function RemoveSpec(m: map<U64, User>, id: U64): (Option<User>, map<U64, User>) {
    (if id in m then Some(m[id]) else None, m - {id})
  }

  /** The ids below `bound` that the map holds. */
  function StoredBelow(m: map<U64, User>, bound: nat): set<U64> {
    set k | k in m && k < bound
  }

  /** `add` succeeds exactly for a new id; a refused `add` keeps the stored user. */
  lemma AddSpecFacts(m: map<U64, User>, user: User)
    ensures AddSpec(m, user).0.Success? <==> user.id !in m
    ensures user.id in AddSpec(m, user).1
    ensures AddSpec(m, user).0.Success? ==> AddSpec(m, user).1[user.id] == user
    ensures AddSpec(m, user).0.Failure? ==> AddSpec(m, user).1[user.id] == m[user.id]
    ensures forall k | k != user.id :: (k in AddSpec(m, user).1 <==> k in m)
  {
  }

  /** `update` succeeds exactly for a stored id and then replaces only that user. */
  lemma UpdateSpecFacts(m: map<U64, User>, user: User)
    ensures UpdateSpec(m, user).0.Success? <==> user.id in m
    ensures UpdateSpec(m, user).1.Keys == m.Keys
    ensures UpdateSpec(m, user).0.Success? ==> UpdateSpec(m, user).1[user.id] == user
  {
  }

  /** Removing what was just added gives it back and restores the map. */
  lemma RemoveUndoesAdd(m: map<U64, User>, user: User)
    requires user.id !in m
    ensures RemoveSpec(AddSpec(m, user).1, user.id) == (Some(user), m)
  {
    RemoveUpdated(m, user.id, user);
  }

  /** Removing twice finds nothing the second time, and removing an absent id changes nothing. */
  lemma RemoveIdempotent(m: map<U64, User>, id: U64)
    ensures RemoveSpec(RemoveSpec(m, id).1, id) == (None, RemoveSpec(m, id).1)
    ensures id !in m ==> RemoveSpec(m, id) == (None, m)
  {
    assert (m - {id}) - {id} == m - {id};
    if id !in m {
      assert m - {id} == m;
    }
  }

  /** One more id examined adds it when it is stored, and it was not counted before. */
  lemma StoredBelowStep(m: map<U64, User>, i: nat)
    ensures i !in StoredBelow(m, i)
    ensures StoredBelow(m, i + 1) == StoredBelow(m, i) + (if i in m then {i} else {})
  {
  }

  /** `count` never exceeds the range it scans, and is the size of the map when every id is below it. */
  lemma {:induction false} StoredBelowBounds(m: map<U64, User>, bound: nat)
    ensures |StoredBelow(m, bound)| <= bound
    ensures (forall k | k in m :: k < bound) ==> |StoredBelow(m, bound)| == |m|
  {
    if bound > 0 {
      StoredBelowBounds(m, bound - 1);
      StoredBelowStep(m, bound - 1);
    }
    if forall k | k in m :: k < bound {
      assert StoredBelow(m, bound) == m.Keys;
    }
  }

  // ---------------------------------------------------------------------
  // Repositories
  // ---------------------------------------------------------------------

  /** `UserRepository<S>`, the statically dispatched repository. */
  class UserRepository {
    const storage: Storage

    predicate Valid()
      reads storage.Repr()
    {
      storage.Valid()
    }

    /** `new`: takes the storage over. */
    constructor New(storage: Storage)
      ensures this.storage == storage
    {
      this.storage := storage;
    }

    /** What the repository holds. */
    function Contents(): map<U64, User>
      reads storage.Repr()
    {
      storage.Contents()
    }

    /** `add`: refuses an id already stored. */
    method Add(user: User) returns (r: Result<(), string>)
      requires Valid()
      modifies storage.Repr()
      ensures Valid()
      ensures (r, Contents()) == AddSpec(old(Contents()), user)
    {
      if storage.Get(user.id).Some? {
        return Failure(AlreadyExistsMessage(user.id));
      }
      storage.Set(user.id, user);
      return Success(());
    }

    /** `get`. */
    function Get(id: U64): (r: Option<User>)
      requires Valid()
      reads storage.Repr()
      ensures r == if id in Contents() then Some(Contents()[id]) else None
    {
      storage.Get(id)
    }

    /** `update`: refuses an id not stored. */
    method Update(user: User) returns (r: Result<(), string>)
      requires Valid()
      modifies storage.Repr()
      ensures Valid()
      ensures (r, Contents()) == UpdateSpec(old(Contents()), user)
    {
      if storage.Get(user.id).None? {
        return Failure(NotFoundMessage(user.id));
      }
      storage.Set(user.id, user);
      return Success(());
    }

    /** `remove`. */
    method Remove(id: U64) returns (r: Option<User>)
      requires Valid()
      modifies storage.Repr()
      ensures Valid()
      ensures (r, Contents()) == RemoveSpec(old(Contents()), id)
    {
      r := storage.Remove(id);
    }

    /** `count`: probes the ids 0 to 999 one by one. */
    method Count() returns (n: nat)
      requires Valid()
      ensures n == |StoredBelow(Contents(), 1000)|
    {
      n := 0;
      for id := 0 to 1000
        invariant n == |StoredBelow(Contents(), id)|
      {
        StoredBelowStep(Contents(), id);
        if storage.Get(id).Some? {
          n := n + 1;
        }
      }
    }
  }

  /** `UserRepositoryDyn`, the repository over a `Box<dyn Storage>`. */
  class UserRepositoryDyn {
    const storage: Storage

    predicate Valid()
      reads storage.Repr()
    {
      storage.Valid()
    }

    /** `new`: boxes the storage. */
    constructor New(storage: Storage)
      ensures this.storage == storage
    {
      this.storage := storage;
    }

    /** What the repository holds. */
    function Contents(): map<U64, User>
      reads storage.Repr()
    {
      storage.Contents()
    }

    /** `add`: refuses an id already stored. */
    method Add(user: User) returns (r: Result<(), string>)
      requires Valid()
      modifies storage.Repr()
      ensures Valid()
      ensures (r, Contents()) == AddSpec(old(Contents()), user)
    {
      if storage.Get(user.id).Some? {
        return Failure(AlreadyExistsMessage(user.id));
      }
      storage.Set(user.id, user);
      return Success(());
    }

    /** `get`. */
    function Get(id: U64): (r: Option<User>)
      requires Valid()
      reads storage.Repr()
      ensures r == if id in Contents() then Some(Contents()[id]) else None
    {
      storage.Get(id)
    }

    /** `update`: refuses an id not stored. */
    method Update(user: User) returns (r: Result<(), string>)
      requires Valid()
      modifies storage.Repr()
      ensures Valid()
      ensures (r, Contents()) == UpdateSpec(old(Contents()), user)
    {
      if storage.Get(user.id).None? {
        return Failure(NotFoundMessage(user.id));
      }
      storage.Set(user.id, user);
      return Success(());
    }

    /** `remove`. */
    method Remove(id: U64) returns (r: Option<User>)
      requires Valid()
      modifies storage.Repr()
      ensures Valid()
      ensures (r, Contents()) == RemoveSpec(old(Contents()), id)
    {
      r := storage.Remove(id);
    }

    /** `count`: probes the ids 0 to 999 one by one. */
    method Count() returns (n: nat)
      requires Valid()
      ensures n == |StoredBelow(Contents(), 1000)|
    {
      n := 0;
      for id := 0 to 1000
        invariant n == |StoredBelow(Contents(), id)|
      {
        StoredBelowStep(Contents(), id);
        if storage.Get(id).Some? {
          n := n + 1;
        }
      }
    }
  }

  // ---------------------------------------------------------------------
  // The tests
  // ---------------------------------------------------------------------

  /** The user most tests add. */
  function TestUser(): User {
    User(1, "test@example.com", false)
  }

  /** What `test_static_and_dynamic_behave_identically` observes of one repository. */
  datatype Observations = Observations(
    added: Result<(), string>, first: Option<User>, addedAgain: Result<(), string>,
    updated: Result<(), string>, second: Option<User>, removed: Option<User>, last: Option<User>)

  /** The observations the test expects of either repository. */
  function ExpectedObservations(): Observations {
    var user := TestUser();
    Observations(Success(()), Some(user), Failure(AlreadyExistsMessage(1)),
      Success(()), Some(user.Activate()), Some(user.Activate()), None)
  }

  /** The test's steps on a statically dispatched repository over a `HashMapStorage`. */
  method StaticRun() returns (obs: Observations)
    ensures obs == ExpectedObservations()
  {
    var hash := new HashMapStorage.New();
    var repo := new UserRepository.New(HashStorage(hash));
    var user := TestUser();
    var added := repo.Add(user);
    var first := repo.Get(1);
    var addedAgain := repo.Add(user);
    var updated := repo.Update(user.Activate());
    var second := repo.Get(1);
    var removed := repo.Remove(1);
    obs := Observations(added, first, addedAgain, updated, second, removed, repo.Get(1));
  }

  /** The same steps on a dynamically dispatched repository over a `HashMapStorage`. */
  method DynamicRun() returns (obs: Observations)
    ensures obs == ExpectedObservations()
  {
    var hash := new HashMapStorage.New();
    var repo := new UserRepositoryDyn.New(HashStorage(hash));
    var user := TestUser();
    var added := repo.Add(user);
    var first := repo.Get(1);
    var addedAgain := repo.Add(user);
    var updated := repo.Update(user.Activate());
    var second := repo.Get(1);
    var removed := repo.Remove(1);
    obs := Observations(added, first, addedAgain, updated, second, removed, repo.Get(1));
  }

  /** `test_static_and_dynamic_behave_identically`: both repositories answer alike. */
  method EquivalenceScenario() returns (same: bool)
    ensures same
  {
    var s := StaticRun();
    var d := DynamicRun();
    same := s == d;
  }

  /** `test_btreemap_storage` and `test_remove_user`, over the ordered storage. */
  method TreeStorageScenario() returns (found: Option<User>, removed: Option<User>, gone: Option<User>)
    ensures found == Some(TestUser()) && removed == Some(TestUser()) && gone == None
  {
    var tree := new BTreeMapStorage.New();
    var repo := new UserRepositoryDyn.New(TreeStorage(tree));
    var added := repo.Add(TestUser());
    found := repo.Get(1);
    removed := repo.Remove(1);
    gone := repo.Get(1);
  }

  /**
   * `test_multiple_users`: ten users with ids 1 to 10 are all found, and
   * after removing 5 that one is gone.
   */
  method MultipleUsersScenario() returns (allFound: bool, fiveGone: bool)
    ensures allFound && fiveGone
  {
    var hash := new HashMapStorage.New();
    var repo := new UserRepository.New(HashStorage(hash));
    for i := 1 to 11
      invariant repo.Valid()
      invariant forall k: U64 :: k in repo.Contents() <==> 1 <= k < i
    {
      var added := repo.Add(User.New(i, "user" + NatToDecimal(i) + "@example.com"));
    }
    allFound := forall k: U64 | 1 <= k <= 10 :: repo.Get(k).Some?;
    var removed := repo.Remove(5);
    fiveGone := repo.Get(5).None?;
  }

  /**
   * The demonstration: after adding user 1 and removing it `count` sees no
   * user; a repository holding user 2 counts one.
   */
  method CountScenario() returns (remaining: nat, total: nat)
    ensures remaining == 0 && total == 1
  {
    var hash := new HashMapStorage.New();
    var first := new UserRepository.New(HashStorage(hash));
    var added := first.Add(User.New(1, "alice@example.com"));
    var removed := first.Remove(1);
    remaining := first.Count();
    assert StoredBelow(first.Contents(), 1000) == {};
    var tree := new BTreeMapStorage.New();
    var second := new UserRepository.New(TreeStorage(tree));
    added := second.Add(User.New(2, "bob@example.com"));
    total := second.Count();
    StoredBelowBounds(second.Contents(), 1000);
  }

  /**
   * `test_heterogeneous_storage_collection`: both storages, used through
   * the same interface, return what was set.
   */
  method HeterogeneousStoragesScenario() returns (answers: seq<Option<User>>)
    ensures answers == [Some(TestUser()), Some(TestUser())]
  {
    var hash := new HashMapStorage.New();
    var tree := new BTreeMapStorage.New();
    var storages := [HashStorage(hash), TreeStorage(tree)];
    answers := [];
    for i := 0 to 2
      invariant tree.Valid()
      invariant answers == seq(i, _ => Some(TestUser()))
    {
      var storage := storages[i];
      storage.Set(1, TestUser());
      answers := answers + [storage.Get(1)];
    }
  }
}
