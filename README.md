# rust-incubator core, modelled in Dafny

This project models the parts of the rust-incubator exercises that hold sequential logic which can be stated precisely, and proves what that code promises. Each source file has one Dafny module. `Wrappers` (`Option`, `Result`, `Outcome`), `Integers` (Rust integer ranges, 64-bit `usize`) and `Text` (the parts of `str` the code relies on) are shared by all of them.

- `EventSourcing` (`aggregate.dfy`) covers `2_idioms/2_3_bound_impl`:
  - `EventNumber` is a non-zero u64 and `Version` is `Initial` or `Number`. Both are incremented with a checked add.
  - `validate_sequence` checks that one version directly follows another.
  - `HydratedAggregate` is a class that holds version, snapshot version and state. It applies events one at a time, in sequence, or under an optimistic concurrency check.
  - `Entity` pairs a constant id with an aggregate.
  - The user's `apply_to` is a function parameter.
- `FormatSpec` and `FormatSpecProofs` (`format_spec.dfy`, `format_spec_proofs.dfy`) cover the hand-written parser of `3_ecosystem/3_4_regex_parsing`. It reads the `format_spec` grammar `[[fill]align][sign]['#']['0'][width]['.' precision][type]`.
  - `CustomParser` is a class whose cursor advances.
  - Each step of the parser is specified by a pure function of the input and the cursor.
  - `ParseSpec` chains the steps as `parse_custom` does.
  - The proofs cover the documented valid and invalid inputs, the overflow cases, and a round trip: rendering any spec and parsing it back gives the same spec.
- `LinkedLists` (`linked_list.dfy`) covers the doubly-linked deque of `1_concepts/src/linked_list.rs` as heap nodes. `head` is the back end and `tail` is the front end. It also has the iterator that drains the list from the front.
- `MemReplace` (`mem_replace.dfy`) covers the rotation solver of `2_idioms/2_2_mem_replace`. Both the `optimized` and the `original` implementation are modelled and proved to agree.
- `Collections` (`collections.dfy`) covers the immutable users repository of `3_ecosystem/3_5_collections`:
  - the validated `UserId`, `Nickname` and `NicknameQuery`;
  - the copy-on-insert `PersistentUsersMap`;
  - construction, which rejects duplicate ids;
  - the three queries.
- `DateTime` (`date_time.dfy`) covers `3_ecosystem/3_3_date_time`: leap years, month lengths, validated dates, the fixed "now" of 2019-06-26, and age in completed years.
- `Email` (`email.dfy`) covers `EmailString` of `1_concepts/1_5_convert_cast_deref`: its ordered checks, its lossless conversion back to `String`, and its equality and order.
- `SizedUsers` (`sized.dfy`) covers `1_concepts/1_7_sized`:
  - the validated `User` and `CreateUser`;
  - the command handler;
  - the in-memory repository, and the mock repository with its call counter and failure switch.
- `Dispatch` (`dispatch.dfy`) covers `1_concepts/1_6_dispatch`:
  - the hash-map and B-tree storages;
  - the statically and dynamically dispatched user repositories, proved to behave alike.
- `PostModeration` (`post.dfy`) covers the typestate post of `2_idioms/2_1_type_safety`. The state is a tag, and each transition requires the tag it is defined on.
- `SharedStack` (`rc_cell.dfy`) covers `GlobalStack` of `1_concepts/1_3_rc_cell`. Handles are objects that share one vector object, so a clone aliases the storage.
- `ServerConfig` (`server_config.dfy`) covers the error builder and the server configuration of `2_idioms/2_4_generic_in_type_out`.
- `GuessingGame` (`guessing_game.dfy`) covers `3_ecosystem/3_1_testing`:
  - standard input is a sequence of lines and standard output a sequence of output lines;
  - `run_game` is a loop, and its output is proved equal to a recursive specification over the parsed reads.

## Model

| member | source | states |
|---|---|---|
| EventSourcing.CompareNat | 2_idioms/2_3_bound_impl/src/main.rs:226-230 | the three-way comparison of `cmp`: `Equal` exactly when the numbers are equal, `Less` exactly when the first is smaller |
| EventSourcing.EventNumber.Get | 2_idioms/2_3_bound_impl/src/main.rs:191-193 | the raw value is at least 1 and rebuilding an event number from it gives the same number back |
| EventSourcing.EventNumber.Cmp | 2_idioms/2_3_bound_impl/src/main.rs:220-230 | event numbers order as their raw values, and compare `Equal` exactly when they are the same number |
| EventSourcing.EventNumber.Incr | 2_idioms/2_3_bound_impl/src/main.rs:179-187 | succeeds exactly below u64::MAX and then yields raw + 1; at u64::MAX it fails with `VersionOverflow` and leaves the number unchanged |
| EventSourcing.Version.New | 2_idioms/2_3_bound_impl/src/main.rs:266-271 | `new(0)` is `Initial`, and every other number gives the version with that raw value |
| EventSourcing.Version.Raw | 2_idioms/2_3_bound_impl/src/main.rs:245-251 | the number a version stands for: 0 for `Initial`, the event number otherwise; `VersionNewRaw` proves `Version::new` inverts it |
| EventSourcing.Version.Cmp | 2_idioms/2_3_bound_impl/src/main.rs:240-248 | the derived order: `Initial` below every `Number`, numbers by value |
| EventSourcing.Version.Successor | 2_idioms/2_3_bound_impl/src/main.rs:281-289 | there is a next version exactly below u64::MAX, and its raw value is one more |
| EventSourcing.Version.Incr | 2_idioms/2_3_bound_impl/src/main.rs:281-289 | `Initial` goes to `Number(1)` and `Number(n)` to `Number(n+1)`; at u64::MAX the result is `VersionOverflow` with the version unchanged |
| EventSourcing.Version.ValidateSequence | 2_idioms/2_3_bound_impl/src/main.rs:298-306 | `Ok` exactly when the raw value is the previous one plus one (so (Initial, 1) or (p, p+1)); otherwise `InvalidSequence` |
| EventSourcing.Version.ValidateSequenceAsWritten | 2_idioms/2_3_bound_impl/src/main.rs:298-306 | the code as written: `prev.get() + 1` overflows (a panic) exactly when the previous version is u64::MAX and the current one is a number; otherwise it agrees with `ValidateSequence` |
| EventSourcing.VersionNewRaw | 2_idioms/2_3_bound_impl/src/main.rs:266-271 | `new` and the raw value are inverse to each other in both directions |
| EventSourcing.ValidateSequenceIsSuccessor | 2_idioms/2_3_bound_impl/src/main.rs:281-306 | `validate_sequence(prev)` accepts a version exactly when it is what `incr` makes of `prev` |
| EventSourcing.ValidateSequencePanicsAtMax | 2_idioms/2_3_bound_impl/src/main.rs:301 | after u64::MAX the code as written overflows, while the corrected check reports `InvalidSequence` |
| EventSourcing.Fold | 2_idioms/2_3_bound_impl/src/main.rs:405-421 | the state after applying events one after another in order, each with `apply_to`; `FoldAppend` proves that replaying two batches in turn is replaying their concatenation |
| EventSourcing.FoldAppend | 2_idioms/2_3_bound_impl/src/main.rs:405-421 | replaying two batches one after the other equals replaying their concatenation |
| EventSourcing.HydratedAggregate.New | 2_idioms/2_3_bound_impl/src/main.rs:464-470 | a new aggregate holds the given state at version `Initial` with no snapshot version |
| EventSourcing.HydratedAggregate.Default | 2_idioms/2_3_bound_impl/src/main.rs:355-366 | the default aggregate holds the default state at version `Initial` with no snapshot version |
| EventSourcing.HydratedAggregate.Apply | 2_idioms/2_3_bound_impl/src/main.rs:423-431 | the state is always updated by the event (before the increment, which may fail); the version advances by exactly one, or stays put with `VersionOverflow` at u64::MAX; the snapshot version is kept |
| EventSourcing.HydratedAggregate.ApplyEvents | 2_idioms/2_3_bound_impl/src/main.rs:405-421 | succeeds exactly when the version has room for every event; then the version has moved by the number of events and the state is the left fold of the events; on overflow it stops at the first failing event, whose state change has already happened |
| EventSourcing.HydratedAggregate.ApplyWithConcurrencyCheck | 2_idioms/2_3_bound_impl/src/main.rs:442-457 | a stale expected version gives `VersionMismatch{expected, actual}` and changes nothing; the current version behaves exactly as `apply` |
| EventSourcing.HydratedAggregate.SetSnapshotVersion | 2_idioms/2_3_bound_impl/src/main.rs:483-485 | only the snapshot version changes, to the given one |
| EventSourcing.HydratedAggregate.StateMut | 2_idioms/2_3_bound_impl/src/main.rs:498-500 | a change made through the mutable state reference touches neither version |
| EventSourcing.Entity.constructor | 2_idioms/2_3_bound_impl/src/main.rs:610-613 | the entity pairs the given id with the given aggregate |
| EventSourcing.Entity.ApplyEvent | 2_idioms/2_3_bound_impl/src/main.rs:641-646 | has exactly the effect of the aggregate's `apply`; the id is a constant and cannot change |
| EventSourcing.CountUp | 2_idioms/2_3_bound_impl/src/main.rs:714-718 | `Increment::apply_to`: `counter += 1` on the test aggregate's `u32` counter, wrapping at u32::MAX as a release build does |
| EventSourcing.FoldCountUp | 2_idioms/2_3_bound_impl/src/main.rs:714-718 | replaying n `Increment` events adds n to the `u32` counter modulo 2^32, and exactly n when the sum stays within u32::MAX |
| EventSourcing.EventApplicationScenario | 2_idioms/2_3_bound_impl/src/main.rs:720-728 | on `HydratedAggregate::default()`, one applied `Increment` gives version 1 and counter 1 |
| EventSourcing.ConcurrencyScenario | 2_idioms/2_3_bound_impl/src/main.rs:730-746 | the first check at `Initial` passes; the second, still expecting `Initial`, is a mismatch against version 1 and does not apply the event |
| EventSourcing.VersionOverflowScenario | 2_idioms/2_3_bound_impl/src/main.rs:748-755 | incrementing `Number(u64::MAX)` is `VersionOverflow` with the version unchanged |
| EventSourcing.ReplayScenario | 2_idioms/2_3_bound_impl/src/main.rs:405-421 | `apply_events` of n increments on `HydratedAggregate::new` of a zero counter succeeds, reaching version n; the `u32` counter is n up to u32::MAX and n modulo 2^32 beyond |
| Collections.UserId.New | 3_ecosystem/3_5_collections/src/lib.rs:11-17 | succeeds exactly for a non-zero value, and the id then reads back as that value; zero is `ZeroValue` |
| Collections.UserId.Get | 3_ecosystem/3_5_collections/src/lib.rs:19-21 | the value read back is never zero |
| Collections.UserIdRoundTrip | 3_ecosystem/3_5_collections/src/lib.rs:11-21 | building an id from the value of an id gives that id back |
| Collections.Nickname.New | 3_ecosystem/3_5_collections/src/lib.rs:34-41 | rejects, with `EmptyValue`, exactly the strings that are blank after trimming; an accepted nickname keeps the string as given, untrimmed |
| Collections.Nickname.AsStr | 3_ecosystem/3_5_collections/src/lib.rs:43-45 | the nickname's text, as given to `new` (`NicknameRoundTrip` rebuilds the nickname from it) |
| Collections.NicknameQuery.New | 3_ecosystem/3_5_collections/src/lib.rs:58-65 | the same rule for queries: blank after trimming is an error, anything else is kept as given |
| Collections.NicknameQuery.AsStr | 3_ecosystem/3_5_collections/src/lib.rs:67-69 | the query's text, as given to `new` |
| Collections.NicknameRoundTrip | 3_ecosystem/3_5_collections/src/lib.rs:34-69 | rebuilding a nickname or a query from its text gives it back |
| Collections.AsMap | 3_ecosystem/3_5_collections/src/lib.rs:164-166 | the keys of the map a sorted entry list stands for are exactly the keys in the list |
| Collections.Get | 3_ecosystem/3_5_collections/src/lib.rs:177-179 | the user stored under the id, `None` for an absent one |
| Collections.ContainsKey | 3_ecosystem/3_5_collections/src/lib.rs:173-175 | true exactly for the keys of the map |
| Collections.Insert | 3_ecosystem/3_5_collections/src/lib.rs:185-192 | the result stands for the receiver's map with the one entry set; the receiver is a value and is not changed |
| Collections.InsertKeepsOthers | 3_ecosystem/3_5_collections/src/lib.rs:185-192 | after an insert every other id reads as before and the inserted id reads the new user |
| Collections.AsMapCons | 3_ecosystem/3_5_collections/src/lib.rs:164-166 | a head entry sets its key over the map of the rest |
| Collections.AsMapAt | 3_ecosystem/3_5_collections/src/lib.rs:177-179 | every entry of the list is found in its map |
| Collections.AsMapRest | 3_ecosystem/3_5_collections/src/lib.rs:164-166 | the head key of a sorted list does not occur in the rest |
| Collections.KeysAbove | 3_ecosystem/3_5_collections/src/lib.rs:164-166 | in a sorted list every key after the head is larger than it |
| Collections.ConsAscending | 3_ecosystem/3_5_collections/src/lib.rs:185-192 | an entry below every key of a sorted list can go in front of it |
| Collections.UpdateTwice | 3_ecosystem/3_5_collections/src/lib.rs:185-192 | inserting twice under one key keeps the second user |
| Collections.UpdateCommutes | 3_ecosystem/3_5_collections/src/lib.rs:185-192 | inserts under different keys commute |
| Collections.FirstRepeat | 3_ecosystem/3_5_collections/src/lib.rs:127-135 | no repeat exactly when the ids are distinct; otherwise the position of the first user whose id occurred before |
| Collections.FirstRepeatAt | 3_ecosystem/3_5_collections/src/lib.rs:127-135 | the first repeat is unique: any position whose id repeated an earlier one over a distinct prefix is it |
| Collections.MapOfKeys | 3_ecosystem/3_5_collections/src/lib.rs:124-137 | the map built from a user list holds exactly the ids of the list |
| Collections.MapOfAt | 3_ecosystem/3_5_collections/src/lib.rs:124-137 | with distinct ids every user is stored under its own id |
| Collections.MapOfSnoc | 3_ecosystem/3_5_collections/src/lib.rs:127-134 | one more loop step inserts the next user, and a new id keeps the prefix distinct |
| Collections.ImmutableUsersRepository.New | 3_ecosystem/3_5_collections/src/lib.rs:124-137 | fails exactly when two users share an id, with `DuplicateUserId` of the first repeated id; otherwise the repository maps every id to its user |
| Collections.ImmutableUsersRepository.GetUserById | 3_ecosystem/3_5_collections/src/lib.rs:141-143 | the stored user for a present id, `None` otherwise |
| Collections.ImmutableUsersRepository.GetUsersByIds | 3_ecosystem/3_5_collections/src/lib.rs:145-150 | at most one user per requested id |
| Collections.ImmutableUsersRepository.SearchUserIdsByNickname | 3_ecosystem/3_5_collections/src/lib.rs:152-160 | strictly ascending ids, and an id is returned exactly when its user's nickname contains the query |
| Collections.PrependBelow | 3_ecosystem/3_5_collections/src/lib.rs:152-160 | a smaller id in front keeps a result ascending |
| Collections.MatchingIdsSpec | 3_ecosystem/3_5_collections/src/lib.rs:152-160 | the filter over the sorted values yields ascending ids, exactly those whose nickname contains the query |
| Collections.FoundUserHasId | 3_ecosystem/3_5_collections/src/lib.rs:141-143 | the user found for an id carries that id |
| Collections.GetUsersByIdsAppend | 3_ecosystem/3_5_collections/src/lib.rs:145-150 | the lookup of a concatenation is the concatenation of the lookups, so the requested order is kept |
| Collections.GetUsersByIdsFound | 3_ecosystem/3_5_collections/src/lib.rs:145-150 | every returned user is the lookup of one of the requested ids |
| Collections.GetUsersByIdsAllFound | 3_ecosystem/3_5_collections/src/lib.rs:145-150 | when every id is present, the k-th result is the user of the k-th id, repeats included |
| Collections.GetUsersByIdsSingle | 3_ecosystem/3_5_collections/src/lib.rs:145-150 | one id gives its user, or nothing when it is missing |
| Collections.AscendingPair | 3_ecosystem/3_5_collections/src/lib.rs:242-252 | an ascending result holding exactly two ids is those two in order |
| Collections.TestUsersMap | 3_ecosystem/3_5_collections/src/lib.rs:206-213 | the fixture ids are distinct and map to alice, bob and alice_wonder |
| Collections.TestRepository | 3_ecosystem/3_5_collections/src/lib.rs:206-213 | the fixture repository is built and holds those three users |
| Collections.GetUserByIdScenario | 3_ecosystem/3_5_collections/src/lib.rs:215-221 | looking up id 2 finds bob |
| Collections.GetUsersByIdsScenario | 3_ecosystem/3_5_collections/src/lib.rs:223-239 | ids 2, 99, 1, 2 give bob, alice, bob |
| Collections.SearchScenario | 3_ecosystem/3_5_collections/src/lib.rs:241-252 | the query "alice" finds ids 1 and 3 in that order |
| Collections.DuplicateScenario | 3_ecosystem/3_5_collections/src/lib.rs:254-263 | two users with id 7 give `DuplicateUserId(7)` |
| Collections.BlankQueryRejected | 3_ecosystem/3_5_collections/src/lib.rs:265-270 | a query of three spaces is rejected |
| DateTime.IsLeapYear | 3_ecosystem/3_3_date_time/src/main.rs:29-31 | the Gregorian rule: divisible by 4 and not by 100, or by 400 |
| DateTime.LeapYearsRepeat | 3_ecosystem/3_3_date_time/src/main.rs:29-31 | the Gregorian leap-year rule repeats every 400 years |
| DateTime.DaysInMonth | 3_ecosystem/3_3_date_time/src/main.rs:33-41 | non-zero exactly for months 1 to 12, and then between 28 and 31; 29 exactly for February of a leap year and 28 exactly for February of a common year |
| DateTime.YearLength | 3_ecosystem/3_3_date_time/src/main.rs:33-41 | the twelve month lengths add up to 366 in a leap year and 365 otherwise |
| DateTime.Date.New | 3_ecosystem/3_3_date_time/src/main.rs:15-26 | a date exactly when the month is in 1..=12 and the day in 1..=days_in_month, and then it holds the three given fields |
| DateTime.Date.Less | 3_ecosystem/3_3_date_time/src/main.rs:7-12 | the derived order on dates: by year, then month, then day |
| DateTime.DateOrderIsTotal | 3_ecosystem/3_3_date_time/src/main.rs:7-12 | the derived (year, month, day) order is irreflexive, transitive, total and asymmetric |
| DateTime.InvalidDates | 3_ecosystem/3_3_date_time/src/main.rs:144-151 | 2019-02-29, month 13 and month 0 are rejected, while 2020-02-29 is accepted |
| DateTime.SplitNow | 3_ecosystem/3_3_date_time/src/main.rs:43-48 | splitting "2019-06-26" on '-' gives exactly three parts |
| DateTime.ParseNowParts | 3_ecosystem/3_3_date_time/src/main.rs:50-52 | the parts parse as 2019, 6 and 26 |
| DateTime.NowDate | 3_ecosystem/3_3_date_time/src/main.rs:43-59 | the fixed "now" is the valid date 2019-06-26; none of the `unreachable!` branches is reachable |
| DateTime.Now | 3_ecosystem/3_3_date_time/src/main.rs:43-59 | the date `now_date` returns; `NowDate` proves it is 2019-06-26 |
| DateTime.User.WithBirthdate | 3_ecosystem/3_3_date_time/src/main.rs:66-70 | the birthdate is `Date::new` of the given fields, so an invalid date is no birthdate |
| DateTime.User.Age | 3_ecosystem/3_3_date_time/src/main.rs:73-96 | 0 without a birthdate or for a birthdate after now; otherwise the number of birthdays reached by now, clamped to 0..=u16::MAX |
| DateTime.User.IsAdult | 3_ecosystem/3_3_date_time/src/main.rs:99-101 | an age of at least 18; `IsAdultIffEighteenthBirthday` proves it holds exactly when the 18th birthday has been reached |
| DateTime.CompletedYears | 3_ecosystem/3_3_date_time/src/main.rs:83-86 | the year difference minus one before this year's birthday is exactly the largest n such that the n-th birthday has come |
| DateTime.NotBornYet | 3_ecosystem/3_3_date_time/src/main.rs:78-81 | a birthdate after now has completed fewer than zero years |
| DateTime.BornBy | 3_ecosystem/3_3_date_time/src/main.rs:83-90 | a birthdate not after now has completed zero years or more |
| DateTime.IsAdultIffEighteenthBirthday | 3_ecosystem/3_3_date_time/src/main.rs:99-101 | `is_adult` holds exactly when there is a birthdate and its eighteenth anniversary is not after now |
| DateTime.AgeAsWritten | 3_ecosystem/3_3_date_time/src/main.rs:83 | the code as written: `now.year - birthdate.year` overflows i32 exactly for a valid birthdate more than i32::MAX years before 2019; it otherwise agrees with `Age` |
| DateTime.AgeOverflowsForEarliestYear | 3_ecosystem/3_3_date_time/src/main.rs:83 | born (i32::MIN)-01-01, a valid date, makes the subtraction overflow, while the intended age saturates at u16::MAX |
| DateTime.AgeExamples | 3_ecosystem/3_3_date_time/src/main.rs:108-120 | 1990-06-04 is 29, 1990-07-04 is 28, 0-01-01 is 2019, 1970-01-01 is 49, 2019-06-25 is 0 |
| DateTime.FutureAgeExamples | 3_ecosystem/3_3_date_time/src/main.rs:122-133 | birthdates after now give age 0 |
| DateTime.AdultExamples | 3_ecosystem/3_3_date_time/src/main.rs:135-152 | born 2001-06-27 is not an adult, born 2001-06-26 is; invalid birthdates give age 0 and no adult |
| Dispatch.User.New | 1_concepts/1_6_dispatch/src/main.rs:17-23 | a new user holds the given id and email and is not activated |
| Dispatch.User.Activate | 1_concepts/1_6_dispatch/src/main.rs:25-27 | activation sets the flag and keeps id and email |
| Dispatch.HashMapStorage.New | 1_concepts/1_6_dispatch/src/main.rs:54-58 | a new hash storage is empty |
| Dispatch.HashMapStorage.Set | 1_concepts/1_6_dispatch/src/main.rs:68-70 | `set` stores the value under the key, overwriting any earlier one, and changes nothing else |
| Dispatch.HashMapStorage.Get | 1_concepts/1_6_dispatch/src/main.rs:72-74 | the value stored under the key, `None` for an absent key |
| Dispatch.HashMapStorage.Remove | 1_concepts/1_6_dispatch/src/main.rs:76-78 | returns what `get` returned before and deletes exactly that key |
| Dispatch.AsMap | 1_concepts/1_6_dispatch/src/main.rs:83-85 | the keys of the map an ordered entry list stands for are the keys in the list |
| Dispatch.KeysAbove | 1_concepts/1_6_dispatch/src/main.rs:83-85 | in the ordered list every key after the head is larger |
| Dispatch.AsMapCons | 1_concepts/1_6_dispatch/src/main.rs:83-85 | a head entry sets its key over the map of the rest |
| Dispatch.ConsAscending | 1_concepts/1_6_dispatch/src/main.rs:83-85 | an entry below every key of an ordered list can go in front |
| Dispatch.Lookup | 1_concepts/1_6_dispatch/src/main.rs:100-102 | the ordered lookup finds exactly the keys of the map, with their values |
| Dispatch.Insert | 1_concepts/1_6_dispatch/src/main.rs:96-98 | the ordered insert keeps the list in key order and stands for the map with the key set |
| Dispatch.Delete | 1_concepts/1_6_dispatch/src/main.rs:104-106 | the ordered delete keeps the list in key order and stands for the map without the key |
| Dispatch.UpdateTwice | 1_concepts/1_6_dispatch/src/main.rs:67-107 | setting a key twice keeps the second value |
| Dispatch.UpdateCommutes | 1_concepts/1_6_dispatch/src/main.rs:67-107 | sets of different keys commute |
| Dispatch.RemoveUpdated | 1_concepts/1_6_dispatch/src/main.rs:67-107 | removing a key that was just set where it was absent restores the map |
| Dispatch.RemoveCommutes | 1_concepts/1_6_dispatch/src/main.rs:67-107 | removing one key commutes with setting another |
| Dispatch.BTreeMapStorage.New | 1_concepts/1_6_dispatch/src/main.rs:88-92 | a new ordered storage is empty |
| Dispatch.BTreeMapStorage.Set | 1_concepts/1_6_dispatch/src/main.rs:96-98 | the same contents change as `HashMapStorage::set`, with the entries kept in key order |
| Dispatch.BTreeMapStorage.Get | 1_concepts/1_6_dispatch/src/main.rs:100-102 | the same answer as `HashMapStorage::get` on the same contents |
| Dispatch.BTreeMapStorage.Remove | 1_concepts/1_6_dispatch/src/main.rs:104-106 | the same result and contents change as `HashMapStorage::remove` |
| Dispatch.Storage.Get | 1_concepts/1_6_dispatch/src/main.rs:37-41 | either backend, through the one interface, answers `get` from its contents |
| Dispatch.Storage.Set | 1_concepts/1_6_dispatch/src/main.rs:37-41 | either backend, through the one interface, sets the key |
| Dispatch.Storage.Remove | 1_concepts/1_6_dispatch/src/main.rs:37-41 | either backend, through the one interface, returns the old value and deletes the key |
| Dispatch.EndsWithContains | 1_concepts/1_6_dispatch/src/main.rs:139-161 | a message ending in a phrase contains that phrase |
| Dispatch.AlreadyExistsMessage | 1_concepts/1_6_dispatch/src/main.rs:141 | the text "User with id {id} already exists" |
| Dispatch.NotFoundMessage | 1_concepts/1_6_dispatch/src/main.rs:157 | the text "User with id {id} not found" |
| Dispatch.MessagesNameTheFailure | 1_concepts/1_6_dispatch/src/main.rs:139-161 | the duplicate message contains "already exists" and the missing-user message contains "not found" |
| Dispatch.AddSpecFacts | 1_concepts/1_6_dispatch/src/main.rs:139-145 | `add` succeeds exactly for an absent id; it then stores the user, and otherwise keeps the stored one; no other key changes |
| Dispatch.UpdateSpecFacts | 1_concepts/1_6_dispatch/src/main.rs:155-161 | `update` succeeds exactly for a present id and then replaces the user; the set of ids never changes |
| Dispatch.RemoveUndoesAdd | 1_concepts/1_6_dispatch/src/main.rs:139-168 | removing a user just added under a new id returns it and restores the repository |
| Dispatch.RemoveIdempotent | 1_concepts/1_6_dispatch/src/main.rs:166-168 | a second remove returns `None` and changes nothing, as does removing an absent id |
| Dispatch.StoredBelowStep | 1_concepts/1_6_dispatch/src/main.rs:171-181 | one step of the counting loop adds the id exactly when it is stored |
| Dispatch.StoredBelowBounds | 1_concepts/1_6_dispatch/src/main.rs:171-181 | at most 1000 users are counted, and all of them when every id is below 1000 |
| Dispatch.UserRepository.New | 1_concepts/1_6_dispatch/src/main.rs:132-134 | the repository works over the given storage |
| Dispatch.UserRepository.Add | 1_concepts/1_6_dispatch/src/main.rs:139-145 | result and new contents are those of the add specification (see `AddSpecFacts`) |
| Dispatch.UserRepository.Get | 1_concepts/1_6_dispatch/src/main.rs:148-150 | the stored user for a present id, `None` otherwise |
| Dispatch.UserRepository.Update | 1_concepts/1_6_dispatch/src/main.rs:155-161 | result and new contents are those of the update specification (see `UpdateSpecFacts`) |
| Dispatch.UserRepository.Remove | 1_concepts/1_6_dispatch/src/main.rs:166-168 | result and new contents are those of the remove specification: the stored user, then deleted |
| Dispatch.UserRepository.Count | 1_concepts/1_6_dispatch/src/main.rs:171-181 | the number of stored ids in 0..1000 |
| Dispatch.UserRepositoryDyn.New | 1_concepts/1_6_dispatch/src/main.rs:209-213 | the repository works over the given boxed storage |
| Dispatch.UserRepositoryDyn.Add | 1_concepts/1_6_dispatch/src/main.rs:216-223 | the same specification as the static `add` |
| Dispatch.UserRepositoryDyn.Get | 1_concepts/1_6_dispatch/src/main.rs:225-227 | the same answer as the static `get` |
| Dispatch.UserRepositoryDyn.Update | 1_concepts/1_6_dispatch/src/main.rs:230-237 | the same specification as the static `update` |
| Dispatch.UserRepositoryDyn.Remove | 1_concepts/1_6_dispatch/src/main.rs:239-241 | the same specification as the static `remove` |
| Dispatch.UserRepositoryDyn.Count | 1_concepts/1_6_dispatch/src/main.rs:244-252 | the same count as the static `count` |
| Dispatch.StaticRun | 1_concepts/1_6_dispatch/src/main.rs:539-568 | the equivalence test's steps on the static repository give the expected answers |
| Dispatch.DynamicRun | 1_concepts/1_6_dispatch/src/main.rs:539-568 | the equivalence test's steps on the dynamic repository give the same expected answers |
| Dispatch.EquivalenceScenario | 1_concepts/1_6_dispatch/src/main.rs:539-568 | the static and the dynamic repository observe the same results |
| Dispatch.TreeStorageScenario | 1_concepts/1_6_dispatch/src/main.rs:393-400 | over the ordered storage an added user is found, removed and then gone |
| Dispatch.MultipleUsersScenario | 1_concepts/1_6_dispatch/src/main.rs:402-418 | users 1 to 10 are all found, and user 5 is gone after its removal |
| Dispatch.CountScenario | 1_concepts/1_6_dispatch/src/main.rs:264-298 | after adding and removing user 1 the count is 0; a repository with user 2 counts 1 |
| Dispatch.HeterogeneousStoragesScenario | 1_concepts/1_6_dispatch/src/main.rs:515-533 | both storages, used through the one interface, return what was set |
| Email.Validate | 1_concepts/1_5_convert_cast_deref/src/main.rs:36-60 | the checks run in order: `Empty` exactly for the empty string, then `MissingAt` exactly when there is no '@', then `MissingDot` exactly when there is an '@' but no '.', then `NotExactlyOneAt` exactly when there are several '@' |
| Email.Reason.Text | 1_concepts/1_5_convert_cast_deref/src/main.rs:36-59 | each refusal reason is the `&'static str` `validate` returns for it |
| Email.AtCounted | 1_concepts/1_5_convert_cast_deref/src/main.rs:40-50 | a string contains '@' exactly when '@' occurs at least once |
| Email.SplitAtOne | 1_concepts/1_5_convert_cast_deref/src/main.rs:47-50 | with exactly one '@' the split gives two parts, neither holding '@', that the '@' joins back into the string |
| Email.ValidateAcceptsWellFormed | 1_concepts/1_5_convert_cast_deref/src/main.rs:36-60 | `validate` accepts exactly the non-empty strings with one '@', neither first nor last, and some '.' |
| Email.TryFrom | 1_concepts/1_5_convert_cast_deref/src/main.rs:63-82 | succeeds exactly for well-formed input and then stores the input unchanged; a failure carries the original input and the first failing reason |
| Email.IntoStringRoundTrip | 1_concepts/1_5_convert_cast_deref/src/main.rs:106-110 | converting an accepted email back into a string and parsing that again gives the same email |
| Email.EmailString.AsStr | 1_concepts/1_5_convert_cast_deref/src/main.rs:85-89 | the inner string, as `AsRef<str>`, `Borrow<str>`, `Display` and `From<EmailString> for String` give it |
| Email.Compare | 1_concepts/1_5_convert_cast_deref/src/main.rs:148-152 | `Ord for str`: lexicographic order character by character, a proper prefix first; `CompareEqual` and `CompareFlips` prove it a three-way comparison |
| Email.EmailString.Cmp | 1_concepts/1_5_convert_cast_deref/src/main.rs:148-152 | `Ord for EmailString` is `Ord` of the inner strings (`EmailOrderIsStringOrder`) |
| Email.CompareEqual | 1_concepts/1_5_convert_cast_deref/src/main.rs:148-152 | the string comparison is `Equal` exactly for equal strings |
| Email.CompareFlips | 1_concepts/1_5_convert_cast_deref/src/main.rs:148-152 | the comparison is antisymmetric: `Less` one way is `Greater` the other |
| Email.EmailOrderIsStringOrder | 1_concepts/1_5_convert_cast_deref/src/main.rs:134-152 | equality and ordering of emails are those of their strings |
| Email.SplitExample | 1_concepts/1_5_convert_cast_deref/src/main.rs:47 | two '@'-free parts joined by '@' split back into those parts |
| Email.AcceptsParts | 1_concepts/1_5_convert_cast_deref/src/main.rs:367-372 | every `local@name.tld` with a non-empty local part and top-level part, and no other '@', is accepted unchanged |
| Email.RejectsEmptyLocalPart | 1_concepts/1_5_convert_cast_deref/src/main.rs:51-53 | every `@name.tld` is rejected with the empty-local-part reason |
| Email.AcceptsShortest | 1_concepts/1_5_convert_cast_deref/src/main.rs:371 | "a@b.c" is accepted |
| Email.AcceptsUserAtExample | 1_concepts/1_5_convert_cast_deref/src/main.rs:369 | "user@example.com" is accepted |
| Email.AcceptsDottedParts | 1_concepts/1_5_convert_cast_deref/src/main.rs:370 | "test.user@sub.domain.com" is accepted |
| Email.RejectsNoDomain | 1_concepts/1_5_convert_cast_deref/src/main.rs:379 | "@nodomain.com" is rejected, for its empty local part |
| Email.RejectsEmpty | 1_concepts/1_5_convert_cast_deref/src/main.rs:376 | "" is rejected first, as empty |
| Email.RejectsNotAnEmail | 1_concepts/1_5_convert_cast_deref/src/main.rs:377 | "notanemail" is rejected for its missing '@' |
| Email.RejectsNoAt | 1_concepts/1_5_convert_cast_deref/src/main.rs:380 | "noat.com" is rejected for its missing '@' |
| Email.RejectsMissingDot | 1_concepts/1_5_convert_cast_deref/src/main.rs:378 | "missing@domain" is rejected for its missing '.' |
| Email.EqualityExamples | 1_concepts/1_5_convert_cast_deref/src/main.rs:413-421 | equal strings give equal emails, different ones different, and "same@…" orders after "different@…" |
| FormatSpec.ParseUsize | 3_ecosystem/3_4_regex_parsing/src/main.rs:172-178 | `str::parse::<usize>`: accepts exactly an optional '+' and one or more digits whose value fits in usize, giving that value; otherwise `InvalidInteger` naming the field and the raw text |
| FormatSpec.IsAlign | 3_ecosystem/3_4_regex_parsing/src/main.rs:180-182 | exactly '<', '^' and '>' |
| FormatSpec.IsIdentifierStart | 3_ecosystem/3_4_regex_parsing/src/main.rs:459-461 | '_' or an `XID_Start` character |
| FormatSpec.IsValidIdentifier | 3_ecosystem/3_4_regex_parsing/src/main.rs:184-207 | an `XID_Start` character followed by `XID_Continue` characters, or '_' followed by at least one `XID_Continue` character; `ValidIdentifierIsConsumed` proves it agrees with what `consume_identifier` takes |
| FormatSpec.ParseArgument | 3_ecosystem/3_4_regex_parsing/src/main.rs:158-170 | all-digit text (the empty text included) is a position exactly when it is non-empty and its value fits in usize, and otherwise `InvalidInteger` naming the field and the text; any other text is a name equal to the text exactly when it is a valid identifier, and otherwise `InvalidFormatSpec` of the text |
| FormatSpec.ParseCount | 3_ecosystem/3_4_regex_parsing/src/main.rs:150-156 | text ending in '$' is a parameter exactly when the text before the '$' parses as an argument, which is then the parameter, and otherwise fails with that argument's error; any other text is `Integer` of its value exactly when it is an optional '+' and digits fitting in usize, and otherwise `InvalidInteger` naming the field and the text |
| FormatSpec.ParsePrecision | 3_ecosystem/3_4_regex_parsing/src/main.rs:142-148 | the precision is `Asterisk` exactly for the text "*"; any other text gives `Counted` of what it parses as with the field "precision", or that parse's error |
| FormatSpec.SkipIf | 3_ecosystem/3_4_regex_parsing/src/main.rs:416-427 | `consume_if`: one character is skipped exactly when it is the expected one, otherwise nothing |
| FormatSpec.AlignEnd | 3_ecosystem/3_4_regex_parsing/src/main.rs:219-239 | `parse_alignment`: skips at most two characters and stays in the input; whatever it skips ends with an align character, and it skips two only when the first is not one (a fill character) |
| FormatSpec.SignAt | 3_ecosystem/3_4_regex_parsing/src/main.rs:241-253 | `Plus` exactly at a '+', `Minus` exactly at a '-' |
| FormatSpec.DigitsEnd | 3_ecosystem/3_4_regex_parsing/src/main.rs:400-414 | `consume_digits`: the longest run of ASCII digits from the cursor |
| FormatSpec.ContinueEnd | 3_ecosystem/3_4_regex_parsing/src/main.rs:358-398 | the longest run of XID-continue characters from the cursor |
| FormatSpec.IdentEnd | 3_ecosystem/3_4_regex_parsing/src/main.rs:358-398 | `consume_identifier`: when it finds one, a non-empty valid identifier that cannot be extended; when it finds none, no prefix at the cursor is a valid identifier |
| FormatSpec.DigitCount | 3_ecosystem/3_4_regex_parsing/src/main.rs:260-269 | reading a digit count only moves the cursor forward, within the input |
| FormatSpec.WidthStep | 3_ecosystem/3_4_regex_parsing/src/main.rs:255-286 | `parse_optional_width`: the cursor moves forward within the input, and when there is no width it is back where it started (the checkpoint reset) |
| FormatSpec.RequiredCountStep | 3_ecosystem/3_4_regex_parsing/src/main.rs:301-338 | `parse_required_count`: the cursor only moves forward within the input |
| FormatSpec.PrecisionStep | 3_ecosystem/3_4_regex_parsing/src/main.rs:288-299 | `parse_optional_precision`: there is no precision exactly when the cursor did not move (no '.') |
| FormatSpec.TypeStep | 3_ecosystem/3_4_regex_parsing/src/main.rs:340-356 | `parse_type`: a failure consumes nothing and reports the whole input as `InvalidFormatSpec` |
| FormatSpec.ParseSpec | 3_ecosystem/3_4_regex_parsing/src/main.rs:108-132 | the steps of `parse_custom` chained in order (alignment, sign, '#', '0', width, precision, type, end of input), the first error stopping the chain; `ParseRender` proves every well-formed spec is read back from its text |
| FormatSpec.CustomParser.constructor | 3_ecosystem/3_4_regex_parsing/src/main.rs:215-217 | a new parser starts at index 0 of its input |
| FormatSpec.CustomParser.PeekChar | 3_ecosystem/3_4_regex_parsing/src/main.rs:446-448 | the character at the cursor, `None` exactly at the end |
| FormatSpec.CustomParser.IsEof | 3_ecosystem/3_4_regex_parsing/src/main.rs:454-456 | at the end exactly when there is no character to peek |
| FormatSpec.CustomParser.BumpChar | 3_ecosystem/3_4_regex_parsing/src/main.rs:438-444 | advances by one character, or stays at the end |
| FormatSpec.CustomParser.ConsumeIf | 3_ecosystem/3_4_regex_parsing/src/main.rs:416-427 | moves as `SkipIf` says and reports whether it moved |
| FormatSpec.CustomParser.ConsumeStr | 3_ecosystem/3_4_regex_parsing/src/main.rs:429-436 | true exactly when the rest starts with the token, and then the cursor moves past it; otherwise it stays |
| FormatSpec.CustomParser.ConsumeDigits | 3_ecosystem/3_4_regex_parsing/src/main.rs:400-414 | returns the digits from the old cursor to the new one, which is `DigitsEnd` |
| FormatSpec.CustomParser.ConsumeIdentifier | 3_ecosystem/3_4_regex_parsing/src/main.rs:358-398 | finds an identifier exactly when `IdentEnd` does, returns the text it moved over, and does not move when it finds none |
| FormatSpec.CustomParser.ParseAlignment | 3_ecosystem/3_4_regex_parsing/src/main.rs:219-239 | moves the cursor to `AlignEnd` |
| FormatSpec.CustomParser.ParseSign | 3_ecosystem/3_4_regex_parsing/src/main.rs:241-253 | returns `SignAt` of the cursor and moves past the sign exactly when there is one |
| FormatSpec.CustomParser.ParseDigitCount | 3_ecosystem/3_4_regex_parsing/src/main.rs:260-269 | result and new cursor are those of `DigitCount` |
| FormatSpec.CustomParser.ParseOptionalWidth | 3_ecosystem/3_4_regex_parsing/src/main.rs:255-286 | result and new cursor are those of `WidthStep` |
| FormatSpec.CustomParser.ParseRequiredCount | 3_ecosystem/3_4_regex_parsing/src/main.rs:301-338 | result and new cursor are those of `RequiredCountStep` |
| FormatSpec.CustomParser.ParseOptionalPrecision | 3_ecosystem/3_4_regex_parsing/src/main.rs:288-299 | result and new cursor are those of `PrecisionStep` |
| FormatSpec.CustomParser.ParseType | 3_ecosystem/3_4_regex_parsing/src/main.rs:340-356 | result and new cursor are those of `TypeStep` |
| FormatSpec.ParseCustom | 3_ecosystem/3_4_regex_parsing/src/main.rs:108-132 | the parser's result is the grammar's answer for the whole input (align, sign, '#', '0', width, precision, type, then end of input) |
| FormatSpecProofs.ContinueEndAt | 3_ecosystem/3_4_regex_parsing/src/main.rs:358-398 | any maximal run of XID-continue characters is where `ContinueEnd` stops |
| FormatSpecProofs.DigitsEndAt | 3_ecosystem/3_4_regex_parsing/src/main.rs:400-414 | any maximal digit run is where `DigitsEnd` stops |
| FormatSpecProofs.IdentEndAt | 3_ecosystem/3_4_regex_parsing/src/main.rs:358-398 | a valid identifier that cannot be extended is exactly what `consume_identifier` takes |
| FormatSpecProofs.ValidIdentifierIsConsumed | 3_ecosystem/3_4_regex_parsing/src/main.rs:184-207 | `is_valid_identifier(s)` holds exactly when `consume_identifier` takes all of `s` |
| FormatSpecProofs.RenderCountHead | 3_ecosystem/3_4_regex_parsing/src/main.rs:150-178 | a rendered count starts with a digit exactly when it is not a named parameter, and never with a character that could end the width |
| FormatSpecProofs.CountAt | 3_ecosystem/3_4_regex_parsing/src/main.rs:255-338 | a rendered count followed by '.' or the end is read back as that count, by the width and by the required-count parser |
| FormatSpecProofs.IntegerAt | 3_ecosystem/3_4_regex_parsing/src/main.rs:260-269 | a decimal number that fits in usize, followed by neither a digit nor '$', is read back as `Integer(n)` by both count readers |
| FormatSpecProofs.PositionAt | 3_ecosystem/3_4_regex_parsing/src/main.rs:260-266 | digits followed by '$' are read back as `Parameter(Position(n))` |
| FormatSpecProofs.IdentifierAt | 3_ecosystem/3_4_regex_parsing/src/main.rs:275-283 | an identifier followed by '$' is read back as `Parameter(Identifier)` |
| FormatSpecProofs.RenderHead | 3_ecosystem/3_4_regex_parsing/src/main.rs:110-113 | on a rendered spec alignment takes nothing and the sign is read back; '#' is not taken, and '0' is taken exactly when there is a width (rendering puts a '0' before it) |
| FormatSpecProofs.RenderWidth | 3_ecosystem/3_4_regex_parsing/src/main.rs:116 | on a rendered spec the width is read back |
| FormatSpecProofs.PrecisionAfter | 3_ecosystem/3_4_regex_parsing/src/main.rs:288-299 | a rendered precision after any prefix is read back to the end |
| FormatSpecProofs.PrecisionTextAt | 3_ecosystem/3_4_regex_parsing/src/main.rs:288-299 | a rendered precision at the cursor is read back to the end |
| FormatSpecProofs.PrecisionCountAt | 3_ecosystem/3_4_regex_parsing/src/main.rs:288-299 | '.' and a rendered count are read back as `Counted(c)` |
| FormatSpecProofs.ParseRender | 3_ecosystem/3_4_regex_parsing/src/main.rs:108-132 | round trip: every spec whose counts fit in usize and whose names are identifiers is rendered into text that `parse_custom` turns back into the same spec |
| FormatSpecProofs.ArgumentRoundTrip | 3_ecosystem/3_4_regex_parsing/src/main.rs:158-170 | the text of any position up to usize::MAX, or of any valid identifier, parses back as that argument |
| FormatSpecProofs.CountRoundTrip | 3_ecosystem/3_4_regex_parsing/src/main.rs:150-156 | the text of any well-formed count (a number up to usize::MAX, or an argument followed by '$') parses back as that count |
| FormatSpecProofs.PrecisionRoundTrip | 3_ecosystem/3_4_regex_parsing/src/main.rs:142-148 | "*" and the text of any well-formed count parse back as that precision |
| FormatSpecProofs.ParsedCountIsOk | 3_ecosystem/3_4_regex_parsing/src/main.rs:150-170 | every count `parse_count` accepts is well-formed: its numbers fit in usize and its names are valid identifiers |
| FormatSpecProofs.OverflowAt | 3_ecosystem/3_4_regex_parsing/src/main.rs:172-178 | a digit run beyond usize::MAX is `InvalidInteger` tagged with the field |
| FormatSpecProofs.WidthOverflow | 3_ecosystem/3_4_regex_parsing/src/main.rs:610-625 | an overflowing width is `InvalidInteger` for "width" |
| FormatSpecProofs.LeadingWidthOne | 3_ecosystem/3_4_regex_parsing/src/main.rs:255-269 | "1.d" reads width 1 and stops at the '.' |
| FormatSpecProofs.PrecisionOverflow | 3_ecosystem/3_4_regex_parsing/src/main.rs:587-588 | an overflowing precision is `InvalidInteger` for "precision" |
| FormatSpecProofs.Nines | 3_ecosystem/3_4_regex_parsing/src/main.rs:587 | `"9".repeat(n)` is n digits |
| FormatSpecProofs.NinesValue | 3_ecosystem/3_4_regex_parsing/src/main.rs:587 | n nines are 10^n - 1 |
| FormatSpecProofs.Pow10Grows | 3_ecosystem/3_4_regex_parsing/src/main.rs:587 | powers of ten grow with the exponent |
| FormatSpecProofs.Pow10Add | 3_ecosystem/3_4_regex_parsing/src/main.rs:587 | 10^(a+b) = 10^a * 10^b |
| FormatSpecProofs.HundredNinesOverflow | 3_ecosystem/3_4_regex_parsing/src/main.rs:587 | a hundred nines start with '9' and exceed usize::MAX |
| FormatSpecProofs.NinesHead | 3_ecosystem/3_4_regex_parsing/src/main.rs:587 | a run of nines starts with '9' |
| FormatSpecProofs.HundredNines | 3_ecosystem/3_4_regex_parsing/src/main.rs:585-625 | a hundred nines are rejected as an overflowing width, and "1." and a hundred nines as an overflowing precision |
| FormatSpecProofs.ParsesEmpty | 3_ecosystem/3_4_regex_parsing/src/main.rs:476-481 | "" parses to no sign, width or precision |
| FormatSpecProofs.ParseSpecAccepts | 3_ecosystem/3_4_regex_parsing/src/main.rs:108-132 | when every step succeeds and the type step reaches the end, `parse_custom` returns the parts the steps read |
| FormatSpecProofs.ParseSpecRejectsPrecision | 3_ecosystem/3_4_regex_parsing/src/main.rs:117 | a failing precision step fails the parse with `InvalidFormatSpec` |
| FormatSpecProofs.ParseSpecRejectsRest | 3_ecosystem/3_4_regex_parsing/src/main.rs:119-125 | input left after the type fails the parse with `InvalidFormatSpec` |
| FormatSpecProofs.AlignWidthAsteriskSteps | 3_ecosystem/3_4_regex_parsing/src/main.rs:483-498 | the steps of ">8.*" and ">+8.*" other than the width |
| FormatSpecProofs.AlignWidthAsteriskCounts | 3_ecosystem/3_4_regex_parsing/src/main.rs:483-498 | the widths of ">8.*" and ">+8.*" are 8 |
| FormatSpecProofs.ParsesAlignWidthAsterisk | 3_ecosystem/3_4_regex_parsing/src/main.rs:483-498 | ">8.*" and ">+8.*" parse to width 8 and precision `*`, the second with sign `Plus` |
| FormatSpecProofs.SignPositionalPrecisionSteps | 3_ecosystem/3_4_regex_parsing/src/main.rs:499-506 | "-.1$x" has sign `Minus` and no width |
| FormatSpecProofs.SignPositionalPrecisionCounts | 3_ecosystem/3_4_regex_parsing/src/main.rs:499-506 | "-.1$x" has precision argument 1 and type x |
| FormatSpecProofs.ParsesSignPositionalPrecision | 3_ecosystem/3_4_regex_parsing/src/main.rs:499-506 | "-.1$x" parses to `Minus` with precision `Parameter(Position(1))` |
| FormatSpecProofs.FillFlagsSteps | 3_ecosystem/3_4_regex_parsing/src/main.rs:507-514 | "a^#043.8?" has fill 'a', align '^', the '#' and '0' flags and the type "?" |
| FormatSpecProofs.FillFlagsCounts | 3_ecosystem/3_4_regex_parsing/src/main.rs:507-514 | "a^#043.8?" has width 43 and precision 8 |
| FormatSpecProofs.ParsesFillFlagsAndDebugType | 3_ecosystem/3_4_regex_parsing/src/main.rs:507-514 | "a^#043.8?" parses to width 43 and precision 8 |
| FormatSpecProofs.FillNamedPrecisionSteps | 3_ecosystem/3_4_regex_parsing/src/main.rs:515-524 | "λ<+12.user$" has fill 'λ', align '<' and sign `Plus` |
| FormatSpecProofs.FillNamedPrecisionWidth | 3_ecosystem/3_4_regex_parsing/src/main.rs:515-524 | "λ<+12.user$" has width 12 |
| FormatSpecProofs.FillNamedPrecisionCount | 3_ecosystem/3_4_regex_parsing/src/main.rs:515-524 | "λ<+12.user$" has precision `Parameter(Identifier("user"))` |
| FormatSpecProofs.ParsesFillAndNamedPrecision | 3_ecosystem/3_4_regex_parsing/src/main.rs:515-524 | "λ<+12.user$" parses to `Plus`, width 12 and the named precision |
| FormatSpecProofs.NamedWidthsSteps | 3_ecosystem/3_4_regex_parsing/src/main.rs:525-548 | the steps of "name$" and "_tmp$.*" other than the width |
| FormatSpecProofs.NamedWidth | 3_ecosystem/3_4_regex_parsing/src/main.rs:275-283 | a valid identifier followed by '$' at the start is a named width |
| FormatSpecProofs.ParsesNamedWidths | 3_ecosystem/3_4_regex_parsing/src/main.rs:525-548 | "name$" and "_tmp$.*" parse to the named widths, the second with precision `*` |
| FormatSpecProofs.BareIdentifierSteps | 3_ecosystem/3_4_regex_parsing/src/main.rs:533-540 | "8name" has no precision |
| FormatSpecProofs.BareIdentifierCounts | 3_ecosystem/3_4_regex_parsing/src/main.rs:533-540 | "8name" has width 8, and "name" is then taken as the type |
| FormatSpecProofs.ParsesBareIdentifierAfterWidth | 3_ecosystem/3_4_regex_parsing/src/main.rs:533-540 | "8name" parses to width 8 |
| FormatSpecProofs.LeadingZeroSteps | 3_ecosystem/3_4_regex_parsing/src/main.rs:549-556 | "5.01$X?" has no flags and the type "X?" |
| FormatSpecProofs.LeadingZeroCounts | 3_ecosystem/3_4_regex_parsing/src/main.rs:549-556 | "5.01$X?" has width 5 and precision argument 1 ("01") |
| FormatSpecProofs.ParsesLeadingZeroPosition | 3_ecosystem/3_4_regex_parsing/src/main.rs:549-556 | "5.01$X?" parses to width 5 and precision `Parameter(Position(1))` |
| FormatSpecProofs.ParsesDocumentedValidInputs | 3_ecosystem/3_4_regex_parsing/src/main.rs:473-574 | every listed valid input parses to the listed spec |
| FormatSpecProofs.MissingPrecisionSteps | 3_ecosystem/3_4_regex_parsing/src/main.rs:591-599 | ".", "-." and "a^#043." have a '.' with no count after it |
| FormatSpecProofs.MissingPrecisionWidth | 3_ecosystem/3_4_regex_parsing/src/main.rs:599 | "a^#043." has width 43 before its bare '.' |
| FormatSpecProofs.RejectsMissingPrecision | 3_ecosystem/3_4_regex_parsing/src/main.rs:591-599 | ".", "-." and "a^#043." are rejected |
| FormatSpecProofs.StrayCharacterSteps | 3_ecosystem/3_4_regex_parsing/src/main.rs:591-599 | in "++1", "_" and "1$$" the type step stops before the end |
| FormatSpecProofs.StrayCharacterWidth | 3_ecosystem/3_4_regex_parsing/src/main.rs:597 | "1$$" has width argument 1 and one '$' left over |
| FormatSpecProofs.RejectsStrayCharacters | 3_ecosystem/3_4_regex_parsing/src/main.rs:591-599 | "++1", "_" and "1$$" are rejected |
| FormatSpecProofs.BadPrecisionCountSteps | 3_ecosystem/3_4_regex_parsing/src/main.rs:595-598 | in "name$.", "name$._" and "1.$x" the count after '.' is missing or malformed |
| FormatSpecProofs.BadPrecisionCountWidths | 3_ecosystem/3_4_regex_parsing/src/main.rs:595-598 | the widths read before those '.'s |
| FormatSpecProofs.RejectsBadPrecisionCounts | 3_ecosystem/3_4_regex_parsing/src/main.rs:595-598 | "name$.", "name$._" and "1.$x" are rejected |
| FormatSpecProofs.RejectsDocumentedInvalidInputs | 3_ecosystem/3_4_regex_parsing/src/main.rs:585-608 | every listed invalid input is rejected |
| GuessingGame.ParseSecretNumber | 3_ecosystem/3_1_testing/src/main.rs:69-74 | succeeds exactly when the trimmed text is an unsigned literal (optional '+', digits) whose value fits in u32, and then gives that value; otherwise `NotANumber` |
| GuessingGame.ParseGuess | 3_ecosystem/3_1_testing/src/main.rs:76-78 | the same parse as `parse_secret_number` with the error dropped |
| GuessingGame.ParseGuessAccepts | 3_ecosystem/3_1_testing/src/main.rs:76-78 | a line is a guess exactly when, trimmed, it is an optional '+' and digits of a value up to u32::MAX, and the guess is that value; it is refused exactly when `parse_secret_number` refuses it |
| GuessingGame.ParsesPaddedNumber | 3_ecosystem/3_1_testing/src/main.rs:69-78 | any u32 written in decimal with whitespace around it is accepted by both `parse_secret_number` and `parse_guess` |
| GuessingGame.RefusesAboveMax | 3_ecosystem/3_1_testing/src/main.rs:69-78 | a number above u32::MAX is refused by both parsers |
| GuessingGame.RefusesNonNumeric | 3_ecosystem/3_1_testing/src/main.rs:69-78 | a text holding a character that is not a digit, '+' or whitespace is refused by both parsers |
| GuessingGame.ReadGuess | 3_ecosystem/3_1_testing/src/main.rs:60-67 | `read_guess`: `InputEnded` exactly when the read returns zero bytes (no line, or an empty one); otherwise the parse of the line |
| GuessingGame.AppError.Text | 3_ecosystem/3_1_testing/src/main.rs:93-108 | the message `Display for AppError` writes for each error |
| GuessingGame.Line.Text | 3_ecosystem/3_1_testing/src/main.rs:35-51 | the text of each line the game writes, the guess in decimal |
| GuessingGame.Verdict | 3_ecosystem/3_1_testing/src/main.rs:47-54 | `Too small!` below the secret, `Too big!` above it, `You win!` on it |
| GuessingGame.Reads | 3_ecosystem/3_1_testing/src/main.rs:37-43 | the loop reads at most one guess per input line |
| GuessingGame.ReadsAreParses | 3_ecosystem/3_1_testing/src/main.rs:37-43 | every read is the parse of its non-empty line, and reading stops exactly at the first empty read |
| GuessingGame.RunGame | 3_ecosystem/3_1_testing/src/main.rs:30-58 | `run_game`'s output and result are the welcome line followed by the rounds over what is read (characterised by the lemmas below) |
| GuessingGame.WinsIffSecretGuessed | 3_ecosystem/3_1_testing/src/main.rs:37-57 | the game returns `Ok` exactly when the secret is among the guesses read; otherwise it ends with `InputEnded` |
| GuessingGame.VerdictFollowsGuess | 3_ecosystem/3_1_testing/src/main.rs:45-54 | every "You guessed" line is followed by its verdict (too small, too big or win), no "You win!" comes before the last line, and the last line is "You win!" exactly when the game returns `Ok` |
| GuessingGame.SkipsUnparseableLine | 3_ecosystem/3_1_testing/src/main.rs:40-43 | an unparseable line only repeats the prompt: nothing is written for it and the game goes on with the next line |
| GuessingGame.SkipsUnparseableRead | 3_ecosystem/3_1_testing/src/main.rs:40-43 | the same, one level down: an unparseable read adds a prompt and nothing else |
| GuessingGame.ReadsLine | 3_ecosystem/3_1_testing/src/main.rs:60-67 | a non-empty first line is parsed and the rest is read after it |
| GuessingGame.App | 3_ecosystem/3_1_testing/src/main.rs:16-28 | `run_app`: no second argument is `MissingSecretNumber` with nothing written; a second argument that does not parse is `InvalidSecretNumber`; otherwise the game with the parsed secret |
| GuessingGame.RunApp | 3_ecosystem/3_1_testing/src/main.rs:16-28 | the method's output and result are `App`'s |
| GuessingGame.TrimsAndParses | 3_ecosystem/3_1_testing/src/main.rs:121-124 | " 7 " parses to 7 |
| GuessingGame.RejectsNope | 3_ecosystem/3_1_testing/src/main.rs:126-132 | "nope" is refused as a secret and as a guess |
| GuessingGame.RejectsOverflow | 3_ecosystem/3_1_testing/src/main.rs:134-140 | 4294967296 is refused as a secret |
| GuessingGame.AppRefusesBadArguments | 3_ecosystem/3_1_testing/src/main.rs:147-163 | no secret argument gives `MissingSecretNumber`, "abc" gives `InvalidSecretNumber` |
| GuessingGame.EndOfInputExample | 3_ecosystem/3_1_testing/src/main.rs:175-181 | with no input the game writes the welcome and one prompt, then fails with `InputEnded` |
| GuessingGame.NumberLineParses | 3_ecosystem/3_1_testing/src/main.rs:76-78 | a decimal line with its newline parses to the number |
| GuessingGame.TrimDigitsLine | 3_ecosystem/3_1_testing/src/main.rs:76-78 | trimming a digit line drops only its newline |
| GuessingGame.NopeLineRefused | 3_ecosystem/3_1_testing/src/main.rs:165-173 | "nope\n" is a non-empty line that does not parse |
| GuessingGame.InvalidThenWinExample | 3_ecosystem/3_1_testing/src/main.rs:165-173 | an unparseable read then the secret: two prompts, then the guess and "You win!" |
| GuessingGame.SmallBigWinExample | 3_ecosystem/3_1_testing/tests/cli.rs:34-42 | 5, 15, 10 against 10: too small, too big, then a win |
| GuessingGame.ReadsOfTwo | 3_ecosystem/3_1_testing/src/main.rs:60-67 | two non-empty lines are read as their two parses |
| GuessingGame.ReadsOfThree | 3_ecosystem/3_1_testing/src/main.rs:60-67 | three non-empty lines are read as their three parses |
| GuessingGame.InvalidThenWinReads | 3_ecosystem/3_1_testing/src/main.rs:165-173 | "nope\n10\n" is read as an unparseable line and then 10 |
| GuessingGame.SmallBigWinReads | 3_ecosystem/3_1_testing/tests/cli.rs:34-42 | "5\n15\n10\n" is read as 5, 15, 10 |
| GuessingGame.TestGames | 3_ecosystem/3_1_testing/src/main.rs:165-173 | the games "nope\n10\n" and "5\n15\n10\n" against 10 both end in a win |
| LinkedLists.Node.constructor | 1_concepts/src/linked_list.rs:21-27 | a new node holds the value and has no neighbours |
| LinkedLists.LinkedList.constructor | 1_concepts/src/linked_list.rs:34-40 | a new list is empty and has neither a back nor a front |
| LinkedLists.LinkedList.Back | 1_concepts/src/linked_list.rs:108-114 | the value at the back (`head` in the source), `None` exactly on an empty list |
| LinkedLists.LinkedList.Front | 1_concepts/src/linked_list.rs:116-118 | the value at the front (`tail` in the source), `None` exactly on an empty list |
| LinkedLists.LinkedList.PushBack | 1_concepts/src/linked_list.rs:42-56 | the value is appended at the back, the length grows by one and the list stays well linked in both directions |
| LinkedLists.LinkedList.PushFront | 1_concepts/src/linked_list.rs:58-72 | the value is prepended at the front, the length grows by one and the list stays well linked |
| LinkedLists.LinkedList.PopBack | 1_concepts/src/linked_list.rs:74-89 | the corrected `pop_back`: `None` on an empty list; otherwise the back value, removed, length one less, and both ends cleared when the list becomes empty |
| LinkedLists.LinkedList.PopFront | 1_concepts/src/linked_list.rs:91-106 | the corrected `pop_front`: `None` on an empty list; otherwise the front value, removed, length one less, and both ends cleared when the list becomes empty |
| LinkedLists.LinkedList.PopBackAsWritten | 1_concepts/src/linked_list.rs:74-89 | `pop_back` as written: right for lists of two or more, but on a one-element list it clears only the back, so the length is 0 while the front still points at the popped node |
| LinkedLists.LinkedList.PopFrontAsWritten | 1_concepts/src/linked_list.rs:91-106 | `pop_front` as written: on a one-element list it clears only the front, leaving the back pointing at the popped node |
| LinkedLists.IntoIter.constructor | 1_concepts/src/linked_list.rs:150-152 | `into_iter` wraps the list itself |
| LinkedLists.IntoIter.Next | 1_concepts/src/linked_list.rs:138-140 | each `next` yields the front value and removes it; `None` once the list is empty |
| LinkedLists.Collect | 1_concepts/src/tests.rs:82-87 | iterating to the end yields the list's values front to back and leaves it empty |
| LinkedLists.PushPopScenario | 1_concepts/src/tests.rs:10-69 | the backs and fronts after the documented pushes and pops: empty, one, two, three added, one pop, two pops |
| LinkedLists.PushedValuesAreCollected | 1_concepts/src/tests.rs:71-97 | pushing 0..n at the back and collecting gives exactly 0..n in order, so it contains a value exactly when the value is below n |
| LinkedLists.StaleFrontAfterPopBack | 1_concepts/src/linked_list.rs:82-84 | as written: after pushing 10 and popping it from the back, the length is 0 but `front()` still returns 10 |
| LinkedLists.StaleBackAfterPopFront | 1_concepts/src/linked_list.rs:99-101 | as written: after pushing 10 and popping it from the front, the length is 0 but `back()` still returns 10 |
| LinkedLists.EmptyAfterLastPop | 1_concepts/src/linked_list.rs:74-106 | corrected: popping the last value from either end leaves both `back()` and `front()` empty |
| MemReplace.Trinity.Rotate | 2_idioms/2_2_mem_replace/src/lib.rs:17-20 | the two swaps turn (a, b, c) into (b, c, a) |
| MemReplace.Trinity.RotateByClones | 2_idioms/2_2_mem_replace/src/lib.rs:65-72 | the clone-and-assign rotation gives the same (b, c, a) |
| MemReplace.RotatedTimesSmall | 2_idioms/2_2_mem_replace/src/lib.rs:14 | zero to three rotations, written out |
| MemReplace.RotateThreeTimesIsIdentity | 2_idioms/2_2_mem_replace/src/lib.rs:39-45 | three rotations give back the original, so a kept trinity leaves the loop as it came in |
| MemReplace.RotatedTimesPeriodic | 2_idioms/2_2_mem_replace/src/lib.rs:39-45 | rotating three more times changes nothing |
| MemReplace.RotationOfAnyTimes | 2_idioms/2_2_mem_replace/src/lib.rs:39-45 | a trinity that any number of rotations makes `expected` is caught by the three checks |
| MemReplace.IsRotationOfSymmetric | 2_idioms/2_2_mem_replace/src/lib.rs:39-45 | t is a rotation of e exactly when e is a rotation of t |
| MemReplace.UnsolvedKeepsExactly | 2_idioms/2_2_mem_replace/src/lib.rs:35-49 | the resolved list keeps exactly the trinities of the input that are not rotations of `expected`, and is no longer than the input |
| MemReplace.UnsolvedAppend | 2_idioms/2_2_mem_replace/src/lib.rs:38-46 | resolving a concatenation is the concatenation of the resolved parts (order is kept) |
| MemReplace.UnsolvedIdempotent | 2_idioms/2_2_mem_replace/src/lib.rs:35-49 | resolving twice is resolving once |
| MemReplace.CheckRotations | 2_idioms/2_2_mem_replace/src/lib.rs:38-46 | the three checks with rotations in between: keep exactly when no rotation equals `expected`, and a kept trinity is left unchanged |
| MemReplace.Solver.constructor | 2_idioms/2_2_mem_replace/src/lib.rs:30-33 | a solver holds the given `expected` and `unsolved` |
| MemReplace.Solver.Resolve | 2_idioms/2_2_mem_replace/src/lib.rs:35-49 | `optimized::Solver::resolve`: `expected` is unchanged and `unsolved` becomes its trinities that are not rotations of `expected`, in order |
| MemReplace.OriginalSolver.constructor | 2_idioms/2_2_mem_replace/src/lib.rs:82-85 | the original solver holds the given `expected` and `unsolved` |
| MemReplace.OriginalSolver.Resolve | 2_idioms/2_2_mem_replace/src/lib.rs:87-99 | `original::Solver::resolve` leaves the same list as the optimized one |
| MemReplace.ResolveBoth | 2_idioms/2_2_mem_replace/src/lib.rs:29-99 | the two implementations agree on every input |
| MemReplace.DemonstrationResolve | 2_idioms/2_2_mem_replace/src/main.rs:4-14 | of (1,2,3), (2,1,3), (2,3,1), (3,1,2) against (1,2,3) only (2,1,3) is left |
| PostModeration.DefaultData | 2_idioms/2_1_type_safety/src/post.rs:106-115 | the default data: ids 0, title "New", body "Some body once told me" |
| PostModeration.NewPost | 2_idioms/2_1_type_safety/src/post.rs:48-53 | a new post is in state `New` with the default data |
| PostModeration.Publish | 2_idioms/2_1_type_safety/src/post.rs:56-63 | defined only on `New`; gives `Unmoderated` with the same data |
| PostModeration.Allow | 2_idioms/2_1_type_safety/src/post.rs:65-71 | defined only on `Unmoderated`; gives `Published` with the same data |
| PostModeration.Deny | 2_idioms/2_1_type_safety/src/post.rs:73-79 | defined only on `Unmoderated`; gives `Deleted` with the same data |
| PostModeration.Delete | 2_idioms/2_1_type_safety/src/post.rs:81-88 | defined only on `Published`; gives `Deleted` with the same data |
| PostModeration.StepTable | 2_idioms/2_1_type_safety/src/post.rs:56-88 | exactly four transitions exist (New-publish, Unmoderated-allow, Unmoderated-deny, Published-delete), each keeps the data and moves the post forward |
| PostModeration.DeletedIsFinal | 2_idioms/2_1_type_safety/src/post.rs:81-88 | no transition leaves `Deleted` |
| PostModeration.RunKeepsData | 2_idioms/2_1_type_safety/src/post.rs:56-88 | any chain of transitions keeps the data and goes one step forward per transition |
| PostModeration.RunsAreShort | 2_idioms/2_1_type_safety/src/post.rs:56-88 | no chain has more than three transitions, and none comes back to the state it started from |
| PostModeration.RunUnfold | 2_idioms/2_1_type_safety/src/post.rs:56-88 | a chain that exists starts with a transition that exists |
| PostModeration.DeletedRuns | 2_idioms/2_1_type_safety/src/post.rs:56-88 | a new post ends up deleted only by publish-deny or publish-allow-delete |
| PostModeration.LifecycleExample | 2_idioms/2_1_type_safety/src/post.rs:48-88 | both lifecycles end deleted with the default data, and `allow` on a new post does not exist |
| SharedStack.SharedVec.New | 1_concepts/1_3_rc_cell/src/main.rs:9-13 | the shared vector starts empty |
| SharedStack.GlobalStack.New | 1_concepts/1_3_rc_cell/src/main.rs:9-13 | `new`: a handle on a fresh, empty vector |
| SharedStack.GlobalStack.Sharing | 1_concepts/1_3_rc_cell/src/main.rs:41-47 | the cloned handle refers to the given vector |
| SharedStack.GlobalStack.Clone | 1_concepts/1_3_rc_cell/src/main.rs:41-47 | `clone` makes a new handle on the same vector, copying nothing |
| SharedStack.GlobalStack.Push | 1_concepts/1_3_rc_cell/src/main.rs:15-17 | the item goes on top of the shared vector, so every handle on it sees it |
| SharedStack.GlobalStack.Pop | 1_concepts/1_3_rc_cell/src/main.rs:19-21 | `None` on an empty stack; otherwise the top item, removed from the shared vector |
| SharedStack.GlobalStack.Peek | 1_concepts/1_3_rc_cell/src/main.rs:23-30 | `None` exactly on an empty stack; otherwise the top item, left in place |
| SharedStack.GlobalStack.IsEmpty | 1_concepts/1_3_rc_cell/src/main.rs:32-34 | empty exactly when the length is 0 |
| SharedStack.GlobalStack.Len | 1_concepts/1_3_rc_cell/src/main.rs:36-38 | the number of items in the shared vector |
| SharedStack.Reverse | 1_concepts/1_3_rc_cell/src/main.rs:102-108 | same length, with item i taken from the end |
| SharedStack.ReverseReverse | 1_concepts/1_3_rc_cell/src/main.rs:102-108 | reversing twice gives the items back |
| SharedStack.PushThenPop | 1_concepts/1_3_rc_cell/src/main.rs:15-21 | a push followed by a pop returns the item and leaves the stack as it was |
| SharedStack.PopAll | 1_concepts/1_3_rc_cell/src/main.rs:102-108 | popping until `None` yields the items in reverse push order and leaves the stack empty |
| SharedStack.Demonstration | 1_concepts/1_3_rc_cell/src/main.rs:49-108 | three handles on one stack: each sees the same length and top, and the final pops yield 5, 4, 2, 1 |
| ServerConfig.ErrorCode.FromStatic | 2_idioms/2_4_generic_in_type_out/src/main.rs:28-30 | a borrowed code that reads as the given text |
| ServerConfig.ErrorCode.FromString | 2_idioms/2_4_generic_in_type_out/src/main.rs:32-34 | an owned code that reads as the given text |
| ServerConfig.ErrorCode.AsStr | 2_idioms/2_4_generic_in_type_out/src/main.rs:49-53 | `AsRef<str>`: the code's text, borrowed or owned |
| ServerConfig.ErrorMessage.FromStatic | 2_idioms/2_4_generic_in_type_out/src/main.rs:70-72 | a borrowed message that reads as the given text |
| ServerConfig.ErrorMessage.FromString | 2_idioms/2_4_generic_in_type_out/src/main.rs:74-76 | an owned message that reads as the given text |
| ServerConfig.ErrorMessage.AsStr | 2_idioms/2_4_generic_in_type_out/src/main.rs:91-95 | `AsRef<str>`: the message's text, borrowed or owned |
| ServerConfig.Error.New | 2_idioms/2_4_generic_in_type_out/src/main.rs:113-120 | a new error has the given code, status 500, the message "An unknown error occurred." and no debug information |
| ServerConfig.Error.WithStatus | 2_idioms/2_4_generic_in_type_out/src/main.rs:123-126 | sets the status and leaves every other field as it was |
| ServerConfig.Error.WithMessage | 2_idioms/2_4_generic_in_type_out/src/main.rs:130-133 | sets the message and leaves every other field as it was |
| ServerConfig.Error.WithDebugInfo | 2_idioms/2_4_generic_in_type_out/src/main.rs:136-139 | sets the debug information and leaves every other field as it was |
| ServerConfig.Error.Code | 2_idioms/2_4_generic_in_type_out/src/main.rs:142-144 | the code's text |
| ServerConfig.Error.Status | 2_idioms/2_4_generic_in_type_out/src/main.rs:147-149 | the HTTP status number |
| ServerConfig.Error.Message | 2_idioms/2_4_generic_in_type_out/src/main.rs:152-154 | the public message's text |
| ServerConfig.Error.DebugInfo | 2_idioms/2_4_generic_in_type_out/src/main.rs:157-159 | the debug information's text, if any |
| ServerConfig.BorrowedOrOwnedReadsTheSame | 2_idioms/2_4_generic_in_type_out/src/main.rs:142-159 | through the getters, an error built from borrowed text cannot be told from one built from owned text |
| ServerConfig.SettersCommute | 2_idioms/2_4_generic_in_type_out/src/main.rs:123-139 | the three builder setters can be applied in any order |
| ServerConfig.LastSetterWins | 2_idioms/2_4_generic_in_type_out/src/main.rs:123-139 | setting the same field twice keeps the second value |
| ServerConfig.ErrorBuilderExamples | 2_idioms/2_4_generic_in_type_out/src/main.rs:363-402 | the documented errors read back their code, status, message and debug information |
| ServerConfig.WorkerCount.New | 2_idioms/2_4_generic_in_type_out/src/main.rs:167-173 | a worker count exists exactly for a positive number, and then holds it |
| ServerConfig.WorkerCount.Get | 2_idioms/2_4_generic_in_type_out/src/main.rs:175-177 | the worker count, positive when built by `new` |
| ServerConfig.MaxConnections.New | 2_idioms/2_4_generic_in_type_out/src/main.rs:191-197 | a connection limit exists exactly for a positive number, and then holds it |
| ServerConfig.MaxConnections.Get | 2_idioms/2_4_generic_in_type_out/src/main.rs:199-201 | the connection limit, positive when built by `new` |
| ServerConfig.Server.Default | 2_idioms/2_4_generic_in_type_out/src/main.rs:218-227 | no address, the estimated CPU count as workers and 10000 connections |
| ServerConfig.Server.Bind | 2_idioms/2_4_generic_in_type_out/src/main.rs:232-236 | the default server with the address made from the IP and port |
| ServerConfig.Server.BindAddr | 2_idioms/2_4_generic_in_type_out/src/main.rs:240-244 | the default server with the given socket address |
| ServerConfig.Server.WithWorkers | 2_idioms/2_4_generic_in_type_out/src/main.rs:247-250 | sets the workers and leaves address and connection limit as they were |
| ServerConfig.Server.WithMaxConnections | 2_idioms/2_4_generic_in_type_out/src/main.rs:253-256 | sets the connection limit and leaves address and workers as they were |
| ServerConfig.Server.Address | 2_idioms/2_4_generic_in_type_out/src/main.rs:259-261 | the listening address, if bound |
| ServerConfig.Server.Workers | 2_idioms/2_4_generic_in_type_out/src/main.rs:264-266 | the worker count |
| ServerConfig.Server.ConnectionLimit | 2_idioms/2_4_generic_in_type_out/src/main.rs:269-271 | `max_connections()`: the connection limit |
| ServerConfig.Server.Validate | 2_idioms/2_4_generic_in_type_out/src/main.rs:274-288 | `MissingAddress` exactly when there is no address; else `InvalidWorkers` exactly when workers are 0; else `InvalidMaxConnections` exactly when the limit is 0; `Ok` exactly when all three are set |
| ServerConfig.BindIsBindAddr | 2_idioms/2_4_generic_in_type_out/src/main.rs:232-244 | binding an IP and port is binding their socket address |
| ServerConfig.CheckedCountsValidate | 2_idioms/2_4_generic_in_type_out/src/main.rs:167-288 | a bound server configured with counts that passed `new` always validates; a bound server with defaults validates exactly when the CPU estimate is positive |
| ServerConfig.UnboundRefused | 2_idioms/2_4_generic_in_type_out/src/main.rs:274-277 | a server without an address never validates, whatever its counts |
| ServerConfig.ServerExamples | 2_idioms/2_4_generic_in_type_out/src/main.rs:322-357 | the documented bind, configuration and validation results |
| SizedUsers.EmptyEmailHasNoAt | 1_concepts/1_7_sized/src/main.rs:56 | the `is_empty` test of the email check never decides: an email with an '@' is never empty |
| SizedUsers.EmailAccepted | 1_concepts/1_7_sized/src/main.rs:56-58 | the email check of `User::new`: contains '@', at most 255 bytes of UTF-8, and not empty |
| SizedUsers.User.New | 1_concepts/1_7_sized/src/main.rs:52-70 | a user is built exactly when the email has an '@', is at most 255 bytes and is not empty, and the id is not 0; a bad email is `InvalidEmail` (checked first), id 0 is `InvalidId(0)`; a new user is not activated |
| SizedUsers.User.IsActivated | 1_concepts/1_7_sized/src/main.rs:80-82 | the activation flag |
| SizedUsers.User.Activate | 1_concepts/1_7_sized/src/main.rs:84-86 | the user becomes activated with the same id and email |
| SizedUsers.ActivateIdempotent | 1_concepts/1_7_sized/src/main.rs:84-86 | activating twice is activating once, and activating changes nothing exactly when the user is already activated |
| SizedUsers.CreateUser.New | 1_concepts/1_7_sized/src/main.rs:146-158 | the command is built under the same checks, in the same order, as `User::new` |
| SizedUsers.CommandAgreesWithUser | 1_concepts/1_7_sized/src/main.rs:52-158 | `CreateUser::new` and `User::new` accept the same inputs and fail with the same error |
| SizedUsers.HandleCommand | 1_concepts/1_7_sized/src/main.rs:202-220 | `handle_command`: `AlreadyExists` when the id is stored; otherwise `Ok` exactly when `User::new` accepts the command, and its error when it does not |
| SizedUsers.ValidatedCommandHandled | 1_concepts/1_7_sized/src/main.rs:202-220 | a command that passed `CreateUser::new` is handled `Ok` exactly when its id is not stored |
| SizedUsers.InMemoryUserRepository.New | 1_concepts/1_7_sized/src/main.rs:239-243 | a new repository is empty |
| SizedUsers.InMemoryUserRepository.Count | 1_concepts/1_7_sized/src/main.rs:251-253 | the count is 0 exactly when no user is stored |
| SizedUsers.InMemoryUserRepository.Get | 1_concepts/1_7_sized/src/main.rs:265-267 | the user stored under the id, `None` exactly when there is none |
| SizedUsers.InMemoryUserRepository.Exists | 1_concepts/1_7_sized/src/main.rs:120-122 | `exists` is `get(id).is_some()` |
| SizedUsers.InMemoryUserRepository.Add | 1_concepts/1_7_sized/src/main.rs:257-263 | succeeds exactly when the id is new, and then stores the user under its id; otherwise `AlreadyExists` and nothing changes |
| SizedUsers.InMemoryUserRepository.Update | 1_concepts/1_7_sized/src/main.rs:269-275 | succeeds exactly when the id is stored, and then replaces the user; otherwise `NotFound` and nothing changes |
| SizedUsers.InMemoryUserRepository.Remove | 1_concepts/1_7_sized/src/main.rs:277-279 | returns the user that was stored under the id, if any, and the id is no longer stored |
| SizedUsers.MockUserRepository.New | 1_concepts/1_7_sized/src/main.rs:302-304 | a new mock is empty, with both call counters at 0 and failure injection off |
| SizedUsers.MockUserRepository.WithUsers | 1_concepts/1_7_sized/src/main.rs:306-313 | a mock pre-filled with the given users keyed by id, counters at 0 |
| SizedUsers.MockUserRepository.Get | 1_concepts/1_7_sized/src/main.rs:331-335 | the user stored under the id, `None` exactly when there is none; no counter changes |
| SizedUsers.MockUserRepository.Exists | 1_concepts/1_7_sized/src/main.rs:120-122 | `exists` is `get(id).is_some()` |
| SizedUsers.MockUserRepository.Add | 1_concepts/1_7_sized/src/main.rs:316-329 | every call is counted; succeeds exactly when failure injection is off and the id is new, and then stores the user; otherwise `AlreadyExists` and nothing is stored |
| SizedUsers.MockUserRepository.Update | 1_concepts/1_7_sized/src/main.rs:337-343 | succeeds exactly when the id is stored, and then replaces the user; otherwise `NotFound`; counters unchanged |
| SizedUsers.MockUserRepository.Remove | 1_concepts/1_7_sized/src/main.rs:345-349 | returns the stored user, if any, and removes it; counters unchanged |
| SizedUsers.MockUserRepository.SetShouldFailAdd | 1_concepts/1_7_sized/src/main.rs:298 | setting the public `should_fail_add` field changes nothing else |
| SizedUsers.MapOfUsersKeyedById | 1_concepts/1_7_sized/src/main.rs:306-313 | the pre-filled map stores each user under its own id, and holds exactly the ids of the given users |
| SizedUsers.MapOfUsersLastWins | 1_concepts/1_7_sized/src/main.rs:306-313 | a user whose id does not come again later in the list is the one stored for that id |
| SizedUsers.TestEmailAccepted | 1_concepts/1_7_sized/src/main.rs:470-475 | the test emails are accepted |
| SizedUsers.AcceptedEmailBuilds | 1_concepts/1_7_sized/src/main.rs:490-495 | with an accepted email, id 0 gives `InvalidId(0)` and any other id builds the user and the command |
| SizedUsers.NoAtRejected | 1_concepts/1_7_sized/src/main.rs:476-489 | "invalid.com", "no-at-sign" and "" are `InvalidEmail` for both constructors |
| SizedUsers.ConcreteRepositoryScenario | 1_concepts/1_7_sized/src/main.rs:421-433 | an added user is found |
| SizedUsers.MockAddScenario | 1_concepts/1_7_sized/src/main.rs:502-523 | add then get finds the user; a second add is `AlreadyExists(1)`, and both adds are counted |
| SizedUsers.UpdateScenario | 1_concepts/1_7_sized/src/main.rs:525-536 | updating with the activated copy stores an activated user |
| SizedUsers.UpdateMissingScenario | 1_concepts/1_7_sized/src/main.rs:538-545 | updating a user never added is `NotFound(999)` |
| SizedUsers.RemoveScenario | 1_concepts/1_7_sized/src/main.rs:547-567 | `exists` is false before the add and true after; remove returns the user, and get then finds none |
| SizedUsers.FailingMockScenario | 1_concepts/1_7_sized/src/main.rs:574-584 | with failure injection on, the add fails, is counted once and stores nothing |
| SizedUsers.PrepopulatedScenario | 1_concepts/1_7_sized/src/main.rs:586-596 | users given to `with_users` are found by their ids |
| SizedUsers.HeterogeneousRepositoriesScenario | 1_concepts/1_7_sized/src/main.rs:447-463 | user 1 added to the in-memory repository and user 2 added to the mock are each found in the repository that holds it (and not in the other) |
| SizedUsers.HandlerScenario | 1_concepts/1_7_sized/src/main.rs:359-385 | handling a command for a new id is `Ok`, and for a stored id `AlreadyExists(1)` |
| Text.NatToDecimal | 3_ecosystem/3_1_testing/src/main.rs:45 | the decimal text of a number (as `{}` writes it): non-empty digits, no leading zero, whose value is the number |
| Text.DecimalValueLeadingZero | 3_ecosystem/3_4_regex_parsing/src/main.rs:172-178 | a leading '0' does not change what `parse::<usize>` reads ("01" is 1) |
| Text.ParseUnsigned | 3_ecosystem/3_1_testing/src/main.rs:69-78 | `str::parse` into an unsigned type with maximum `max`: succeeds exactly on an optional '+' followed by one or more digits whose value is at most `max`, giving that value |
| Text.ParseUnsignedRoundTrip | 3_ecosystem/3_1_testing/src/main.rs:69-78 | the decimal text of any number up to `max`, with or without a '+', parses back to it |
| Text.ParseSigned | 3_ecosystem/3_3_date_time/src/main.rs:51 | `str::parse::<i32>`: a result is always within the type's range |
| Text.ParseSignedRoundTrip | 3_ecosystem/3_3_date_time/src/main.rs:51 | the decimal text of any number in range, with a '-' when it is negative, parses back to it |
| Text.TrimStart | 3_ecosystem/3_1_testing/src/main.rs:71 | `trim_start`: a suffix of the input, what was dropped is all whitespace, and the result does not start with whitespace |
| Text.TrimEnd | 3_ecosystem/3_1_testing/src/main.rs:71 | `trim_end`: a prefix of the input, what was dropped is all whitespace, and the result does not end with whitespace |
| Text.Trim | 3_ecosystem/3_5_collections/src/lib.rs:36 | `str::trim`: both ends stripped of White_Space; `TrimPadded` and `TrimKeeps` prove exactly the padding is dropped |
| Text.TrimEmptyIffAllWhitespace | 3_ecosystem/3_1_testing/src/main.rs:71 | trimming gives the empty text exactly when the input is all whitespace |
| Text.TrimStartPadded | 3_ecosystem/3_1_testing/src/main.rs:71 | leading whitespace before a non-whitespace character is exactly what `trim_start` drops |
| Text.TrimEndPadded | 3_ecosystem/3_1_testing/src/main.rs:71 | trailing whitespace after a non-whitespace character is exactly what `trim_end` drops |
| Text.TrimPadded | 3_ecosystem/3_1_testing/src/main.rs:71 | trimming whitespace-padded text gives the text back |
| Text.TrimKeeps | 3_ecosystem/3_1_testing/src/main.rs:71 | no character that is not whitespace is lost by trimming |
| Text.Split | 3_ecosystem/3_3_date_time/src/main.rs:44 | `str::split` on a character: at least one part, and no part holds the separator |
| Text.JoinSplit | 3_ecosystem/3_3_date_time/src/main.rs:44-46 | joining the parts with the separator gives the input back |
| Text.SplitJoin | 3_ecosystem/3_3_date_time/src/main.rs:44-46 | splitting parts joined with a separator that none of them holds gives the parts back |
| Text.SplitFree | 3_ecosystem/3_3_date_time/src/main.rs:44 | text without the separator is one part |
| Text.SplitCons | 3_ecosystem/3_3_date_time/src/main.rs:44 | a first part without the separator, then the separator, is split off first |
| Text.SplitCount | 1_concepts/1_5_convert_cast_deref/src/main.rs:36-60 | there is one part more than there are separators |
| Text.Utf8Len | 1_concepts/1_7_sized/src/main.rs:56 | one to four bytes per character in UTF-8 |
| Text.ByteLen | 1_concepts/1_7_sized/src/main.rs:56 | `str::len` in UTF-8 bytes: between one and four times the character count, and 0 exactly for the empty text |

## Left out

- The regex parser `parse_regex` and its `Lazy<Regex>` in `3_ecosystem/3_4_regex_parsing`, and the regex-backed `email.rs` of `1_concepts/1_5_convert_cast_deref`, depend on the regex crate, which is not part of this model.
- The Unicode `XID_Start` / `XID_Continue` tables are not modelled. They are a parameter (`XidTables`), constrained only by their ASCII behaviour and by start implying continue.
- Cursor positions of `CustomParser` are character indices, not byte offsets. Every byte offset the source uses lies on a character boundary, so the two agree character by character.
- The test input at `3_ecosystem/3_4_regex_parsing/src/main.rs:516` is stored as two characters (`Î»`), a double encoding of the single character λ. The model uses λ (`\U{3BB}`), as the test's expected result intends. The two characters as stored would not parse.
- `Random<T>` and the `rand` crate are left out because they are randomness.
- Threads, `Mutex`, `Arc` and `Sync`/`Send` are left out because they are concurrency. The multi-threaded list test is modelled only by its sequential outcome (`PushedValuesAreCollected`).
- I/O is left out. This includes the `AppError::Io` variant, write errors on standard output, `eprintln!` and the process exit code of `3_ecosystem/3_1_testing`, and the process spawning of its `tests/cli.rs`.
- The outputs of the `main` demonstration functions are not modelled. Their logic appears as scenario members where it states something (`SharedStack.Demonstration`, `MemReplace.DemonstrationResolve`, `SizedUsers.HandlerScenario`, `Dispatch` scenarios).
- `RefCell` borrow panics are not modelled. The stack never holds a borrow across a call, so none can occur.
- `Server::default`'s CPU estimate reads `RAYON_NUM_THREADS` and `available_parallelism`. It is a parameter `cpus`.
- `SocketAddr` and `IpAddr` are plain values. Their parsing from text and their `Display` are not modelled.
- `Cow` lifetimes are not modelled. A `Cow` is the borrowed or owned text itself.
- `Display`, `Debug`, `Hash`, `AsRef`, `Borrow` and `From` boilerplate is not modelled, except where a conversion carries a check (`TryFrom` for `EmailString`).
- The `with_capacity` constructor of `InMemoryUserRepository` is not modelled. It differs from `new` only in allocation.
- `BTreeMap` is modelled by its contents, a list of entries in ascending key order. `HashMap` is modelled as a map.
- The `Storage` trait of `1_concepts/1_6_dispatch` is a tagged datatype over the two storage classes, because traits are not used in this model. `storage.rs`, `static_disp.rs` and `dynamic_disp.rs` are not part of this model.
- `User.Activate` (`SizedUsers`) and `Trinity.Rotate` / `Trinity.RotateByClones` (`MemReplace`) return the updated value instead of mutating `self` in place. The callers model the in-place update by rebinding.
- SizedUsers.MockUserRepository: `call_count_get` is never incremented by the source (`get` takes `&self`), and the model keeps it constant. The call counters are unbounded naturals, so `usize` wrap-around is not modelled.
- LinkedLists.LinkedList: `len` is an unbounded natural, so `usize` overflow after 2^64 pushes is not modelled.
- EventSourcing.CountUp: the test aggregate's `counter += 1` on a `u32` panics at u32::MAX in a debug build. The model takes the release build's wrap-around to 0 instead, so that replaying is a total function.
- EventSourcing.FoldCountUp: beyond u32::MAX increments it states the wrapped count, where a debug build would have panicked; within u32::MAX it states the exact count for both builds.
- EventSourcing.ReplayScenario: the same holds for the replay. With more than u32::MAX events the model reports success and a wrapped counter, where a debug build panics inside `apply_to`.
- SharedStack.GlobalStack.Len: the length is an unbounded natural, as `usize` cannot overflow for a vector that fits in memory.

## Findings

| source | as written | input that shows it | evidently intended | confidence | as-written member | corrected member |
|---|---|---|---|---|---|---|
| 1_concepts/src/linked_list.rs:82-84 | popping the only element from the back clears `head` but leaves `tail` on the popped node; `pop_front` at 99-101 does the same with the ends swapped | push_back(10), pop_back(): `len` is 0 but `front()` is `Some(10)` | emptying the list clears both ends, so `back()` and `front()` are `None` | not executed | LinkedLists.StaleFrontAfterPopBack | LinkedLists.EmptyAfterLastPop |
| 3_ecosystem/3_3_date_time/src/main.rs:83 | `now.year - birthdate.year` is an i32 subtraction that overflows (a panic in debug builds) for very early years | birthdate (i32::MIN)-01-01, which `Date::new` accepts | the age saturates at u16::MAX, as it does for every other year far in the past | not executed | DateTime.AgeAsWritten | DateTime.User.Age |
| 2_idioms/2_3_bound_impl/src/main.rs:301 | `prev.get() + 1` overflows (a panic in debug builds) when the previous version is u64::MAX | previous `Number(u64::MAX)`, current any `Number(n)` | no version follows u64::MAX, so the check reports `InvalidSequence` | not executed | EventSourcing.Version.ValidateSequenceAsWritten | EventSourcing.Version.ValidateSequence |
