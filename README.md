# RUST-Tutorials, modelled in Dafny

This project models the parts of the RUST-Tutorials repository that carry
behaviour that can be stated and checked, and proves properties of them.

The main part is the blockchain demo's hash-chained ledger:
- Blocks hold an index, the previous block's hash, a timestamp, data, a nonce and their own hash.
- Proof-of-work mining raises the nonce until the hash starts with the decimal text of the difficulty, "486604799".
- The chain is append-only. Each new block is linked to the last block's hash, or to "0" for the first block.
- The integrity check re-verifies every link and every recomputed hash after the first block.

SHA-256 is a function parameter (`sha256`). Every statement holds whichever function it is. The clock is a parameter (`now`).

Around the ledger sit the tutorials' small self-contained pieces of logic:
- the `User` record with its `Display` text and its "name:age" parser, whose age is a `u8` parsed exactly as the standard library does;
- three odd-number filters: an iterator chain, a pushing loop, and `retain` in place on an array;
- generic points, `swap_values`, `max` and `find_largest`;
- the `Rectangle` struct;
- the `math` module and the assertions of its tests;
- the positive-doubling pipeline;
- the `HealthCheck` on/off service;
- the `_Status` enum and the `Player` whose level changes;
- e-mail and account lookups, `User::info`, and the `ping` value-to-status mapping;
- the de-duplicating draw loop, whose random draws are an input sequence;
- users with shared friend lists, as heap objects.

Where a source type mutates in place, it is a class and its methods carry `modifies` clauses: `Block`, `Blockchain`, `Rectangle`, `HealthCheck`, `Player`, the `Rc<RefCell<User>>` user and the `Vec<i32>` filtered in place. Values are datatypes and functions. Rust's fixed-width integers are subset types in `Numbers`. Where overflow would panic, no overflow is a precondition, with two exceptions: `BlockchainDemo.Block.Mine` models the overflow of its `u32` nonce as a failed search (`found == false`), and `Parallelism.ProcessPositiveNumbers` computes exact integers, with `Parallelism.ProcessFits` stating when they all fit an `i32`.

The integrity check does less than its own comment says. The comment above `is_chain_valid` (blockchain/blockchain_rust_demo/src/main.rs:115) promises that every block is checked for the right hash and link. The loop at line 117 starts at index 1, so block 0's hash is never recomputed, and a chain whose block 0 data was changed still passes. The model follows the code (`BlockchainDemo.Blockchain.IsChainValid`). It also records the difference under "Findings", with the corrected check beside it.

## Model

| member | source | states |
|---|---|---|
| `BlockchainDemo.HashInput` | blockchain/blockchain_rust_demo/src/main.rs:42-49 | no contract of its own: the text hashed is index, previous hash, timestamp, data and nonce, numbers in decimal, without separators; the four `…TamperDetected` lemmas show that each field is determined by the hash once the others are fixed, and `FieldsNotSelfDelimiting` shows that the fields together are not |
| `BlockchainDemo.Block.HashWithNonce` | blockchain/blockchain_rust_demo/src/main.rs:42-52 | no contract of its own: the hash of the block's content with a given nonce; `Block.Mine` is stated against it |
| `BlockchainDemo.Block.CalculateHash` | blockchain/blockchain_rust_demo/src/main.rs:42-52 | no contract of its own: the hash of the block's content with its current nonce; `Block.Mine`, `Blockchain.IsChainValid` and the tamper lemmas are stated against it |
| `BlockchainDemo.MeetsDifficulty` | blockchain/blockchain_rust_demo/src/main.rs:67-70 | no contract of its own: the hash starts with "486604799", which `DifficultyText` proves is `DIFFICULTY.to_string()` |
| `BlockchainDemo.Block.IsValid` | blockchain/blockchain_rust_demo/src/main.rs:67-70 | no contract of its own: the stored hash meets the difficulty; `Block.Mine` succeeds exactly when it holds afterwards |
| `BlockchainDemo.DifficultyText` | blockchain/blockchain_rust_demo/src/main.rs:12 | the prefix a mined hash must start with is the decimal text of 0x1d00ffff, "486604799" |
| `BlockchainDemo.Block.constructor` | blockchain/blockchain_rust_demo/src/main.rs:26-39 | a new block stores index, previous hash, data and the clock reading, with nonce 0 and an empty hash |
| `BlockchainDemo.Block.Mine` | blockchain/blockchain_rust_demo/src/main.rs:55-70 | changes only nonce and hash; the stored hash is the block's recomputed hash; the nonce only grows and every nonce skipped fails the difficulty; it succeeds exactly when the hash meets the difficulty; a nonce that already succeeds is kept after one attempt; failure happens only at `u32::MAX` |
| `BlockchainDemo.DataTamperDetected` | blockchain/blockchain_rust_demo/src/main.rs:42-52 | with a collision-free hash, equal hashes of two contents that differ only in the data force equal data |
| `BlockchainDemo.NonceTamperDetected` | blockchain/blockchain_rust_demo/src/main.rs:42-52 | the same for the nonce, through the injectivity of decimal text |
| `BlockchainDemo.PreviousHashTamperDetected` | blockchain/blockchain_rust_demo/src/main.rs:42-52 | the same for the previous-block hash |
| `BlockchainDemo.TimestampTamperDetected` | blockchain/blockchain_rust_demo/src/main.rs:42-52 | the same for the timestamp |
| `BlockchainDemo.LaterDataTamperDetected` | blockchain/blockchain_rust_demo/src/main.rs:116-131 | under the check as written, with a collision-free hash, a block after the first whose data changed behind its stored hash makes the check fail: a replacement that keeps every other field and still passes holds the original data |
| `BlockchainDemo.LaterNonceTamperDetected` | blockchain/blockchain_rust_demo/src/main.rs:116-131 | the same for a changed nonce |
| `BlockchainDemo.LaterTimestampTamperDetected` | blockchain/blockchain_rust_demo/src/main.rs:116-131 | the same for a changed timestamp |
| `BlockchainDemo.LaterPreviousHashTamperDetected` | blockchain/blockchain_rust_demo/src/main.rs:116-131 | a block after the first that still passes names the same previous hash as the one it replaced, whatever the hash function |
| `BlockchainDemo.FieldsNotSelfDelimiting` | blockchain/blockchain_rust_demo/src/main.rs:45-49 | the fields are hashed without separators, so block 1 after hash "23" and block 12 after hash "3" hash the same text |
| `BlockchainDemo.MinedBlock` | blockchain/blockchain_rust_demo/src/main.rs:102-103 | a new block with the given index, previous hash, data and clock reading; when mining succeeds it holds its recomputed hash and meets the difficulty |
| `BlockchainDemo.MiningExhausted` | blockchain/blockchain_rust_demo/src/main.rs:55-64 | under a digest that never meets the difficulty, mining fails at every nonce and stops at `u32::MAX`, where the source's `nonce += 1` overflows |
| `BlockchainDemo.Blockchain.constructor` | blockchain/blockchain_rust_demo/src/main.rs:90-92 | a new chain is empty, and an empty chain is linked and indexed |
| `BlockchainDemo.Blockchain.AddBlock` | blockchain/blockchain_rust_demo/src/main.rs:95-105 | grows the chain by exactly one mined block and keeps every earlier block; the new block's index is the old length, its previous hash is "0" for an empty chain and the old last block's hash otherwise, and it holds the data and the clock reading; it preserves the links, the corrected check and index = position |
| `BlockchainDemo.Blockchain.IsChainValid` | blockchain/blockchain_rust_demo/src/main.rs:116-132 | true exactly when every block from position 1 on names its predecessor's hash and holds its own recomputed hash |
| `BlockchainDemo.ShortChainsPass` | blockchain/blockchain_rust_demo/src/main.rs:117 | chains of zero or one block always pass the check |
| `BlockchainDemo.GenesisNeverChecked` | blockchain/blockchain_rust_demo/src/main.rs:117-131 | replacing block 0 by any block with the same stored hash never changes the check's verdict |
| `BlockchainDemo.ChainSoundHashesAll` | blockchain/blockchain_rust_demo/src/main.rs:115-132 | under the corrected check, every block, the first one included, holds its recomputed hash |
| `BlockchainDemo.GenesisTamperDetected` | blockchain/blockchain_rust_demo/src/main.rs:115-132 | under the corrected check, a genesis block whose data changed behind its stored hash is caught |
| `BlockchainDemo.Blockchain.IsChainSound` | blockchain/blockchain_rust_demo/src/main.rs:115-132 | the corrected check: true exactly when the links hold and block 0 also holds its recomputed hash |
| `BlockchainDemo.BuildChain` | blockchain/blockchain_rust_demo/src/main.rs:90-132 | a chain built only by `new` and `add_block` passes the check and the corrected one; block i has index i and block 0 names "0"; when every append mined its block, there is one block per payload and block i holds payload i and clock reading i |
| `Numbers.ParseU8` | intermediate/src/built_in_traits.rs:105-106 | `parse::<u8>` succeeds exactly on an optional '+' followed by at least one digit whose value is at most 255, and returns that value; it fails with `Empty` exactly on the empty string |
| `Numbers.ParseU8RoundTrip` | intermediate/src/built_in_traits.rs:105-106 | every `u8` parses back from its decimal text |
| `Numbers.TruncRemTwo` | basics/src/functions.rs:54 | Rust's `n % 2 != 0` holds exactly for the odd numbers, and is -1 for negative odd ones |
| `Text.SplitProperties` | intermediate/src/built_in_traits.rs:98 | `split(':')` gives one more piece than there are separators, no piece holds one, and joining the pieces restores the input |
| `BuiltInTraits.User.New` | intermediate/src/built_in_traits.rs:68-70 | stores name and age |
| `BuiltInTraits.User.Default` | intermediate/src/built_in_traits.rs:83-87 | the default user is "Default", aged 0 |
| `BuiltInTraits.User.ToString` | intermediate/src/built_in_traits.rs:75-79 | no contract of its own: the `Display` text "User(name: N, age: A)"; `ToStringShape`, `ToStringName` and `DisplayInjective` state its shape and that it determines the user |
| `BuiltInTraits.ToStringShape` | intermediate/src/built_in_traits.rs:75-79 | without its closing ')', the `Display` text ends in a space followed by the age's decimal digits |
| `BuiltInTraits.ToStringName` | intermediate/src/built_in_traits.rs:75-79 | the `Display` text is 19 characters longer than the name and the age's digits together, and holds the name verbatim after "User(name: " |
| `BuiltInTraits.DisplayInjective` | intermediate/src/built_in_traits.rs:75-79 | two users with the same "User(name: N, age: A)" text are equal |
| `BuiltInTraits.FromStr` | intermediate/src/built_in_traits.rs:95-111 | no contract of its own: `FromStrSpec` characterises it on the input text, and `FromStrRoundTrip` shows it inverts the "name:age" rendering |
| `BuiltInTraits.FromStrSpec` | intermediate/src/built_in_traits.rs:95-111 | an input without exactly one ':' is a format error; otherwise the name is the text before the ':' and the text after it must parse as a `u8`, or the error is the age prefix followed by the parse error's message |
| `BuiltInTraits.FromStrNameHasNoColon` | intermediate/src/built_in_traits.rs:98-104 | a parsed name never contains ':' |
| `BuiltInTraits.FromStrRoundTrip` | intermediate/src/built_in_traits.rs:95-111 | a name without ':' and any `u8` age come back from "name:age" |
| `BuiltInTraits.FromStrAlice` | intermediate/src/built_in_traits.rs:27 | "Alice:25" parses to Alice, aged 25 |
| `BuiltInTraits.FromStrFormatErrors` | intermediate/src/built_in_traits.rs:98-102 | "abc" and "a:1:2" are format errors |
| `BuiltInTraits.FromStrAtColon` | intermediate/src/built_in_traits.rs:95-111 | with exactly one ':', the name is the text before it, and the age is parsed from the text after it, or the age error carries the parse error's message |
| `BuiltInTraits.FromStrAgeOverflow` | intermediate/src/built_in_traits.rs:105-109 | "Bob:256" is rejected with the age prefix and the standard library's overflow message |
| `BuiltInTraits.FromStrAgeMissing` | intermediate/src/built_in_traits.rs:105-109 | "Bob:" is rejected with the age prefix and the standard library's empty-string message |
| `BuiltInTraits.CreateUserFromStr` | intermediate/src/built_in_traits.rs:116-121 | returns exactly the parse result |
| `BuiltInTraits.MutExample` | intermediate/src/built_in_traits.rs:132-134 | the string keeps its old text and gains " Jr." at the end |
| `BuiltInTraits.Scenario` | intermediate/src/built_in_traits.rs:7-43 | two `User::new("Bob", 25)` are equal and display as "User(name: Bob, age: 25)"; "Dave" becomes "Dave Jr." |
| `Functions.Sum` | basics/src/functions.rs:43-45 | the i32 sum, for operands whose sum does not overflow |
| `Functions.IsOdd` | basics/src/functions.rs:54 | no contract of its own: Rust's `n % 2 != 0`, which `Numbers.TruncRemTwo` proves holds exactly for odd n |
| `Functions.GetOdds` | basics/src/functions.rs:49-57 | the filter output is never longer than the input and every element of it is odd |
| `Functions.GetOddsCounts` | basics/src/functions.rs:49-57 | every odd value occurs in the output as often as in the input; even values never occur |
| `Functions.GetOddsIsSubsequence` | basics/src/functions.rs:49-57 | the output keeps the input's order |
| `Functions.GetOddsIdempotent` | basics/src/functions.rs:52-56 | filtering twice equals filtering once |
| `Functions.GetOddsKeepsNegatives` | basics/src/functions.rs:54 | negative odd numbers are kept, e.g. -3 |
| `Functions.GetOddsLoop` | basics/src/functions.rs:61-72 | the pushing loop returns the same sequence as the iterator filter |
| `Functions.Vec.FromSeq` | basics/src/functions.rs:84 | a vector holding exactly the given elements, in a buffer of its own |
| `Functions.FilterOddsInPlace` | basics/src/functions.rs:76-79 | after `retain`, the vector holds exactly the filter of its old contents, in the same buffer |
| `Functions.MovePosition` | basics/src/functions.rs:94-98 | both coordinates move by the acceleration |
| `Functions.MovePositionComposes` | basics/src/functions.rs:94-98 | two moves equal one move by the summed acceleration, and a zero move stays put |
| `Generics.Point.New` | intermediate/src/generics.rs:47-49 | stores x and y unchanged |
| `Generics.Point.Info` | intermediate/src/generics.rs:53-55 | no contract of its own: "x: <x>, y: <y>"; `PointInfoExample` gives the tutorial's case and `PointInfoInjective` shows the description determines an integer point |
| `Generics.PointInfoExample` | intermediate/src/generics.rs:138-139 | `Point::new(3, 4).info()` is "x: 3, y: 4" |
| `Generics.PointInfoInjective` | intermediate/src/generics.rs:53-55 | points with non-negative integer coordinates have distinct descriptions |
| `Generics.SwapValues` | intermediate/src/generics.rs:62-64 | no contract of its own: `SwapValuesInvolution` shows it exchanges the values and undoes itself |
| `Generics.SwapValuesInvolution` | intermediate/src/generics.rs:62-64 | `swap_values(a, b)` is `(b, a)`, and swapping twice gives back the pair |
| `Generics.Max` | intermediate/src/generics.rs:80-86 | the result is one of the arguments and at least both |
| `Generics.FindLargest` | intermediate/src/generics.rs:93-104 | needs a non-empty slice; returns a position whose element no element exceeds, and every element before it is strictly smaller (first occurrence of the maximum) |
| `Generics.Scenario` | intermediate/src/generics.rs:146-165 | `max(3, 7)` is 7, `swap_values(5, 10)` is (10, 5), and the largest of [3, 7, 2, 9, 5] is 9 |
| `Structs.Rectangle.constructor` | basics/src/structs.rs:60-62 | stores width and height |
| `Structs.Rectangle.Area` | basics/src/structs.rs:65-67 | no contract of its own: the u32 product of the sides; `AreaFacts` states it |
| `Structs.Rectangle.IsSquare` | basics/src/structs.rs:70-72 | no contract of its own: the sides are equal; `AreaFacts` and `Rectangle.Resize` use it |
| `Structs.AreaFacts` | basics/src/structs.rs:65-72 | a square's area is its width squared, and the area is zero exactly when a side is zero |
| `Structs.Rectangle.Resize` | basics/src/structs.rs:75-78 | sets both sides and nothing else; afterwards the rectangle is a square exactly when the two new sides are equal |
| `Structs.Scenario` | basics/src/structs.rs:14-21 | 10x20 has area 200 and is not square; after `resize(15, 15)` it is square |
| `MathTests.Add` | intermediate/src/tests.rs:9-11 | no contract of its own: the i32 sum; `AddSubtractInverse`, `AddCommutes` and the tests state it |
| `MathTests.Subtract` | intermediate/src/tests.rs:14-16 | no contract of its own: the i32 difference; `AddSubtractInverse` shows it undoes `Add` |
| `MathTests.AddSubtractInverse` | intermediate/src/tests.rs:9-16 | subtracting what was added gives back the first operand, and the reverse |
| `MathTests.AddCommutes` | intermediate/src/tests.rs:9-16 | `add` commutes and `subtract(a, a)` is 0 |
| `MathTests.TestAdd` | intermediate/src/tests.rs:32-34 | `add(2,3) == 5`, `add(-1,1) == 0`, `add(0,0) == 0` |
| `MathTests.TestSubtract` | intermediate/src/tests.rs:40-42 | `subtract(5,3) == 2`, `subtract(3,5) == -2`, `subtract(0,0) == 0` |
| `MathTests.TestAddFailure` | intermediate/src/tests.rs:49 | `add(2,2) != 5` |
| `Parallelism.ProcessPositiveNumbers` | advanced/parallelism/src/main.rs:12-24 | the output is never longer than the input; its order, values and counts are stated by `ProcessAppend`, `ProcessPositiveEven` and `ProcessCounts` |
| `Parallelism.ProcessPositiveEven` | advanced/parallelism/src/main.rs:15-16 | every output element is positive and even |
| `Parallelism.ProcessFits` | advanced/parallelism/src/main.rs:16 | every output value fits an `i32` exactly when no positive element's doubling overflows, that is, exactly when the debug build does not panic |
| `Parallelism.ProcessAppend` | advanced/parallelism/src/main.rs:13-17 | the pipeline of a concatenation is the concatenation of the pipelines: each element is processed on its own, in order |
| `Parallelism.NonPositiveDropped` | advanced/parallelism/src/main.rs:15 | a zero or negative element, wherever it stands, contributes nothing |
| `Parallelism.ProcessCounts` | advanced/parallelism/src/main.rs:12-17 | each positive input value y appears doubled as often as y appears; no other value appears |
| `Parallelism.ProcessExample` | advanced/parallelism/src/main.rs:6 | [1,-2,3,-4,5,6,-7,8,9,-10] maps to [2,6,10,12,16,18] |
| `Traits.HealthCheck.constructor` | intermediate/src/traits.rs:87 | the struct literal stores the flag |
| `Traits.HealthCheck.Activate` | intermediate/src/traits.rs:28-31 | online afterwards, whatever the state before, so a second call changes nothing |
| `Traits.HealthCheck.Deactivate` | intermediate/src/traits.rs:33-36 | offline afterwards |
| `Traits.HealthCheck.Status` | intermediate/src/traits.rs:40-48 | "HealthCheck is online" exactly when online and "HealthCheck is offline" exactly when offline; reads the state only |
| `Traits.Sample` | intermediate/src/traits.rs:55-61 | reports online, then offline, and leaves the service offline |
| `Traits.Run` | intermediate/src/traits.rs:86-89 | a service ends offline after `sample`, whether it started online or offline |
| `Enums.Status.GetInfo` | intermediate/src/enums.rs:40-46 | "Success" for `Success`, the stored message for `Failed` |
| `Enums.CreateStatus` | intermediate/src/enums.rs:51-57 | fails, with "Title is empty", exactly on the empty title |
| `Enums.CreateStatusInfo` | intermediate/src/enums.rs:40-57 | the description of a created status is "Success" exactly for a non-empty title and "Title is empty" exactly for the empty one |
| `Enums.CreateStatusExamples` | intermediate/src/enums.rs:216-219 | "Rust" gives "Success" and "" gives "Title is empty" |
| `Enums.Player.constructor` | intermediate/src/enums.rs:86-92 | stores name, level and active flag |
| `Enums.Player.Change` | intermediate/src/enums.rs:97-100 | sets level and active flag; the name stays |
| `Enums.PlayerScenario` | intermediate/src/enums.rs:223-225 | "Player 001" at High and active becomes Medium and inactive |
| `PatternMatchings.GetEmail` | intermediate/src/pattern_matchings.rs:117-124 | an e-mail exactly for user 1, and it is "user@example.com" |
| `PatternMatchings.User.New` | intermediate/src/pattern_matchings.rs:164-166 | stores id, name and optional e-mail |
| `PatternMatchings.User.Info` | intermediate/src/pattern_matchings.rs:169-174 | no contract of its own: `InfoWithAndWithoutEmail` and `InfoExample` state its two cases |
| `PatternMatchings.InfoWithAndWithoutEmail` | intermediate/src/pattern_matchings.rs:169-174 | the description starts with "id - "; with an e-mail it is the description without one followed by " (email)" |
| `PatternMatchings.InfoExample` | intermediate/src/pattern_matchings.rs:45-46 | the tutorial's user is described as "1 - Baran (baran@example.com)" |
| `PatternMatchings.FindAccount` | intermediate/src/pattern_matchings.rs:187-189 | nothing exactly when no account has the id; otherwise an account of the list with that id |
| `PatternMatchings.FindAccountFirst` | intermediate/src/pattern_matchings.rs:187-189 | the account found is the first with the id |
| `PatternMatchings.LoadAccounts` | intermediate/src/pattern_matchings.rs:192-199 | four accounts |
| `PatternMatchings.LoadAccountsFacts` | intermediate/src/pattern_matchings.rs:192-199 | the ids are 1001 to 1004 and distinct, account 1003 is Valeri Mora's, and 1005 is not found |
| `PatternMatchings.Ping` | intermediate/src/pattern_matchings.rs:215-227 | for a draw in 1..=10: Ok exactly for 1, Accepted for 2 to 4, BadRequest for 5, NotFound for 8 and 10, InternalServerError for 6, 7 and 9 |
| `PatternMatchings.PingTable` | intermediate/src/pattern_matchings.rs:217-226 | the status of each of the ten draws |
| `ControlFlows.Dedup` | basics/src/control_flows.rs:66-71 | the kept draws have no duplicates, are no more than the draws, and are exactly the drawn values |
| `ControlFlows.DedupFirstDrawOrder` | basics/src/control_flows.rs:66-71 | kept values are in the order of their first draw |
| `ControlFlows.DedupStep` | basics/src/control_flows.rs:66-71 | a repeated draw changes nothing; a new draw is appended |
| `ControlFlows.DedupExample` | basics/src/control_flows.rs:66-71 | draws 7, 3, 7 keep 7 and 3 |
| `ControlFlows.GetRandomNumbers` | basics/src/control_flows.rs:59-75 | returns the de-duplicated draws: at most `upper_limit` values, each in 1..=100 |
| `RcRefCell.User.constructor` | advanced/smart_pointers/src/rc_refcell.rs:17-23 | the given name and age, no friends |
| `RcRefCell.AddFriend` | advanced/smart_pointers/src/rc_refcell.rs:27-31 | appends the friend to the parent's list and changes nothing else |
| `RcRefCell.ListFriends` | advanced/smart_pointers/src/rc_refcell.rs:35-47 | one name per friend, in list order, reading only |
| `RcRefCell.NamesAppend` | advanced/smart_pointers/src/rc_refcell.rs:35-47 | listing after an append gives the old names followed by the new friend's |
| `RcRefCell.Scenario` | advanced/smart_pointers/src/rc_refcell.rs:51-76 | Alice's friends are Bob and Charlie; Dave's is Bob; Dave adding the shared Bob leaves Alice's list as it was |

## Left out

- The blockchain demo's interactive menu (blockchain/blockchain_rust_demo/src/main.rs:136-186): it only reads standard input and prints.
- The `display` printers of `Block` and `Blockchain`: they only print.
- The `thread::sleep` inside `mine`: a delay with no effect on state.
- The SHA-256 implementation and its lower-case hex rendering: a function parameter; the properties hold for any function, and the tamper lemmas assume a collision-free one.
- `SystemTime::now()` and its "Time went backwards" panic: the timestamp is the `now` parameter.
- BlockchainDemo.Block.Mine: in the source, `nonce += 1` overflows when `u32::MAX` fails too. A debug build panics there, and a release build wraps to 0 and searches forever. The model stops with `found == false`, and `AddBlock` then appends nothing. This is the common case, not a corner: see "Findings".
- BlockchainDemo.Blockchain.AddBlock: the `len() as u32` truncation is not modelled; fewer than 2^32 blocks is a precondition.
- Floating point: `Position` in structs.rs, `divide` in enums.rs, and `safe_divide`/`process_division` in pattern_matchings.rs are not modelled. `Account.balance` is a `real` that the lookups only carry along.
- `rayon_positive_numbers`: a parallel version whose ordering comes from the rayon library.
- The random generators in control_flows.rs and in `ping`: the draws are parameters, within the ranges the generator guarantees. The rest of `run` in control_flows.rs is counting loops that only print.
- The `Service` trait and `_sample_dyn`: `Traits.Sample` works on `HealthCheck` directly, the only implementation in the source.
- Generics.Max and Generics.FindLargest: modelled on integers rather than any `PartialOrd` type. The tutorial calls them on integers, and a partial order such as floats with NaN would break "no element exceeds the result".
- Generics: `user_input`, `Pair` and `print_pair` only print. The floating-point `Point::new(3.5, 4.2)` is not modelled.
- Generics.Point.Info: `{:?}` of a coordinate is a rendering-function parameter.
- BuiltInTraits.MutExample: the in-place `push_str` on the caller's `String` is modelled as returning the new string.
- `ref_example` and the `Debug` printing in built_in_traits.rs only print.
- Structs.Rectangle.Area: the u32 product must not overflow, which is a precondition. Release-build wrap-around is not modelled.
- Functions.Sum and Functions.MovePosition: i32 overflow, a debug-build panic, is a precondition. Release-build wrap-around is not modelled. The same holds for the `add` and `subtract` functions in `MathTests`.
- Parallelism.ProcessPositiveNumbers: the doubled values are exact integers; `ProcessFits` states when they all fit an `i32`, which is when the debug build does not panic. Release-build wrap-around is not modelled.
- `say_hello` and `_main_alternative` in functions.rs only print.
- `test_panic` in tests.rs tests a bare `panic!` and involves no modelled function.
- In enums.rs, the `User` enum, `option_example`, `explain_self_usage` and `Player::display` only print.
- In pattern_matchings.rs, `UserRole`/`check_permissions`, `ApiResponse`/`handle_response` and `print_email` only print.
- In rc_refcell.rs, reference counts and `RefCell` borrow panics are not modelled: the source never borrows mutably twice at once. `demonstrate_rc` and `demonstrate_refcell` only print.

## Findings

| source | as written | input that shows it | evidently intended | confidence | as-written member | corrected member |
|---|---|---|---|---|---|---|
| blockchain/blockchain_rust_demo/src/main.rs:115-132 | the check's loop starts at 1, so block 0's stored hash is never compared with its recomputed hash | add "alpha" and "beta", then change block 0's data to "tampered": block 1 still names block 0's stored hash, so the check returns true | every block, as the comment above the check says, so the change is caught | medium, not executed | `BlockchainDemo.GenesisNeverChecked` | `BlockchainDemo.Blockchain.IsChainSound` |
| blockchain/blockchain_rust_demo/src/main.rs:55-64 | `mine` adds 1 to a `u32` nonce until the hash starts with "486604799", with no bound, so when all 2^32 nonces fail the addition overflows: a debug build panics, a release build wraps to 0 and searches forever | any block none of whose 2^32 nonces gives a digest starting with the 9 digits; for a uniform 64-hex-digit digest one nonce succeeds with probability 16^-9 = 2^-36, so all fail with probability about e^(-1/16), roughly 94% of `add_block` calls | the search ends, with a mined block or a reported failure | high for the overflow, medium for the frequency estimate; not executed | `BlockchainDemo.MiningExhausted` | `BlockchainDemo.Block.Mine` |
