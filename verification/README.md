# Duck Voyage: codes, registry and visibility

Duck Voyage hands out printed codes for cruise-ship rubber ducks and tracks where the ducks are found. A code
such as `QK7-MX2P` is a flock prefix, a number of that flock encrypted into three base-36 characters, and a
check character. This project models the part of the system that must never go wrong once stickers are printed,
and proves what it promises.

* **The code algebra.** `Base36`, `Damm36`, `Radix`, `Ff1`, `Codes`, `Codec`, `Profanity`, `Text`. The check
  character is a fold through a quasigroup on Z6 x Z6 built from a linear orthomorphism; its detection
  guarantees are proved for sequences of any length, with the exact swap distances that escape. Parsing accepts
  exactly the respellings of valid codes, and encoding and decoding are one bijection.
* **The registry.** `Schema` holds rows, declared constraints and row readback; `Store` and `Cascade` give each
  repository transaction as a function of the tables; `Invariants` states what holds of the tables and shows
  that every operation keeps it. `Registry` is the same repositories as an object whose methods reassign its
  tables, with the allocation loop, the bounded prefix draw, the three inserts of a sighting and the ordered
  deletions; `Effects` says what each call means to its caller: which entity changed into what, what stayed, what
  a second call does and what undoes the first.
* **The running system.** `Handlers` models a duck-page request as a check followed by writes. `Runs` is one
  database with any number of handlers and mint transactions in flight; a mint is a sequence of lock, read,
  insert and commit steps whose rows stay invisible until commit. `Safety` and `Reachability` prove the
  invariant over every schedule; `MintGuarantees` and `DuckGuarantees` state what follows: mints never violate a
  UNIQUE constraint, a flock's printed codes do not depend on the schedule, a scan finds exactly its duck, no
  row reads back as corrupt, lifecycles only move forward, only sailing ducks are talked about, deletions are
  simultaneous filters that lose no photo key. `Deletions` says row by row what a deletion leaves, `Naming` that no
  prefix or code is ever rude. `Prefixes` and `Locks` give the exact conditions under which two
  promises of the documentation fail, `Sequential` ties uninterrupted requests and mints to their events, and
  `Stories` (with the identity cipher of `PlainCodec`) works out schedules from the empty registry that break them.
* **Answers, access, visibility and sign-in.** `Answers` gives, in terms of the rows found, the exact response and
  the exact tables left by every request on a duck page; `Permissions` who may send which. `Hiding` and `FrontPage`
  prove that ducks which have not set sail or are soft-deleted cannot be told from absent ones by a viewer who is
  neither owner nor admin, over any sequence of requests and on the public lists. `OidcFlow` proves that sweeping
  expired sign-in flows cannot be observed.

## Where code and documentation disagree

The model follows the code.

* `crates/domain/src/codes.rs:61` and `migrations/0001_initial.sql:54` call prefixes never reused. They are exactly
  as long as no flock is hard-deleted: `Prefixes.PrefixBelongsToOneFlock`. After a deletion the prefix can be drawn
  again and old stickers resolve to other ducks: `Prefixes.PrefixComesBack`, worked out from the empty registry in
  `Stories.StickerChangesHands`.
* `crates/storage/src/repos.rs:776` calls a sighting deletion scoped to the duck. The notices are removed by
  sighting alone: `Permissions.WrongPageDropsNotices`, with a schedule in `Stories.NoticesLostOnOtherPage`.
* `crates/web/src/handlers/duck.rs:282-284` closes the comments of a locked duck. The lock is read before the
  comment is written, so a comment lands on a locked duck exactly when a lock was written in between and not
  undone: `Locks.CommentCrossesLockIff`, with a schedule in `Stories.CommentOnLockedDuck`.
* `crates/web/src/handlers/flock.rs:43-44` says a UNIQUE constraint catches a concurrent mint. The advisory lock
  keeps it from ever being reached: `MintGuarantees.MintsNeverCollide`.

## Model

| member | source | states |
|---|---|---|
| Base36.DigitOfIsCaseFold | crates/domain/src/base36.rs:10-23 | A character reads as digit d exactly when it is d's printed character up to case. |
| Damm36.BuildTable | crates/domain/src/damm.rs:57-70 | The nested loops fill every entry of the 36 by 36 table with the quasigroup operation on Z6 x Z6. |
| Damm36.TableEntry | crates/domain/src/damm.rs:45-70 | The integer formula of an entry is sigma(x) + y componentwise modulo 6. |
| Damm36.SigmaIsLinear | crates/domain/src/damm.rs:28-55 | The CRT formula for sigma is the announced linear map: a matrix on the Z2 parts, doubling on the Z3 parts. |
| Damm36.LatinSquare | crates/domain/src/damm.rs:18-21 | Each argument of the operation is determined by the other one and the result. |
| Damm36.TotallyAntiSymmetric | crates/domain/src/damm.rs:3-7 | Both anti-symmetry laws, for all digits and every prefix value. |
| Damm36.CheckDigitUnique | crates/domain/src/damm.rs:79-91 | Appending c makes a sequence valid exactly when c is the computed check digit, at any length. |
| Damm36.InterimClosedForm | crates/domain/src/damm.rs:72-77 | The fold equals the sum of the digits weighted by falling powers of sigma, at any length. |
| Damm36.SingleErrorCaught | crates/domain/src/damm.rs:6-7 | Replacing one digit of a valid sequence of any length keeps it valid exactly when nothing was changed. |
| Damm36.SwapUndetectedIff | crates/domain/src/damm.rs:72-91 | A swap of two digits at any distance goes unseen exactly when that power of sigma fixes their difference. |
| Damm36.FixedPointFreeDistances | crates/domain/src/damm.rs:28-32 | The distances at which sigma's power moves every nonzero difference are exactly those congruent to 1 or 5 modulo 6. |
| Damm36.SwapCaught | crates/domain/src/damm.rs:5-7 | Swapping unequal digits at distance 1 (adjacent) or 5 modulo 6 is always caught, check digit included. |
| Damm36.SwapEscapes | crates/domain/src/damm.rs:79-91 | At every other distance some swap of unequal digits in a correctly checked sequence escapes, so the distances are exact. |
| Damm36.SigmaHasOrderSix | crates/domain/src/damm.rs:28-32 | Sigma applied six times is the identity. |
| Radix.FromToDigits | crates/domain/src/codec.rs:104-117 | In any radix and width, reading back the digits of a number that fits gives the number. |
| Radix.ToFromDigits | crates/domain/src/codec.rs:104-117 | Every digit sequence is the expansion of the number it denotes. |
| Radix.FromDigitsBound | crates/domain/src/codec.rs:112-116 | n digits denote a number below the n-th power of the radix. |
| Ff1.FeistelPermutes | crates/domain/src/codec.rs:37-45 | Whatever the keyed round function, the ten-round network and its reverse are mutually inverse, keep the length, and stay in the radix (section 5.1 of NIST SP 800-38G). |
| Codes.ParseAcceptsSpellings | crates/domain/src/codes.rs:135-153 | Parsing succeeds with a code exactly when that code is valid and the input is its text in any case with separators inserted anywhere. |
| Codes.ParseErrors | crates/domain/src/codes.rs:114-153 | Which of the three errors parsing reports: first bad character, then length, then checksum. |
| Codes.PrintedFormsParse | crates/domain/src/codes.rs:169-192 | The plain and the grouped printed form of a code both parse back to it. |
| Codes.FillDigits | crates/domain/src/codes.rs:89-99 | The slot-by-slot copy of digit values equals the digits of the text. |
| Codes.AssembleParts | crates/domain/src/codes.rs:155-187 | An assembled code is valid and gives back its prefix and payload. |
| Codes.PartsDetermine | crates/domain/src/codes.rs:155-187 | A valid code is the assembly of its own parts: there is no second check character. |
| Codes.MisprintRefused | crates/domain/src/codes.rs:137-153 | One wrong character anywhere in a printed code is refused with a checksum error. |
| Codes.TranspositionRefused | crates/domain/src/codes.rs:137-153 | Exchanging unequal characters one or five places apart is refused with a checksum error. |
| Codec.NewIsValid | crates/domain/src/codec.rs:34-54 | Construction succeeds exactly when the current generation has a key; every cipher then permutes, new flocks use that generation, and each generation has the last key listed for it. |
| Codec.PayloadDomain | crates/domain/src/codec.rs:104-117 | Three base-36 digits and the numbers below 46656 correspond one to one, inside 32 bits, and cover every flock number. |
| Codec.DecodeEncode | crates/domain/src/codec.rs:67-102 | Decoding an encoded number gives the number. |
| Codec.EncodeDecode | crates/domain/src/codec.rs:86-102 | A code that decodes is the encoding of what it decodes to under its own prefix. |
| Codec.CodecIsBijection | crates/domain/src/codec.rs:67-102 | Encoding to a code and decoding from it are the same relation. |
| Codec.EncodeInjective | crates/domain/src/codec.rs:20-23 | Different (prefix, number) pairs never share a code, across flocks and generations. |
| Codec.RotationKeepsCodes | crates/domain/src/codec.rs:24-54 | Adding a key under an unused generation and making it current changes no code of any older generation, encoded or decoded. |
| Text.ParseIdempotent | crates/domain/src/text.rs:20-29 | What parsing accepted parses to itself, so stored text reads back. |
| Text.TrimIsCore | crates/domain/src/text.rs:20-29 | Trimming takes away all white space at both ends and nothing between. |
| Profanity.MatchesIff | crates/domain/src/profanity.rs:22-27 | A text is rude exactly when some blocked word stands at some position of it, in any mixture of cases. |
| Schema.ReadDuckSucceedsIff | crates/storage/src/rows.rs:31-74 | A duck row reads back exactly when the CHECK constraints hold, its texts fit and its code parses. |
| Schema.ReadSightingSucceedsIff | crates/storage/src/rows.rs:171-203 | A sighting row reads back exactly when its CHECK constraints hold and its note fits. |
| Store.FindFlock | crates/storage/src/repos.rs:137-150 | The prefix lookup returns a flock with that prefix, or none has it. |
| Store.FindDuck | crates/storage/src/repos.rs:268-293 | The (flock, number) lookup returns such a row, or there is none. |
| Store.MaxSeq | crates/storage/src/repos.rs:202-207 | The high-water mark bounds every number of the flock and is attained, or is 0. |
| Store.AllocateFullIff | crates/storage/src/repos.rs:209-217 | The loop reports a full flock exactly when fewer than count acceptable numbers are left up to 10000. |
| Store.AllocateIsFirst | crates/storage/src/repos.rs:209-217 | When it succeeds the loop returns exactly the first count acceptable numbers above the mark, increasing, none skipped. |
| Store.AllocateSplits | crates/storage/src/repos.rs:209-217 | Allocating a and then b numbers allocates what a + b at once does. |
| Store.AppendSplits | crates/storage/src/repos.rs:223-243 | Inserted rows get fresh consecutive identities and leave the old rows alone. |
| Store.DrawsGiveFirstUsable | crates/storage/src/repos.rs:86-119 | The bounded draw gives a new flock its first prefix that is neither rude nor held, and runs out exactly when every draw is rude or held. |
| Store.NotifiedExactly | crates/storage/src/repos.rs:656-664 | The users notified of a sighting are exactly the duck's followers but the finder, each once. |
| Minting.SkippedIsProfane | crates/web/src/handlers/flock.rs:69-87 | After the key preflight encoding cannot fail, so a skipped number is exactly one whose code is profane. |
| Minting.MintCodesDiffer | crates/web/src/handlers/flock.rs:79-87 | Codes minted for different (prefix, number) pairs differ. |
| Minting.MintCodeShape | crates/web/src/handlers/flock.rs:79-87 | A minted code is valid, carries its flock's prefix and decrypts to its number. |
| Cascade.UserCascadeIsFilter | crates/storage/src/repos.rs:1218-1286 | The twelve statements, foreign keys checked after each, equal one simultaneous filter exactly when no surviving notice names a sighting on the user's ducks; otherwise they abort. |
| Cascade.DeleteUserIsFilter | crates/storage/src/repos.rs:1201-1293 | Given agreeing notices, deleting a user who exists and is no admin is that filter; otherwise, with no account row removed, nothing changes. |
| Cascade.FlockCascadeIsFilter | crates/storage/src/repos.rs:1159-1192 | The six statements of a flock deletion likewise. |
| Cascade.DeleteFlockIsFilter | crates/storage/src/repos.rs:1144-1195 | Deleting a flock is the filter; an absent flock changes nothing. |
| PhotoKeys.UserPhotosConserved | crates/storage/src/repos.rs:1203-1217 | Photo keys before deleting a user are those after plus those returned, as multisets. |
| PhotoKeys.FlockPhotosConserved | crates/storage/src/repos.rs:1146-1158 | The same for deleting a flock. |
| PhotoKeys.JoinOnKey | crates/storage/src/repos.rs:1148-1153 | A join on a primary key yields the row once or not at all, so the UNION ALL repeats no key. |
| Invariants.EmptyIsGood | migrations/0001_initial.sql:1-130 | The empty registry meets the invariant. |
| Invariants.GoodMeetsSchema | migrations/0001_initial.sql:52-129 | The invariant implies every CHECK, UNIQUE and REFERENCES of the schema, and that notices agree with their sightings. |
| Invariants.UpsertKeepsGood | crates/storage/src/repos.rs:25-56 | Signing in keeps the invariant. |
| Invariants.CreateFlockKeepsGood | crates/storage/src/repos.rs:77-120 | The bounded prefix draw keeps the invariant, whatever is drawn. |
| Invariants.StageKeepsGood | crates/storage/src/repos.rs:294-329 | Staging keeps the invariant. |
| Invariants.SetSailKeepsGood | crates/storage/src/repos.rs:331-353 | Setting sail keeps the invariant. |
| Invariants.MarksKeepGood | crates/storage/src/repos.rs:370-420 | Soft deletion, restoration and comment locks keep the invariant. |
| Invariants.LogKeepsGood | crates/storage/src/repos.rs:633-680 | Logging a sighting on a sailing duck keeps the invariant, notices included. |
| Invariants.LogNotices | crates/storage/src/repos.rs:656-667 | After a log the notification table is the old one plus one unread row per other follower. |
| Invariants.DeleteSightingKeepsGood | crates/storage/src/repos.rs:774-795 | Removing a sighting and its notices keeps the invariant. |
| Invariants.CommentsKeepGood | crates/storage/src/repos.rs:830-881 | Adding and removing comments keep the invariant. |
| Invariants.FollowsKeepGood | crates/storage/src/repos.rs:887-907 | Following and unfollowing keep the invariant. |
| Invariants.MarkAllReadKeepsGood | crates/storage/src/repos.rs:997-1005 | Marking the feed read keeps the invariant. |
| Invariants.WithoutUserKeepsGood | crates/storage/src/repos.rs:1197-1293 | Deleting a user keeps the invariant. |
| Invariants.WithoutFlockKeepsGood | crates/storage/src/repos.rs:1141-1195 | Deleting a flock keeps the invariant. |
| Funnel.StoredCode | crates/web/src/handlers/duck.rs:34-57 | Every stored code is valid under its flock's prefix and decrypts to its number. |
| Funnel.StoredCodeResolves | crates/web/src/handlers/duck.rs:34-57 | Scanning any spelling of a stored code resolves to its own row. |
| Funnel.ReachedRowMatches | crates/web/src/handlers/duck.rs:50-55 | A row reached by prefix and decrypted number stores the scanned code: the mismatch branch is dead. |
| Funnel.ScanFunnel | crates/web/src/handlers/duck.rs:25-57 | In a database meeting the invariant the funnel equals the lookup of the row whose code is the string, and finds one exactly when there is one. |
| Funnel.DuckReadsBack | crates/storage/src/rows.rs:31-74 | Every duck row reads back, with its lifecycle given by its timestamps. |
| Funnel.SightingReadsBack | crates/storage/src/rows.rs:171-203 | Every sighting row reads back. |
| Funnel.HistoryReadable | crates/storage/src/repos.rs:717-728 | A duck page never fails on stored coordinates. |
| Evolution.PerformEvolves | crates/storage/src/repos.rs:298-420 | No write of a handler alters a code, a flock, a number, details once set or a sailing time once set. |
| Evolution.CreateFlockEvolves | crates/storage/src/repos.rs:77-120 | Drawing a prefix disturbs no existing flock or duck. |
| Safety.PlannedNeverClash | crates/storage/src/repos.rs:223-243 | Rows planned above the high-water mark clash with no committed row and not with each other. |
| Safety.CommitKeepsGood | crates/storage/src/repos.rs:188-246 | Committing a planned mint keeps the invariant: numbers stay dense up to profane holes. |
| Safety.DecidedWritesOk | crates/web/src/handlers/duck.rs:120-408 | Whatever a handler is about to write was legitimate when it looked. |
| Safety.PerformKeepsGood | crates/web/src/handlers/duck.rs:120-408 | Each single write keeps the invariant even when other steps came between check and write. |
| Reachability.StepKeepsInv | crates/storage/src/repos.rs:180-246 | Every event, at lock, read, insert and commit granularity for mints, keeps the invariant and moves rows only forward. |
| Reachability.RunKeepsInv | crates/storage/src/repos.rs:180-246 | So does every schedule of events. |
| MintGuarantees.ReachableInv | crates/storage/src/repos.rs:180-246 | The invariant holds after every schedule from the empty registry. |
| MintGuarantees.MintsNeverCollide | crates/storage/src/repos.rs:180-246 | After every schedule: one lock holder per flock; a mint's INSERT never meets a UNIQUE violation and meets none at all while its flock exists; it gives up exactly when too few numbers are left. |
| MintGuarantees.PlansNeverClash | crates/storage/src/repos.rs:180-187 | Plans for two flocks share neither a code nor a (flock, number) pair. |
| MintGuarantees.FlockContents | crates/storage/src/repos.rs:202-217 | A flock prints exactly the acceptable numbers up to its high-water mark. |
| MintGuarantees.MintedAddsUp | crates/storage/src/repos.rs:188-246 | A surviving flock holds the rows it had plus one per duck committed to it, over any schedule. |
| MintGuarantees.FlockIsFirstAcceptable | crates/web/src/handlers/flock.rs:74-87 | After every schedule a flock prints its first acceptable numbers, as many as the committed mints asked for. |
| MintGuarantees.ScheduleIndependence | crates/storage/src/repos.rs:180-187 | Two schedules that committed equally many ducks to flocks of the same prefix and key leave the same printed codes, however they interleave and batch. |
| MintGuarantees.MintTwiceIsMintOnce | crates/storage/src/repos.rs:188-246 | Minting a and then b ducks is minting a + b at once, down to the rows, full flocks included. |
| MintGuarantees.MintBatchOutcome | crates/storage/src/repos.rs:188-246 | An uninterrupted batch returns the first acceptable numbers and adds exactly those ducks, each reading back as allocated with its code and number, neither deleted nor locked, every other row untouched; or it fails exactly when too few are left and changes nothing. |
| MintGuarantees.MintRequestOutcome | crates/web/src/handlers/flock.rs:45-94 | What an owner asking for ducks gets: exactly that many allocated, undeleted ducks with the next acceptable numbers and no other row touched; and the key check never fails after the flock was found. |
| MintGuarantees.CommitHatches | crates/storage/src/repos.rs:223-246 | After every schedule a commit adds exactly the inserted ducks, as many as were asked for, each allocated and unmarked, leaves every other row alone and ends the mint; before the insert it does nothing. |
| MintGuarantees.UncommittedRowsDiffer | crates/storage/src/repos.rs:195-243 | After every schedule rows inserted but not committed share no code and no (flock, number) with each other, with a stored duck, or with another mint's uncommitted rows. |
| Naming.NewFlockIs | crates/storage/src/repos.rs:77-120 | In a running system creating a flock founds it on the first draw that is free and not rude, under the newest key, with the trimmed label and that owner; otherwise, exactly when there is no such draw, owner or fitting label, no flock changes. |
| Naming.NothingRude | crates/domain/src/profanity.rs:1-5 | After every schedule no prefix and no duck's code holds a blocked word anywhere, in any case. |
| Naming.FullIffFewLeft | crates/web/src/handlers/flock.rs:45-94 | An owner's request succeeds exactly when at least as many numbers up to 10000 as asked for are left above the highest minted one whose codes are not rude. |
| DuckGuarantees.NothingCorrupt | crates/storage/src/rows.rs:31-104 | After every schedule all declared constraints hold and every row reads back. |
| DuckGuarantees.ScansFindTheirDuck | crates/web/src/handlers/duck.rs:25-57 | After every schedule a scan finds exactly the row whose stored code the text spells. |
| DuckGuarantees.LifecyclesMoveForward | crates/storage/src/repos.rs:294-392 | Between any two moments of any schedule a duck keeps code, flock and number, moves only from allocated to staged to sailing, keeps its details, and never returns once removed. |
| DuckGuarantees.OnlySailingDucksAreTalkedAbout | crates/web/src/handlers/duck.rs:175-289 | However checks and writes interleave, every sighting, comment, follow and notice is about a sailing duck. |
| DuckGuarantees.FeedIsSound | crates/storage/src/repos.rs:656-667 | Every notice names a stored sighting of the same duck by somebody else, and no user has two for one sighting. |
| DuckGuarantees.LogFansOut | crates/storage/src/repos.rs:633-680 | A log tells each other follower of that moment once and nobody else, keeps older notices, then makes the finder a follower. |
| DuckGuarantees.UserDeletionIsExact | crates/storage/src/repos.rs:1197-1293 | After every schedule deleting a user passes all checks; for an existing account that is no admin's it is the filter and loses no photo key, for any other nothing happens. |
| DuckGuarantees.FlockDeletionIsExact | crates/storage/src/repos.rs:1141-1195 | The same for a flock. |
| Deletions.UserDeletionLeaves | crates/storage/src/repos.rs:1197-1293 | After every schedule: an admin or stranger is not deleted and nothing changes; anybody else is, and what is left is, table by table, exactly the rows that are not his, not by him, and not about his ducks, all unaltered. |
| Deletions.UserDeletionWaitsIff | crates/storage/src/repos.rs:1197-1293 | In a running system the deletion waits exactly while a mint has uncommitted ducks in one of the user's flocks; otherwise it leaves exactly that. |
| Deletions.FlockDeletionLeaves | crates/storage/src/repos.rs:1141-1195 | After every schedule: deleting a flock leaves exactly the rows that are not the flock, its ducks or about them, all unaltered; an unknown flock changes nothing. |
| Deletions.FlockDeletionWaitsIff | crates/storage/src/repos.rs:1141-1195 | It waits exactly while a mint has uncommitted ducks in the flock. |
| Sequential.ServesAlone | crates/web/src/handlers/duck.rs:68-454 | A request that nothing interrupts, run as arrival and write steps, leaves the database its handler computes and no task. |
| Sequential.MintsAlone | crates/storage/src/repos.rs:188-246 | A mint that nothing interrupts, run step by step from lock to commit, does what the request computes in one go. |
| Sequential.SignInEvent | crates/storage/src/repos.rs:25-56 | In a running system signing in touches only accounts and leaves exactly one of the identity, with what was sent, what was known, and an admin flag that only rises. |
| Prefixes.FlockGoneIff | crates/storage/src/repos.rs:1141-1293 | Over any schedule a flock's row disappears exactly when an event hard-deletes it, alone or with its owner. |
| Prefixes.PrefixBelongsToOneFlock | crates/domain/src/codes.rs:60-61 | Exact condition for the promise that prefixes are never reused: between two moments of any schedule a prefix has passed to another flock exactly when the first flock was hard-deleted in between. |
| Prefixes.PrefixComesBack | crates/storage/src/repos.rs:1141-1195 | In every state: after a hard deletion, a draw of 64 whose first usable prefix is the deleted one, and a mint of as many ducks under the same key, every old code resolves to a newer duck of the other flock. |
| Stories.StickerChangesHands | crates/domain/src/codes.rs:60-61 | A schedule from the empty registry after which the first sticker resolves to another flock's duck. |
| Locks.LockIsLastWritten | crates/storage/src/repos.rs:394-420 | Over any schedule the lock of a surviving duck is what the last lock or unlock written said. |
| Locks.CommentCrossesLockIff | crates/web/src/handlers/duck.rs:281-288 | After any history, an accepted comment written after any further events lands on a locked duck exactly when duck and author still exist and the last lock or unlock written in between was a lock; without a lock in between it never does. |
| Stories.CommentOnLockedDuck | crates/web/src/handlers/duck.rs:281-288 | A schedule from the empty registry that leaves a comment on a locked duck. |
| Stories.StoriesApply | crates/web/src/handlers/flock.rs:79-87 | Some codec prints the codes the worked schedules use, so they are not empty. |
| DuckGuarantees.WrongDuckIsNoOpIff | crates/storage/src/repos.rs:774-795 | The promise that a foreign sighting id is harmless fails for notices: the call is a no-op exactly when the sighting notified nobody. |
| Permissions.WrongPageDropsNotices | crates/web/src/handlers/duck.rs:364-383 | The request itself: a moderator naming another duck's sighting is redirected as on success, the sighting stays, all its notices go, and nothing changed exactly when there were none. |
| Stories.NoticesLostOnOtherPage | crates/web/src/handlers/duck.rs:364-383 | A schedule from the empty registry in which the owner of one duck takes away, through its page, the notice another owner had of a find on his duck. |
| Hiding.FoundIsHiddenIff | crates/web/src/handlers/duck.rs:59-66 | What a scan finds is hidden exactly when it is not sailing or soft-deleted, and not the viewer's. |
| Hiding.HiddenIsNotFound | crates/web/src/handlers/duck.rs:25-454 | Every request of a viewer who is no admin on a hidden duck is answered as if the duck did not exist. |
| Hiding.ServeErase | crates/web/src/handlers/duck.rs:25-454 | One request gives the same response, and the same change to the rest, when the hidden ducks' rows are erased. |
| Hiding.HiddenDucksDoNotShow | crates/web/src/handlers/duck.rs:25-454 | The same for any number of requests, reading and writing, by one viewer who is no admin. |
| Hiding.AdminsSeeHiddenDucks | crates/web/src/handlers/duck.rs:291-317 | For admins it fails: deleting a hidden duck is a redirect, deleting an erased one is not found. |
| Permissions.ActsExactlyWhenAllowed | crates/web/src/handlers/duck.rs:120-408 | A request acts exactly when a member sends it, well formed, about a scanned duck whose row and flock allow it; an allowed but malformed one is a bad request; every write concerns that duck, is signed by that member and does what was asked. |
| Permissions.DefinitionReadsBack | crates/web/src/handlers/duck.rs:120-160 | A well-formed definition reads back as exactly what the form said, trimmed, staged or sailing as asked, touching no other duck. |
| Permissions.FindReadsBack | crates/web/src/handlers/duck.rs:186-273 | A well-formed find reads back as exactly what the form said, under a fresh identity, beside all earlier finds. |
| Answers.NoDuckAnswer | crates/web/src/handlers/duck.rs:25-57 | Who is not signed in is sent to sign in by every request that needs it; a code that is nobody's is not found; nothing changes. |
| Answers.PageAnswer | crates/web/src/handlers/duck.rs:68-112 | A duck on show is shown to everybody with its stored details, all its finds and comments and nobody else's, their authors' names, and how the viewer stands to it; the owner of an unsailed one gets the form or the staged page; all others, and all for a deleted duck, find nothing. |
| Answers.OriginateAnswer | crates/web/src/handlers/duck.rs:120-160 | Exact answer and tables for a definition: not found for others, sent back when already defined, refused without photo or with a blank or long text, else stored. |
| Answers.SailAnswer | crates/web/src/handlers/duck.rs:164-175 | The owner's order moves a staged duck and no other. |
| Answers.LogAnswer | crates/web/src/handlers/duck.rs:186-273 | A find is stored exactly when the duck is on show, the vessel known, a given time at most 60 days ago and 18 hours ahead, the note short enough, and the coordinates both on the globe or absent; otherwise it is refused and nothing changes. |
| Answers.CommentAnswer | crates/web/src/handlers/duck.rs:275-289 | A comment is stored, trimmed and under a fresh identity, exactly when the duck is on show and unlocked and 1 to 2000 characters are left; otherwise nothing changes. |
| Answers.DeleteAnswer | crates/web/src/handlers/duck.rs:291-304 | Owner and admins mark the duck deleted, an earlier mark stays; for anybody else it is not found; nothing else changes. |
| Answers.RestoreAnswer | crates/web/src/handlers/duck.rs:306-317 | Owner and admins take the mark off; for anybody else it is not found; nothing else changes. |
| Answers.DeletedUntilRestored | crates/web/src/handlers/duck.rs:291-317 | After a deletion nobody, the owner included, sees the page; restoring gives the old tables back exactly when the duck was not deleted before. |
| Answers.LockAnswer | crates/web/src/handlers/duck.rs:319-345 | Owner and admins set or clear the lock of an undeleted duck; nothing else changes. |
| Answers.RemoveCommentAnswer | crates/web/src/handlers/duck.rs:347-361 | Owner and admins of a duck on show remove a comment of that duck and no other. |
| Answers.RemoveSightingAnswer | crates/web/src/handlers/duck.rs:363-383 | Owner and admins of a duck on show remove a sighting of that duck and no other, and all notices of the sighting named. |
| Answers.FollowAnswer | crates/web/src/handlers/duck.rs:390-398 | A member follows a duck on show; nothing else changes. |
| Answers.UnfollowAnswer | crates/web/src/handlers/duck.rs:400-408 | A member stops following a duck on show; nothing else changes. |
| Answers.LabelAnswer | crates/web/src/handlers/duck.rs:410-423 | The label is given for a duck on show, and to the owner of an undeleted one. |
| Answers.OriginPhotoAnswer | crates/web/src/handlers/duck.rs:425-437 | The stored photo of the definition, under the same rule once there is one. |
| Answers.SightingPhotoAnswer | crates/web/src/handlers/duck.rs:439-454 | The stored photo of a find, through its own duck's page only and while that duck is on show. |
| Permissions.RestoreUndoesDelete | crates/storage/src/repos.rs:370-392 | Restoring after a soft deletion gives the old database back exactly when the duck was not deleted before. |
| Permissions.SignInKeepsOneAccount | crates/storage/src/repos.rs:25-56 | Signing in leaves one account per (issuer, subject), never clears the admin flag, never erases a known name or address, and changes nobody else. |
| FrontPage.EligibleIff | crates/storage/src/repos.rs:464-616 | The summary joins select exactly the undeleted ducks ever sighted, all of them sailing. |
| FrontPage.ListsIgnoreHiddenDucks | crates/storage/src/repos.rs:464-616 | Each ranked or missing list has the same possible answers when hidden ducks are erased, although the query never tests sailing. |
| FrontPage.FindsIgnoreHiddenDucks | crates/storage/src/repos.rs:742-772 | The latest finds, newest first and cut at the limit, have the same possible answers when hidden ducks are erased. |
| FrontPage.ListsAreComplete | crates/storage/src/repos.rs:464-616 | Listed ducks are sailing, undeleted and under their own code and name; an uncut list holds every sighted undeleted duck. |
| FrontPage.ListsAreRanked | crates/storage/src/repos.rs:464-616 | Down each list the ranked number never grows, ties going to the later find; adrift and missing lists start with the longest unseen, and a missing duck was last seen before the cutoff. |
| FrontPage.CutOffIsLower | crates/storage/src/repos.rs:464-616 | A duck the limit cuts off stands above no listed one. |
| FrontPage.FindRaises | crates/storage/src/repos.rs:464-616 | One more find raises the duck's count by one, its vessels by one exactly when the vessel is new to it, and its last sighting to the later time; no other duck's summary moves. |
| OidcFlow.OidcFlowRepo.Put | crates/storage/src/repos.rs:1022-1041 | A parked flow is given to every timely question for its token; it is refused exactly when a flow under its token outlives the sweep; no other question asked from the sweep on is answered differently. |
| OidcFlow.OidcFlowRepo.Retrieve | crates/storage/src/repos.rs:1043-1063 | A flow given is its token's own and is never given again at any time; other questions are answered as before; a refusal changes nothing. |
| OidcFlow.SweepingIsInvisible | crates/storage/src/repos.rs:1022-1063 | With a clock that never goes back and fresh tokens the sweeping store answers as one never swept. |
| OidcFlow.FlowsAreGivenOnce | crates/storage/src/repos.rs:1043-1063 | A flow is given only to its token, unchanged and in time, and no token is answered twice, whatever the clock does. |
| OidcFlow.TakeGivesIff | crates/storage/src/repos.rs:1022-1063 | A take gives a flow exactly when it was parked within the window and not given before. |
| OidcFlow.SweepShowsIff | crates/storage/src/repos.rs:1022-1063 | With fresh tokens the sweep can be observed exactly when a waiting flow is swept at one clock reading and asked for later at a reading within its window. |
| OidcFlow.ClockMustNotGoBack | crates/storage/src/repos.rs:1022-1063 | A sequence with a clock going back on which the two stores answer differently. |
| Registry.Repositories.UpsertUser | crates/storage/src/repos.rs:25-56 | Signing in returns the one account of the identity, keeping its flag and known fields and everybody else's account, keeps the invariant, and changes nothing when repeated. |
| Registry.Repositories.CreateFlock | crates/storage/src/repos.rs:77-120 | The draw loop equals its specification: result and tables. |
| Registry.Repositories.AllocateEntries | crates/storage/src/repos.rs:209-217 | The allocation loop returns the first acceptable numbers, or none exactly when too few are left. |
| Registry.Repositories.MintBatch | crates/storage/src/repos.rs:188-246 | The mint transaction: its result and tables are the specified ones; on success the new rows stand under consecutive identities with code, flock, number and every other column unset, all older rows as before; a failure changes nothing. |
| Registry.Repositories.Mint | crates/web/src/handlers/flock.rs:45-94 | The mint request: its result and tables are the specified ones; on sound tables as many allocated, unmarked ducks as asked for and no other change; a failure changes nothing. |
| Registry.Repositories.Stage | crates/storage/src/repos.rs:294-329 | Takes effect exactly on a duck that reads as allocated, which then reads as staged with these details; no other row moves, the invariant is kept, and any later call is a no-op. |
| Registry.Repositories.SetSail | crates/storage/src/repos.rs:331-353 | Takes effect exactly on a duck that reads as staged, which then reads as sailing with the same details; no other row moves, and any later call is a no-op. |
| Registry.Repositories.SetDeleted | crates/storage/src/repos.rs:370-392 | The duck reads as before but for its deletion mark, present exactly when asked for and keeping its first time; no other row moves, and repeating is a no-op. |
| Registry.Repositories.SetCommentsLocked | crates/storage/src/repos.rs:394-420 | The same for the comment lock. |
| Registry.Repositories.Log | crates/storage/src/repos.rs:633-680 | Succeeds exactly when duck, vessel and user exist; one new sighting, one new unread notice per other follower and none else, older notices kept; on a sailing duck the invariant is kept. |
| Registry.Repositories.DeleteSighting | crates/storage/src/repos.rs:774-795 | Takes the sighting off its own duck only and all its notices and no other, loses from the tables exactly the photo key returned, keeps the invariant, and changes nothing when repeated. |
| Registry.Repositories.AddComment | crates/storage/src/repos.rs:830-845 | Succeeds exactly when duck and author exist; the comment has a fresh identity, no other comment moves, and deleting that identity undoes it. |
| Registry.Repositories.DeleteComment | crates/storage/src/repos.rs:872-881 | A comment of that duck removed. |
| Registry.Repositories.Follow | crates/storage/src/repos.rs:887-896 | Afterwards the user is told of every find by somebody else; no other follow moves, following twice is following once, and unfollowing undoes a new follow. |
| Registry.Repositories.Unfollow | crates/storage/src/repos.rs:898-907 | Afterwards the user is told of no find by somebody else; no other follow moves, the invariant is kept, and repeating is a no-op. |
| Registry.Repositories.MarkAllRead | crates/storage/src/repos.rs:997-1005 | The reader has nothing unread, everybody else as much as before, earlier reading times are kept, and repeating is a no-op. |
| Registry.Repositories.Delete | crates/storage/src/repos.rs:1159-1192 | One DELETE statement, undone when it leaves a dangling reference. |
| Registry.Repositories.DeleteUser | crates/storage/src/repos.rs:1201-1293 | The twelve statements with their rollbacks; on sound tables an admin or stranger changes nothing, anybody else loses exactly his rows and the photo keys returned. |
| Registry.Repositories.DeleteFlock | crates/storage/src/repos.rs:1144-1195 | The six statements with their rollback; on sound tables exactly the flock's rows and the photo keys returned are gone. |
| Registry.Repositories.Handle | crates/web/src/handlers/duck.rs:68-454 | A whole duck-page request gives the response and leaves the tables that the handler's decision and writes compute, one write at a time, a failed one ending it with a server error. |

## Left out

- The inside of AES and FF1: the round function is an arbitrary function of tweak, round and half, so nothing is
  said about secrecy or about agreement with published vectors.
- The widths of machine integers beyond the 32-bit payload bound: a key generation above 32767 stops flock
  creation in `crates/storage/src/repos.rs:109`, and flock identities above 31 bits stop the mint lock; neither
  panic is modelled.
- Configuration changes while the system runs: one codec with fixed keys serves a whole schedule.
- Caps on flocks, batch sizes and unoriginated ducks: they are checked before and apart from the writes they
  guard, and hold of no reachable state.
- Handlers.Decide: takes all reads of one request from one instant, where the source issues separate SELECTs for
  flock, duck, history, comments and counts, so a page mixing two moments is not modelled.
- HTTP, sessions, form decoding, page rendering, QR and image processing: a request carries what the form
  decoder and the photo pipeline delivered, a response what the page is given.
- The photo store: objects left behind by a lost staging race, a refused find or a failed clean-up are not
  modelled, nor is a photo key committed between the reads and the deletes of a hard deletion.
- Hard deletions, and every repository call except a mint, are single atomic steps; a deletion that meets a
  flock with uncommitted ducks waits, which is a step that changes nothing.
- Identities of minted ducks are drawn when the mint commits instead of when it inserts, and identities used up
  by failed inserts are not counted.
- The rows of one notification insert are numbered in ascending order of user; the source fixes no order.
- Creation times, the order of a page's history and comments, and vessel and cruise-line names and operators.
- Coordinates are reals instead of double-precision floats.
- The account pages, the admin overview, the flock dashboard and the feed page, which read without writing; they
  do not hide soft-deleted ducks from people who follow or found them.
- The IMO number check, configuration parsing, OIDC and Apple token exchange, and rate limits.
- The one-time migration that let earlier originated ducks sail; a schedule starts from an empty registry.
