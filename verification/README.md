# Verification of the leaderboard server and its stateful cores

This project models the stateful parts of the server and its release tooling in
Dafny and proves what they are relied on for. `dafny verify dfyconfig.toml` checks
everything.

**The Redis leaderboard** (`Bytes`, `Decimal`, `Encode`, `Board`, `Window`, `Scripts`,
`Publish`, `Publication`, `Loss`, `Publisher`, `Convergence`, `Reads`, `Reader`,
`Answer`, `PresentableRuns`, `Race`). A window is a record of generations, a live
pointer, a dirty flag and hot snapshots. Each Lua script is one atomic step on it, and
each publisher is a program counter with locals whose Redis calls interleave freely
with updates, promotions and other publishers. The same scripts are written out as
methods over the stored byte texts (`Scripts.WindowStore`, `Publisher`, `Answer`) and
proved to make exactly those steps, so that what is proved of runs is proved of the
stored keys: ranks, convergence, monotone publication, exactly when publication loses
no update, hot reads that agree with live reads.

**The migration runner** (`Splitter`, `SqlQuotes`, `Migrate`, `MigrateExact`,
`Runner`, `DdlCheck`, `AlterRuns`). The statement lexer is a loop proved against a
mode-based lexer with a round trip, and compared with SQL's own reading of literals.
The runner is a step machine over durable rows that may crash between any two steps,
with a server that may refuse statements, and a class whose methods are its
statements. The check whether an ALTER is already applied is modelled on the columns,
indexes and constraints of a table.

**Team metrics** (`Rolling`, `Projection`, `Attribution`, `JoinCut`, `TeamDays`,
`TeamTotals`, `TeamReport`). Three overlapping sources are projected into day rows,
replaced in a table with soft deletion, and clipped to rolling hours.

**Smaller cores**: the release ledger and its files (`Version`, `Ledger`,
`LedgerSafety`, `LedgerOutcome`, `Registry`), the thumbnail cache (`AvatarCache`), the
rate limiter (`RateLimit`), the price estimator (`Pricing`, `PriceLaws`, `TierOrder`)
and the usage identities (`UsageIdentity`).

## Where the code does less than it seems to

Each of these is proved, with the condition under which the code does meet the
property.

- `captureHot` resolves two generations before its script runs. A promotion in
  between labels the older generation's rows with the newer generation and the older
  one's revision. The capture is right exactly when both generations are still
  current (`Race.CaptureTrueExactly`); the results about steady runs assume that of
  every capture. With equal revisions the wrong rows are served under the live label
  until the live revision moves on and another publish succeeds
  (`Race.PromotionRaceMislabels`). With a higher old revision an update is lost: a
  level run can lose one exactly when a capture script runs above the live revision
  (`Loss.LossExactly`, with `Race.LosingRun` as a concrete run). When it is one ahead,
  the next live change does not repair that: it only makes the labels meet
  (`Loss.NextChangeMeetsLabel`), and a publisher then finds nothing to do
  (`Loss.PassSkips`).
- A migration that ran a statement but crashed before recording it runs it again.
  Recorded progress is right on every run exactly when each statement is repeatable
  where it runs (`MigrateExact.ProgressExactly`), and no rerun is ever refused exactly
  when each is also accepted again (`MigrateExact.NeverStuckExactly`).
- The applied-check takes an ALTER that only swaps checks, or indexes of unchanged
  uniqueness, under their names for already applied, so it is never run
  (`DdlCheck.ReportedBeforeExactly`, `DdlCheck.SwapIsSkipped`); and it never reports
  one that it looks at no clause of, or that replaces a column or foreign key under
  its name (`DdlCheck.ReportedAfterExactly`). Which statements a crash can therefore
  leave stuck is `DdlCheck.ResumesExactly`, over whole runs
  `AlterRuns.AltersSurviveExactly`.
- The statement lexer takes the quote after an escaped backslash for an escaped
  quote, so such a literal swallows the next semicolon. It reads literals as SQL does
  exactly when no literal's own quote stands behind an even, non-empty run of
  backslashes (`SqlQuotes.SameModesExactly`); the statements are then SQL's
  (`SqlQuotes.SameStatements`).
- Member times are parsed with a sign allowed, so some texts decode that no encoder
  writes (`Encode.SignedTimeExample`): exactly those whose time does not start with a
  digit (`Encode.MemberTextRoundTrip`). Payload numbers are parsed with leading zeros
  allowed, with the exact condition in `Encode.PayloadTextRoundTrip`.
- The page bounds wrap around when offset and limit together exceed int64
  (`Reader.PageIsRequested`). The only caller bounds the limit by 100 and the offset by
  the public part (`server/internal/store/mysql/leaderboard.go:120-122` and `156-161`),
  so its pages are exact (`Reader.StorePageIsRequested`).
- Row keys trim their components, so identities that differ in surrounding white
  space replace each other (`TeamDays.PaddedIdsCollide`). What a refresh stores and
  what it so loses together are what the sources hold (`TeamTotals.RefreshStores`);
  nothing is lost exactly when no two rows share a date and trimmed key
  (`TeamTotals.NothingLostExactly`).
- The rate limiter never evicts an empty key that is strictly the oldest and visited
  last, so its table can outgrow every bound; and a bound below one is exceeded by the
  first call (`RateLimit.NothingEvicted`, `RateLimit.BoundNeedsBoth`).
- A tier that leaves a rate out inherits it from whichever tiers were listed before
  it. `TierOrder.OrderFreeExactly` says exactly when the order makes no difference to
  a rate. An exclusive context size above 2^64 wraps (`Pricing.ExclusiveContext`).
- Usage identities rely on components shorter than 2^32 bytes (`UsageIdentity`).
- The legacy eligibility test of the projection is redundant: it never refuses a
  date that reaches it (`JoinCut.LaterDaysAreEligible`).

## Model

| member | source | states |
|---|---|---|
| Decimal.RevCmpIsNumeric | server/internal/ranking/scripts.go:6-19 | rev_cmp on decimal texts of any length, leading zeros included, has the sign of the numeric difference |
| Encode.EncodeTokenBytes | server/internal/ranking/encode.go:37-62 | the buffer loop computes the complemented digits, and fails exactly below 0 and above 30 digits |
| Encode.DecodeTokenBytes | server/internal/ranking/encode.go:68-85 | the decoding loop computes the decoded token, and refuses every other width and any non-digit |
| Encode.TokenRoundTrip | server/internal/ranking/encode.go:37-85 | encoding succeeds exactly on 0 to 10^30 - 1, and decoding what it writes gives the number back |
| Encode.TokenTextRoundTrip | server/internal/ranking/encode.go:68-85 | every text the decoder accepts is the encoding of what it decodes to |
| Encode.MemberRoundTrip | server/internal/ranking/encode.go:113-145 | decoding an encoded member gives back tokens, user and the instant cut to the millisecond |
| Encode.EncodesExactly | server/internal/ranking/encode.go:113-126 | a member is encoded exactly for a non-empty user id without separators and an instant from the epoch on of at most sixteen digits of milliseconds |
| Encode.MemberTextRoundTrip | server/internal/ranking/encode.go:102-167 | a decodable member text is what the encoder writes exactly when its time key starts with a digit (ParseInt also takes a sign) |
| Encode.SignedTimeDecodes | server/internal/ranking/encode.go:102-145 | for every score, user and fifteen time digits, the member text with a plus sign before the digits decodes like the encoder's text and is not the encoder's text |
| Encode.SignedTimeExample | server/internal/ranking/encode.go:102-145 | thirty nines, a plus sign with fifteen zeros and user a decode to no tokens at the epoch, a text no encoder writes |
| Encode.MemberOrder | server/internal/ranking/encode.go:113-126 | byte order of members is tokens descending, then registration ascending, then user id ascending |
| Encode.MemberUser | server/internal/ranking/scripts.go:45-56 | the separator scan returns the text after the last separator, or the whole text |
| Encode.LuaUserAgrees | server/internal/ranking/encode.go:147-167 | the scripts' last-separator user is the user splitMember returns, wherever splitMember accepts |
| Encode.PayloadRoundTrip | server/internal/ranking/encode.go:181-208 | parsing an encoded payload gives back its revision, tokens and member |
| Encode.PayloadTextRoundTrip | server/internal/ranking/encode.go:181-208 | the converse: an accepted payload is the encoding of what it parses to if and only if neither number has a needless leading zero |
| Encode.PaddedPayload | server/internal/ranking/encode.go:181-208 | the payload 07, 0, a is accepted and encoded again as another text |
| Encode.LuaPayloadOfEncoded | server/internal/ranking/scripts.go:33-43 | the scripts' parser reads the three encoded fields off an encoded payload |
| Encode.LuaPayloadAgrees | server/internal/ranking/scripts.go:33-43 | wherever Go accepts a payload the scripts' raw fields denote the values Go returns |
| Encode.VersionRoundTrip | server/internal/ranking/scripts.go:21-31 | the version text of a revision, with or without the tombstone mark, parses back to it |
| Board.MemberOrderIsAhead | server/internal/ranking/encode.go:113-126 | byte order of two stored members is the Ahead order of their users in score terms |
| Board.RankIsRedisRank | server/internal/ranking/scripts.go:260-277 | ZRANK plus one of a user's member is one plus the number of live users with more tokens, or equal tokens and earlier registration in milliseconds, or both equal and a smaller id |
| Board.StandingRank | server/internal/ranking/scripts.go:160-180 | the i-th member in range order belongs to a live user whose rank is i + 1 |
| Board.StandingAtRank | server/internal/ranking/scripts.go:160-180 | every live user stands in range order exactly at its rank |
| Board.OneMemberPerUser | server/internal/ranking/scripts.go:101-113 | the sorted set holds exactly one member for each live user, so ZCARD is the participant count |
| Window.ScriptPageExact | server/internal/ranking/scripts.go:222-231 | the script serves the requested slice cut at the cap, except exactly when start is at most 0 and stop negative on a non-empty board, where it serves rows nobody asked for |
| Window.ApplyMerges | server/internal/ranking/scripts.go:71-125 | apply merges the update by "higher revision wins, removal wins a tie" and counts it exactly when the board changed |
| Window.ApplyAdvances | server/internal/ranking/scripts.go:71-125 | apply keeps the window consistent, touches no generation below the current one, and marks every live change dirty |
| Window.ApplyReplies | server/internal/ranking/scripts.go:71-125 | the reply is skipped, applied, stale or duplicate, each exactly when its condition on generation, revision and removal holds, and carries the stored or new revision |
| Window.PromoteAdvances | server/internal/ranking/scripts.go:131-150 | promotion succeeds only strictly upwards, records the old generation as previous, sets the flag and changes no board |
| Window.PromotesExactly | server/internal/ranking/scripts.go:131-150 | a promotion succeeds exactly for a generation with a live user above the current one; the three refusals have their exact conditions |
| Window.PublicServes | server/internal/ranking/scripts.go:280-328 | a read without a viewer shows the snapshot it names, or the current one when it names none: id, label, count and requested slice of its rows; it misses exactly without a generation or such a snapshot |
| Window.ViewerServes | server/internal/ranking/scripts.go:280-328 | a read with a viewer answers under the same id, from that snapshot exactly when it carries the live label and else from the live board, with the viewer's live rank and tokens |
| Publish.ExecKeepsInv | server/internal/ranking/index.go:149-331 | every update, promotion, publisher start and single Redis call of any publisher keeps the invariant of store and publishers |
| Publish.RunAdvances | server/internal/ranking/scripts.go:71-151 | along any run the generation never falls, superseded generations are frozen, and an unchanged revision means an unchanged board |
| Publication.ScriptPublishes | server/internal/ranking/scripts.go:187-214 | the publish script replaces the current snapshot only by one whose generation, revision and fence are not older |
| Publication.PublicationMonotone | server/internal/ranking/index.go:232-290 | over racing publishers the published generation, the revision within it and the fence never decrease between any two moments of a run |
| Publication.CurrentNeverExpires | server/internal/ranking/index.go:285-288 | a snapshot scheduled for expiry is not the current one then and never becomes current later |
| Publication.NoLostPublication | server/internal/ranking/index.go:292-331 | in every state of every level run (no capture script runs above the live revision), if the hot label differs from the live one, the dirty flag is set or a publisher that took it still owes a publication |
| Publication.QuietMeansPublished | server/internal/ranking/index.go:292-331 | in a level run, with no publisher under way and the flag clear, the current snapshot carries exactly the live generation and revision |
| Publication.SteadyIsLevel | server/internal/ranking/index.go:149-170 | a run whose captures all find their resolved generation still current is level |
| Loss.LossExactly | server/internal/ranking/index.go:149-331 | a level run can go on to lose an update after a capture, all later captures being level, if and only if that capture script runs above the live revision |
| Loss.AboveLoses | server/internal/ranking/index.go:149-331 | the losing continuation: the other publishers settle, this one publishes last, the hot revision is above the live one, the flag is clear and nobody owes anything |
| Loss.NextChangeMeetsLabel | server/internal/ranking/index.go:249-266 | when the hot revision is one ahead, the next live change leaves the same snapshot current and makes it count as up to date |
| Loss.PassSkips | server/internal/ranking/index.go:249-266 | a publisher that finds its captured label already published stops after the three reading calls and changes nothing |
| Loss.RunFenced | server/internal/ranking/index.go:268-290 | on every run no stored or waiting fence is above the fence counter |
| Convergence.BoardIsWinner | server/internal/ranking/scripts.go:71-125 | the board of a not yet superseded generation holds for each user the update no other sent update beats |
| Convergence.BoardIsLatest | server/internal/ranking/scripts.go:71-125 | a user has an entry exactly when an update was sent, of the highest revision sent, and a removal exactly when a removal of that revision was sent |
| Convergence.WinnerUnique | server/internal/ranking/scripts.go:81-99 | that winner is unique when equal user and revision imply equal payload |
| Convergence.RunsConverge | server/internal/ranking/scripts.go:71-125 | two runs that send one set of updates, in any order and with any duplication, end in one board, member set and version table |
| Convergence.RevisionCountsChanges | server/internal/ranking/scripts.go:115-125 | the revision of a generation grows by one exactly on steps that change its board and on nothing else |
| Reads.PreviousRanksFixed | server/internal/ranking/scripts.go:145-151 | previous ranks do not change while a generation stays current |
| Reads.PromotionRaises | server/internal/ranking/scripts.go:131-150 | across a promotion the current generation strictly rises and the previous one stays below it |
| Reads.SnapshotsWereLive | server/internal/ranking/index.go:149-219 | in a steady run every stored snapshot equals the live board of one earlier moment, with that moment's label, count and previous ranks |
| Reads.LabelDetermines | server/internal/ranking/scripts.go:300-304 | a capture of an earlier moment that carries the live label is the live capture |
| Reads.ViewerReadsLive | server/internal/ranking/scripts.go:290-328 | in a steady run a read with a viewer, hot or live, answers what a live read of the same moment answers in page, count, label and own fields |
| Reads.PublicReadWasLive | server/internal/ranking/scripts.go:315-328 | in a steady run a read without a viewer that is not a miss serves the requested slice of the board of one earlier moment under that moment's label |
| Reader.NeverWholeBoard | server/internal/ranking/reader.go:43-53 | the bounds Read sends never are the empty request that would return a whole board |
| Reader.PageIsRequested | server/internal/ranking/reader.go:43-53 | the page is the requested slice if and only if offset + limit - 1 does not overflow int64 inside the public part of the board |
| Reader.StorePageIsRequested | server/internal/store/mysql/leaderboard.go:120-161 | the bounds the leaderboard store passes on, a limit of at most 100 and an offset inside the public part, are always served exactly |
| Reader.PublicReadServes | server/internal/ranking/reader.go:36-89 | a public read answers from the snapshot it names or else the current one: id, label, count, and its rows from the offset on, at most the limit and within the first thousand, numbered from the offset |
| Reader.ViewerReadServes | server/internal/ranking/reader.go:36-89 | a viewer's read answers under that id, with those rows exactly when that snapshot carries the live label and else with the live board's |
| Reader.ViewerPage | server/internal/ranking/reader.go:36-89 | in a steady run every entry of a viewer's page has its true rank, tokens and previous rank in the live board, the own fields describe that board, and a viewer ranked inside the page stands at exactly that row |
| Reader.PublicPage | server/internal/ranking/reader.go:36-89 | in a steady run every entry of a public page is true of the board of one moment of the run |
| Race.CaptureTrueExactly | server/internal/ranking/index.go:149-170 | the capture script answers with the live board for all contents if and only if the generation and previous generation its caller resolved are still the current ones |
| Race.PromotionRaceMislabels | server/internal/ranking/index.go:149-190 | a promotion between resolving and capturing publishes the older generation's row under the newer label, and hot reads with and without a viewer then serve it |
| Race.RaceIsPossible | server/internal/ranking/index.go:149-190 | such runs exist |
| Race.LosingRun | server/internal/ranking/index.go:149-331 | a run with the older generation at revision 2 and the newer at 1 that ends with the hot label above the live one, the flag clear and nobody owing a publication |
| Scripts.RefusalIs | server/internal/ranking/scripts.go:81-99 | the version check on stored texts refuses exactly when the model does, with the same reply |
| Scripts.StoredUpdated | server/internal/ranking/scripts.go:101-116 | the writes of one update lead from the stored keys of a board to those of the merged board |
| Scripts.WriteUser | server/internal/ranking/scripts.go:101-116 | ZREM, HDEL or ZADD, HSET and HINCRBY leave the keys of exactly the merged board |
| Scripts.WindowStore.ApplyScript | server/internal/ranking/scripts.go:59-126 | the apply script on stored texts makes the apply step and returns its reply |
| Scripts.WindowStore.Apply | server/internal/ranking/index.go:59-97 | Apply refuses bad input before the script and otherwise makes the step of the update its arguments denote |
| Scripts.WindowStore.PromoteScript | server/internal/ranking/scripts.go:128-151 | the promote script makes the promote step and returns its status |
| Scripts.ScriptRows | server/internal/ranking/scripts.go:163-180 | the row loop builds, for any run of members, the texts of the model's rows |
| Scripts.WindowStore.TopRows | server/internal/ranking/scripts.go:160-180 | the first HotSize rows with ranks from the previous keys |
| Scripts.WindowStore.CaptureScript | server/internal/ranking/scripts.go:153-182 | the capture script returns the texts of the capture step, with the label re-read from the current pointer |
| Scripts.WindowStore.WriteSnapshot | server/internal/ranking/index.go:192-219 | the snapshot transaction stores exactly the capture under its id and fence |
| Scripts.PublishVerdictIs | server/internal/ranking/scripts.go:187-211 | the checks on stored texts, taken as numbers of any size, give the status the model gives on numbers |
| Scripts.WindowStore.PublishScript | server/internal/ranking/scripts.go:184-215 | the publish script makes the publish step and returns its status |
| Scripts.WindowStore.OwnTexts | server/internal/ranking/scripts.go:260-277 | own_fields returns the viewer's true rank and tokens, or nothing |
| Scripts.WindowStore.RangeRows | server/internal/ranking/scripts.go:304-311 | the rows of a range of live members are that range of the board's rows |
| Scripts.WindowStore.LivePage | server/internal/ranking/scripts.go:304-312 | the live page is the bounded page of the board's rows |
| Scripts.WindowStore.HotPage | server/internal/ranking/scripts.go:318-328 | the hot page is the bounded page of the snapshot's rows |
| Scripts.WindowStore.ReadScript | server/internal/ranking/scripts.go:217-329 | the read script returns the text of the read step in every branch; PublicServes and ViewerServes say what that step serves |
| Scripts.WindowStore.NextFence | server/internal/ranking/index.go:271-274 | INCR hands out the next fence and changes nothing else |
| Scripts.WindowStore.Expire | server/internal/ranking/index.go:285-288 | only the given snapshot is marked for expiry |
| Scripts.WindowStore.SetDirty | server/internal/ranking/index.go:318-324 | only the flag changes |
| Publisher.CallsAreSteps | server/internal/ranking/index.go:232-331 | a publisher's uninterrupted calls are a stretch of a run, so what is proved of runs holds of them |
| Publisher.CaptureHot | server/internal/ranking/index.go:149-190 | run alone the capture is the live board under its label, and its reads are the publisher's ReadGen, ReadPrev and RunCapture calls |
| Publisher.AlreadyPublished | server/internal/ranking/index.go:249-266 | the label check is the GetHot, CheckRev and CheckGen calls and it stops exactly when the current snapshot carries the captured generation and revision |
| Publisher.Stage | server/internal/ranking/index.go:267-277 | fence and snapshot transaction are the TakeFence and WriteSnapshot calls |
| Publisher.ExpireOld | server/internal/ranking/index.go:285-288 | the two expiries are the ExpireRows and ExpireMeta calls |
| Publisher.PublishNew | server/internal/ranking/index.go:267-289 | a new snapshot is staged, published and its predecessor expired by exactly these calls |
| Publisher.PublishHot | server/internal/ranking/index.go:232-290 | run alone PublishHot is a whole pass of the publisher state machine and leaves the stated window; it fails exactly when a newer label or a higher fence is current; it returns the current id, the fresh one when it published, and nothing when it failed or there is no generation |
| Publisher.PublishDirtyWindow | server/internal/ranking/index.go:297-329 | one window's pass ends in Done and leaves exactly the window passed over, and fails exactly when the window was dirty and its publish is rejected |
| Publisher.PublishDirtyWindows | server/internal/ranking/index.go:292-331 | every window gets its own complete pass, no other window's keys are touched, and the pass fails exactly when some window's did |
| Publisher.PassPublishes | server/internal/ranking/index.go:292-331 | a pass over a dirty window, or one without a snapshot, makes the current snapshot carry the live label, a new one being the live board itself with the old one due to expire; when rejected it leaves the old one current and the flag set |
| Publisher.LevelNeverRejects | server/internal/ranking/index.go:268-331 | in a level run no uninterrupted publication of the live label is ever rejected |
| Answer.ParseHotRowOf | server/internal/ranking/reader.go:91-110 | parsing the text of a row gives back its user, tokens and previous rank |
| Answer.PagePresentable | server/internal/ranking/reader.go:57-87 | in a consistent window whose counts fit Go's int and whose snapshots hold rows of valid users, every served row parses and every count and own rank is a Go int |
| PresentableRuns.StoredFits | server/internal/ranking/index.go:149-219 | in every run whose boards hold at most 2^63 - 1 users, every snapshot ever stored and every capture held has counts and previous ranks within Go's int and rows of valid users only |
| PresentableRuns.RunPresentable | server/internal/ranking/reader.go:36-89 | the window of every such run is one for which PagePresentable and Answer.Read hold |
| PresentableRuns.RunPagesParse | server/internal/ranking/reader.go:79-110 | on every such run each row of each served page parses back to its user, tokens and previous rank |
| Answer.Entries | server/internal/ranking/reader.go:79-87 | the append loop numbers the parsed rows upward from its start rank |
| Answer.Read | server/internal/ranking/reader.go:36-89 | Read on stored keys that RunPresentable covers returns exactly the model's answer, which PublicReadServes and ViewerReadServes fix |
| Splitter.SplitStatements | server/internal/migrate/runner.go:748-871 | the flag loop returns the statements of the mode-based lexer |
| Splitter.SplitRoundTrip | server/internal/migrate/runner.go:748-871 | splitting well-formed statements ended by semicolons and preceded by any white space gives back exactly those that are not skipped |
| Splitter.BlockCommentInvisible | server/internal/migrate/runner.go:748-871 | at top level a block comment, whatever it contains, adds nothing and scanning goes on behind it |
| Splitter.LineCommentInvisible | server/internal/migrate/runner.go:748-871 | at top level a line comment, whatever it contains, adds only its line break |
| Splitter.LiteralIsText | server/internal/migrate/runner.go:801-833 | at top level a literal in any of the three quotes is kept whole, semicolons and comment marks included, up to its first quote that no backslash shields |
| Splitter.SemicolonCuts | server/internal/migrate/runner.go:835-852 | a semicolon at top level ends the statement |
| Splitter.DashesAreText | server/internal/migrate/runner.go:792-798 | two dashes before anything but a blank are text |
| Splitter.TrimExactly | server/internal/migrate/runner.go:836 | trimming takes off exactly the white space around a text |
| Splitter.SkippedExactly | server/internal/migrate/runner.go:838-849 | a statement is dropped exactly when it begins, in any case, with one of the six texts |
| Splitter.OpenQuoteSwallows | server/internal/migrate/runner.go:748-871 | as long as every quote ahead follows a backslash the rest stays one statement |
| Splitter.DoubledBackslashSwallows | server/internal/migrate/runner.go:748-871 | on the six-character text of one literal that ends in an escaped backslash, the next semicolon does not split (an instance of SqlQuotes.SameModesExactly) |
| SqlQuotes.SameModesExactly | server/internal/migrate/runner.go:748-871 | the lexer and one that lets a backslash in a quoted literal consume the next character are in the same mode at every position if and only if no literal's own quote stands behind an even, non-empty run of backslashes |
| SqlQuotes.SameStatements | server/internal/migrate/runner.go:748-871 | a text on which the two agree is split into the statements SQL sees |
| SqlQuotes.RunnerSplits | server/internal/migrate/runner.go:748-871 | the lexer that the comparison is about is the runner's own |
| SqlQuotes.DoubledBackslashMisread | server/internal/migrate/runner.go:748-871 | on that six-character text the runner sees one statement and SQL two |
| Migrate.FaithfulIsRepeatable | server/internal/migrate/runner.go:273-301 | a faithful applied-check and idempotent other statements make every statement repeatable where it runs, and every accepted statement accepted again |
| Migrate.EffectAdvances | server/internal/migrate/runner.go:269-301 | with repeatable statements, running the statement at the cursor reaches the next schema of an uninterrupted run, even when a crash had already let it run |
| Migrate.StepKeeps | server/internal/migrate/runner.go:243-316 | with repeatable statements every durable step, a refused statement included, keeps the invariant |
| Migrate.CrashSafe | server/internal/migrate/runner.go:243-316 | with repeatable statements, after any crashes, refusals and reruns the applied migrations are a prefix, only the next is dirty, its pending mark names its next statement by text, the schema is that of the cursor or one statement ahead, and a run has failed only in the preflight of an unstarted 0002 or at a statement refused at the cursor |
| Migrate.CompleteMeansUninterrupted | server/internal/migrate/runner.go:211-317 | with repeatable statements a run that completes leaves the schema of an uninterrupted run and every row clean, whatever crashed before |
| Migrate.RowsForward | server/internal/migrate/runner.go:319-366 | between any two moments no cursor moves back and an applied row is never written again |
| MigrateExact.Reach | server/internal/migrate/runner.go:243-316 | an uninterrupted run that the server refuses nothing reaches every statement of every migration |
| MigrateExact.CrashRepeats | server/internal/migrate/runner.go:273-301 | a crash between running and recording a statement makes the rerun apply it again, and stop there if it is refused |
| MigrateExact.ProgressExactly | server/internal/migrate/runner.go:243-316 | recorded progress is true of the schema on every run with crashes if and only if every statement is repeatable at its point |
| MigrateExact.NeverStuckExactly | server/internal/migrate/runner.go:243-316 | recorded progress is true and no statement is ever refused on every run with crashes if and only if each statement, applied again right after it ran, is accepted and changes nothing |
| MigrateExact.CompleteMeansAccepted | server/internal/migrate/runner.go:243-316 | with repeatable statements a run that completes, whatever crashed before, was refused nothing an uninterrupted run would meet |
| DdlCheck.DdlAlreadyApplied | server/internal/migrate/runner.go:386-473 | the loops over an ALTER statement report it exactly when some clause is looked at and every one looked at finds what it wants |
| DdlCheck.ExecAt | server/internal/migrate/runner.go:386-473 | after the statement an object is there exactly when it was and was not dropped, or was added, and an added one is as it was added |
| DdlCheck.ReportedAfterExactly | server/internal/migrate/runner.go:386-473 | once it has run a statement is reported if and only if some clause is looked at and no column or foreign key is dropped and added again under its name |
| DdlCheck.ReportedBeforeExactly | server/internal/migrate/runner.go:386-473 | before it has run a statement is reported if and only if some clause is looked at and all that is looked at are checks, or indexes of unchanged uniqueness, swapped under their names |
| DdlCheck.SwapIsSkipped | server/internal/migrate/runner.go:283-301 | a statement reported before it ran is never run, so its new definitions are never installed |
| DdlCheck.ResumesExactly | server/internal/migrate/runner.go:273-301 | after a crash behind a statement the rerun gets past it with nothing changed if and only if it is reported or adds again exactly what it drops; otherwise the server refuses it in every later run |
| DdlCheck.CompoundIsToldApart | server/internal/migrate/runner_test.go:50-74 | dropping a column besides swapping an index is not reported before and is reported after |
| DdlCheck.IndexAloneIsSkipped | server/internal/migrate/runner.go:405-406 | swapping only an index for one of the same name and uniqueness is taken for done and skipped |
| DdlCheck.LoneDropIndexSticks | server/internal/migrate/runner.go:386-473 | a statement that only drops an index is run again after a crash and then refused |
| AlterRuns.AltersSurviveExactly | server/internal/migrate/runner.go:243-316 | a list of ALTER statements the server accepts one after the other survives every crash under the runner's own check if and only if each statement is reported, or reported once it has run, or adds again exactly what it drops |
| Runner.Database.MarkPending | server/internal/migrate/runner.go:319-347 | the conditional update sets the mark exactly where it may, and reports failure exactly otherwise |
| Runner.Database.PersistProgress | server/internal/migrate/runner.go:349-366 | the conditional update moves the cursor and clears the mark exactly where it may |
| Runner.Database.MarkApplied | server/internal/migrate/runner.go:309-314 | only a dirty row whose cursor is at its count is marked applied |
| Runner.Database.RunStatement | server/internal/migrate/runner.go:284-301 | a DDL statement runs only when not reported applied; others always run; a refused one changes nothing and is reported |
| Runner.Database.RunStatements | server/internal/migrate/runner.go:269-308 | with repeatable statements the loop takes the database from any recorded point to the migration's last one exactly when all that is left is accepted, and else stops at a statement refused at the cursor with a resumable state |
| Runner.Database.RunOne | server/internal/migrate/runner.go:243-315 | with repeatable statements one pass skips an applied migration, stops in the preflight exactly for an unstarted 0002 whose baseline fails, and else applies or resumes it exactly when the server accepts what is left |
| Runner.Database.RunMigrations | server/internal/migrate/runner.go:211-317 | with repeatable statements, from any state a crash can leave, a run applies everything exactly when all that is left is accepted and the baseline holds at an unstarted 0002, stops in the preflight exactly when that fails behind accepted statements, stops as refused only at a statement the server refuses at the cursor, and ends in the uninterrupted schema or a resumable state |
| Rolling.ScanBuckets | server/internal/teams/rolling.go:49-65 | the bucket loop selects the window's buckets and sums all parsed and all selected ones |
| Rolling.ClipTeamRowsToRollingHours | server/internal/teams/rolling.go:32-85 | the row loop clips every usage and activity row, and reports partial exactly when some such row fails the completeness test |
| Rolling.SelectedSplits | server/internal/teams/rolling.go:49-65 | sums over two adjoining windows add up to the sum over their union |
| Rolling.ClipConserves | server/internal/teams/rolling.go:32-85 | clipping to [a,b) and [b,c) reports, under every row key, what clipping to [a,c) reports |
| Rolling.WholeDayExact | server/internal/teams/rolling.go:66-83 | when nothing is partial, a window over all buckets gives back the exact day totals under every key |
| Rolling.ClipNested | server/internal/teams/rolling.go:32-85 | clipping a clipped set to an inner window is clipping once to that window |
| Rolling.ClipRowExactly | server/internal/teams/rolling.go:38-82 | a row is kept exactly when it is a usage or activity row with a bucket starting in the window, lower bound included, and then reports the sums of exactly those buckets |
| Rolling.PartialExactly | server/internal/teams/rolling.go:41-72 | the clip is partial exactly when some usage or activity row has totals but no series, or a series with a bad start, incomplete, not fully bucketed or not adding up |
| Projection.SplitDatesFromJoin | server/internal/teammetrics/refresh.go:81-93 | later dates are kept in order and the join day is reported exactly when present |
| Projection.ProjectMetrics | server/internal/teammetrics/refresh.go:189-224 | the row loop builds one row a group, of three summed columns, with its hour series and collects exactly the covered day and agent pairs |
| Projection.ProjectLegacy | server/internal/teammetrics/refresh.go:743-786 | the legacy loop takes exactly the usable rows whose pair is not skipped |
| Projection.ProjectPersonalDays | server/internal/teammetrics/refresh.go:168-393 | the eight queries give the rows of the four kinds, each legacy source behind what already covers a pair |
| Projection.ProjectJoinDayHours | server/internal/teammetrics/refresh.go:395-567 | the join day is built from the hour buckets of all four kinds from the join instant to the end of its day; JoinDayReported says what the rows total |
| Projection.RefreshCurrentTeamDays | server/internal/teammetrics/refresh.go:58-78 | for given dates and join instant, the dates to replace and the rows to put there; JoinDayReported and LaterDayReported say what the rows total |
| Attribution.GroupsTotal | server/internal/teammetrics/refresh.go:174-189 | grouping conserves the total of every day and agent, and of every day and identity |
| Attribution.OneSource | server/internal/teammetrics/refresh.go:205-266 | every row comes from the one source chosen for its day and agent: v2 metrics, else usable legacy model rows, else the legacy daily row |
| Attribution.NoDoubleCounting | server/internal/teammetrics/refresh.go:168-393 | what the rows of a kind report for a day and agent is what exactly that source holds, however the sources overlap |
| JoinCut.NothingBeforeJoining | server/internal/teammetrics/refresh.go:58-101 | removing everything that starts before the join instant from every table leaves the projection unchanged, for rows of every kind |
| JoinCut.LaterDaysAreEligible | server/internal/teammetrics/refresh.go:95-101 | the eligibility test never refuses a date after the join day |
| JoinCut.SeriesAddsUp | server/internal/teammetrics/refresh.go:569-615 | an hour series parses, is empty only for no buckets, and adds up to its buckets |
| JoinCut.GroupExact | server/internal/teammetrics/refresh.go:412-428 | a group holds exactly the buckets of its day and identity |
| JoinCut.CompleteExactly | server/internal/teammetrics/refresh.go:569-655 | a row passes the rolling completeness test if and only if it has hour buckets and they add up to its totals |
| JoinCut.JoinRowsComplete | server/internal/teammetrics/refresh.go:395-507 | every usage and activity row of the join day passes the rolling completeness test |
| TeamDays.TeamStore.ReplaceTeamMemberDays | server/internal/teammetrics/write.go:83-163 | soft delete, then upserts up to the first invalid row, then one revision bump; nothing at all without dates |
| TeamDays.ReplaceUpdatesMap | server/internal/teammetrics/write.go:97-152 | on the given dates the contributor's live rows are exactly the supplied ones, the last winning a shared key; every other date and contributor is unchanged |
| TeamDays.NothingRemoved | server/internal/teammetrics/write.go:97-152 | no row leaves the table and no creation time changes |
| TeamDays.RepeatChangesTimesOnly | server/internal/teammetrics/write.go:97-152 | repeating a replacement changes update times only |
| TeamDays.SuppliedSurvives | server/internal/teammetrics/write.go:106-152 | a supplied row is live afterwards if and only if no later supplied row with its key has another content |
| TeamDays.RefreshStaysInDates | server/internal/teammetrics/refresh.go:58-78 | a refresh supplies rows only for the dates it replaces, none before the join day |
| TeamDays.PaddedIdsCollide | server/internal/teammetrics/rowkey.go:12-21 | any two rows of one date that differ only in a blank after the provider share a row key, and only the later one is live |
| TeamTotals.ReplacedKeyed | server/internal/teammetrics/write.go:97-152 | replacement keeps every row under its own key |
| TeamTotals.StoredPlusLost | server/internal/teammetrics/write.go:97-152 | summed over any scan of the table, the live rows of a contributor on a replaced date and the supplied rows whose key a later row took are together all that was supplied |
| TeamTotals.RefreshStores | server/internal/teammetrics/refresh.go:58-78 | after a refresh, on every day after the join, the live rows of a kind and agent and the rows lost to a shared key together report exactly what the chosen source holds |
| TeamTotals.NothingLostExactly | server/internal/teammetrics/write.go:106-152 | nothing is lost if and only if no two supplied rows share date and trimmed key |
| TeamTotals.DistinctKeysStoreAll | server/internal/teammetrics/refresh.go:58-78 | when no two share one, the table reports exactly what the chosen source holds |
| TeamDays.DifferentRowsSurvive | server/internal/teammetrics/rowkey.go:12-21 | two supplied rows that differ in date, kind, skill or a trimmed component are both live |
| TeamReport.LaterDayReported | server/internal/teammetrics/refresh.go:168-393 | on a requested day after the join the supplied rows of a kind and agent total the day buckets, else the named model days, else the legacy table of the kind |
| TeamReport.JoinDayReported | server/internal/teammetrics/refresh.go:395-567 | when the join day is requested, for every kind and agent the supplied rows total all hour buckets from the join instant to the end of that day |
| TeamReport.RefreshReports | server/internal/teammetrics/refresh.go:58-78 | after a refresh, on every requested day from the join day on, the live rows and the rows lost to a shared key together report that |
| Version.VersionExact | tools/releases/publish_manifest.py:25-31 | a text is accepted with a triple if and only if it is the canonical text of that triple of uint64 numbers |
| LedgerSafety.PublishedIsNewer | tools/releases/release_registry.py:114-124 | a new version that is not refused is strictly newer than every stored one of its platform |
| LedgerSafety.CommitKeeps | tools/releases/release_registry.py:113-147 | the publishing transaction keeps the ledger invariant and inserts exactly when the version is new |
| LedgerSafety.LedgerSafe | tools/releases/release_registry.py:61-148 | over every run with crashes: versions of a platform ascend, each channel is at its newest release, the revision counts the releases, the rendered one never exceeds it, and each file shows whole releases not older than it |
| LedgerSafety.ReleasesImmutable | tools/releases/release_registry.py:122-135 | every later ledger extends every earlier one |
| LedgerSafety.SnapshotIsLatest | tools/releases/release_registry.py:45-58 | the snapshot is the latest release of each platform in platform order |
| LedgerSafety.FamiliesPartition | tools/releases/release_registry.py:66-70 | the two files partition the snapshot in its own order |
| LedgerSafety.RenderedMeansCurrent | tools/releases/release_registry.py:61-74 | whenever the rendered revision has caught up the two files are exactly the current snapshot |
| LedgerSafety.ReconcileRecovers | tools/releases/release_registry.py:99-102 | after any crash one reconcile brings the files up to the ledger without touching a release |
| LedgerSafety.RepublishIsCurrent | tools/releases/release_registry.py:122-131 | publishing again succeeds without a new entry only for the channel's own release with equal contents and commit |
| Version.NewerIsGreater | tools/releases/release_registry.py:118 | the version order is the order of one number made of the three components |
| LedgerOutcome.CommitOutcome | tools/releases/release_registry.py:113-147 | the transaction refuses as older exactly behind a greater stored version; else a stored version is refused exactly when contents or commit differ and kept otherwise; a version greater than all is recorded; and either needs a manifest that fits |
| Registry.PublishAnswers | tools/releases/release_registry.py:105-148 | publish fails as older, immutable or too large exactly under those conditions, and else ends with the release stored and both files showing the latest releases |
| Registry.Tables.TakeSnapshot | tools/releases/release_registry.py:45-58 | the snapshot read fails without a publication or above the size limit, else returns revision and manifest |
| Registry.Tables.Render | tools/releases/release_registry.py:61-74 | a render makes the four render steps of the ledger |
| Registry.Tables.Reconcile | tools/releases/release_registry.py:99-102 | a reconcile is a render |
| Registry.Tables.Insert | tools/releases/release_registry.py:132-143 | the three inserts make the ledger's insertion |
| Registry.Tables.Record | tools/releases/release_registry.py:112-147 | the transaction refuses without a trace or commits the ledger's commit, whose outcome CommitOutcome fixes |
| Registry.Tables.Publish | tools/releases/release_registry.py:105-148 | publish is the transaction and a render; it returns older exactly behind a greater stored version and immutable exactly for a differing stored one, and reports change exactly for a new version |
| Registry.CallsAreRuns | tools/releases/release_registry.py:99-148 | any sequence of publish and reconcile calls from empty tables is a run of the ledger |
| Registry.TablesSafe | tools/releases/release_registry.py:61-148 | so the tables and files they leave keep the ledger invariant |
| AvatarCache.EvictsLeast | server/internal/media/avatar_thumbnail.go:73-79 | eviction keeps exactly the longest prefix of the recency list within both bounds |
| AvatarCache.StoredIsKept | server/internal/media/avatar_thumbnail.go:57-80 | a stored image is in front and survives its own insertion; only a suffix of the others goes, and no shorter one would do |
| AvatarCache.TouchKeepsAll | server/internal/media/avatar_thumbnail.go:47-55 | a hit moves its image to the front and loses none |
| AvatarCache.Cache.Get | server/internal/media/avatar_thumbnail.go:47-55 | get returns the held image and keeps map, list and byte count in agreement |
| AvatarCache.Cache.Put | server/internal/media/avatar_thumbnail.go:57-80 | put leaves the specified list, with the byte count the sum of what is held and both bounds kept |
| AvatarCache.Cache.EvictLoop | server/internal/media/avatar_thumbnail.go:73-79 | the loop computes the eviction |
| AvatarCache.HitsAreLastPuts | server/internal/media/avatar_thumbnail.go:47-80 | over every run the bounds hold and a hit is the last image put under its key that was not refused for size |
| AvatarCache.ListedByRecency | server/internal/media/avatar_thumbnail.go:47-80 | over every run the list is in order of last use |
| RateLimit.Limiter.EvictOldest | server/internal/httpapi/ratelimit.go:31-42 | the scan deletes the key it settles on, or nothing when that is the empty text |
| RateLimit.Limiter.Allow | server/internal/httpapi/ratelimit.go:44-68 | the call is accepted exactly when fewer than limit timestamps are younger than the window, and the record is what remains plus it |
| RateLimit.OldestIsLeast | server/internal/httpapi/ratelimit.go:31-42 | without an empty key the scan settles on a least recently seen record |
| RateLimit.NothingEvicted | server/internal/httpapi/ratelimit.go:31-42 | some iteration order evicts nothing if and only if the table is empty or the empty key is strictly the least recently seen |
| RateLimit.RecordsTrack | server/internal/httpapi/ratelimit.go:44-68 | a record agrees with the accepted calls since its key was last evicted on all that can still count |
| RateLimit.AcceptsExactly | server/internal/httpapi/ratelimit.go:44-68 | with a monotone clock a call is accepted if and only if fewer than limit calls of its key were accepted in the window since its last eviction |
| RateLimit.SlidingWindow | server/internal/httpapi/ratelimit.go:44-68 | a never-evicted key is refused exactly when limit calls were already accepted in the last window |
| RateLimit.RefusedAtLimit | server/internal/httpapi/ratelimit.go:44-68 | counted in plain words: accepted exactly when fewer than limit accepted calls lie less than the window before |
| RateLimit.TableBounded | server/internal/httpapi/ratelimit.go:44-68 | with room for one key and no empty key the table never outgrows maxEntries |
| RateLimit.BoundNeedsBoth | server/internal/httpapi/ratelimit.go:31-68 | without room the first call exceeds the bound, and with an empty key some run exceeds every bound from one up |
| RateLimit.EmptyKeyGrows | server/internal/httpapi/ratelimit.go:31-42 | after one call with an empty key, n calls with other keys in suitable iteration orders leave n + 1 entries, whatever the bound |
| Pricing.InclusiveContext | server/internal/pricing/openrouter.go:144-151 | with cache-inclusive input the parts add up to the input and nothing wraps |
| Pricing.ExclusiveContext | server/internal/pricing/openrouter.go:151 | with cache-exclusive input the context size is exact if and only if the parts add up below 2^64 |
| Pricing.ChooseRates | server/internal/pricing/openrouter.go:152-174 | the threshold loop computes the rates of the taken tiers |
| Pricing.WinnerDecides | server/internal/pricing/openrouter.go:152-174 | in any order of tiers the last reached one with the largest start decides every rate it gives |
| Pricing.FullWinnerDecidesAll | server/internal/pricing/openrouter.go:152-174 | if that tier gives all four rates, the order of the others is irrelevant |
| Pricing.OrderMatters | server/internal/pricing/openrouter.go:152-174 | two tiers of which the higher leaves a rate out give that rate differently in the two orders (an instance of TierOrder.OrderFreeExactly) |
| TierOrder.OrderFreeExactly | server/internal/pricing/openrouter.go:152-174 | a rate is the same in every order of the tiers if and only if the reached tiers of largest start that give it agree on it or, when none gives it, every reached tier that gives it gives what the base has |
| TierOrder.TopSource | server/internal/pricing/openrouter.go:152-174 | when a reached tier of largest start gives the rate, the rate is that of such a tier |
| TierOrder.TwoTiersUnsettled | server/internal/pricing/openrouter.go:152-174 | the two tiers of OrderMatters fail that condition |
| Pricing.Parts | server/internal/pricing/openrouter.go:182-194 | the part loop fails exactly on a used unusable rate and else returns the exact sum |
| Pricing.Estimate | server/internal/pricing/openrouter.go:143-207 | the printed amount is the rounding of the exact rational sum, and absent exactly when there is none; AbsentExactly, Additive and the four laws for one count fix that sum |
| Pricing.InclusiveIsExclusive | server/internal/pricing/openrouter.go:143-207 | cache-inclusive input is priced as the cache-exclusive call on the remainder |
| Pricing.RoundedIsNear | server/internal/pricing/openrouter.go:206 | the printed amount is within half of 10^-8 of the exact sum |
| PriceLaws.AbsentExactly | server/internal/pricing/openrouter.go:143-204 | there is no amount exactly when the cache exceeds an inclusive input, prompt or completion is not published, or a used rate or a published request price is unusable |
| PriceLaws.PromptAlone | server/internal/pricing/openrouter.go:186-194 | n prompt tokens alone cost n times the prompt rate in force plus the request price |
| PriceLaws.OutputAlone | server/internal/pricing/openrouter.go:186-194 | n output tokens alone cost n times the completion rate plus the request price |
| PriceLaws.CacheReadAlone | server/internal/pricing/openrouter.go:175-194 | n cache reads alone cost n times their own rate, or the prompt rate when none is published, plus the request price |
| PriceLaws.CacheWriteAlone | server/internal/pricing/openrouter.go:175-194 | the same for cache writes |
| PriceLaws.Additive | server/internal/pricing/openrouter.go:182-206 | at the same rates in force two usages together have an amount exactly when both have one, and it is their sum with the request charged once |
| Pricing.Match | server/internal/pricing/openrouter.go:108-135 | among lower-cased ids an exact id wins, then the resolved id, then the only model with that suffix; nothing otherwise |
| UsageIdentity.WriteIdentityField | server/internal/telemetry/usage_identity.go:63-69 | one field is fed behind its big-endian length modulo 2^32 |
| UsageIdentity.UsageIdentity | server/internal/telemetry/usage_identity.go:31-41 | the label and three components are fed as four framed fields |
| UsageIdentity.BackfillIdentity | server/internal/telemetry/usage_identity.go:46-61 | the label and five components are fed as six framed fields, numbers in eight big-endian bytes |
| UsageIdentity.FedInjective | server/internal/telemetry/usage_identity.go:63-69 | distinct lists of fields shorter than 2^32 bytes are fed as distinct bytes, whatever their number and boundaries |
| UsageIdentity.LongFieldsCollide | server/internal/telemetry/usage_identity.go:63-69 | the bound is needed: a field of 2^32 bytes collides with a shorter list for every following field |
| UsageIdentity.IdentityInjective | server/internal/telemetry/usage_identity.go:31-41 | equal fed bytes mean equal harness, session and message |
| UsageIdentity.BackfillInjective | server/internal/telemetry/usage_identity.go:46-61 | equal fed bytes mean equal components, negative numbers included |
| UsageIdentity.KindsApart | server/internal/telemetry/usage_identity.go:9-13 | a usage identity is never fed the bytes of a backfill identity |

## Left out

- NoLostPublication: proved for level runs, in which no capture script runs above the live revision; `Loss.LossExactly` shows that this is the exact condition.
- SnapshotsWereLive: proved for steady runs, in which every capture runs while the generation its publisher resolved is current; snapshot ids are fresh, as random ids are taken to be.
- RunsConverge: for a generation that has not been superseded and for equal payloads on equal user and revision; a superseded generation refuses updates by design.
- CrashSafe: the migrations have pairwise different versions, as the primary key of their table demands, and every statement is repeatable where it runs; `ProgressExactly` shows that this is needed.
- ProgressExactly: the preflight of migration 0002 passes, and the server refuses nothing, wherever an uninterrupted run meets them; the same holds of NeverStuckExactly.
- BackfillInjective: every field is shorter than 2^32 bytes, like FedInjective; `LongFieldsCollide` shows that this is needed.
- PublishVerdictIs: revisions and fences are compared as numbers of any size, while Lua's tonumber is exact below 2^53 only.
- VersionExact: the pattern's digit class also takes decimal digits outside ASCII, which are not modelled.
- Match: ids and names are compared in lower case; Unicode case folding is not modelled, and the alias table with the dashed-id rewriting is one function.
- Estimate: the amount is given in units of 10^-8; its decimal text is not modelled.
- SlidingWindow: one limit and window for all calls and a clock that never moves back.
- NoDoubleCounting: three additive columns a bucket stand for the summed columns; the known and observed counts, resources and quality are projected the same way and are not modelled.
- ReplaceTeamMemberDays: an invalid row ends the method and its caller's rollback is not modelled; times are whole milliseconds.
- Time to live: only which snapshot is scheduled for expiry is modelled, not its eviction. Redis errors and publishers that crash between taking the flag and finishing are outside the runs.
- The windows of the leaderboard share no keys, so one window is modelled; `appliedAt`, `status`, `ruleVersion` and capture times are left out.
- Digests, random ids and JSON texts are taken as injective or fresh; HMAC keys are not modelled.
- DdlAlreadyApplied: an ALTER is the list of its clauses; finding them in the text by patterns, the case rules of names, and MySQL's own changes to indexes on a dropped column are not modelled. A CREATE statement is reported when its table exists and stays an oracle of `Migrate`.
- Read: asks of its store what `PresentableRuns.RunPresentable` proves of every run whose boards hold at most 2^63 - 1 users.
- PublishDirtyWindow: Redis errors, which also count as failures, are outside the model, as in PublishHot and PublishDirtyWindows.
- ProjectMetrics: three additive columns stand for the summed columns of its query.
- RefreshCurrentTeamDays: the lookup of the membership and the discovery of dates when none are given are its parameters.
- The preflight queries are one oracle; the advisory lock makes one runner work at a time, and the upgrade of the state table's own columns is not modelled.
- Dates are day numbers, and the order of SQL groups is fixed where the query leaves it open.
- Binding and unbinding contributors, the stale-projection listing and the deletions for users and teams change single rows and would only add easy members.
- Release validation beyond version, platform and manifest size, and the network checks of packages, are left out; a failed file write is a crash.
- The Redis rate limiter and its fallback, catalog loading, image scaling and the striped decode locks of the cache are left out; a method of the cache, the limiter or the publisher runs under its lock or as one caller.
- Community statistics, HTTP handlers, configuration and the clients are left out.
