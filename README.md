# Partner invites and goal completion — a Dafny model

Trendsetter is a goal-tracking app built on Laravel. This project models two parts of its core:

- **Partner invites.** The owner of a goal invites one accountability partner by e-mail.
  - The owner can list, create, resend and cancel invites.
  - The invitee opens an e-mailed link that carries a random token. The server stores only the token's SHA-256 digest. From that link the invitee views the invite and accepts or declines it.
  - Once the invitee's e-mail address is verified, the accepted invite is *claimed*. Claiming creates the goal's partnership and cancels the goal's other pending invites.
  - A daily job expires stale pending invites. It also expires accepted invites that nobody claimed within the claim window. It deletes expired and cancelled invites, and it archives accepted invites that are past retention.
  - A goal has at most one *live* invite. A live invite is unarchived and either pending, or accepted while the goal has no partnership. The model proves that every operation preserves this.
- **Goal completion.** Each feedback entry on a goal's events earns points by its status:
  - 4 for `nailed_it`, 3 for `completed`, 2 for `struggled`, 1 for `partial`, and 0 for `skipped`.
  - The maximum is 4 points per scheduled occurrence of every event within the goal's dates. How occurrences are counted depends on the event's repeat frequency.
  - A goal may be completed once it earns three quarters of the maximum, or once its end date has passed.

Modules:

- `Wrappers` (wrappers.dfy) holds the `Option` type.
- `Common` (common.dfy) holds the time units, `Max`/`Min` and `Span`, the set of whole numbers between two bounds.
- `Calendar` (calendar.dfy) numbers the days since 1 January 1970 by the proleptic Gregorian calendar's months. It proves the numbering against the first days of the months.
- `PartnerInvite` (partner_invite.dfy) holds the invite record and its own rules: expiry, lower-casing, token digests and serialisation.
- `InviteRules` (invite_rules.dfy) is pure. It holds the table-level rules: sweeps, pruning, claiming, orderings, token lookup and rotation, and the one-live-invite invariant.
- `InviteStore` (invite_store.dfy) holds the `Database` class. It owns the invites and partnerships tables and the next auto-increment id. Its outbox records the invitation e-mails the system sends.
- `PartnerInviteApi` (partner_invite_controller.dfy) holds the controller class, one method per endpoint. Each method changes the database and returns the HTTP response.
- `PartnerInviteRegistration` (registration_service.dfy) holds the service class: claiming, and the global sweeps and pruning.
- `GoalCompletion` (goal_completion.dfy) models `compute` and `calculateMaxPossiblePoints` as methods with loops. Each method is proved against recursive specification functions.

Conventions:

- Time is whole seconds (`Time = int`); a nullable timestamp is an `Option<Time>`.
- A table is a `map` from id to row.
- The authenticated user, the clock and every freshly generated token are method parameters.

## Model

| member | source | states |
|---|---|---|
| PartnerInvite.DigestInjective | app/Http/Controllers/PartnerInviteController.php:399-405 | two tokens have the same stored digest exactly when they are the same token |
| PartnerInvite.HasExpired | app/Models/GoalPartnerInvite.php:60-63 | an invite without an expiry is never expired; one with an expiry is expired exactly when that time lies strictly before now |
| PartnerInvite.ExpiryIsPermanent | app/Models/GoalPartnerInvite.php:60-63 | an expired invite stays expired at every later time |
| PartnerInvite.NoExpiryNeverExpires | app/Models/GoalPartnerInvite.php:60-63 | an invite without an expiry time never counts as expired |
| PartnerInvite.Lower | app/Http/Controllers/PartnerInviteController.php:65-66 | lower-casing keeps the length and maps each letter A-Z to its lower-case form, leaving every other character as it is |
| PartnerInvite.LowerIsIdempotent | app/Services/PartnerInviteRegistrationService.php:26 | a lower-cased e-mail is lower case, lower-casing it again changes nothing, and an already lower-case e-mail is left as it is |
| PartnerInvite.Serialize | app/Models/GoalPartnerInvite.php:13 | the JSON form carries the invite's id, status and invitee e-mail |
| PartnerInvite.SerializeHidesOnlyToken | app/Models/GoalPartnerInvite.php:13 | two rows serialise alike exactly when they differ at most in their token digest: the digest is hidden and every other column is shown |
| PartnerInvite.InviterOf | app/Models/GoalPartnerInvite.php:40-43 | the inviter relation yields a user exactly when the inviter id names one, and then that user |
| PartnerInvite.InviteeOf | app/Models/GoalPartnerInvite.php:50-53 | the invitee relation is empty while the invitee id is null, and otherwise yields the user it names, if there is one |
| InviteRules.AscendingIds | app/Services/PartnerInviteRegistrationService.php:32-44 | the claim order lists each matched id exactly once, in strictly ascending order |
| InviteRules.NewestFirst | app/Http/Controllers/PartnerInviteController.php:35-39 | the listing holds each selected id exactly once, ordered by non-increasing creation time |
| InviteRules.FindByDigest | app/Http/Controllers/PartnerInviteController.php:427-436 | the lookup finds the row that stores the token's digest, and finds nothing exactly when no row stores it |
| InviteRules.Rotate | app/Http/Controllers/PartnerInviteController.php:444-449 | rotation keeps every row, gives the rotated row the new token's digest and changes nothing else in it, and leaves every other row as it was |
| InviteRules.RotationRetiresToken | app/Http/Controllers/PartnerInviteController.php:444-449 | after rotation the digests stay unique, the old token finds nothing, and the new token finds the rotated row |
| InviteRules.SetStatus | app/Http/Controllers/PartnerInviteController.php:365-368 | a bulk status update keeps every row; the named rows take the new status and now as their response time, with every other column kept; the other rows are unchanged |
| InviteRules.SweepPending | app/Services/PartnerInviteRegistrationService.php:57-66 | the pending sweep keeps every row, leaves no stale pending row in scope, and leaves rows outside its scope unchanged |
| InviteRules.SweepAcceptedUnclaimed | app/Services/PartnerInviteRegistrationService.php:74-88 | the accepted sweep keeps every row, leaves no stale unclaimed accepted row in scope, and leaves rows outside its scope unchanged |
| InviteRules.SweepIsWiderThanHasExpired | app/Http/Controllers/PartnerInviteController.php:359-369 | the sweeps expire every pending invite that reports itself expired, and also one whose expiry is exactly now, which does not report itself expired |
| InviteRules.Cutoff | app/Http/Controllers/PartnerInviteController.php:377-381 | the claim-window cutoff never lies after now: a negative window counts as zero days |
| InviteRules.SweepPendingChangesExactlyStale | app/Http/Controllers/PartnerInviteController.php:359-369 | the pending sweep deletes no row, and changes exactly the in-scope pending rows whose expiry is not after now; each of those becomes expired with now as its response time |
| InviteRules.SweepPendingIdempotent | app/Services/PartnerInviteRegistrationService.php:57-66 | after a pending sweep nothing in scope is stale, and a second sweep at the same time changes nothing |
| InviteRules.SweepAcceptedChangesExactlyStale | app/Http/Controllers/PartnerInviteController.php:377-392 | the accepted sweep changes exactly the in-scope rows that are accepted, unarchived, answered by the cutoff and on goals without a partnership; each becomes expired at now |
| InviteRules.SweepAcceptedIdempotent | app/Services/PartnerInviteRegistrationService.php:74-88 | after an accepted sweep nothing in scope is stale, and a second sweep changes nothing |
| InviteRules.SweepGoalLeavesNothingStale | app/Http/Controllers/PartnerInviteController.php:86-87 | after both sweeps for a goal, none of its rows is stale, pending or accepted, and rows of other goals are untouched |
| InviteRules.SweepGoalKeepsGoalAndArchive | app/Http/Controllers/PartnerInviteController.php:86-87 | both sweeps for a goal keep every row on its goal and leave its archive time as it was |
| InviteRules.VisibleIds | app/Http/Controllers/PartnerInviteController.php:35-39 | a goal's listing shows exactly its unarchived invites |
| InviteRules.Prune | app/Services/PartnerInviteRegistrationService.php:96-116 | pruning adds no row and leaves no expired, cancelled or archivable row; the rows kept plus the deletions reported make up the rows there were; the archived count reported is the number of accepted, unarchived rows answered at or before the cutoff |
| InviteRules.DeletingResolvedKeepsArchivable | app/Services/PartnerInviteRegistrationService.php:98-115 | deleting the expired and cancelled rows first removes no row the archiving step would archive, so the archived count is taken over the whole table |
| InviteRules.PruneKeepsExactlyUnresolved | app/Services/PartnerInviteRegistrationService.php:96-116 | pruning deletes exactly the expired and cancelled rows, whatever their age, and archives at now only the accepted, unarchived rows answered by the retention cutoff; every other row is unchanged |
| InviteRules.PruneIdempotent | app/Services/PartnerInviteRegistrationService.php:96-116 | a second prune at the same time deletes and archives nothing and reports zero counts |
| InviteRules.MatchingIds | app/Services/PartnerInviteRegistrationService.php:32-44 | a row is selected exactly when it is accepted, unarchived, and either names the user as invitee or names no invitee and carries the user's lower-cased e-mail |
| InviteRules.ClaimOne | app/Services/PartnerInviteRegistrationService.php:125-166 | a claim deletes at most the claimed row and touches no other non-pending row; it never changes a row's goal, inviter, role or digest; a kept claimed row names the user and is accepted; existing partnerships stay as they are, and the claimed goal has a partnership afterwards |
| InviteRules.ClaimOneCreatesPartnership | app/Services/PartnerInviteRegistrationService.php:143-165 | on a goal without a partnership, the claim creates an active partnership from the inviter to the user with the invite's role; the invite records the user and keeps its first response time; every other pending invite of the goal is cancelled |
| InviteRules.ClaimOneOnPartneredGoalDeletes | app/Services/PartnerInviteRegistrationService.php:132-141 | on a goal that already has a partnership, the claim only deletes the invite |
| InviteRules.ClaimAll | app/Services/PartnerInviteRegistrationService.php:46-48 | claiming a list of invites adds no invite and keeps every existing partnership as it was |
| InviteRules.ClaimAllFrame | app/Services/PartnerInviteRegistrationService.php:46-48 | claiming a list of invites adds no row, leaves unlisted non-pending rows as they were, and keeps every existing partnership |
| InviteRules.ClaimAllCreatesOnlyForClaimedGoals | app/Services/PartnerInviteRegistrationService.php:46-48 | every partnership that claiming creates is on a claimed invite's goal, initiated by its inviter with its role |
| InviteRules.ClaimAllSettlesEveryMatch | app/Services/PartnerInviteRegistrationService.php:46-48 | after claiming a list of accepted invites, each invite's goal has a partnership, and each invite that remains names the user and is accepted |
| InviteRules.LiveShrinksKeepsAtMostOne | app/Http/Controllers/PartnerInviteController.php:89-108 | a change that creates no new live invite keeps at most one live invite per goal |
| InviteRules.NoConflictIffNoLiveInvite | app/Http/Controllers/PartnerInviteController.php:89-108 | the two conflict checks of invite creation pass exactly when the goal has no live invite |
| InviteRules.InsertIntoQuietGoal | app/Http/Controllers/PartnerInviteController.php:113-124 | inserting an invite into a goal with no live invite keeps at most one live invite per goal |
| InviteRules.SetStatusShrinksLive | app/Http/Controllers/PartnerInviteController.php:359-369 | marking rows expired or cancelled creates no live invite |
| InviteRules.DeleteShrinksLive | app/Http/Controllers/PartnerInviteController.php:214 | deleting rows creates no live invite |
| InviteRules.PruneShrinksLive | app/Services/PartnerInviteRegistrationService.php:96-116 | pruning creates no live invite |
| InviteRules.ClaimOneShrinksLive | app/Services/PartnerInviteRegistrationService.php:152-165 | a claim creates no live invite: the claimed goal gains its partnership and its other pending invites are cancelled |
| InviteRules.ClaimAllShrinksLive | app/Services/PartnerInviteRegistrationService.php:46-48 | claiming any list of invites creates no live invite |
| InviteStore.SetStatusKeepsWellFormed | app/Http/Controllers/PartnerInviteController.php:359-369 | bulk expiry or cancellation keeps the digests unique, the foreign keys valid and at most one live invite per goal |
| InviteStore.UpdateKeepsWellFormed | app/Http/Controllers/PartnerInviteController.php:178-183 | rewriting one row keeps the tables well formed when its goal and inviter stay, its digest stays or becomes unused, and it becomes live only if it was live |
| InviteStore.DeleteKeepsWellFormed | app/Http/Controllers/PartnerInviteController.php:214 | deleting rows keeps the tables well formed |
| InviteStore.ClaimOneKeepsWellFormed | app/Services/PartnerInviteRegistrationService.php:125-166 | a claim keeps the tables well formed |
| InviteStore.PruneKeepsWellFormed | app/Services/PartnerInviteRegistrationService.php:96-116 | pruning keeps the tables well formed |
| PartnerInviteApi.StatusCode | app/Http/Controllers/PartnerInviteController.php:269-351 | a response succeeds (below 300) exactly for the success bodies; 409 is sent exactly for conflicts and 422 exactly for rejections |
| PartnerInviteApi.RTrimSlashes | app/Http/Controllers/PartnerInviteController.php:415 | the trimmed base is a prefix of the configured base, does not end in a slash, and only slashes were removed |
| PartnerInviteApi.BuildInviteUrl | app/Http/Controllers/PartnerInviteController.php:413-418 | the link is the trimmed base followed by `?token=` and the token |
| PartnerInviteApi.TrailingSlashIrrelevant | app/Http/Controllers/PartnerInviteController.php:415 | a trailing slash on the configured base does not change the link |
| PartnerInviteApi.ListShowsLiveHistory | app/Http/Controllers/PartnerInviteController.php:26-44 | the list after both sweeps holds exactly the goal's unarchived invites, newest first, and none of them is stale pending |
| PartnerInviteApi.CancelUnblocksGoal | app/Http/Controllers/PartnerInviteController.php:199-217 | a live invite can always be cancelled, and cancelling it leaves its goal without a live invite, so a new invite can be created |
| PartnerInviteApi.Project | app/Http/Controllers/PartnerInviteController.php:248-259 | the token page shows the invite's id, goal, status and expiry, the goal's title and the inviter's name; the invitee can respond exactly when the invite is pending and the goal has no partnership |
| PartnerInviteApi.PartnerInviteController.ListGoalPartnerInvites | app/Http/Controllers/PartnerInviteController.php:26-44 | a non-owner gets 403 and nothing changes; the owner's goal is swept, and the owner gets its unarchived invites, newest first, serialised |
| PartnerInviteApi.PartnerInviteController.CreateGoalPartnerInvite | app/Http/Controllers/PartnerInviteController.php:53-147 | an invite is created exactly when the actor owns the goal, does not invite their own e-mail, and the goal has no partnership and, after the sweeps, no pending or unclaimed accepted invite; each refusal gets its own response and leaves the database unchanged; on success the new row is pending with the lower-cased e-mail, the matching user if any, and expiry after the configured hours; it is the goal's only live invite, and one e-mail with the link goes out |
| PartnerInviteApi.PartnerInviteController.CreateInTransaction | app/Http/Controllers/PartnerInviteController.php:72-130 | under the goal's lock, a conflict rolls the sweeps back; otherwise the swept tables gain the new invite under the next id |
| PartnerInviteApi.PartnerInviteController.InsertInvite | app/Http/Controllers/PartnerInviteController.php:110-124 | the insert adds one pending row under the next id, addressed to the user with that e-mail if one exists, and keeps the tables well formed |
| PartnerInviteApi.PartnerInviteController.ResendGoalPartnerInviteEmail | app/Http/Controllers/PartnerInviteController.php:155-191 | a non-inviter gets 403; a non-pending invite gets 422; an expired one is marked expired and gets 422; otherwise the token is replaced, the old link stops working, the new token finds the invite, and one e-mail goes out |
| PartnerInviteApi.PartnerInviteController.CancelGoalPartnerInvite | app/Http/Controllers/PartnerInviteController.php:199-217 | a non-inviter gets 403; a pending invite, or an accepted one on a goal without a partnership, is deleted (204); anything else gets 422 and stays |
| PartnerInviteApi.PartnerInviteController.ResolveGoalPartnerInviteToken | app/Http/Controllers/PartnerInviteController.php:225-261 | an unknown token gets 404 and changes nothing; otherwise an expired pending invite is marked expired; the page shows the projection, and the token still finds the invite |
| PartnerInviteApi.PartnerInviteController.RespondGoalPartnerInvite | app/Http/Controllers/PartnerInviteController.php:269-351 | an unknown token gets 404; a non-pending invite gets 422 and stays; an expired one is expired (410); accepting on a goal that already has a partnership expires the invite (409); otherwise it is accepted or declined at now; every answer to a pending invite rotates its digest, so the same token finds nothing afterwards; no partnership is created here |
| PartnerInviteApi.PartnerInviteController.RespondAndRotate | app/Http/Controllers/PartnerInviteController.php:326-331 | recording an answer sets the status and response time and replaces the digest, so the old digest is stored nowhere |
| PartnerInviteApi.PartnerInviteController.MarkResponded | app/Http/Controllers/PartnerInviteController.php:236-241 | the row takes the new status and now as its response time, and nothing else changes |
| PartnerInviteApi.PartnerInviteController.ExpirePendingInvitesForGoal | app/Http/Controllers/PartnerInviteController.php:359-369 | the goal's invites become the pending sweep of the old ones, and the tables stay well formed |
| PartnerInviteApi.PartnerInviteController.ExpireStaleAcceptedUnclaimedInvitesForGoal | app/Http/Controllers/PartnerInviteController.php:377-392 | the goal's invites become the accepted sweep with the configured window, and the tables stay well formed |
| PartnerInviteApi.PartnerInviteController.RotateInviteTokenHash | app/Http/Controllers/PartnerInviteController.php:444-449 | the row takes the digest of a fresh token, and the tables stay well formed |
| PartnerInviteRegistration.SweepForClaim | app/Services/PartnerInviteRegistrationService.php:29-30 | the global sweeps before claiming delete no invite and leave the partnerships alone |
| PartnerInviteRegistration.ClaimSettlesEveryMatch | app/Services/PartnerInviteRegistrationService.php:20-50 | after claiming for a verified user, every matched invite's goal has a partnership and each kept invite names the user; existing partnerships stay; each new one comes from a matched invite's inviter and role |
| PartnerInviteRegistration.ClaimCreatesOnlyForAddressee | app/Services/PartnerInviteRegistrationService.php:29-50 | every partnership claiming creates is on the goal of an accepted, unarchived invite addressed to the user by id, or by lower-cased e-mail while no invitee id is set |
| PartnerInviteRegistration.ClaimMatchesCreatesOnlyForAddressee | app/Services/PartnerInviteRegistrationService.php:32-50 | the same for the claim query and loop over any tables |
| PartnerInviteRegistration.ClaimLeavesOtherUsersInvites | app/Services/PartnerInviteRegistrationService.php:29-50 | an accepted invite that names another user is not claimed: it stays exactly as the sweeps left it |
| PartnerInviteRegistration.ClaimMatchesLeavesOtherUsersInvites | app/Services/PartnerInviteRegistrationService.php:32-50 | the same for the claim query and loop over any tables |
| PartnerInviteRegistration.PartnerInviteRegistrationService.ClaimAcceptedInvitesForUser | app/Services/PartnerInviteRegistrationService.php:20-50 | nothing changes for an unverified user; otherwise both sweeps run, then every accepted, unarchived invite addressed to the user, by id or by lower-cased e-mail, is claimed in ascending id order |
| PartnerInviteRegistration.PartnerInviteRegistrationService.ClaimEach | app/Services/PartnerInviteRegistrationService.php:46-48 | the loop leaves the tables as claiming the listed invites one after another, and keeps them well formed |
| PartnerInviteRegistration.PartnerInviteRegistrationService.ExpireAllStalePendingInvites | app/Services/PartnerInviteRegistrationService.php:57-66 | every stale pending invite is expired, and the count returned is how many there were |
| PartnerInviteRegistration.PartnerInviteRegistrationService.ExpireStaleAcceptedUnclaimedInvites | app/Services/PartnerInviteRegistrationService.php:74-88 | with the given window, or the configured one when none is given, every stale unclaimed accepted invite is expired, and the count returned is how many there were |
| PartnerInviteRegistration.PartnerInviteRegistrationService.PruneResolvedInvites | app/Services/PartnerInviteRegistrationService.php:96-116 | the invites and the reported counts are exactly those of pruning the old invites, and the tables stay well formed |
| PartnerInviteRegistration.PartnerInviteRegistrationService.ClaimAcceptedInviteForUser | app/Services/PartnerInviteRegistrationService.php:125-166 | the tables become exactly the result of one claim, and stay well formed |
| GoalCompletion.StatusPoints | app/Services/GoalCompletionService.php:10-16 | a status earns between 0 and 4 points, and only a listed status earns any |
| GoalCompletion.Points | app/Services/GoalCompletionService.php:41-46 | feedback earns at most 4 points per entry, and never a negative total |
| GoalCompletion.PointsFromCounts | app/Services/GoalCompletionService.php:10-16 | the points equal the status counts weighted 4, 3, 2, 1 and 0 |
| GoalCompletion.ZeroCounts | app/Services/GoalCompletionService.php:37-38 | the initial counts hold exactly the listed keys, each at zero |
| GoalCompletion.TallyCounts | app/Services/GoalCompletionService.php:37-55 | the reported counts hold exactly the listed statuses and moods, each with the number of entries that carry it; unlisted values are not counted |
| GoalCompletion.TallyStep | app/Services/GoalCompletionService.php:43-53 | one more entry adds its status points and bumps its status and its mood |
| GoalCompletion.StatusTally | app/Services/GoalCompletionService.php:37-49 | the status counts hold exactly the listed statuses |
| GoalCompletion.MoodTally | app/Services/GoalCompletionService.php:38-53 | the mood counts hold exactly the listed moods |
| GoalCompletion.DayOf | app/Services/GoalCompletionService.php:85-86 | a timestamp lies within the day it is assigned to |
| GoalCompletion.EventStartDay | app/Services/GoalCompletionService.php:91 | an event starts on the day that holds its scheduled time, or its creation time when it has none |
| GoalCompletion.EventEndDay | app/Services/GoalCompletionService.php:92-96 | an event with a duration runs for exactly seven days per week of it from its start day; one without runs to the goal's end |
| GoalCompletion.CeilDiv | app/Services/GoalCompletionService.php:122 | rounding a quotient up gives the least number of whole blocks that hold the value |
| GoalCompletion.TimesPerWeek | app/Services/GoalCompletionService.php:113-114 | an event repeats at least once a week |
| GoalCompletion.RepeatOccurrences | app/Services/GoalCompletionService.php:116-138 | every repeating event that runs for at least one day of the goal counts at least once |
| GoalCompletion.Occurrences | app/Services/GoalCompletionService.php:88-139 | an event never adds a negative number of occurrences |
| GoalCompletion.TotalOccurrences | app/Services/GoalCompletionService.php:88-139 | the total number of occurrences is never negative |
| GoalCompletion.OverlapIsRange | app/Services/GoalCompletionService.php:102-103 | for an event that is not skipped, the days counted run from the later start to the earlier end, and there are that many of them |
| GoalCompletion.OutsideGoalAddsNothing | app/Services/GoalCompletionService.php:98-100 | an event that ends before the goal starts, or starts after it ends, shares no day with the goal and adds nothing |
| GoalCompletion.RepeatingCountsIffOverlap | app/Services/GoalCompletionService.php:98-103 | a repeating event counts exactly when it shares a day with the goal |
| GoalCompletion.OneOffCountsOnceInWindow | app/Services/GoalCompletionService.php:105-110 | a one-off event counts once if it starts within the goal's dates, and not at all otherwise |
| GoalCompletion.DailyCountsEachOverlapDay | app/Services/GoalCompletionService.php:117-119 | a daily event counts once for each day it shares with the goal |
| GoalCompletion.CeilDivIsWeeksToCover | app/Services/GoalCompletionService.php:122 | the number of weeks counted is the number of whole or begun weeks, by repeated subtraction of seven days |
| GoalCompletion.WeeklyCountsPerWeekBegun | app/Services/GoalCompletionService.php:120-137 | a weekly event, or one whose frequency is not recognised, counts `times_per_week` occurrences for every whole or begun week of its overlap with the goal |
| GoalCompletion.OverlapMonthCount | app/Services/GoalCompletionService.php:125-132 | the month difference of the overlap's first and last day, plus one, is the number of calendar months the overlap touches, and an event outside the goal touches none |
| GoalCompletion.MonthlyCountsEachMonthTouched | app/Services/GoalCompletionService.php:129-132 | a monthly event counts once for each calendar month its overlap with the goal touches |
| GoalCompletion.BiMonthlyCountsEveryOtherMonthTouched | app/Services/GoalCompletionService.php:125-128 | a bi-monthly event counts once for every two calendar months its overlap touches, rounded up |
| GoalCompletion.BiMonthlyIsHalfOfMonthly | app/Services/GoalCompletionService.php:125-132 | a bi-monthly event counts half of what the same event would count monthly, rounded up |
| Common.Span | app/Services/GoalCompletionService.php:117-119 | the days from one bound to another, both included, and as many of them as the bounds are apart plus one |
| Common.SpansIntersect | app/Services/GoalCompletionService.php:102-103 | the days two ranges share are the range from the later start to the earlier end |
| Calendar.MonthIndexBracket | app/Services/GoalCompletionService.php:126 | each day lies on or after the first day of the month it is put in, and before the next month's first day |
| Calendar.FirstDayOfMonthMonotone | app/Services/GoalCompletionService.php:126 | a later month begins at least 28 days per month later |
| Calendar.MonthLength | app/Services/GoalCompletionService.php:126 | every month has 28 to 31 days |
| Calendar.YearLength | app/Services/GoalCompletionService.php:126 | every year has 365 or 366 days |
| Calendar.MonthIndexIff | app/Services/GoalCompletionService.php:126 | a day is put in a month exactly when it lies between that month's first day and the next month's |
| Calendar.MonthIndexMonotone | app/Services/GoalCompletionService.php:126 | a later day is never in an earlier month |
| Calendar.MonthIndexStep | app/Services/GoalCompletionService.php:126 | from one day to the next the month stays or goes up by one, and it goes up exactly on the first day of a month |
| Calendar.MonthsOfSpan | app/Services/GoalCompletionService.php:126 | a range of days touches exactly the months from its first day's to its last day's, so their number is the month difference plus one |
| Calendar.EpochIsJanuary1970 | app/Services/GoalCompletionService.php:126 | day 0 is the first day of January 1970 |
| Calendar.LeapDay2024IsFebruary | app/Services/GoalCompletionService.php:126 | 29 February 2024 is the last day of February 2024 |
| Calendar.DayAfterLeapDay2024IsMarch | app/Services/GoalCompletionService.php:126 | 1 March 2024 lies in March 2024 |
| GoalCompletion.ThresholdPoints | app/Services/GoalCompletionService.php:58 | the threshold is the least whole number of points that reaches three quarters of the maximum |
| GoalCompletion.ThresholdOfMaxPoints | app/Services/GoalCompletionService.php:58 | with 4 points per occurrence, the threshold is exactly 3 points per occurrence |
| GoalCompletion.Reasons | app/Services/GoalCompletionService.php:60-70 | the reasons include the points threshold exactly when it is met and the end date exactly when it has passed, with the points reason first |
| GoalCompletion.CompletableWhenThreeQuartersOrOver | app/Services/GoalCompletionService.php:58-76 | a goal is completable exactly when its feedback earns at least three points per scheduled occurrence, or its end date has passed |
| GoalCompletion.CalculateMaxPossiblePoints | app/Services/GoalCompletionService.php:83-142 | the loop returns 4 points for every occurrence of every event within the goal's dates, which is a non-negative multiple of 4 |
| GoalCompletion.EventOccurrences | app/Services/GoalCompletionService.php:91-137 | one pass of the loop adds exactly the occurrences the event has within the goal's dates |
| GoalCompletion.Tally | app/Services/GoalCompletionService.php:41-55 | the nested loops compute the points earned and the status and mood counts of all the goal's feedback |
| GoalCompletion.Compute | app/Services/GoalCompletionService.php:33-81 | the result holds the points earned; the exact count of each listed status and mood; the maximum (4 per occurrence) and threshold (3 per occurrence); the reasons, points first; and completable exactly when a reason applies |

## Left out

- E-mail rendering and delivery are not modelled. A sent invitation is an entry in the database's outbox: recipient, invite id and link. Queueing and delivery failures are not modelled.
- Database transactions and row locks are not modelled. Each endpoint is one atomic step. The rollback of the sweeps when creation hits a conflict is modelled by restoring the invites.
- PartnerInvite.DigestOf: SHA-256 is modelled as an injective digest, so hash collisions are not modelled.
- PartnerInviteApi.PartnerInviteController.CreateInTransaction: `Str::random(64)` is a token parameter, and its digest must be unused. A collision of 64 random characters is not modelled; in the source it would fail on the unique `token_hash` index.
- PartnerInviteApi.PartnerInviteController.InsertInvite: requires the new token's digest to be unused, for the same reason.
- PartnerInviteApi.PartnerInviteController.RespondAndRotate: requires the new token's digest to be unused, for the same reason.
- PartnerInviteApi.PartnerInviteController.RotateInviteTokenHash: requires the new token's digest to be unused, for the same reason.
- PartnerInviteApi.BuildInviteUrl: `urlencode` of the token is treated as the identity, which it is on the alphanumeric tokens `Str::random` yields.
- The `services.partner_invites` configuration values are parameters of the controller and the service. Their defaults are not built in: 72 hours of expiry, a 7-day claim window, 30 days of retention and the default link base.
- HTTP request validation, route model binding and authentication are not modelled. Each is a precondition instead: the goal or invite exists, the actor is an existing user, and the decision is accept or decline. The rate limiter on the token routes is not modelled.
- PartnerInvite.Lower: folds only the ASCII letters A-Z. Multibyte case folding is not modelled.
- PartnerInvite.Serialize: JSON details other than the hidden token column are not modelled: date formats, and which attributes a freshly created model carries.
- InviteRules.NewestFirst: the order of invites with the same creation time is left open.
- The `archived_at` column is not created by the create-table migration (database/migrations/2026_02_07_000001_create_goal_partner_invites_table.php:14-31). The code reads and writes it, so the model has it as an optional field.
- InviteRules.Prune: the unit test expects pruning to report `accepted_deleted` (tests/Unit/Services/PartnerInviteRegistrationServiceTest.php:73). The code archives old accepted invites and reports `accepted_archived`. The model follows the code.
- InviteStore.WellFormed: does not state that a partnership names an existing goal and users. No modelled operation relies on it.
- Cascading deletes of goals and users are not modelled. The users and goals tables are read-only here.
- GoalCompletion.Tally: null statuses and moods on feedback are not modelled. Such entries earn nothing and are not counted, as an unlisted status or mood is.
- GoalCompletion.Occurrences: days are UTC days of 86400 seconds. A range's length in days is the whole-day difference of its start days plus one. This is the integer `diffInDays` of Carbon 2. Carbon 3's fractional differences are not modelled.
- GoalCompletion.Occurrences: `duration_in_weeks` is a whole number of weeks, and 0 stands for an empty value. Negative and fractional durations are not modelled; event validation demands a positive value (app/Http/Controllers/EventController.php:37).
- Calendar.MonthIndex: months follow the proleptic Gregorian calendar in UTC. Time zones and Carbon's own month arithmetic are not modelled.
- GoalCompletion.ThresholdPoints: `ceil` over a float is computed exactly on integers. Floating-point rounding is not modelled.
- GoalCompletion.Compute: requires the goal's start day to be on or before its end day. Goals are created starting now and ending a year later (app/Http/Controllers/GoalController.php:106-107).
- GoalCompletion.Compute: the count maps are unordered. The key order of the PHP arrays is not modelled.
- The scheduling of the daily job (routes/console.php:12-25) and its log output are not modelled. The three service calls it makes are modelled.
