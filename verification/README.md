# Contribution tracker: model and proofs

The contribution tracker shows a team, member by member, what was contributed on GitHub and GitLab
in a period. This project models the parts of it in which data moves and is kept, and proves what
they promise.

**The report.** `GenerateReport` scopes a team's members, groups its repositories by platform and
token, and fetches each member's activities with one goroutine per group (`Grouping.dfy`,
`Gather.dfy`, `Calls.dfy`, `GitHubFetcher.dfy`, `GitLabFetcher.dfy`, `ProjectPath.dfy`). Its events
go through a bounded channel to the handler, which frames them as server-sent events
(`ReportHandler.dfy`, `EventStream.dfy`); the browser decodes UTF-8 and re-parses the frames from
chunks of any size (`Utf8.dfy`, `EventStream.dfy`, `Browser.dfy`) and counts and scores
(`Counting.dfy`). `Pipeline.dfy` is all of it as one machine whose parts move in any order, every
load, store, lock, unlock, send, receive, write and read being a step of its own; `EndToEnd.dfy` and
`Reports.dfy` say what the page shows and `Contents.dfy` says it item by item, in terms of the servers' own
lists. `Calendar.dfy` is the arithmetic of the report periods.

**The team tables.** `Leadership.dfy` states the eight admin operations as functions of the tables
and proves what every run of them keeps; `Stores.dfy` and `AdminHandler.dfy` are the repositories
and handlers that change the tables step by step, and each handler is proved to have the outcome of
its operation; `Outcomes.dfy` says row by row what those outcomes are. `RepositoryStore.dfy` is the repository table and what discovery does to it, `NextReport.dfy` what that
means for the next report.

**Backup, migrations, pagination.** `Backup.dfy`, `BackupRepo.dfy` and `Base64.dfy` are export and
restore; `Migrator.dfy` is the restartable migration loop; `Paging.dfy`, `GitLabPaging.dfy`,
`NumberedPages.dfy` and `GitHubPaging.dfy` are the two ways of following a paginated answer.

Values are datatypes. What the program changes in place (stores, handlers, writers, readers, the
page) is a class whose methods are tied to a specification function, and the lemmas are about that
function. Goroutines, channel and connection are a state machine over their steps.

Three documented or expected rules turn out not to hold of the code as they stand, and the exact
condition is proved instead, with an input at which each fails. TEAM_LEADER is not always held exactly
by those who lead a team, because `CreateUser` accepts the role by name
(`Leadership.DerivedRoleExactly`, `Leadership.RuleFails`). The project path of a URL is empty also when
a separator stands at its very start although another one follows (`ProjectPath.EmptyExactly`,
`ProjectPath.EmptyDespiteSeparator`). Stored tokens survive a report only where discovery finds none of
their repositories (`RepositoryStore.TokensSurviveExactly`, `RepositoryStore.TokenLost`). Two smaller
ones: a window can be turned around where a year of two digits is misread
(`Calendar.SinceBeforeUntilExactly`), and a plain token in a backup file is stored as it stands only if
it is no well-formed code (`Backup.KeptExactly`).

`dafny verify dfyconfig.toml` checks the project.

## Model

| member | source | states |
|---|---|---|
| `EndToEnd.NeverWrong` | `src/internal/application/report_service.go:39-105` | at every moment of every run, with or without a client: emitted events are the written ones followed by the channel's, at most 16 of them, and the page is either finished with exactly the right reports and totals or still filling with right reports of the first members |
| `EndToEnd.EveryReportArrives` | `src/internal/presentation/report_handler.go:75-94` | for every team, goroutine schedule, channel interleaving, chunking and disconnection: the run ends with the whole stream written, and if the client stayed its page shows one report per loaded member, in load order, each with that member's fetched activities as a multiset, and totals that count them all |
| `EndToEnd.Settles` | `src/internal/application/report_service.go:39-105` | from any moment of any run a state is reached in which everything was emitted, written and, unless the client left, read |
| `EndToEnd.RunExists` | `src/internal/application/report_service.go:39-170` | every setup has a run, so what is said of all runs is said of some |
| `EndToEnd.ReportsAlwaysRight` | `src/internal/presentation/frontend/app.js:631-671` | whatever the page shows at any moment is the right report of the first members |
| `EndToEnd.FullStreamArrives` | `src/internal/presentation/frontend/app.js:631-671` | a complete stream makes a finished page: the error, or all reports and exact totals |
| `Pipeline.NextKeeps` | `src/internal/application/report_service.go:39-170` | every step of producer, goroutines, handler and client keeps the invariant that ties emitted, queued, written, delivered and shown events together |
| `Pipeline.ProducerKeeps` | `src/internal/application/report_service.go:39-105` | what has been emitted is always one ERROR, or the reports of the first members in order and at the end one COMPLETE, and nothing is sent into a full or closed channel |
| `Pipeline.NeverStuck` | `src/internal/presentation/report_handler.go:75-94` | in every reachable state that is not final some step other than the client leaving is possible, even when writes fail |
| `Pipeline.NextDecreases` | `src/internal/presentation/report_handler.go:75-94` | every step lowers a measure, so no run goes on for ever |
| `Pipeline.ViewOfPrefix` | `src/internal/presentation/frontend/app.js:599-671` | at any moment the page shows what a prefix of the written events shows, and all of them once everything was read |
| `Pipeline.WriteKeeps` | `src/internal/presentation/sse.go:30-43` | writing an event, or failing to, keeps delivered and undelivered bytes equal to the frames written |
| `Pipeline.ReadKeeps` | `src/internal/presentation/frontend/app.js:599-629` | reading a chunk of any size keeps the page equal to the parse of all bytes delivered |
| `Gather.AdvanceKeeps` | `src/internal/application/report_service.go:136-158` | every load, store, lock or unlock of any goroutine keeps the invariant: a value loaded under the mutex is still current when it is stored, and the shared slice is the stores so far |
| `Gather.MutualExclusion` | `src/internal/application/report_service.go:113-158` | no two goroutines are between lock and unlock together |
| `Gather.WaitGathersAll` | `src/internal/application/report_service.go:113-161` | when the wait group lets go, the slice interleaves the successful batches of all groups, each group's in order: no update lost, a failed fetch missing only its own batch |
| `Gather.MergeConserves` | `src/internal/application/report_service.go:136-161` | any such interleaving has, as a multiset, exactly the batches of all groups |
| `Gather.SomeoneCanMove` | `src/internal/application/report_service.go:136-161` | while the wait group still waits some goroutine can move: no deadlock |
| `Gather.AdvanceWorks` | `src/internal/application/report_service.go:136-158` | every step of a goroutine leaves less to do |
| `Reports.ScopeMembers` | `src/internal/application/report_service.go:48-63` | the caller alone unless he administers or leads; then the chosen member alone, or with none chosen the team's members |
| `Reports.GroupingPreserves` | `src/internal/application/report_service.go:77-97` | when no search fails, whatever the grouping and the order of the groups, the calls bring, as a multiset, what going through the token-bearing repositories one by one would bring |
| `Reports.PageShowsEveryRepository` | `src/internal/application/report_service.go:39-170` | from stored repositories to browser, when no search fails: every run ends, and if the client stayed the page shows for each scoped member exactly the contributions of the team's token-bearing repositories, counted right |
| `Reports.OwnReportOnly` | `src/internal/application/report_service.go:48-63` | at no moment of any run does a caller who neither administers nor leads the team see a report about anyone else |
| `Reports.ChosenMemberOnly` | `src/internal/application/report_service.go:48-63` | at no moment of any run does an administrator or leader who has chosen a member see a report about anyone else |
| `Reports.ScopeExactly` | `src/internal/application/report_service.go:48-75` | the finished page is about exactly the stored users in the scope, each once: the caller, the chosen member, or all members of the team |
| `Contents.PageShowsWhatIsListed` | `src/internal/application/report_service.go:39-170` | when no search fails the finished page shows for each member exactly what the servers list, item by item: by the member's name on each platform, of the types asked for, in the token-bearing repositories, each listed item once, and of reviews those the member wrote himself in the period |
| `Contents.ShownIsListed` | `src/internal/application/report_service.go:136-158` | at no moment of any run, whatever calls fail, does a report show an activity that no server lists for that very member, of a type asked for, in a token-bearing repository of the team |
| `Contents.NoForeignReview` | `src/internal/infrastructure/gitlab/fetcher.go:312-318` | no review is ever shown for a member that someone else wrote or that was written outside the period |
| `Reports.ScriptBrings` | `src/internal/application/report_service.go:136-158` | the calls of one goroutine bring the contribution of each repository of its group once |
| `Reports.ScriptsExactly` | `src/internal/application/report_service.go:113-161` | whatever the servers answer, a member's groups have calls with answers if and only if no GitLab search panics on a web URL without a path |
| `Grouping.GroupRepos` | `src/internal/application/report_service.go:77-97` | the map-filling loop yields a grouping of the token-bearing repositories |
| `Grouping.KeyInjective` | `src/internal/application/report_service.go:77-79` | without NUL in platform names the joined key is equal only for equal platform and token |
| `Grouping.SharedKeyExactly` | `src/internal/application/report_service.go:77-79` | two platform names can share a key if and only if they are the same or one of them, followed by a NUL, begins the other |
| `Grouping.GroupsPartition` | `src/internal/application/report_service.go:80-97` | every token-bearing repository is in exactly one group, once |
| `Grouping.GroupMembers` | `src/internal/application/report_service.go:80-97` | a group holds exactly the repositories of its platform and token |
| `GitHubFetchers.GitHubFetcher.FetchForUser` | `src/internal/infrastructure/github/fetcher.go:45-73` | fails exactly when a call for an asked type does; else one commit for each listed commit in order, and then the reviews the user wrote himself in the period |
| `GitHubFetchers.GitHubFetcher.FetchReviews` | `src/internal/infrastructure/github/fetcher.go:171-229` | fails exactly when one of the calls does; else, reviewed change by reviewed change in order, precisely the reviews whose author is the user and whose time lies in the period, each once with the change's title and the review's own address and time |
| `GitHubFetchers.GitHubFetcher.SearchEach` | `src/internal/infrastructure/github/fetcher.go:231-285` | one search per repository name: fails exactly when one does, and else gives one activity of the right type for each listed item, in order |
| `GitHubFetchers.GitHubFetcher.SearchActivities` | `src/internal/infrastructure/github/fetcher.go:75-104` | fails exactly when a search for an asked type does; else all issues and then all merged pull requests listed, every name once in some order |
| `GitHubFetchers.GroupBrings` | `src/internal/infrastructure/github/fetcher.go:45-104` | the two calls for a group together bring, whatever the order of names, each repository's contribution exactly once |
| `GitHubFetchers.ContributionExactly` | `src/internal/infrastructure/github/fetcher.go:45-104` | what one repository contributes, in terms of the server's lists alone, with what a failed call costs |
| `GitLabFetchers.GitLabFetcher.FetchForUser` | `src/internal/infrastructure/gitlab/fetcher.go:44-64` | fails exactly when the call for commits does; else one commit for each listed commit in order, where they are asked for |
| `GitLabFetchers.GitLabFetcher.KeepItems` | `src/internal/infrastructure/gitlab/fetcher.go:190-217` | one activity with the item's own values for precisely the items whose URL names a repository of the group, over all pages, in server order; the loop panics exactly when some web URL has no path |
| `GitLabFetchers.GitLabFetcher.SearchMRDiscussions` | `src/internal/infrastructure/gitlab/fetcher.go:269-334` | fails exactly when one of the calls does; else, repository by repository and merge request by merge request, precisely the notes the user wrote himself in the period, system notes left out, each once with the merge request's title and address and the note's time |
| `GitLabFetchers.GitLabFetcher.SearchActivities` | `src/internal/infrastructure/gitlab/fetcher.go:66-103` | panics exactly when a listing that is read holds an item without a path; fails exactly when a call for an asked type does; else the named issues, the named merge requests and the user's own notes |
| `GitLabFetchers.KeptIsShares` | `src/internal/infrastructure/gitlab/fetcher.go:190-217` | filtering one listing by the whole group keeps each repository's own share exactly once |
| `GitLabFetchers.KeptByOwner` | `src/internal/infrastructure/gitlab/fetcher.go:190-217` | for items whose web URLs are built on the paths of the projects that own them, and paths that can be recovered, the filter by web URL does not panic and keeps exactly the items owned by a repository of the group |
| `GitLabFetchers.GroupBrings` | `src/internal/infrastructure/gitlab/fetcher.go:44-103` | the two calls for a group together bring each repository's contribution exactly once |
| `GitLabFetchers.ContributionExactly` | `src/internal/infrastructure/gitlab/fetcher.go:44-103` | what one repository contributes, in terms of the server's lists alone, with what a failed call costs |
| `Calls.ConvertItems` | `src/internal/infrastructure/github/fetcher.go:134-169` | one activity per item, in order, of the given type and with the item's title, address, time and summary |
| `Calls.CollectReviews` | `src/internal/infrastructure/gitlab/fetcher.go:312-331` | precisely the remarks whose author is the user, whose time lies in the period and which no system wrote, each once, in order, with the change's title |
| `Calls.ConcatPermutation` | `src/internal/infrastructure/github/fetcher.go:360-366` | the order in which the set of names is walked does not change what the calls bring |
| `ProjectPath.ExtractProjectPath` | `src/internal/infrastructure/gitlab/fetcher.go:336-356` | the scan finds the text before the first separator when that stands at a positive index; a URL that does not parse gives the empty name, an empty path a panic |
| `ProjectPath.RecoversExactly` | `src/internal/infrastructure/gitlab/fetcher.go:336-356` | a project path comes back from its web URL if and only if it neither contains the separator nor ends in its first two characters |
| `ProjectPath.EmptyExactly` | `src/internal/infrastructure/gitlab/fetcher.go:340-355` | the result is empty if and only if no separator stands at a positive index or one stands at index 0 |
| `ProjectPath.EmptyDespiteSeparator` | `src/internal/infrastructure/gitlab/fetcher.go:340-355` | a path with a separator at a positive index for which the result is empty |
| `EventStream.SseWriter.WriteEvent` | `src/internal/presentation/sse.go:30-43` | the frame of the event is added to the body, or nothing when the client is gone |
| `EventStream.StreamReader.Read` | `src/internal/presentation/frontend/app.js:599-629` | one turn of the read loop: the decoder goes on where it was, all complete blocks are taken, no full delimiter stays in the buffer |
| `EventStream.StreamReader.TakeBlocks` | `src/internal/presentation/frontend/app.js:606-629` | the loop takes every complete block off the buffer |
| `EventStream.StreamReader.ReadBlock` | `src/internal/presentation/frontend/app.js:615-628` | the loop over the lines of a block yields its event, if type and data are non-empty |
| `EventStream.DrainAppend` | `src/internal/presentation/frontend/app.js:599-629` | draining, then draining again when more text arrived, is draining all of it at once, for any text |
| `EventStream.ChunkingIrrelevant` | `src/internal/presentation/frontend/app.js:599-629` | however the bytes are cut into chunks, even inside a character or a delimiter, the reader ends up as if they had come at once |
| `EventStream.ReadBack` | `src/internal/presentation/sse.go:36-36` | the parser undoes the printer whatever the chunking: same events, same order, buffer empty |
| `EventStream.ReadPrefix` | `src/internal/presentation/frontend/app.js:599-629` | a reader that has seen only the first bytes holds a prefix of the printed events |
| `EventStream.RecoveredExactly` | `src/internal/presentation/sse.go:36-36` | an event comes back from its own frame if and only if its type and data are non-empty and free of newlines and its type is trimmed |
| `EventStream.ParsedIsPrintable` | `src/internal/presentation/frontend/app.js:606-629` | from any text at all only such events are parsed |
| `EventStream.BlockExactly` | `src/internal/presentation/frontend/app.js:615-628` | of any block the last line with an event type and the last with data count, the type trimmed and the data as it stands |
| `EventStream.TrimExactly` | `src/internal/presentation/frontend/app.js:620-620` | trimming takes the spaces at both ends and nothing else |
| `Utf8.DecodeAppend` | `src/internal/presentation/frontend/app.js:596-603` | the streaming decoder gives the same text however the bytes are split |
| `Utf8.DecodeEncode` | `src/internal/presentation/frontend/app.js:596-603` | decoding undoes encoding, with nothing pending |
| `Utf8.EncodedExactly` | `src/internal/presentation/frontend/app.js:596-603` | bytes decode to their end without a replacement character if and only if they are the encoding of a text without one |
| `Utf8.Examples` | `src/internal/presentation/frontend/app.js:596-603` | the examples of RFC 3629 for one to four bytes |
| `Browser.ReportPage.OnChunk` | `src/internal/presentation/frontend/app.js:599-671` | one turn of the loop dispatches exactly the events the chunk completed |
| `Browser.ReportPage.ShowEvent` | `src/internal/presentation/frontend/app.js:631-671` | a report is pushed, completion shows the totals, an error its message; malformed events are skipped |
| `Browser.DispatchShows` | `src/internal/presentation/frontend/app.js:631-671` | dispatching the events of a stream shows its reports and its end |
| `Browser.Skipped` | `src/internal/presentation/frontend/app.js:631-671` | an event that does not parse, brings no report or is of no known kind changes nothing, wherever it comes |
| `Browser.EventsPrintable` | `src/internal/presentation/report_handler.go:75-94` | every event the handler writes survives the trip |
| `ReportHandlers.ReportHandler.StreamReport` | `src/internal/presentation/report_handler.go:75-94` | the loop over the channel writes the frames of all events up to the client's leaving, in order, and nothing after |
| `ReportHandlers.WrittenIsShown` | `src/internal/presentation/report_handler.go:75-94` | what the handler wrote, read in any chunks, shows exactly the written events |
| `Counting.BuildActivityCounts` | `src/internal/application/report_service.go:172-183` | one entry per type present, distinct types, each with its number of activities |
| `Counting.CountsOfMultiset` | `src/internal/application/report_service.go:172-183` | the counts depend only on the multiset of activities |
| `Counting.CountsConserve` | `src/internal/application/report_service.go:172-183` | the counts add up to the number of activities |
| `Counting.ComputeScore` | `src/internal/presentation/frontend/app.js:1149-1161` | the displayed score is the nearest tenth to the sum, over the four types, of the number of activities times the weight set for that type |
| `Counting.ScoreAccurate` | `src/internal/presentation/frontend/app.js:1149-1161` | the number of activities of each type times that type's own weight, summed and rounded to the nearest tenth |
| `Counting.OneNearestTenth` | `src/internal/presentation/frontend/app.js:1160-1160` | the nearest tenth is one number only |
| `Counting.TimesIsProduct` | `src/internal/presentation/frontend/app.js:1154-1157` | a weight added up n times is n times the weight |
| `Counting.ScoreMonotone` | `src/internal/presentation/frontend/app.js:1149-1161` | with non-negative weights one more activity never lowers the score |
| `Counting.SummaryTotals` | `src/internal/presentation/frontend/app.js:1266-1290` | the loop computes the totals of the summary card |
| `Counting.CardIsExact` | `src/internal/presentation/frontend/app.js:1266-1290` | the card's totals are those counted activity by activity, whatever order the activities arrived in |
| `Counting.CountByTypeCounts` | `src/internal/presentation/frontend/app.js:1163-1167` | the first entry of a type holds the number of its activities |
| `Counting.TotalsAddUp` | `src/internal/presentation/frontend/app.js:1266-1290` | for activities of the four types the type totals add up to the total of activities |
| `Calendar.LastDays` | `src/internal/presentation/frontend/app.js:477-484` | on every date the windows of 7 and 30 days end today and have exactly that many days |
| `Calendar.CurrentQuarterExactly` | `src/internal/presentation/frontend/app.js:471-487` | the window starts at the beginning of today's quarter if and only if the year is not one of two digits |
| `Calendar.LastQuarterExactly` | `src/internal/presentation/frontend/app.js:488-492` | the window is a whole quarter that ends on the day before the current quarter starts if and only if neither today nor that day is in a year of two digits |
| `Calendar.QuartersMeet` | `src/internal/presentation/frontend/app.js:485-492` | on every date the last quarter ends on the day before the current one is taken to begin |
| `Calendar.YearWindows` | `src/internal/presentation/frontend/app.js:493-499` | the current year begins on its first of January, where the last one ends, and the last year has 365 or 366 days |
| `Calendar.EndToday` | `src/internal/presentation/frontend/app.js:477-502` | all windows but those of the past quarter and year end today, and a period of no known name is today alone |
| `Calendar.SinceBeforeUntilExactly` | `src/internal/presentation/frontend/app.js:467-503` | on every date and in every period since is not after until, if and only if no year of two digits is taken for another on one side of the window; that can happen in the two quarter periods only |
| `Calendar.YearHundred` | `src/internal/presentation/frontend/app.js:471-492` | the date on which the last quarter would begin after it ends |
| `Calendar.YearFifty` | `src/internal/presentation/frontend/app.js:471-487` | the date on which the current quarter would begin after it ends |
| `Calendar.DateOfDay` | `src/internal/presentation/frontend/app.js:477-492` | day numbers and valid dates correspond one to one, so moving by days is exact across month ends, leap years and years |
| `Leadership.ApplyKeeps` | `src/internal/presentation/admin_handler.go:93-342` | every operation, accepted or not, keeps leaders within members within users, every team led, one account per user, and TEAM_LEADER on every leader's account |
| `Leadership.AlwaysInv` | `src/migrations/002_seed_demo_data.sql:1-46` | all of that over every run from the seeded tables |
| `Leadership.RejectedChangesNothing` | `src/internal/presentation/admin_handler.go:93-342` | an operation that is not accepted leaves all tables as they were |
| `Leadership.WithoutUserLed` | `src/internal/presentation/admin_handler.go:159-172` | because leaders are members, looking only at the user's member teams is enough for every team to keep a leader |
| `Leadership.WithoutLeaderKeeps` | `src/internal/infrastructure/persistence/pgx_team_repo.go:198-216` | with more than one leader counted, removing one leaves the team led and everything else in order |
| `Leadership.HonestKept` | `src/internal/presentation/admin_handler.go:344-383` | no operation on any account breaks, for an account with another role besides, that it holds TEAM_LEADER exactly when its user leads |
| `Leadership.CreatedAccountExact` | `src/internal/presentation/admin_handler.go:93-383` | from its creation without TEAM_LEADER on, through any further operations, an account holds it if and only if its user leads a team |
| `Leadership.DerivedRoleExactly` | `doc/ARCHITECTURE.md:84-84` | over every run from the seeded tables the documented rule holds at every moment if and only if no creation that passes the handler's checks names TEAM_LEADER |
| `Leadership.NamesLeaderIsAccepted` | `src/internal/presentation/admin_handler.go:93-133` | the checks a creation that names TEAM_LEADER must pass are exactly those under which it is accepted |
| `Leadership.RuleFails` | `src/internal/presentation/admin_handler.go:130-133` | an operation after which the documented rule does not hold |
| `Leadership.ReleaseExactly` | `src/internal/presentation/admin_handler.go:360-383` | TEAM_LEADER stays exactly where a team is still led or where it is the only role, because the empty role list cannot be stored |
| `Outcomes.CreateUserExactly` | `src/internal/presentation/admin_handler.go:93-157` | row by row: which creations are refused and how, and the one user row and one account row an accepted one adds |
| `Outcomes.DeleteUserExactly` | `src/internal/presentation/admin_handler.go:159-185` | row by row: refused exactly when the user belongs to a team that nobody else leads; else precisely his rows go |
| `Outcomes.CreateTeamExactly` | `src/internal/presentation/admin_handler.go:187-222` | row by row: the team, its one member and leader, and TEAM_LEADER for his account are added and nothing else |
| `Outcomes.DeleteTeamExactly` | `src/internal/presentation/admin_handler.go:224-244` | row by row: precisely the team's rows go, and TEAM_LEADER from leaders who lead nothing else and have another role |
| `Outcomes.AddMemberExactly` | `src/internal/presentation/admin_handler.go:246-266` | row by row: the pair is added or was there, or the request is refused |
| `Outcomes.RemoveMemberExactly` | `src/internal/presentation/admin_handler.go:268-282` | row by row: the pair goes unless the user leads the team |
| `Outcomes.AddLeaderExactly` | `src/internal/presentation/admin_handler.go:284-324` | row by row: only members are made leaders, and get TEAM_LEADER |
| `Outcomes.RemoveLeaderExactly` | `src/internal/presentation/admin_handler.go:326-342` | row by row: refused exactly when the team has no two leaders; the user loses TEAM_LEADER when he leads no other team and has another role |
| `Stores.PgxTeamRepo.Save` | `src/internal/infrastructure/persistence/pgx_team_repo.go:63-102` | one transaction: the name is set and the team's member and leader rows are replaced by exactly the listed users, the rows of other teams untouched, or nothing changes; with the exact condition |
| `Stores.PgxTeamRepo.InsertAll` | `src/internal/infrastructure/persistence/pgx_team_repo.go:81-99` | the insert loop succeeds exactly when primary and foreign keys allow every row |
| `Stores.PgxTeamRepo.Delete` | `src/internal/infrastructure/persistence/pgx_team_repo.go:104-110` | the team goes, and by cascade its members, leaders and repositories; nothing else changes |
| `Stores.PgxTeamRepo.FindByMemberID` | `src/internal/infrastructure/persistence/pgx_team_repo.go:35-61` | the teams the user is a member of, each with all its leaders and members |
| `Stores.PgxTeamRepo.AddMember` | `src/internal/infrastructure/persistence/pgx_team_repo.go:157-165` | the pair is added once; it fails exactly when team or user does not exist |
| `Stores.PgxTeamRepo.RemoveMember` | `src/internal/infrastructure/persistence/pgx_team_repo.go:167-186` | the pair goes unless the user leads the team |
| `Stores.PgxTeamRepo.AddLeader` | `src/internal/infrastructure/persistence/pgx_team_repo.go:188-196` | the pair is added once; it fails exactly when team or user does not exist |
| `Stores.PgxTeamRepo.RemoveLeader` | `src/internal/infrastructure/persistence/pgx_team_repo.go:198-216` | the pair goes only if the team has more than one leader |
| `Stores.PgxUserRepo.Save` | `src/internal/infrastructure/persistence/pgx_user_repo.go:124-134` | insert or overwrite by identifier, refused exactly when another user has the name |
| `Stores.PgxUserRepo.Delete` | `src/internal/infrastructure/persistence/pgx_user_repo.go:136-142` | the user goes, and by cascade accounts, memberships, leaderships and platform usernames; nothing else changes |
| `Stores.PgxUserAccountRepo.Save` | `src/internal/infrastructure/persistence/pgx_user_account_repo.go:35-46` | insert or overwrite by identifier, refused exactly when the name is taken, the user is missing or the role set is empty |
| `Stores.PgxUserAccountRepo.Delete` | `src/internal/infrastructure/persistence/pgx_user_account_repo.go:48-54` | all accounts of the user go |
| `AdminHandlers.AdminHandler.CreateUser` | `src/internal/presentation/admin_handler.go:93-157` | refused with the right response exactly for missing values, a failed hash or a name in use, the tables then being as before; else one user row and one account row with the given values are added |
| `AdminHandlers.AdminHandler.DeleteUser` | `src/internal/presentation/admin_handler.go:159-185` | refused exactly when the user is a member of a team he alone leads; else the user is gone with every account and pair that referred to him, and no other row is |
| `AdminHandlers.AdminHandler.CreateTeam` | `src/internal/presentation/admin_handler.go:187-222` | on any tables that meet the schema the handler saves the team and grants the role to an account of the leader, whichever comes first |
| `AdminHandlers.AdminHandler.DeleteTeam` | `src/internal/presentation/admin_handler.go:224-244` | on any tables that meet the schema the handler deletes the team and releases each former leader once, in some order |
| `AdminHandlers.AdminHandler.AddMember` | `src/internal/presentation/admin_handler.go:246-266` | the pair is added, or was there, exactly when team and user exist; nothing else changes |
| `AdminHandlers.AdminHandler.RemoveMember` | `src/internal/presentation/admin_handler.go:268-282` | the pair goes unless the user leads the team; nothing else changes |
| `AdminHandlers.AdminHandler.AddLeader` | `src/internal/presentation/admin_handler.go:284-324` | on any tables that meet the schema: the membership check, the insert and the grant |
| `AdminHandlers.AdminHandler.RemoveLeader` | `src/internal/presentation/admin_handler.go:326-342` | on any tables that meet the schema: the delete and the release |
| `AdminHandlers.AdminHandler.EnsureLeaderRole` | `src/internal/presentation/admin_handler.go:344-358` | exactly one account of the user, the first one found, gains TEAM_LEADER |
| `AdminHandlers.AdminHandler.RemoveLeaderRoleIfOrphaned` | `src/internal/presentation/admin_handler.go:360-383` | exactly one holder among the accounts of the user, the first one found, loses TEAM_LEADER, if the user leads no team and the rest of the roles can be stored |
| `AdminHandlers.PermitsOnce` | `src/internal/presentation/admin_handler.go:93-383` | where no user has two accounts, as in every run, what the handlers permit is exactly the outcome of the operation |
| `AdminHandlers.PermitsExactly` | `src/internal/presentation/admin_handler.go:187-383` | where no user has two accounts, every outcome the handlers may have is the operation's, row by row |
| `AdminHandlers.InvIsSound` | `src/internal/presentation/admin_handler.go:344-383` | every state of every run meets the schema and gives no user two accounts |
| `AdminHandlers.SoleSomewhere` | `src/internal/presentation/admin_handler.go:162-172` | the nested loops find a team the user leads alone exactly when there is one among the user's teams |
| `AdminHandlers.Compensated` | `src/internal/presentation/admin_handler.go:143-147` | deleting the just created user restores the tables, because nothing refers to it yet |
| `AdminHandlers.ReleaseMore` | `src/internal/presentation/admin_handler.go:239-241` | releasing leaders one after the other is releasing them together |
| `RepositoryStore.PgxRepositoryStore.Save` | `src/internal/infrastructure/persistence/pgx_repository_store.go:54-64` | insert or overwrite by identifier, refused exactly when another row has the name |
| `RepositoryStore.PgxRepositoryStore.Upsert` | `src/internal/infrastructure/persistence/pgx_repository_store.go:66-81` | the row of that name is overwritten, or the row inserted unless its identifier is in use; names stay unique |
| `RepositoryStore.PgxRepositoryStore.UpsertAll` | `src/internal/application/report_service.go:126-133` | the loop of a report over its discovered repositories |
| `RepositoryStore.UpsertRow` | `src/internal/infrastructure/persistence/pgx_repository_store.go:66-81` | a row of the same name takes over name, address and token and keeps its identity; any other row stays |
| `RepositoryStore.UpsertNew` | `src/internal/infrastructure/persistence/pgx_repository_store.go:66-81` | the upserted row is new exactly when neither its name nor its identifier is in use |
| `RepositoryStore.RowAfter` | `src/internal/application/report_service.go:126-133` | after a whole discovery a stored row has name, address and token of the last finding of it, or is as it was |
| `RepositoryStore.TokenAfter` | `src/internal/infrastructure/persistence/pgx_repository_store.go:66-81` | a discovered row loses its token, any other keeps it, and identity and name stay |
| `RepositoryStore.TokensSurviveExactly` | `src/internal/application/report_service.go:126-133` | a report leaves every stored token as it was if and only if it discovers no repository that has one |
| `RepositoryStore.TokenLost` | `src/internal/application/report_service.go:126-133` | a stored row whose token is lost because the report discovers its repository |
| `RepositoryStore.DiscoveryKeeps` | `src/internal/infrastructure/persistence/pgx_repository_store.go:66-81` | discovery removes no row and keeps names unique |
| `NextReport.BearersAfter` | `src/internal/application/report_service.go:80-97` | after a discovery the token-bearing repositories are exactly those that bore one before and were not found |
| `NextReport.LoadedExactly` | `src/internal/application/report_service.go:80-97` | exactly the stored rows with these identifiers are loaded, value by value |
| `NextReport.NextPageLacksDiscovered` | `src/internal/application/report_service.go:80-133` | the page of the next report shows the contributions of the repositories this report did not discover, and nothing of the others |
| `Backup.ExportRestores` | `src/internal/infrastructure/persistence/pgx_backup_repo.go:22-169` | for every database that meets the schema and every order of rows, the export is accepted by a restore if and only if every account has a role, and loads back into the same tables |
| `Backup.SecondTripChangesNothing` | `src/internal/infrastructure/persistence/pgx_backup_repo.go:22-169` | after any accepted file a further export is accepted and changes nothing |
| `Backup.RestoredExactly` | `src/internal/infrastructure/persistence/pgx_backup_repo.go:90-166` | row by row what a file restores: each user, account, setting and team as it stands, and for each team exactly the members, leaders and repositories it lists |
| `Backup.CodedBack` | `src/internal/infrastructure/persistence/pgx_backup_repo.go:54-58` | an exported token always decodes to the stored one, so it is never kept as it is, and empty tokens stay empty |
| `Backup.KeptExactly` | `src/internal/infrastructure/persistence/pgx_backup_repo.go:117-123` | a token in a file is stored as it stands if and only if it is empty or, line breaks left out, no well-formed code: whole groups of four digits with at most two bytes of padding at the end |
| `Backup.PlainTokenMisread` | `src/internal/infrastructure/persistence/pgx_backup_repo.go:117-123` | a plain token in a file that is changed because it happens to decode |
| `BackupRepo.PgxBackupRepo.Export` | `src/internal/infrastructure/persistence/pgx_backup_repo.go:22-71` | the file lists every row of every table once, in some order, with its tokens coded |
| `BackupRepo.PgxBackupRepo.CodeTokens` | `src/internal/infrastructure/persistence/pgx_backup_repo.go:54-58` | the loop codes every non-empty token in place and nothing else |
| `BackupRepo.PgxBackupRepo.Restore` | `src/internal/infrastructure/persistence/pgx_backup_repo.go:73-169` | succeeds exactly on acceptable files, replacing all tables by the file's; otherwise the tables are unchanged |
| `BackupRepo.InsertsExactly` | `src/internal/infrastructure/persistence/pgx_backup_repo.go:90-166` | no insert, row by row, violates a key exactly when identifiers are distinct and the resulting tables meet the whole schema with a role for every account |
| `BackupRepo.PgxBackupRepo.InsertUsers` | `src/internal/infrastructure/persistence/pgx_backup_repo.go:90-105` | the loop succeeds exactly when identifiers and usernames are distinct, and fills both user tables |
| `BackupRepo.PgxBackupRepo.InsertAccounts` | `src/internal/infrastructure/persistence/pgx_backup_repo.go:107-115` | the loop succeeds exactly when identifiers and names are distinct, users exist and roles are not empty |
| `BackupRepo.PgxBackupRepo.InsertRepos` | `src/internal/infrastructure/persistence/pgx_backup_repo.go:117-130` | the loop decodes tokens and succeeds exactly when identifiers and names are distinct and tokens are text |
| `BackupRepo.PgxBackupRepo.InsertTeams` | `src/internal/infrastructure/persistence/pgx_backup_repo.go:132-158` | the nested loops succeed exactly when no key repeats and all users and repositories exist |
| `BackupRepo.Refused` | `src/internal/infrastructure/persistence/pgx_backup_repo.go:90-166` | one violation at whatever row means that the whole list cannot be inserted |
| `Base64.RoundTrip` | `src/internal/infrastructure/persistence/pgx_backup_repo.go:54-58` | decoding undoes encoding for byte strings of every length, every padding case included |
| `Base64.DecodesExactly` | `src/internal/infrastructure/persistence/pgx_backup_repo.go:117-123` | a text decodes if and only if, line breaks left out, it is well formed |
| `Base64.DecodedShorter` | `src/internal/infrastructure/persistence/pgx_backup_repo.go:117-123` | what a text decodes to is shorter, so no token decodes to itself |
| `Base64.EncodedLength` | `src/internal/infrastructure/persistence/pgx_backup_repo.go:54-58` | four digits for every three bytes begun, so only the empty token has an empty code |
| `Base64.GroupBack` | `src/internal/infrastructure/persistence/pgx_backup_repo.go:117-123` | a group of one, two or three bytes comes back from its digits and padding |
| `Base64.DigitsAreAlphabet` | `src/internal/infrastructure/persistence/pgx_backup_repo.go:54-58` | the digits are the alphabet of Table 1 of RFC 4648 |
| `Base64.GroupIsNumber` | `src/internal/infrastructure/persistence/pgx_backup_repo.go:54-58` | the digits of a group are, as a number, its bytes, filled up with zero bits and padding |
| `Base64.BreaksIgnored` | `src/internal/infrastructure/persistence/pgx_backup_repo.go:117-123` | line breaks anywhere in a code make no difference |
| `Migrator.Database.RunMigrations` | `src/internal/infrastructure/persistence/migrator.go:25-75` | the run, from the bookkeeping table and the listing to wherever it stops, has the outcome of the specified run over the one listing of the directory |
| `Migrator.Database.Migrate` | `src/internal/infrastructure/persistence/migrator.go:38-73` | one file: checked, applied and recorded in one transaction, or nothing |
| `Migrator.Database.ListFiles` | `src/internal/infrastructure/persistence/migrator.go:25-36` | exactly the names of files, not directories, that end in .sql, in sorted order |
| `Migrator.SqlExtension` | `src/internal/infrastructure/persistence/migrator.go:32-32` | a file has the extension exactly when its name ends in .sql |
| `Migrator.BeforeExactly` | `src/internal/infrastructure/persistence/migrator.go:36-36` | one name sorts before another if and only if it begins it or has the smaller character at the first difference |
| `Migrator.AlwaysPrefix` | `src/internal/infrastructure/persistence/migrator.go:38-73` | after any number of runs failing before the files or at any step of them, exactly a prefix of the sorted files is recorded and the schema is that prefix applied in order, each file once |
| `Migrator.RunHolds` | `src/internal/infrastructure/persistence/migrator.go:38-73` | a run never shortens the prefix, and reports success only with every file applied |
| `Migrator.CleanRunCompletes` | `src/internal/infrastructure/persistence/migrator.go:38-75` | a run in which nothing goes wrong completes the list, whatever happened before, if and only if the files can be applied |
| `Migrator.FurtherRunChangesNothing` | `src/internal/infrastructure/persistence/migrator.go:38-46` | once everything is recorded no run changes anything |
| `Migrator.NeverTwice` | `src/internal/infrastructure/persistence/migrator.go:38-73` | over changing directories no file name is ever applied twice, and what is recorded is what made the schema |
| `Migrator.LaterFiles` | `src/internal/infrastructure/persistence/migrator.go:25-38` | the files of one directory are the first files of a later one if and only if the later one keeps every migration unchanged and adds only names that sort behind them; what is recorded then stays a prefix |
| `Paging.ChainWalked` | `src/internal/infrastructure/github/client.go:62-98` | a chain of pages is collected exactly, in order, to its end |
| `Paging.NeverTwice` | `src/internal/infrastructure/gitlab/client.go:60-95` | a loop that ends never asks for the same address twice, whatever the server answers |
| `Paging.WalkBodies` | `src/internal/infrastructure/gitlab/client.go:67-94` | a walk succeeds if and only if every request on it did, and gives their bodies in the order of the requests |
| `GitLabPaging.NextPageURL` | `src/internal/infrastructure/gitlab/client.go:99-137` | the loops and string operations give the address whose parameters are those of the old one with the page turned |
| `GitLabPaging.NextPageLaws` | `src/internal/infrastructure/gitlab/client.go:99-137` | for every address and every token without an ampersand, digits above all: the text before the query stays, every page parameter carries the token where it stood, every other parameter keeps value and place, and without a page parameter one is put at the end |
| `GitLabPaging.NextOfNext` | `src/internal/infrastructure/gitlab/client.go:99-137` | only the last token counts |
| `GitLabPaging.Reassembled` | `src/internal/infrastructure/gitlab/client.go:104-129` | every address is the address of its head and parameters |
| `GitLabPaging.Request` | `src/internal/infrastructure/gitlab/client.go:68-91` | a request succeeds if and only if a reply came with a status in 200 to 299; the body is then the reply's, and the next address the same one with its page turned, or none |
| `GitLabPaging.BodiesAreReplies` | `src/internal/infrastructure/gitlab/client.go:67-94` | all pages are given if and only if every reply on the way came with a status in 200 to 299, and they are the bodies of those replies in order |
| `NumberedPages.NumberOfDigits` | `src/internal/infrastructure/gitlab/client.go:91-91` | decimal page numbers are read back as they were printed |
| `Paging.GetAll` | `src/internal/infrastructure/gitlab/client.go:60-95` | the loop, the same in both clients, on any server, watched for any number of requests: the first goes to the given address, a relative one under the base address; it has ended by then if and only if the addresses lead to an end or a failure, with all bodies in order or none; the addresses requested are exactly those the answers name |
| `Paging.AskedForEver` | `src/internal/infrastructure/gitlab/client.go:67-92` | while the addresses lead on, every further request is made: a server without a last page is asked for ever |
| `NumberedPages.PagesInOrder` | `src/internal/infrastructure/gitlab/client.go:60-95` | against any server with pages 1 to n that reads the page from the address, in whatever way that understands unambiguous addresses: all bodies from the asked page on, in order, each asked for once by the original address with nothing but the page changed |
| `NumberedPages.PagesFrom` | `src/internal/infrastructure/gitlab/client.go:60-95` | the same from right answers to the requests actually made, with nothing demanded of the server at any other address |
| `NumberedPages.ReaderExactly` | `src/internal/infrastructure/gitlab/client.go:60-95` | a server that takes some parameters for the page and goes by the first or last of them understands the addresses of the loop if and only if it takes none of the other parameters for the page |
| `NumberedPages.PlainReader` | `src/internal/infrastructure/gitlab/client.go:60-95` | a server that goes by the first or by the last page parameter understands every address |
| `NumberedPages.DecodingReaderExactly` | `src/internal/infrastructure/gitlab/client_test.go:50-72` | a server that decodes its query understands an address if and only if no other parameter decodes to a page parameter |
| `GitHubPaging.MatchExactly` | `src/internal/infrastructure/github/client.go:101-101` | the matcher at one place finds exactly what the regular expression describes |
| `GitHubPaging.Leftmost` | `src/internal/infrastructure/github/client.go:104-113` | the match found is the leftmost, and none is found only when there is none |
| `GitHubPaging.ParsedIsNext` | `src/internal/infrastructure/github/client.go:104-113` | for every printed list of links, with addresses free of angle brackets and plain relations, the address of the first link with relation next comes back, or nothing if there is none |
| `GitHubPaging.Request` | `src/internal/infrastructure/github/client.go:70-113` | a request succeeds if and only if a reply came with a status in 200 to 299; the body is then the reply's, and the next address that of the first link the expression describes anywhere in the header, none exactly when it describes none |
| `GitHubPaging.BodiesAreReplies` | `src/internal/infrastructure/github/client.go:69-97` | all pages are given if and only if every reply on the way came with a status in 200 to 299, and they are the bodies of those replies in order |
| `GitHubPaging.LinksWalked` | `src/internal/infrastructure/github/client.go:62-98` | any finite chain of linked pages is collected exactly, in order, each page asked for once |

## Left out

- HTTP, TLS, routing, the login path, tokens and password hashing, and the middleware's permission checks: wrappers over libraries, or settled by reading a branch. A hash that could not be made is a parameter of `CreateUser`.
- Browser.Faithful: takes the codec to carry whole activities, while `ActivityToDTO` (src/internal/presentation/dto.go:155-166) prints the clock time of `createdAt` with a literal Z, so that its offset and its fractions of a second do not travel.
- JSON: the codec is a parameter that is assumed to parse what it marshalled and to print one non-empty line. Strings are sequences of Unicode scalar values; a byte order mark at the start of a stream, which the browser's decoder would drop, cannot occur because every stream starts with a frame.
- The database driver and SQL: tables are maps and sets with the keys, foreign keys and cascades of the migrations. Platform usernames and team repositories take part in the admin operations through their cascades only. PostgreSQL text is assumed to hold no NUL.
- Concurrent admin requests: the check-then-write pairs are not transactional, so every operation runs alone. Generated identifiers are assumed not to collide.
- Leadership.AlwaysInv: is about the eight operations, and `Leadership.Apply` is what they do where no user has two accounts. A restore replaces all tables by whatever acceptable file it is given, and such a file may hold a team without leaders or a user with two accounts; for those tables `AdminHandlers.Permits` says what the handlers do.
- Errors of the store itself (a lost connection in the middle of a handler) are not modelled in the admin handlers, only refusals by constraints; in the migrator they are, at every step.
- Migrator.Database.Migrate: a file whose statements end the transaction themselves is not modelled; statements are a function of schema and text that may refuse.
- BackupRepo.PgxBackupRepo.Restore: the order of the DELETE statements is not modelled, because every foreign key cascades and the tables end up empty in any order. Columns other than the token are taken to be text the database accepts.
- Paging.GetAll: the number of requests it is watched for is a parameter the source does not have; its loop is bounded by nothing but the answers. Responses of one server are taken to depend on the address alone.
- GitLabPaging.Request: works on the address as given, while the source takes the address as `url.URL` prints it after parsing; an address that is printed differently from how it was written is not modelled.
- What a server does with `since` and `until`, and how a response becomes items: servers are functions from the request to lists of items. `url.Parse` is not modelled; whether a web URL parses and its path are given.
- GitHubFetchers.GitHubFetcher.SearchEach: fetching pages and converting them are two loops in the source and one here; the result is the same list.
- Reports.PageShowsEveryRepository: is for searches that succeed (one that panics on a web URL without a path ends the program) and servers whose answers do not depend on the token. When a call fails, `Gather.WaitGathersAll` says what is still there. Discovery writes to the store while a report runs, but the report works on the repositories it loaded.
- EndToEnd.EveryReportArrives: a client that leaves also cancels the request, so that calls made after it may fail; the model lets them answer as before. What is written to nobody is the only thing that differs.
- Counting.ComputeScore: weights and scores are exact rationals, not floating point numbers.
- Slices that share memory after an append, and `append` growing in place, are modelled on values; the goroutines' races are modelled through separate loads and stores.
- A write of a frame either happens or fails as a whole; half a frame followed by more frames is not modelled.
- The chosen member of a query is not checked against the team by the source either, so nothing is claimed about it.
- Local time zones: dates are taken in UTC, as the source prints them. Years that are not printed with four digits are modelled as dates, not as text.
- DOM, HTML, styles, forms, aborting a request, configuration, profile and list handlers, the registry and the value types: only easy members.
