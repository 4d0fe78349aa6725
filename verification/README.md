# A verified model of YAAMon's stateful cores

YAAMon manages AllStarLink nodes: a Go server over one SQLite file, talking to Asterisk
through its manager interface (AMI). This project models the parts of it whose behaviour
spans many steps, and proves what they keep over whole runs.

- **Declarative state** (`Sql`, `Statements`, `Database`, `ApplySpec`, `Apply`, and the laws about them):
  the three tables with fresh ids, unique user names and cascading deletes; the loops of
  `yaamon apply` as imperative methods proved equal to a specification of a whole run; and
  about that specification conservation, convergence, idempotence, dry-run exactness, and why a
  run stops.
  Any statement may fail at any moment: conservation and the purge laws cover runs an error
  stopped, the others say which failures they allow.
- **AMI** (`AmiWire`, `AmiOutput`, `AmiRouting`, `AmiRuns`, `AmiClient`, `Links`): the block printer and the
  reader are inverse; two output encodings mean the same; replies find their callers under
  every interleaving of callers, read loop, reconnects and timeouts.
- **Text** (`Text`, `Commands`, `Ini`, `IniRoundTrip`, `IniDocuments`): when command templates are
  filled the same in every map order; the favorites file is read back as it was written, and
  files of other programs as they say.
- **Favorites** (`FavoriteLists`, `FavoriteCopy`, `Import`, `ExportImport`): appending, reordering,
  copying and importing, against the listing by (position, id).
- **Small machines** (`LinksCache`, `Limiter`, `Adaptive`, `Migrations`, `Broker`): each method
  refines one step, and the theorems are about all sequences of steps.

Each method that changes state is proved against a function of the old state; the lemmas are
about those functions. Time is a natural number of nanoseconds that does not decrease. A
locked section, a channel operation or an SQL transaction is one step. `Env` decides what the
program does not: which statements fail, how many rows a failing query has handed out by then
(two callers use those), and what a salted password hash comes out as.

Two statements of the documentation are not true of the code without a condition, and the
model keeps to the code:

- `apply` is called idempotent (docs/configuration/declarative-state.md:15). When no statement
  fails, a second run without a password reset reports no change if and only if no two entries
  of the file contradict each other (`Idempotence.IdempotentWhenNothingFails`); a file that
  contradicts itself reports a change on every finished run
  (`Idempotence.ContradictionAlwaysReported`, `Limits.ContradictionNeverSettles`).
  The user purge ignores an error of its superuser count (internal/state/apply.go:245), so a
  finished run settles the users exactly if those counts were right (`Convergence.CountsHold`:
  none failed, or one and no superuser is listed); `Limits.FailedCountsSpareTwo` is a run where
  they were not. `Idempotence.SecondRunIsQuiet` has the condition for a second run of its own.
- A dry run is said to print the planned changes (docs/reference/cli.md:56). Its counts miss the
  favorites under nodes it would create (`Limits.NewFavoriteNotForetold`), and may announce one
  superuser deletion too many (`Limits.OneTooManyForetold`) or one too few
  (`Limits.OneTooFewForetold`); a new user listed twice is announced twice
  (`Limits.OneCreationTooMany`). For files whose real run finishes, with distinct node and
  favorite numbers and with no statement failing, `DryRun.DryRunForetells` says exactly when and
  by how much. A dry run does not hash: it announces a new user whose short password stops the
  real run (`Limits.ShortPasswordNotForetold`).

More places where an expectation needs its condition, each with an input that fails it:

- The purge never deletes the last superuser, as it says (`Convergence.LastSuperuserKept`), but an
  entry of the file may demote it (`Limits.LastSuperuserDemoted`). A finished run leaves a
  superuser exactly if the file makes one or there was one it does not name
  (`Convergence.SuperuserLeftExactly`).
- A command's arguments are replaced in the map's order. Every order gives the same text for
  every template exactly if the arguments are independent (`Commands.ConfluentExactly`,
  `Commands.OrderMattersForBracedValues`).
- The import ignores an error of its listing (internal/server/backup.go:196) and uses the rows read
  so far. It keeps the node's numbers unique if these named every parsed number that was there
  and, when its inserts go through, only then (`Import.FileKeepsUnique`,
  `Import.UnreadListingRepeats`).
- The copy does not notice when reading the target's numbers breaks off
  (internal/db/favorites.go:119-125), and keeps them unique under the same kind of condition
  (`FavoriteCopy.CopyKeepsUnique`, `FavoriteCopy.BrokenReadRepeats`).
- Migration 6 ignores an error of its column query (internal/db/tailscale.go:25) and then does not
  drop the column, though version 6 is recorded. A file holds just a prefix of the migrations
  if and only if no open of it lost that query (`Migrations.PrefixKeptExactly`,
  `Migrations.LostQueryGoesUnnoticed`).

## Model

| member | source | states |
|---|---|---|
| `Databases.Database.constructor` | internal/db/db.go:140-189 | a new file has three empty tables and ids from 1 |
| `Databases.Database.GetUser` | internal/db/users.go:65-77 | the user row of a name, not-found, or a failed statement; nothing but the statement clock changes |
| `Databases.Database.ListUsers` | internal/db/users.go:93-110 | all users ordered by name |
| `Databases.Database.CreateUser` | internal/db/users.go:112-123 | a new user row under a fresh id; refused, like a failed statement, when the name is taken |
| `Databases.Database.UpdateUserPermission` | internal/db/users.go:139-144 | only the permission of that id changes |
| `Databases.Database.UpdateUserPassword` | internal/db/users.go:132-137 | only the password of that id changes |
| `Databases.Database.DeleteUser` | internal/db/users.go:182-186 | that id is gone, every other row stays |
| `Databases.Database.CountSuperusers` | internal/db/users.go:195-199 | how many rows have the superuser permission |
| `Databases.Database.GetNodeByNumber` | internal/db/nodes.go:39-47 | the first row of a number; numbers need not be unique |
| `Databases.Database.ListNodes` | internal/db/nodes.go:59-75 | all nodes in listing order |
| `Databases.Database.CreateNode` | internal/db/nodes.go:77-93 | a new node row under a fresh id |
| `Databases.Database.UpdateNode` | internal/db/nodes.go:95-106 | the whole row is rewritten, description and location included |
| `Databases.Database.DeleteNode` | internal/db/nodes.go:108-111 | the node goes, and with it every favorite of that node |
| `Databases.Database.ListFavoritesByNode` | internal/db/favorites.go:35-51 | the favorites of one node by (position, id); with an error, the rows read so far |
| `Databases.Database.GetFavoriteByNodeNumber` | internal/db/favorites.go:53-61 | the favorite of a node with a number |
| `Databases.Database.CreateFavorite` | internal/db/favorites.go:63-76 | a row behind all positions of its node; refused when the node does not exist |
| `Databases.Database.UpdateFavorite` | internal/db/favorites.go:78-85 | everything but the owning node and the position is rewritten |
| `Databases.Database.DeleteFavorite` | internal/db/favorites.go:159-162 | that id is gone, every other row stays |
| `Sql.ListingsOrdered` | internal/db/users.go:93-110 | the listings of users and nodes hold every row, and of two neighbours the name of the first begins that of the second or has the smaller character where they first differ |
| `Statements.UserUpdates` | internal/db/users.go:132-144 | an update of a user sets that one column of the row with the id, if there is one, and succeeds either way |
| `Statements.NodeUpdates` | internal/db/nodes.go:95-106 | an update of a node sets every column of the row with the id and of no other |
| `Statements.FavoriteUpdates` | internal/db/favorites.go:78-85 | an update of a favorite sets its number and six columns; the owning node, the position and all other rows stay |
| `Statements.Inserts` | internal/db/favorites.go:63-76 | an insert adds one row with the given columns under an id no row has, or is refused: a user whose name is taken, a favorite without node; a favorite stands behind all others of its node |
| `Apply.Apply` | internal/state/apply.go:154-169 | the nested loops leave exactly the tables, report and error of the specified run |
| `Apply.ApplyUsers` | internal/state/apply.go:171-264 | both user loops and the check loop refine the users phase of the specification |
| `Apply.UpsertUser` | internal/state/apply.go:183-232 | one pass of the user loop: create, change permission, reset password, or stop with the error |
| `Apply.PurgeUnlistedUser` | internal/state/apply.go:239-260 | one pass of the purge loop, with the guard that ignores a failed count |
| `Apply.ApplyNodes` | internal/state/apply.go:266-357 | both node loops refine the nodes phase |
| `Apply.UpsertNode` | internal/state/apply.go:275-333 | one pass: defaulted host and port, create or update, then favorites - but no favorites for a node a dry run would create |
| `Apply.PurgeUnlistedNode` | internal/state/apply.go:340-353 | one pass of the node purge |
| `Apply.ApplyFavorites` | internal/state/apply.go:359-436 | the favorites of one node: upserts, then the purge |
| `Apply.UpsertFav` | internal/state/apply.go:371-411 | one pass of the favorites loop |
| `Apply.PurgeUnlistedFavs` | internal/state/apply.go:417-433 | the purge loop over one node's favorites |
| `Apply.PurgeUnlistedFav` | internal/state/apply.go:421-432 | one pass of that loop |
| `UserLaws.UpsertUserFacts` | internal/state/apply.go:183-232 | one entry changes only its own user: row synced, other rows found as before, report off by exactly the row change |
| `UserLaws.StoppedEntry` | internal/state/apply.go:183-232 | an entry that stops the run creates nobody and changes no password; the permission comes first, so at a password that cannot be hashed it is set already |
| `UserLaws.UpsertUsersApplied` | internal/state/apply.go:183-232 | after the loop a listed user is as its last entry says; id and profile survive, and the password without a reset; a new user has the password of the first entry, after a reset that of the last |
| `UserPurgeLaws.PurgeUserFacts` | internal/state/apply.go:239-260 | a purge step deletes only an unlisted user and never takes the superuser count from positive to zero |
| `UserPurgeLaws.PurgeUsersSpares` | internal/state/apply.go:239-260 | an unlisted user left by a loop that finishes is a superuser, whichever statements failed |
| `UserPurgeLaws.RealPurgeCount` | internal/state/apply.go:239-260 | exactly how many users a finished real purge deletes and how many superusers it leaves, as a function of the failed counts |
| `UserPurgeLaws.DryPurgeCount` | internal/state/apply.go:239-260 | exactly how many the dry purge reports, superusers counted against an unchanged table |
| `FavPhaseLaws.ApplyFavoritesOutcome` | internal/state/apply.go:359-436 | each favorite number after the pass: as its last entry says, untouched when unlisted, or purged |
| `FavPhaseLaws.FavoritesPurgedLast` | internal/state/apply.go:371-433 | in any real pass, stopped early or not, no favorite is purged before every listed one is there |
| `FavPhaseLaws.ApplyFavoritesReport` | internal/state/apply.go:359-436 | the counts of a pass follow from the node's favorites before it |
| `FavPhaseLaws.ApplyFavoritesDry` | internal/state/apply.go:371-432 | the dry pass changes no table and gives the same counts |
| `NodeLaws.RowRunFacts` | internal/state/apply.go:283-327 | a node entry sets exactly its own row; other lookups, favorites and users stay |
| `NodeLaws.UpsertNodeFacts` | internal/state/apply.go:283-333 | a node pass, finished or not, keeps all constraints, all balances and every other node and its favorites |
| `NodeLaws.RowComesFirst` | internal/state/apply.go:283-333 | a pass that leaves the node's row other than declared stopped at it and changed nothing, no favorite either |
| `SettledLaws.PassSettles` | internal/state/apply.go:275-333 | a finished pass leaves its node and its last favorites entries as declared |
| `SettledLaws.PassKeeps` | internal/state/apply.go:275-333 | a pass keeps every other entry settled that does not contradict it |
| `SettledLaws.PassUncounted` | internal/state/apply.go:275-333 | a pass that counts nothing found its node already settled |
| `NodePhaseLaws.LoopSettles` | internal/state/apply.go:275-333 | after the loop the last entry of each number is settled |
| `NodePurgeLaws.PurgeNodesFacts` | internal/state/apply.go:340-353 | the node purge deletes only unlisted nodes, and favorites exactly by cascade |
| `Conservation.UsersConserved` | internal/state/apply.go:183-261 | rows after = rows before + created - deleted for users, on every path and every failure |
| `Conservation.RowsConserved` | internal/state/apply.go:154-169 | the same for all three tables over any real run, even one an error stopped; favorites less exactly those whose node was deleted |
| `Convergence.UsersConverge` | internal/state/apply.go:171-264 | listed users as declared; with the purge on, any unlisted one left is a superuser, and the only one if the counts were right |
| `Convergence.RealPurgeReport` | internal/state/apply.go:234-261 | the purge phase in numbers: deletions and superusers left, in closed form |
| `Convergence.PurgeConvergesExactly` | internal/state/apply.go:239-260 | a finished purge leaves none but the only superuser unlisted, exactly when no count failed, or one and no superuser is listed |
| `Convergence.PurgeQuietExactly` | internal/state/apply.go:239-260 | a finished purge deletes nobody exactly when no plain user is unlisted and it keeps the superusers: all its counts failed, or there is but one superuser |
| `Convergence.SuperuserLeftExactly` | internal/state/apply.go:171-264 | a finished run leaves a superuser exactly when the last entry of some name makes one or there was one the file does not name |
| `Convergence.UsersPhaseIsFinal` | internal/state/apply.go:154-169 | nothing after the users phase touches a user, so convergence of users is that of the run |
| `Convergence.LastSuperuserKept` | internal/state/apply.go:243-250 | the purge never takes the last superuser, whichever statements fail |
| `Convergence.NodesConverge` | internal/state/apply.go:275-354 | after a finished run each number's last entry is settled and with the purge on no other node is left |
| `Convergence.NodesDeclared` | internal/state/apply.go:283-327 | after a finished real run the row found under each number has the name, host, port, AMI user, password and enabled flag of its last entry, the host "localhost" if it gives none and the port 5038 if 0 |
| `Convergence.FavoritesDeclared` | internal/state/apply.go:371-411 | and the favorite found under that node and number has the callsign, description, location and group of its last entry, the group "default" if it gives none |
| `Convergence.UnlistedNodesKept` | internal/state/apply.go:275-333 | without the node purge no node loses its id and an unlisted one keeps its row and favorites |
| `Convergence.NothingDeletedWithoutPurge` | internal/state/apply.go:234-261 | with every purge off a run deletes nothing |
| `Convergence.UsersPurgedLast` | internal/state/apply.go:183-261 | in any real run no user is purged before every listed user is there |
| `Convergence.NodesPurgedLast` | internal/state/apply.go:275-354 | and no node before every listed node is |
| `Idempotence.RunSound` | internal/state/apply.go:154-169 | a run keeps the constraints and the uniqueness of node and favorite numbers |
| `Idempotence.SettledRunIsQuiet` | internal/state/apply.go:154-169 | on a database that is as the file says, a run real or dry changes no row and reports nothing |
| `Idempotence.QuietRunWasSettled` | internal/state/apply.go:154-169 | a finished real run that reports nothing found every listed entry as the file says, and the whole database exactly if its counts were right |
| `Idempotence.AgreeingFileSettles` | internal/state/apply.go:154-169 | a finished run settles every entry of a file that does not contradict itself and leaves no plain user unlisted, and settles the database exactly if its counts were right |
| `Idempotence.SettledFileAgrees` | internal/state/apply.go:154-169 | entries that are all as the file says do not contradict each other |
| `Idempotence.ContradictionAlwaysReported` | internal/state/apply.go:154-169 | every finished real run of a file that contradicts itself reports a change |
| `Idempotence.SecondRunFinishes` | internal/state/apply.go:154-169 | after a finished run the second one, with no failing statement, finishes |
| `Idempotence.SecondRunIsQuiet` | internal/state/apply.go:154-169 | the second of two finished runs reports zero, and changes no row, if and only if the file does not contradict itself and its own purge keeps the superusers there are; sufficient for that is that the first run's counts were right, and necessary if its own were |
| `Idempotence.IdempotentWhenNothingFails` | internal/state/apply.go:154-169 | when nothing fails the second run finishes, and reports zero if and only if the file does not contradict itself |
| `Limits.ContradictionNeverSettles` | internal/state/apply.go:183-232 | an input: a file listing a user twice with different permissions, of which every finished run reports a change |
| `Limits.LastSuperuserDemoted` | internal/state/apply.go:207-215 | an input: a finished run that demotes the only superuser |
| `Limits.FailedCountsSpareTwo` | internal/state/apply.go:243-250 | an input: a finished purge that reports nothing and keeps two unlisted superusers, both counts having failed |
| `Limits.OneTooManyForetold` | internal/state/apply.go:243-259 | an input: two unlisted superusers, of whom the dry run announces two deletions and the real run makes one |
| `Limits.OneTooFewForetold` | internal/state/apply.go:243-259 | an input: one unlisted superuser and a file that makes another; the dry run announces none and the real run deletes one |
| `Limits.NewFavoriteNotForetold` | internal/state/apply.go:285-305 | an input: the favorite of a new node, created and not announced |
| `Limits.OneCreationTooMany` | internal/state/apply.go:183-201 | an input: a new user listed twice, announced twice and created once |
| `Limits.ShortPasswordNotForetold` | internal/state/apply.go:185-194 | an input: a new user with a short password, announced though the real run stops at it |
| `Errors.BadUserRefused` | internal/state/apply.go:172-181 | the first user entry without name or with an unknown permission is told before any statement, and the run has done nothing |
| `Errors.UpsertUserStops` | internal/state/apply.go:183-232 | one user entry goes through, or stops at its last statement, which failed, or at a password that is too short or that bcrypt refuses |
| `Errors.FavoritesStop` | internal/state/apply.go:359-436 | a favorites list with an entry without number is refused before any statement; otherwise a pass ends at the first failed statement or not before its end |
| `Errors.NodesStop` | internal/state/apply.go:266-357 | a node without number stops the nodes phase before any statement; otherwise the phase ends at a favorite without number, at its first failed statement or not before its end |
| `Errors.WhyRunsStop` | internal/state/apply.go:154-169 | for any file of good users, real or dry: which error a run can end with, and what was wrong then - an entry without number, a password that cannot be hashed, or the failure of the very last statement |
| `Errors.FailureStops` | internal/state/apply.go:239-250 | a failed statement stops the run at once: of all statements of a run as many failed as its purge counted superusers in vain, and one more exactly if it ended with a database error |
| `Errors.FinishesExactly` | internal/state/apply.go:154-169 | a good file whose passwords hash is applied to the end if and only if no statement failed but those counts |
| `DryRun.RealRunFinishes` | internal/state/apply.go:154-169 | nothing failing, the real run of a valid file finishes if the passwords it must hash can be hashed |
| `DryRun.FinishedRunHashed` | internal/state/apply.go:190-227 | a finished run set no password under 8 bytes |
| `DryRun.RepeatsDiffer` | internal/state/apply.go:183-232 | entries against the start and entries against what earlier ones wrote: the creations differ by exactly the repeated entries of new users, and without repeats nothing differs |
| `DryRun.DryRunChangesNothing` | internal/state/apply.go:183-232 | a dry run changes no table, whatever fails |
| `DryRun.DryRunForetells` | internal/state/apply.go:285-305 | when no statement fails and the real run finishes, for distinct node and favorite numbers: the dry report equals the real one but for favorites under new nodes, short by exactly their number; repeated user entries, whose effect is in closed form; and deleted users, each in closed form and equal exactly when a stated condition on the file and the superusers holds |
| `FavoriteLists.ListingIs` | internal/db/favorites.go:35-51 | the listing is the one arrangement of a node's rows sorted by (position, id) |
| `FavoriteLists.CreatedIsLast` | internal/db/favorites.go:63-76 | a created favorite is last in its node's listing and no other listing changes |
| `FavoriteLists.AppendAllLists` | internal/db/favorites.go:63-76 | created one after the other, rows stand behind the old listing in that order |
| `FavoriteLists.AddedAreCopies` | internal/db/favorites.go:145-149 | the added rows carry the copied fields under the new node |
| `FavoriteLists.Reorder` | internal/db/favorites.go:88-105 | the transaction refines its specification: all position updates or none |
| `FavoriteLists.ListedByPosition` | internal/db/favorites.go:35-51 | a listing is ordered by position, and rows of one position by id |
| `FavoriteLists.CreatedPosition` | internal/db/favorites.go:63-76 | a created favorite's position is 0 under a node without favorites, and one more than the largest otherwise |
| `FavoriteLists.ReorderSucceedsExactly` | internal/db/favorites.go:88-105 | a reorder returns no error if and only if none of its statements fails: begin, prepare, one update an id, commit |
| `FavoriteLists.ReorderLists` | internal/db/favorites.go:88-105 | a reorder by any permutation of the node's ids none of whose statements fails leaves the listing exactly that permutation, with the positions from 0 on and every other column as before |
| `FavoriteLists.ReorderElsewhere` | internal/db/favorites.go:88-105 | whatever ids it is given and whatever fails, a reorder changes no other node's listing |
| `FavoriteCopy.Copy` | internal/db/favorites.go:109-157 | the copy loop refines its specification |
| `FavoriteCopy.CopyRow` | internal/db/favorites.go:134-155 | one pass: skip a row of another node or a known number, otherwise insert and remember |
| `FavoriteCopy.NewOnesFacts` | internal/db/favorites.go:133-155 | what is copied: rows of the source, numbers not seen at the target, each once, in request order, none missed |
| `FavoriteCopy.CopyAppends` | internal/db/favorites.go:109-157 | a copy that returns no error: the target lists its old rows and then the copies of the rows that could be read; the count is the rows added; the source and all others list as before |
| `FavoriteCopy.CopySucceedsExactly` | internal/db/favorites.go:109-157 | whichever statements fail: no error is returned if and only if nothing was requested, or the read was not refused, the transaction began, its last statement worked and the target exists or nothing is new |
| `FavoriteCopy.CopyWorksExactly` | internal/db/favorites.go:109-157 | so when no statement fails an error is returned exactly if there is something new for a node that does not exist |
| `FavoriteCopy.CopyCounted` | internal/db/favorites.go:109-157 | a copy that fails changes no table; the count it returns, rolled back or not, is all there was to copy, less the one whose insert failed |
| `FavoriteCopy.CopyToItself` | internal/db/favorites.go:109-157 | a node copied to itself is left alone, its numbers having been read to the end |
| `FavoriteCopy.CopyKeepsUnique` | internal/db/favorites.go:113-155 | numbers unique under the target stay unique exactly if the copy fails or saw each number it came to copy that was there; it saw all when that read did not fail |
| `FavoriteCopy.BrokenReadRepeats` | internal/db/favorites.go:119-125 | an input: the read of the target's numbers breaks off, the copy succeeds and a favorite is listed twice |
| `Ini.ExportINI` | internal/backup/ini.go:14-26 | the buffer holds the header and one entry a favorite |
| `Ini.ParseINI` | internal/backup/ini.go:38-87 | the loop refines the line-by-line specification; numbers are node numbers and never repeat |
| `Ini.ParseLineTidy` | internal/backup/ini.go:43-84 | every line keeps the result free of repeats and equal to the set of seen numbers |
| `Ini.ParsedNumbersDistinct` | internal/backup/ini.go:38-87 | for every input the parsed numbers are distinct |
| `IniRoundTrip.ExportParses` | internal/backup/ini.go:14-87 | parsing an export gives the first of each number with empty labels |
| `IniRoundTrip.FirstOnesFacts` | internal/backup/ini.go:52-60 | those are all the numbers, each once |
| `IniRoundTrip.FirstOnesInOrder` | internal/backup/ini.go:52-60 | and they come in the order of first appearance |
| `IniRoundTrip.ExportLines` | internal/backup/ini.go:14-26 | an exported text line by line: three comments and a blank line, then for each favorite its section, its command with the home node, and a blank line |
| `ExportImport.ExportThenImport` | internal/server/backup.go:190-220 | a node's favorites exported and imported under another node: its list goes on with the numbers it lacked, the first of each, in the exported order |
| `IniDocuments.LabelRead` | internal/backup/ini.go:91-112 | a label whose first word is 3 to 7 letters and digits with a digit among them: that word in capitals is the callsign and the trimmed rest the description; otherwise there is no callsign and all of it is the description |
| `IniDocuments.EveryTextSplits` | internal/backup/ini.go:91-112 | and every label is of one of these kinds |
| `IniDocuments.DocumentRead` | internal/backup/ini.go:38-87 | a file of sections, labels, commands, comments and unknown lines in any order: each new number is read once, with the label before its command |
| `IniDocuments.PaddingIgnored` | internal/backup/ini.go:44-46 | white space around a line changes nothing |
| `IniDocuments.PairsRead` | internal/backup/ini.go:73-84 | a list of label and command pairs with distinct numbers is read as those numbers, each with its label |
| `Import.ImportPreview` | internal/server/backup.go:152-172 | will_add and will_skip partition the parsed list by the numbers the node has |
| `Import.ImportFile` | internal/server/backup.go:196-220 | the import loop refines its specification though it never updates its lookup set |
| `Import.ImportAppends` | internal/server/backup.go:202-220 | whichever statements fail: the created entries stand behind the listing in file order and are counted, and nothing else changes |
| `Import.CreatedFacts` | internal/server/backup.go:208-219 | what is created are parsed entries the listing did not name, each number once, with the entry's callsign and description |
| `Import.ImportStoresEntries` | internal/server/backup.go:208-219 | each row an import appends holds number, callsign and description of a parsed entry, and blanks |
| `Import.CreatedAreSurviving` | internal/server/backup.go:208-219 | under a node that exists exactly those new entries are created whose own insert does not fail, in file order |
| `Import.NewItemsInOrder` | internal/server/backup.go:202-219 | the new entries come in the order of the file |
| `Import.ImportAddsAll` | internal/server/backup.go:202-220 | when inserts go through, an existing node's numbers become the union of old and parsed; the count is the preview's exactly if the listing, read to its end or not, named every parsed number the node has |
| `Import.UniqueWhenNew` | internal/server/backup.go:202-220 | numbers under the node stay unique exactly when none of the created ones was there |
| `Import.ImportKeepsUnique` | internal/server/backup.go:202-220 | for distinct parsed numbers they stay unique whichever inserts fail if the listing, read to its end or not, named every parsed number the node has; with the inserts going through, only then |
| `Import.FileKeepsUnique` | internal/server/backup.go:190-220 | so it is for every file, because the parser never repeats a number |
| `Import.UnreadListingRepeats` | internal/server/backup.go:202-219 | an input: only the listing fails, handing out no row, and a favorite ends up twice |
| `Import.RepeatedImportAddsNothing` | internal/server/backup.go:202-220 | importing again what was imported adds nothing exactly if the node is gone or the second listing, read to its end or not, named every parsed number |
| `Import.ListedImportAddsNothing` | internal/server/backup.go:202-220 | whatever failed before, an import whose listing names every parsed number adds nothing |
| `Commands.ResolveCommand` | internal/server/commands.go:131-146 | the loop over the argument map resolves the template in some order of its keys, or rejects it |
| `Commands.ReplaceFills` | internal/server/commands.go:139-141 | replacing a placeholder in the text fills exactly the holes of that name |
| `Commands.AnyOrderSubstitutes` | internal/server/commands.go:131-141 | with independent arguments every map order gives the simultaneous substitution; an argument "node" has no effect |
| `Commands.ConfluentExactly` | internal/server/commands.go:131-141 | any two orders give the same text for every template, and every order gives the simultaneous substitution, if and only if no value can bring about the placeholder of another argument, unless that argument stands for itself |
| `Commands.AcceptedWhenFilled` | internal/server/commands.go:143-146 | with independent arguments the request is accepted exactly when every hole is filled with a value without an opening brace, and with that text |
| `Commands.OrderMattersForBracedValues` | internal/server/commands.go:139-146 | an input: two arguments that are not independent, and two map orders with different answers |
| `AmiWire.WriteAction` | internal/ami/client.go:141-156 | the bytes of a block: Action first, every other header once in some order, a blank line |
| `AmiWire.ReadBlocks` | internal/ami/client.go:264-342 | the read loop refines the line-by-line reader and consumes exactly the complete lines |
| `AmiWire.HeaderRead` | internal/ami/client.go:322-335 | a header line sets that header and nothing else; only Output gathers several |
| `AmiWire.BlockRead` | internal/ami/client.go:141-156 | a written block is read back as its map, whatever order it was written in |
| `AmiWire.FramingRoundTrip` | internal/ami/client.go:141-342 | reading the bytes of any sequence of written blocks gives exactly those maps and leaves no input over |
| `AmiWire.BlockBytes` | internal/ami/client.go:141-156 | the bytes of a block spelled out: the Action header, then every other header as key, colon, blank and value, then an empty line |
| `AmiOutput.EncodingsAgree` | internal/ami/client.go:322-341 | Output headers and raw lines give the same block if and only if no line looks like a header or is the end marker |
| `AmiOutput.OutputJoins` | internal/ami/client.go:322-341 | any lines without line break, empty ones included, arrive as one Output: the lines joined by line feeds |
| `AmiOutput.EndMarkIgnored` | internal/ami/client.go:336-341 | the line "--END COMMAND--" adds nothing to a block |
| `AmiOutput.NoiseIgnored` | internal/ami/client.go:336-341 | between blocks an empty line is dropped, and so is a line that is no header |
| `AmiOutput.EmptyOutputRead` | internal/ami/client.go:322-334 | an empty Output header leaves an Output that is missing or empty as the empty text |
| `Links.ParseRPTALinks` | internal/server/links.go:154-188 | the loop refines the decoder: none without marker or list, otherwise one entry a part |
| `Links.LinksDecode` | internal/server/links.go:154-188 | the first RPT_ALINKS list in any output decodes to the links it encodes, with white space around its parts and parts too short to be a link |
| `Links.NoLinks` | internal/server/links.go:154-171 | an output without marker, or with a count alone behind it, decodes to none |
| `Links.DecodedExactly` | internal/server/links.go:172-186 | distinct links are decoded to exactly themselves |
| `Links.LinksFromBlock` | internal/server/links.go:154-188 | end to end from the output lines of either encoding, whatever text precedes the marker: the decoded map is exactly the links sent |
| `Links.RawValueMissesOutput` | internal/ami/client.go:322-341 | the line "Value: RPT_ALINKS=...", sent raw, becomes the header Value and never reaches Output; in an Output header it is a line the decoder reads |
| `AmiRouting.RegisterExact` | internal/ami/client.go:108-113 | registering keeps the pending table exact if and only if the id is not in flight |
| `AmiRouting.NextPending` | internal/ami/client.go:103-137 | every step of any party keeps the table equal to the calls in flight |
| `AmiRouting.NextHeld` | internal/ami/client.go:287-298 | the call whose channel the read loop holds has the block's id, though it may have left since |
| `AmiRouting.NextServed` | internal/ami/client.go:285-298 | no step loses, doubles or misdirects a block sent to a call |
| `AmiRouting.NextQueue` | internal/ami/client.go:314-319 | the event queue and what was consumed are exactly the queued blocks, in order, never over 128 |
| `AmiRouting.NextUndisturbed` | internal/ami/client.go:285-298 | only a block carrying its own id touches a call; a login reply never does |
| `AmiRouting.NextConnection` | internal/ami/client.go:227-259 | connected if and only if the session may still read or has just stopped, and it has read a block with Response "Success" and Message "Authentication accepted" that was not for a call |
| `AmiRouting.NextSessions` | internal/ami/client.go:227-259 | the log is that of the sessions there were; none reads on after an error response, and one that greets has read nothing |
| `AmiRouting.NextTold` | internal/ami/client.go:126-132 | a call was refused with a block whose Response is "Error", and answered with any other |
| `AmiRouting.DistinctIsFresh` | internal/ami/client.go:104-105 | a clock that never repeats meets the freshness condition in every interleaving |
| `AmiRouting.EveryRunSafe` | internal/ami/client.go:103-320 | all invariants in every state of every interleaving of locked sections and channel operations |
| `AmiRouting.EveryBlockAccounted` | internal/ami/client.go:285-320 | every received block has exactly one fate, in order of receipt, but for one still in hand |
| `AmiRouting.OutcomeFinal` | internal/ami/client.go:126-136 | what a caller was given never changes |
| `AmiRouting.OwnAnswer` | internal/ami/client.go:126-136 | it is at most one block, the first sent to the call, with the call's id |
| `AmiRouting.RouteExact` | internal/ami/client.go:285-320 | whatever happens between lookup and delivery: to the call in flight at the lookup with its id if any and its slot is empty; without one an error response ends the session, anything else is queued unless full - each an equivalence |
| `AmiRouting.SharedIdLosesAnswer` | internal/ami/client.go:104-121 | two calls that share an id can leave one waiting with no way for its answer to arrive |
| `AmiRuns.EveryCallTold` | internal/ami/client.go:103-137 | in every run how a call ended, or what it waits for, is told by the steps there were: failed by its write, timed out, answered or refused by its own take, registered or waiting otherwise |
| `AmiRuns.RegisterTold` | internal/ami/client.go:104-117 | a new call has the id "ya-" and its stamp, and ends at once exactly if there is no connection |
| `AmiRuns.OnlyErrorsEndSessions` | internal/ami/client.go:291-312 | in a run whose reads do not end of themselves every session that ended had read an error response |
| `AmiRuns.EveryRunCounted` | internal/ami/client.go:211-259 | dials, calls and consumed events are as many as their steps, and the session's stage follows from how often each step was taken |
| `AmiClients.Client.constructor` | internal/ami/client.go:50-63 | a new client starts in the initial state |
| `AmiClients.Client.Dial` | internal/ami/client.go:227-229 | the dialled connection becomes current |
| `AmiClients.Client.Login` | internal/ami/client.go:240-257 | the banner was read and the login sent |
| `AmiClients.Client.Receive` | internal/ami/client.go:280-290 | a complete block is looked up under the lock |
| `AmiClients.Client.Deliver` | internal/ami/client.go:291-320 | without the lock it goes to the channel found, or to login handling and the event queue |
| `AmiClients.Client.EndRead` | internal/ami/client.go:275-278 | reading ends by error or shutdown |
| `AmiClients.Client.MarkDown` | internal/ami/client.go:231-233 | the connected flag falls first |
| `AmiClients.Client.Forget` | internal/ami/client.go:234-238 | then the connection is forgotten if still current |
| `AmiClients.Client.Register` | internal/ami/client.go:104-117 | the first locked section: pending entry, or not connected |
| `AmiClients.Client.Write` | internal/ami/client.go:124-126 | the write succeeds or the call leaves |
| `AmiClients.Client.Take` | internal/ami/client.go:127-132 | the answer, an error when it says so; always with the call's own id |
| `AmiClients.Client.Expire` | internal/ami/client.go:133-135 | the timeout |
| `AmiClients.Client.Leave` | internal/ami/client.go:118-122 | the deferred delete |
| `AmiClients.Client.Consume` | internal/ami/client.go:82-83 | a consumer takes the oldest event |
| `LinksCaches.EqLinkMaps` | internal/server/links.go:67-78 | equal size plus inclusion decides equality in keys, type and keyed state |
| `LinksCaches.LinksCache.Set` | internal/server/links.go:41-63 | the stamped map is stored; the answer says whether the view changed |
| `LinksCaches.Poller.PollNode` | internal/server/links.go:125-147 | store, and publish when something showed |
| `LinksCaches.LinkHistory` | internal/server/links.go:41-63 | after any updates of any nodes a link's time is that of the update that began its unbroken presence |
| `LinksCaches.PublishedIsCached` | internal/server/links.go:138-146 | what was last published always shows the cached links |
| `LinksCaches.PublishesChangesOnly` | internal/server/links.go:138-146 | a poll publishes the stored map, or the missing one it was given, exactly when a reader would see a change; nothing else published or cached changes |
| `Limiter.LoginLimiter.Allow` | internal/server/security.go:105-113 | denied exactly in an unexpired window with five failures |
| `Limiter.LoginLimiter.RecordFailure` | internal/server/security.go:116-125 | counts in the open window or opens one |
| `Limiter.LoginLimiter.RecordSuccess` | internal/server/security.go:128-132 | forgets the address |
| `Limiter.LoginLimiter.Sweep` | internal/server/security.go:135-147 | one tick drops exactly the expired records |
| `Limiter.RunTells` | internal/server/security.go:105-132 | the record of an address tells the current window of its failures since it last succeeded, in every serial run |
| `Limiter.AllowedExactly` | internal/server/security.go:105-113 | in every serial run an address is let in if and only if it has not failed since its last success, or its window is over, or it failed less than five times in it |
| `Limiter.FailuresBounded` | internal/server/security.go:105-132 | since an address last succeeded: at most five failures a window and nine in any closed minute, whatever other addresses and the sweeper do |
| `Limiter.Realisable` | internal/server/handlers.go:148-179 | every sorted list of times with at most five a window is the failures of some serial run |
| `Limiter.NineIsReached` | internal/server/security.go:105-125 | nine failures in a closed minute do occur |
| `Limiter.SweepsChangeNoAnswer` | internal/server/security.go:135-147 | sweeps at any moments change no answer of Allow |
| `Limiter.SweptAreRecent` | internal/server/security.go:135-147 | an address with a record after a sweep failed within the minute before it |
| `Adaptive.Fetcher.FetchAdaptive` | internal/server/stats.go:209-236 | one call: mode by hysteresis, bulk when allowed and working |
| `Adaptive.ModeIsLastDecisive` | internal/server/stats.go:210-219 | the mode is what the last count outside the band said, individual if none |
| `Adaptive.BulkExactly` | internal/server/stats.go:209-236 | a poll makes a bulk fetch if and only if the last count outside the band was above it, the request works, and five minutes have passed since the last one ended |
| `Adaptive.BulksSpaced` | internal/server/stats.go:220-233 | each successful bulk fetch starts five minutes after the one before completed |
| `Adaptive.BulkRateBounded` | internal/server/stats.go:118-122 | a span holds at most one bulk fetch more than it holds five minutes |
| `Adaptive.BoundIsMet` | internal/server/stats.go:209-236 | that bound is met: for every n some run has n + 1 bulk fetches within n times five minutes |
| `Migrations.MigrationList` | internal/db/db.go:140-255 | eleven migrations numbered 1 to 11 in order |
| `Migrations.SchemaFile.MaxVersion` | internal/db/db.go:101-102 | the largest recorded version or 0 |
| `Migrations.SchemaFile.Migrate` | internal/db/db.go:89-132 | the loop of transactions refines one open of the file |
| `Migrations.SchemaInFull` | internal/db/db.go:140-255 | each migration works on the schema the ones before it built, and after the first n the tables and their columns are exactly those of a table by table account, whether or not version 6 dropped its column |
| `Migrations.KeptIsOneColumn` | internal/db/tailscale.go:23-36 | a lost column query leaves the schema of the list with that one column kept, at version 6 and at every later one |
| `Migrations.TransactFirst` | internal/db/db.go:108-129 | after a prefix of the list the next transaction commits exactly when nothing stops it, and extends the prefix by one; version 6 keeps its column exactly when it loses its query |
| `Migrations.OpenSound` | internal/db/db.go:89-132 | an open loses nothing, succeeds exactly when nothing it checks failed, and then has applied all, but for the column a lost query keeps |
| `Migrations.LoopFromNothing` | internal/db/db.go:101-106 | when reading the version fails on a migrated file, the loop stops at the existing version row and changes nothing |
| `Migrations.FullFileUnchanged` | internal/db/db.go:104-107 | a further open changes no table |
| `Migrations.AlwaysAPrefix` | internal/db/db.go:89-132 | after any opens with any faults the file records a prefix of the versions, no shorter than before, and has their schema, the column kept if some open committed version 6 and lost its query |
| `Migrations.PrefixKeptExactly` | internal/db/db.go:89-132 | a file that holds exactly a prefix of the list does so after any opens with any faults if and only if none of them committed version 6 having lost its query |
| `Migrations.EveryFileIsAPrefix` | internal/db/db.go:89-132 | after any opens of a new file it records a prefix of the versions and has the schema they build, applied once each in order, the one column kept exactly if an open lost that query |
| `Migrations.LostQueryGoesUnnoticed` | internal/db/tailscale.go:23-36 | an input: a new file whose open fails in that query alone succeeds, records every version, and holds no prefix of the list |
| `Brokers.Broker.Subscribe` | internal/sse/broker.go:24-32 | a fresh channel joins its topic |
| `Brokers.Broker.Cancel` | internal/sse/broker.go:32-40 | the channel leaves, and the topic with its last one |
| `Brokers.Broker.HasSubscribers` | internal/sse/broker.go:44-49 | whether the topic has a channel |
| `Brokers.Broker.Publish` | internal/sse/broker.go:52-62 | the loop sends to every channel of the topic that has room |
| `Brokers.Broker.Receive` | internal/sse/broker.go:86-99 | the subscriber takes the oldest message |
| `Brokers.NextTopics` | internal/sse/broker.go:24-40 | every operation keeps the table equal to the open channels, with no empty topic |
| `Brokers.NextServed` | internal/sse/broker.go:24-62 | every operation keeps each subscriber served: all publications of its span offered in order, those that found room received or queued in order, at most 16 queued |
| `Brokers.EveryRunServes` | internal/sse/broker.go:24-62 | both in every reachable state |
| `Brokers.EveryRunTold` | internal/sse/broker.go:24-99 | in every run what was published, who subscribed to what, who is still open and how often each received is told by the operations there were |
| `Brokers.HasSubscribersExact` | internal/sse/broker.go:44-49 | the answer is whether an open channel has that topic |
| `Brokers.NothingLostExactly` | internal/sse/broker.go:52-62 | a subscriber got everything exactly when no publication found its queue full |

## Left out

- SQL text, NULL columns and the driver: tables are sequences of rows in insertion order, a statement is one function of them, and the only driver errors are a failed statement and a query that breaks off after some rows.
- Cascades from users to Tailscale logins and WebAuthn credentials, and the tables no modelled operation touches.
- Node numbers are not unique in the schema: convergence, idempotence and dry-run exactness are stated for databases without a repeated node or favorite number (which `Idempotence.RunSound` shows a run keeps); conservation holds without that.
- Loading the state file: YAML, environment substitution and the order of validation; passwords are the resolved ones. The empty group name is replaced in each use, where the code also writes it back into the parsed file.
- DryRun.DryRunForetells: a node listed twice, or a favorite listed twice under one node, is not covered; a real run compares such an entry with what the earlier one wrote, and a dry run with the start.
- bcrypt is an uninterpreted function of password and salt that may fail, and passwords under 8 bytes are refused before it.
- `UpdateNode` blanks description and location, so convergence of a node is about the six fields `nodeChanged` compares.
- Integer widths: ids, positions and counters are unbounded.
- Bytes outside ASCII, Unicode white space and case folding, and the scanner's limit on line length.
- `parseRPTTXKeyed`, and the tx_keyed field of a published link message.
- Commands.ConfluentExactly: stated for argument names without braces, templates whose text has no opening brace and whose hole names have no braces, and a node number without an opening brace.
- Sockets, dialling, TLS and mDNS: a connection is a number, a write succeeds or fails, and reading ends at any moment. `SendAction` without waiting adds no state and is not a step.
- AmiClients.Client.Deliver: setting the connected flag and sending the event are one step, although another party could run in between.
- Limiter.FailuresBounded: one attempt at a time per address; overlapping attempts of one address could each be let in before any of them is counted.
- Limiter.LoginLimiter.RecordFailure: the two clock readings of one locked section are one.
- Brokers.Broker.Publish: does not overlap a cancel or a subscription, which the code's early release of its lock would allow, and each cancel function is called once.
- Concurrent statistics polls, and concurrent link polls of one node: one at a time.
- Migration statements are modelled by the tables and columns they add or drop; the data they copy (positions, Tailscale logins) is not.
- A commit that fails after taking effect on disk.
- HTTP handlers, permissions, sessions, WebAuthn, QRZ lookups, backups and the user interface.
