# VoidRP platform: protocols and algorithms, verified

A Dafny model of the parts of the platform that are protocols, state machines or
algorithms rather than plumbing. `dafny verify dfyconfig.toml` checks all of it.
Tables are sequences or maps of rows, each commit is one atomic step, and whatever the
outside world decides (a rename that fails, a player's server that does not answer, a
call that is lost) is an input that may be anything. Code that changes rows step by
step is a class whose methods state the whole new state through a function of the old
one; what the platform relies on is proved about those functions, over whole runs, and
what they come to is said once more from the fields and constants alone.

- `GamePerms`: groups handed to players, reconciled with what the game has through a
  queue of operations.
- `TelegramMarkdown`, `TelegramKinds`, `TelegramRendering`, `TelegramBrackets`: one pass
  over the UTF-16 units of a post against the recursive rendering of its tree of entities,
  what each kind of entity writes, and which lists of entities come out with markers that
  match.
- `WorldSwap`: restoring a backup by renames, with rollback, step by step on the disk.
- `BackupQueue`, `BackupClock`: the worker's loop and its schedule; when the loop ends,
  with the clock stopped and with the clock going on.
- `Watchdog`: when a hung server is killed, and how often.
- `FileJobs`, `FileTransfer`: jobs for a server's file plugin, and whole files sent in
  pieces over them.
- `PluginDependents`: what has to be unloaded before a plugin is.
- `CallParser`: finding a call's arguments in a script.
- `McVersions`, `McIntervals`, `Releases`, `StableSort`: two orders on versions, version
  conditions and when two of them meet, and which build of a plugin is offered.
- `Access`: a person's keys from all sources.
- `ScoreLedger`: scores of the chat games.
- `Text`, `Wrappers`: strings and `Option`.

## Where the code does not do what one would expect

Each of these is proved, with the exact condition under which the code behaves.

- Deleting a group forgets that it was applied but leaves its pending operations. If a
  removal is pending and the group is granted again, two opposite operations wait for
  one person (`GamePerms.RunIsConsistentIff`, `GamePerms.OppositeOperationsAfterDeletion`).
- A change that is no longer wanted while it waits is made all the same, an addition or a
  removal; another reconciliation after it is what undoes it
  (`GamePerms.StaleChangeLands`, `GamePerms.OneRoundIsEnoughIff`).
- A role is given to a person by the rank of the role. The weights that bound which game
  groups may be given, or put into a role, are not looked at then
  (`GamePerms.HandOutsStayBelowIff`).
- Telegram entities that cross, are empty, or share an end with an outer one listed after
  them come out with markers in the wrong order. Blockquotes write no end and may cross
  anything (`TelegramBrackets.BracketedIffNested`, `TelegramBrackets.SilentEndsDoNotShow`,
  `TelegramBrackets.CrossingDoesNotMatch`, `TelegramBrackets.InnerFirstDoesNotMatch`).
- The swap's error text says the world is back as it was. It is, for every world that
  had a live folder; a new world that replaced nothing stays
  (`WorldSwap.ServerFolder.Swap`, `WorldSwap.EveryUndoneIsSameIff`).
- The backup made before a restore is said to make it possible to undo it. A running
  server writes on until it is stopped, and that is in no archive
  (`WorldSwap.ArchiveIsAtStopIff`, `WorldSwap.OneChangeIsMissed`).
- A scheduled backup that may fail, or an interval that is not positive, can keep the
  drain loop from ending (`BackupQueue.DrainEndsIff`, `BackupClock.DrainEndsByIff`).
- The watchdog's silence goes on across a new process and across the watchdog being
  switched off (`Watchdog.SilenceSurvivesIff`, `Watchdog.KillsAfterQuietIff`).
- With restarting switched off the watchdog reports only the first hang: the mark that it
  has been reported is not taken back when the server answers
  (`Watchdog.HangIsReportedOnceIff`, `Watchdog.SecondHangIsNotReported`).
- A caller can be told that nobody took its job although it was done
  (`FileJobs.LastWordIsTrueIff`, `FileJobs.LateAnswerIsCalledNotTaken`).
- Dependents are listed "outermost first" by distance. That is not always a safe order
  to unload them in (`PluginDependents.UnloadOrderIsSafeIff`, `PluginDependents.TangledIsUnsafe`).
- An empty last argument of a call is dropped (`CallParser.PrintThenParse`).
- `1.21.0.x` does not take `1.21`, which compares equal to `1.21.0`
  (`McVersions.WildcardIsInterval`, `McVersions.LongWildcardMissesShort`).
- `1.4` counts as newer than `1.4.1`, and comparing `1.0-beta` with `1.0.1` fails
  (`Releases.OrderIsOfVersionsIff`, `Releases.MixedIff`, `Releases.ShorterIsNotNewer`,
  `Releases.BetaDoesNotCompare`).
- A recommended build recorded again with other Minecraft versions keeps its mark
  unchecked (`Releases.RecordKeepsOneIff`).
- Entries of Minecraft versions are compared as texts: builds for `1.21.x` and for `1.21.4`
  stay recommended side by side (`Releases.RecommendedPerVersionIff`,
  `Releases.TwoForOneVersion`).

## Model

| member | source | states |
|---|---|---|
| GamePerms.PermTables.ComputeDesired | apps/api/app/core/game_perms.py:55-72 | the loops over staff roles and direct grants collect exactly the wanted grants, which the next two rows say from the rows of the tables |
| GamePerms.DesiredIs | apps/api/app/core/game_perms.py:55-72 | a group is wanted for someone on a server if and only if it is given directly there, or the person is a member of an existing role that is no badge, lists the group for that server, and has no list of servers or one with it |
| GamePerms.IdleRoleGivesNothing | apps/api/app/core/game_perms.py:58-66 | so badges, and roles limited to other servers, change nothing on a server, whoever is a member |
| GamePerms.PermTables.Enqueue | apps/api/app/core/game_perms.py:79-83 | one pending row is added at the end, nothing else changes |
| GamePerms.PermTables.Reconcile | apps/api/app/core/game_perms.py:86-113 | the new queue is the old one and, in any order, one addition for each wanted and one removal for each unwanted grant that is known, has a nickname, is out of step with what is applied and has no such operation pending already; it returns how many |
| GamePerms.PermTables.RecordResult | apps/api/app/core/game_perms.py:116-129 | a result closes its operation and, if it succeeded, adds or removes the grant it was about, and no other |
| GamePerms.RunIsConsistentIff | apps/api/app/core/game_perms.py:86-129 | in every run of changes of roles, grants, catalogue and nicknames, operations by hand, group deletions, reconciliations and results: all worlds are consistent (only the newest operation about a grant is pending, an addition only of what is not applied, a removal only of what is) if and only if no group was deleted while a removal of it was pending |
| GamePerms.RunIsConsistentForIff | apps/api/app/core/game_perms.py:86-129 | the same grant by grant: whatever happens to other groups, a run keeps a grant consistent (only the newest operation about it waits, and reverses what is applied) if and only if it never deletes the grant's group while a removal of the grant waits |
| GamePerms.StepIsSafeForIff | apps/api/app/core/game_perms.py:86-129 | the inductive step: a transaction keeps a grant consistent if and only if it is not such a deletion |
| GamePerms.ReconciledKeepsFor | apps/api/app/core/game_perms.py:86-113 | reconciling keeps every grant consistent that was so |
| GamePerms.AnsweredKeepsFor | apps/api/app/api/routes/game_sync_perms.py:56-64 | so does a result, taken once and only for a pending operation, in whatever order results come |
| GamePerms.DeletionIsSafeIff | apps/api/app/api/routes/admin_game_perms.py:143-161 | deleting a group keeps the tables consistent if and only if no removal of that group is pending |
| GamePerms.NewRowReverses | apps/api/app/core/game_perms.py:86-113 | what a reconciliation queues about a grant is for its own server, reverses what is applied, is not waiting already and is the only one it queues about that grant |
| GamePerms.NewRowIs | apps/api/app/core/game_perms.py:98-112 | what a reconciliation queues is pending, for its own server, with the nickname of the user on record, which is not empty; an addition is of a group the plugin has reported |
| GamePerms.AnsweredIs | apps/api/app/core/game_perms.py:116-129 | a first result closes its row as done or failed; who has what moves by that very operation, and only if it succeeded |
| GamePerms.QueuedReverses | apps/api/app/core/game_perms.py:92-112 | in every run, deletions included, every operation ever queued about a grant reversed what was applied at that moment |
| GamePerms.AppliedIsAddedLast | apps/api/app/core/game_perms.py:116-129 | in every run, deletions included, a grant is applied if and only if an addition of it succeeded and since then no removal of it succeeded and its group was not deleted |
| GamePerms.OnlyOwnGrantsAreTaken | apps/api/app/core/game_perms.py:86-113 | in every run, deletions included, before a removal of a panel user's group was queued, an addition of it had succeeded and it had not been taken since |
| GamePerms.Converges | apps/api/app/core/game_perms.py:86-113 | from every state, consistent or not: after answering all operations with success, reconciling and answering again, everyone with a nickname has exactly the wanted groups the plugin knows; people without a nickname, and servers without a catalogue, are as they were after the first answers; nothing is left to queue |
| GamePerms.ConvergesToRows | apps/api/app/core/game_perms.py:55-113 | the same from the rows alone: on a server with reported groups someone with a nickname ends up with exactly the reported groups given directly or through a role that acts there |
| GamePerms.IdleGrantLands | apps/api/app/core/game_perms.py:86-129 | a grant for which nothing waits is brought to what is wanted by one reconciliation and its answers, whatever waits for other grants |
| GamePerms.WaitingLands | apps/api/app/core/game_perms.py:116-129 | the one operation that waits for a grant decides it, in whatever order operations are answered |
| GamePerms.ConsistentWaitsAlone | apps/api/app/core/game_perms.py:86-113 | a consistent grant has at most one operation waiting, which reverses what is applied: what the next two rows ask for |
| GamePerms.StaleChangeLands | apps/api/app/core/game_perms.py:92-112 | an addition or a removal that waits for a grant is carried out in spite of a reconciliation, wanted or not, if it is the only one that waits for it and reverses what is applied |
| GamePerms.OneRoundIsEnoughIff | apps/api/app/core/game_perms.py:86-113 | for a grant with at most one operation waiting, which reverses what is applied, one reconciliation and its answers, without answers before, bring it to what is wanted if and only if the opposite of what is wanted was not waiting |
| GamePerms.OppositeOperationsAfterDeletion | apps/api/app/api/routes/admin_game_perms.py:143-161 | otherwise, granting the group again and reconciling leaves a removal and an addition pending for the same person |
| GamePerms.HandOutsStayBelow | apps/api/app/core/game_perms.py:134-155 | through no chain of people giving groups to one another and putting groups into roles does anyone get a group as heavy as the heaviest held at its start, nor is an owner-only one given |
| GamePerms.MayGiveIff | apps/api/app/core/game_perms.py:134-155 | who may give a group, from the fields: never `default`; an owner-only one only an owner; another, if reported, an administrator of the platform or the server, or someone who may assign and is to have a strictly heavier one |
| GamePerms.WeightInIs | apps/api/app/core/game_perms.py:40-45 | the weight that counts is that of the last entry of the name in the catalogue, 0 for a name without entry |
| GamePerms.HandOutsStayBelowIff | apps/api/app/api/routes/admin_roles.py:384-417 | with roles given to people on the way, nobody gets a group heavier than the heaviest held at the start if and only if no role that carries a heavier one is given |
| GamePerms.HandOutsGiveLighter | apps/api/app/api/routes/admin_roles.py:144-172 | in such a chain every group given or put into a role is lighter than that and not for owners only |
| TelegramMarkdown.PlaceMarkers | apps/bot/services/tg_news.py:52-62 | after the loop each position holds the opening and the closing markers of the rendered entities that start and end there, in the order listed; unknown kinds and entities outside the text are skipped |
| TelegramMarkdown.EntitiesToMarkdown | apps/bot/services/tg_news.py:41-71 | the output is the writing out of the sweep over the rendered entities, which the next rows say kind by kind and for nested families; empty text gives empty output and text without rendered entities comes back unchanged |
| TelegramKinds.OneStyleWrites | apps/bot/services/tg_news.py:18-27 | a single bold, italic, underlined or struck-through entity has the text before it, `**`, `*`, `<u>` or `~~`, its text, `**`, `*`, `</u>` or `~~`, and the text after it; around an empty one the end comes first |
| TelegramKinds.OneBlockWrites | apps/bot/services/tg_news.py:28-38 | the same for code, a code block, a quote, which writes no end, and a link, which writes its address; a link without an address and an unknown kind leave the text as it is |
| TelegramKinds.OutsideWritesNothing | apps/bot/services/tg_news.py:57-60 | an entity that does not lie in the text leaves it as it is |
| TelegramKinds.SpansAre | apps/bot/services/tg_news.py:52-62 | of any list, exactly the entities of a written kind that lie in the text are rendered, each once, from its start to its end, in the order listed, with the markers it has alone |
| TelegramMarkdown.SweepErases | apps/bot/services/tg_news.py:63-71 | for every list of entities, overlapping or not, the output without its markers is the input, unit for unit |
| TelegramRendering.SweepIsRender | apps/bot/services/tg_news.py:63-71 | for a nested family the one-pass sweep is the recursive rendering: what is before an outermost entity, its content between its markers, what is after |
| TelegramRendering.StretchIsRender | apps/bot/services/tg_news.py:63-71 | the same for every stretch of the text: its turns and the markers closing at its end are the rendering of the entities in it |
| TelegramRendering.RenderMatches | apps/bot/services/tg_news.py:63-71 | in a rendering each closing marker closes the entity opened last, at any depth, and none is left open |
| TelegramBrackets.BracketedIffNested | apps/bot/services/tg_news.py:41-71 | for any entities of non-negative length: the markers written in pairs match and all close if and only if the rendered entities that write an end are a nested family (none empty, none crossing, outer ones listed first where they share an end); blockquotes do not matter |
| TelegramBrackets.PartBracketedIffNested | apps/bot/services/tg_news.py:41-71 | the same for the markers of any part of the entities, whatever the others are |
| TelegramBrackets.SilentEndsDoNotShow | apps/bot/services/tg_news.py:35-36 | where an entity ends that writes nothing at its end cannot be seen in the output |
| TelegramBrackets.CrossingDoesNotMatch | apps/bot/services/tg_news.py:63-71 | the input of bold over the first two units and italic over the second and third |
| TelegramBrackets.InnerFirstDoesNotMatch | apps/bot/services/tg_news.py:63-71 | the input of a bold unit ending with the italic around it, the bold listed first |
| TelegramBrackets.OnlyMatches | apps/bot/services/tg_news.py:63-69 | markers that match still match when some entities are left out, so two entities alone can be blamed for an output that does not |
| WorldSwap.ServerFolder.Rename | apps/worker/backups.py:303-306 | a rename moves one world between two places, unless the disk refuses it, there is nothing to move or the place is taken, when it changes nothing; other worlds are left alone; the disk after it is recorded |
| WorldSwap.ServerFolder.SwapAll | apps/worker/backups.py:300-306 | the loop gets to its end if and only if every rename goes through; otherwise it stops at its first failed rename with the worlds before it swapped, the current one perhaps moved aside, and the rest untouched; at every step each original world is in exactly one of its place and the replaced folder |
| WorldSwap.GoesIs | apps/worker/backups.py:300-306 | every rename goes through if and only if each listed world is there unpacked, none of those live has something in its place in the replaced folder, and the disk refuses none of the renames, two for a live world and one for another |
| WorldSwap.ServerFolder.PutAllBack | apps/worker/backups.py:309-314 | the rollback gets to its end if and only if no rename of it is refused and each unpacked world in the way could be deleted; wherever it is itself interrupted, it keeps each original in exactly one of the two places; finished, it has returned all that was moved |
| WorldSwap.ServerFolder.Swap | apps/worker/backups.py:298-315 | the swap replaces every world if and only if every rename goes through; if not, it is undone if and only if its rollback gets to its end, and then has every world that was live back as it was; the disk shows the same live worlds if and only if each world swapped before the failure had a live folder |
| WorldSwap.BackGoesIs | apps/worker/backups.py:309-314 | the rollback gets to its end if and only if none of its renames, one for each world moved aside, is refused and nothing sticks of an unpacked world it deletes to make room |
| WorldSwap.EveryUndoneIsSameIff | apps/worker/backups.py:298-315 | what can be told before the swap: every way it can be undone shows the same live worlds if and only if all listed worlds but the last have a live folder |
| WorldSwap.ServerFolder.StartSwapped | apps/worker/backups.py:317-341 | after a complete swap: done if and only if the server did not run before or answers, otherwise it has failed because the server did not come up, with the backup's worlds live and the disk as it was; every snapshot in which something of the replaced folder has changed comes after that answer |
| WorldSwap.ServerFolder.SwapStopped | apps/worker/backups.py:292-341 | with the server stopped: done if and only if every rename goes through and a server that ran answers; it fails for want of an answer if and only if only that is missing; at every step the originals are safe until the swap is complete and the server has answered |
| WorldSwap.ServerFolder.SwapAndStart | apps/worker/backups.py:274-341 | the same from stopping the server on, for the worlds as it has left them by then; it stays away from them if and only if the server does not stop in time or starts again before the swap |
| WorldSwap.ServerFolder.UnpackAndSwap | apps/worker/backups.py:253-341 | the same from the unpacking on, including a failed or incomplete unpacking; the server is flagged as in maintenance if and only if it comes as far as stopping it |
| WorldSwap.ServerFolder.RemoveStaging | apps/worker/backups.py:351-352 | at every end what is left of the unpacked backup is deleted, and no live or replaced world is touched by that |
| WorldSwap.ServerFolder.Restore | apps/worker/backups.py:210-354 | for every outcome of every check, command and rename and whatever a running server writes before it stops: the outcome is the one of the next row; a restore that is done, or for which the server did not come up, has the backup's worlds live as unpacked and every other world as it was at the stop; any other failure has each world of the stop in exactly one of two places; the replaced worlds are deleted once it is done, the unpacked ones at any end; the live worlds change only after they were archived, and the archive is of the worlds the restore began with; a crash at any step finds them kept, or the restore complete and the server answering if it ran; the maintenance flag ends as it was |
| WorldSwap.DoneIff | apps/worker/backups.py:225-341 | a restore is done if and only if the backup and the folder are usable, worlds are listed, the backup before it is made, unpacking succeeds with every listed world, a server that ran stops in time and answers afterwards, none starts in between, and every rename goes through; it fails for want of an answer only if a server ran and did not answer |
| WorldSwap.ArchiveIsAtStopIff | apps/worker/backups.py:238-291 | what can be told before a restore: whatever happens, the archive made first holds the worlds as they are when they are swapped if and only if the server is not running |
| WorldSwap.ArchiveHasWrittenIff | apps/worker/backups.py:238-291 | for one restore: it holds them if and only if each world the server wrote until its stop is as it was |
| WorldSwap.OneChangeIsMissed | apps/worker/backups.py:238-291 | the input: any one world made or removed in between is not in the archive as it is at the stop |
| WorldSwap.SwappingKeeps | apps/worker/backups.py:300-306 | in every state between two renames of the swap each original world is in exactly one of its place and the replaced folder |
| WorldSwap.UndoneLive | apps/worker/backups.py:309-314 | what a finished rollback shows: all worlds that were live are back, and no other world appeared if and only if none was unpacked where there had been none |
| WorldSwap.SwappedIsRestored | apps/worker/backups.py:300-306 | a complete swap has each listed world's unpacked tree live and all other worlds as before |
| BackupQueue.Worker.LastScheduled | apps/worker/backups.py:470-477 | a server is due if and only if no scheduled backup of it that did not fail is younger than its interval |
| BackupQueue.Worker.ScheduleAllDue | apps/worker/backups.py:465-479 | the loop over the servers adds what the definition of the schedule adds, which the next two rows say from the fields |
| BackupQueue.ScheduleAdds | apps/worker/backups.py:465-479 | a pass adds a row for a server if and only if its plan is switched on and every scheduled backup of it that did not fail is at least its interval of hours old; one row a server, pending, scheduled and of now; old rows, restores and restarts stay |
| BackupQueue.SwitchedOffIsLeft | apps/worker/backups.py:466-469 | a server without a plan, or with one switched off, never gains a scheduled backup in any drain, with however many turns |
| BackupClock.SwitchedOffIsLeftBy | apps/worker/backups.py:466-469 | nor does it while the clock goes on |
| BackupQueue.Worker.RunOnce | apps/worker/backups.py:531-551 | one turn does one pending job, restores before restarts before backups and the oldest first, and it ends as that job ends; it says no, and changes nothing, if and only if nothing is pending |
| BackupQueue.DidInOrder | apps/worker/backups.py:531-551 | the order from the fields: a row changes only from pending to done or failed; a restart only with no restore pending, a backup only with neither, and each only if none of its kind is older and pending |
| BackupQueue.Worker.Recover | apps/worker/backups.py:509-526 | exactly the rows left running become failed, nothing else of them changes, and every other row stays |
| BackupQueue.Worker.Drain | apps/worker/backups.py:563-568 | without a stuck server the loop ends, with nothing pending and every scheduled server having a scheduled backup younger than its interval that was not left waiting |
| BackupQueue.DrainEndsIff | apps/worker/backups.py:563-568 | with the clock stopped, the number of turns of the drain loop is bounded if and only if no server is stuck: scheduled, without a recent backup that counts, and with a non-positive interval or backups that may fail, always or each time anew |
| BackupClock.DrainEndsByIff | apps/worker/backups.py:563-568 | with the clock going on to any last moment, the number of turns is bounded if and only if no server is stuck at that moment; a server whose backups succeed may become due on the way as often as its interval allows |
| BackupClock.TimedRunIsShort | apps/worker/backups.py:465-479 | each turn of such a drain leaves less of what waits and of what the schedule may still ask for |
| BackupClock.AddingTakesOne | apps/worker/backups.py:470-479 | a backup the schedule adds takes at least one off how often its server can still become due, and nothing off another's |
| BackupClock.StuckTimedRuns | apps/worker/backups.py:465-479 | with a server stuck at the last moment there are drains of every length |
| BackupQueue.SettledRunIsShort | apps/worker/backups.py:563-568 | without a stuck server each turn leaves one job fewer waiting, so as many turns are made as jobs wait after the first pass of the schedule |
| BackupQueue.StuckRuns | apps/worker/backups.py:465-479 | with a stuck server there are drains of every length |
| BackupQueue.StuckNeverRests | apps/worker/backups.py:465-479 | and no drain with a stuck server whose interval is non-positive or whose backups always fail reaches a turn with nothing to do |
| BackupQueue.StuckStays | apps/worker/backups.py:470-479 | the schedule leaves a stuck server stuck, with a backup pending |
| BackupQueue.ScheduleSettles | apps/worker/backups.py:465-479 | without stuck servers one pass of the schedule makes every server one that no later pass will find due |
| BackupQueue.DidOneLess | apps/worker/backups.py:531-551 | a turn leaves exactly one job fewer pending |
| Watchdog.Watched.CountRecent | apps/worker/watchdog.py:194-199 | the query counts the restarts the definition counts |
| Watchdog.RecentCounts | apps/worker/watchdog.py:194-199 | these are the events of a restart that are no more than 3600 seconds old |
| Watchdog.Watched.Check | apps/worker/watchdog.py:111-246 | a check takes the stored state and the events to those of the transition function; the next five rows say from what is seen and stored what that is |
| Watchdog.ComingAndGoingIff | apps/worker/watchdog.py:137-168 | an outage is reported if and only if a watched server is found neither running nor starting and was not so already; a recovery if and only if a running server answers that was restarted, or was silent or down with a silence stored |
| Watchdog.HangReportsIff | apps/worker/watchdog.py:181-218 | a server is found hung if it runs past its grace of minutes and has been silent for its limit of minutes; it is restarted if and only if that is allowed, fewer restarts than permitted are of the last hour and the kill works; the reached limit, and a hang with restarting switched off, are reported unless they are marked as reported; a kill that fails is reported as a hang |
| Watchdog.StatusIs | apps/worker/watchdog.py:111-218 | the status a check stores, by what it sees and how long the silence is |
| Watchdog.StoredIs | apps/worker/watchdog.py:158-218 | what else it stores: when the server was restarted, until it answers; when it answered; and the two marks, set by a report and taken back by a kill only |
| Watchdog.OutageIsReportedOnceIff | apps/worker/watchdog.py:137-148 | in every run an outage is reported exactly at a check that finds the server down of which the check before did not |
| Watchdog.HangIsReportedOnceIff | apps/worker/watchdog.py:187-193 | with restarting switched off, in every run a hang is reported if and only if no check has reported one before, however often the server answered in between |
| Watchdog.SecondHangIsNotReported | apps/worker/watchdog.py:187-193 | the input of a server that hangs, answers, and hangs again |
| Watchdog.RunsKeepInv | apps/worker/watchdog.py:111-218 | in every run a stored silence began at a check that asked in vain, and since then no check had an answer, found the server down, in maintenance or being restored |
| Watchdog.KillsAreDeserved | apps/worker/watchdog.py:173-218 | at every kill the silence is unbroken since the stored time, at least as long as the hang limit, the process is past its grace, the thread dump raised no error, restarting is allowed and the hour's limit is not reached |
| Watchdog.KillsIff | apps/worker/watchdog.py:173-218 | and a kill happens at every check where those conditions hold and the kill command works |
| Watchdog.HourlyLimit | apps/worker/watchdog.py:194-204 | in every run every window of one hour has at most the permitted number of restarts, even if the clock jumps between checks |
| Watchdog.KillsAreSpaced | apps/worker/watchdog.py:179-218 | with an advancing clock two kills are at least the hang limit apart |
| Watchdog.CheckReports | apps/worker/watchdog.py:111-218 | a check adds at most one event, of its own time, and a restart only where a kill is allowed |
| Watchdog.CheckSilence | apps/worker/watchdog.py:111-218 | a stored silence is carried over from before or begun by a check that asked in vain; a check that stores a status of down, ok or restarted stores none |
| Watchdog.KeepsSilenceIff | apps/worker/watchdog.py:111-246 | one check keeps a stored silence if and only if it is quiet (switched off, booting, or asked in vain, and not in maintenance or being restored) and may not kill |
| Watchdog.SilenceSurvivesIff | apps/worker/watchdog.py:111-246 | over a run of later checks a stored silence survives if and only if all are quiet and none may kill by the row it was stored in |
| Watchdog.KillsAfterQuietIff | apps/worker/watchdog.py:173-218 | after such a run the next check kills if and only if it may by that row and the kill command works |
| Watchdog.SilenceOutlivesTheProcess | apps/worker/watchdog.py:140-172 | so a silence begun under one process counts against the next: it is killed at the first unanswered check past its grace |
| Watchdog.SilenceOutlivesTheSwitch | apps/worker/watchdog.py:221-246 | and a silence stored before the watchdog was switched off counts at the first check after it is on again |
| Watchdog.DownIsNotReportedBack | apps/worker/watchdog.py:111-218 | recovery from being down is reported only after a restart the watchdog made |
| FileJobs.JobTable.Enqueue | apps/api/app/core/remote_files.py:51-54 | a call adds one pending job under a number never used before |
| FileJobs.JobTable.TakePending | apps/api/app/core/remote_files.py:76-91 | a poll expires stale jobs, drops old ones, and marks exactly the jobs it hands out as sent; which these are the next rows say from the table |
| FileJobs.PollTakesIff | apps/api/app/core/remote_files.py:76-91 | a poll hands out a job if and only if it is a pending one of its server that has waited for no more than 60 seconds, and fewer than the limit of such jobs were added before it; it hands out as many as there are, up to the limit |
| FileJobs.ShortPollLeavesNone | apps/api/app/core/remote_files.py:84-90 | a poll that hands out fewer jobs than it may leaves none of its server pending |
| FileJobs.CleanedIs | apps/api/app/core/remote_files.py:78-83 | a poll drops a row if and only if it is of its server and older than 600 seconds; it expires one if and only if it is a pending one of its server that has waited for more than 60; any other row stays as it is |
| FileJobs.PollHandsOutIff | apps/api/app/core/remote_files.py:76-91 | so in every interleaving a poll hands out a waiting job of its server if and only if it has waited for no more than 60 seconds and fewer than the limit of such jobs were added before it |
| FileJobs.JobTable.Finish | apps/api/app/core/remote_files.py:94-108 | a result is stored on the job of that number and server and nowhere else, as done or failed with the reply; it is refused if there is none |
| FileJobs.JobTable.Look | apps/api/app/core/remote_files.py:56-66 | the waiting caller returns if and only if its job is done or failed, with the reply stored on it |
| FileJobs.JobTable.GiveUp | apps/api/app/core/remote_files.py:67-70 | at its deadline the caller expires its job if it is still pending, and changes nothing else |
| FileJobs.JobTable.Do | apps/api/app/core/remote_files.py:48-108 | a step of the runs below is what the call it stands for does to the table |
| FileJobs.RunsKeepInv | apps/api/app/core/remote_files.py:48-108 | the invariant of every interleaving of calls, polls, results, deadlines and clean-up that the next rows rest on |
| FileJobs.HandedOnceInOrder | apps/api/app/core/remote_files.py:76-91 | in every interleaving no job is handed out twice or both handed out and expired, and a server's jobs go out in the order added |
| FileJobs.ReturnedWasPosted | apps/api/app/core/remote_files.py:56-66 | the result a caller gets is the newest one posted for that very job, by its own server |
| FileJobs.NoLateRun | apps/api/app/core/remote_files.py:67-70 | whatever follows the caller's deadline, a job not taken before it is never handed out |
| FileJobs.LastWordIsTrueIff | apps/api/app/core/remote_files.py:67-73 | with a plugin that posts results only for jobs it was handed: "taken, no answer" is always true; "not taken", said in every other case, is true if and only if the job has expired, which the row shows as long as it exists, so it is false of an answer that came late and of a sent row cleaned up |
| FileJobs.LastWordAtDeadlineIff | apps/api/app/core/remote_files.py:67-73 | at the deadline, while the row is there: nobody was handed the job if and only if the row of just before is pending or expired, and "not taken" is said if and only if it is not sent |
| FileJobs.LateAnswerIsCalledNotTaken | apps/api/app/core/remote_files.py:67-73 | a job in progress whose result is stored between the caller's last look and its deadline is reported as not taken |
| FileTransfer.PiecesAreTheFile | apps/api/app/core/remote_files.py:131-150 | the pieces joined are the file; there are as many as full and started chunks of 1048576 bytes, one for the empty file; each starts where the one before ends, and the last and only the last is final |
| FileTransfer.RemoteServer.WriteAll | apps/api/app/core/remote_files.py:131-150 | a file is written if and only if it has no more than 314572800 bytes and every call for it is answered; whatever call fails, the target is as it was, unless it was the answer to the final piece that was lost, when it is exactly the new file; it is as it was until the final piece; a file over the limit is refused without a call |
| FileTransfer.RemoteServer.ReadAll | apps/api/app/core/remote_files.py:113-128 | what is read is exactly the file's bytes, unless it is larger than the limit; the read fails if and only if there is no such file or its last call was not answered |
| FileTransfer.RemoteServer.WriteThenRead | apps/api/app/core/remote_files.py:113-150 | what was written is what is read, for every length up to the limit, and both succeed if every call is answered |
| PluginDependents.Dependents | apps/api/app/core/plugin_ops.py:191-201 | exactly the loaded plugins with a dependency path to the name, each once, farthest first and within one distance last listed first (the list is sorted by file name); it ends on cyclic dependencies |
| PluginDependents.DependsOnIsPath | apps/api/app/core/plugin_ops.py:191-201 | depending at some distance is having a path of hard or soft dependencies, ignoring case, whose last plugin needs the name |
| PluginDependents.DependsOnIff | apps/api/app/core/plugin_ops.py:191-201 | the same from what plugins list: each of the path lists the name of the next one, the last the name asked for, among its hard or its soft dependencies, in any case of ASCII letters; a loaded plugin that lists the name itself is a dependent |
| PluginDependents.RoundFinds | apps/api/app/core/plugin_ops.py:194-200 | a round finds exactly the plugins at the next shortest distance |
| PluginDependents.RoundKeepsLayers | apps/api/app/core/plugin_ops.py:194-200 | after each round the list is all plugins up to that distance in order of distance, and the frontier the names of the last layer |
| PluginDependents.OrderIsUnloadedFirst | apps/api/app/core/plugin_ops.py:191-201 | of two dependents the one unloaded first is the farther one, or of two equally far the one listed later |
| PluginDependents.UnloadOrderIsSafeIff | apps/api/app/core/plugin_ops.py:230-244 | unloading in the listed order always takes a dependent before what it needs if and only if each dependent is farther from the name than every other dependent it needs, or as far and listed later |
| PluginDependents.TangledIsUnsafe | apps/api/app/core/plugin_ops.py:230-244 | an input for which it does not: `app` needs `core` and `bank`, `bank` needs `store`, `store` needs `core`; `bank` is unloaded while `app` is loaded |
| CallParser.ExtractBlock | docs/scripts/parse_recipes.py:60-72 | the block returned is what stands between the bracket at the start and the first place where as many brackets were closed as opened; none if there is no such place |
| CallParser.CountsAre | docs/scripts/parse_recipes.py:60-93 | what is counted on the way: opening brackets less closing ones, round ones for the block, all three kinds for the top level |
| CallParser.CallClosesIff | docs/scripts/parse_recipes.py:60-72 | the bracket of a call closes right after its body if and only if the body is balanced on its own |
| CallParser.ExtractFromCall | docs/scripts/parse_recipes.py:60-72 | extracting from a printed call returns its body if and only if the body is balanced, whatever text surrounds it |
| CallParser.SplitTopLevelArgs | docs/scripts/parse_recipes.py:74-93 | the loop returns the trimmed pieces between top-level commas, without the last one if nothing was collected for it |
| CallParser.PiecesJoin | docs/scripts/parse_recipes.py:74-93 | for every text, the pieces joined by commas are the text |
| CallParser.PiecesSeparable | docs/scripts/parse_recipes.py:74-93 | for every text, no piece has a comma that reads as top-level and every comma between pieces does |
| CallParser.ReadsBackIff | docs/scripts/parse_recipes.py:74-93 | joined pieces are found again if and only if they are separable in that sense |
| CallParser.PrintThenParse | docs/scripts/parse_recipes.py:60-93 | a printed call with any spacing and surroundings reads back as its arguments if and only if something is printed for the last one; otherwise exactly that one is lost |
| McVersions.ComputeKey | apps/api/app/core/mc_versions.py:21-31 | the loop reads the leading numeric components and stops at the first part that is not one |
| McVersions.KeyOfDotted | apps/api/app/core/mc_versions.py:21-31 | reading a dotted version gives back its components |
| McVersions.KeyStopsAt | apps/api/app/core/mc_versions.py:21-31 | whatever follows a dotted version without a dot between, such as `-rc1` or ` beta`, ends it: the numbers are all of its key |
| McVersions.CmpIs | apps/api/app/core/mc_versions.py:34-37 | the first differing component decides, missing ones counting as zero, both ways |
| McVersions.CmpIsTotalPreorder | apps/api/app/core/mc_versions.py:34-37 | the comparison is a total preorder, equal exactly for versions that differ only in trailing zeros |
| McVersions.MatchesIff | apps/api/app/core/mc_versions.py:65-69 | a build without entries and a server without a version go with all; otherwise one entry that takes the version is enough, and needed |
| McVersions.WildcardIsInterval | apps/api/app/core/mc_versions.py:49-51 | a wildcard takes exactly the half-open interval from its prefix to the prefix with its last component one higher, among versions written at least as long |
| McVersions.RangesAreConvex | apps/api/app/core/mc_versions.py:40-62 | ranges, comparisons and exact entries take all that lies between two versions they take |
| McVersions.RangeReads | apps/api/app/core/mc_versions.py:52-57 | the text of a range is read as its brackets and ends say, an empty end being no bound |
| McVersions.SignReads | apps/api/app/core/mc_versions.py:58-61 | each of the five signs before a version compares as it says |
| McVersions.ExactReads | apps/api/app/core/mc_versions.py:62 | a version alone takes exactly the versions equal to it up to trailing zeros |
| McVersions.WildcardReads | apps/api/app/core/mc_versions.py:49-51 | a prefix with .x or .* takes exactly the versions that begin with it |
| McVersions.LongWildcardMissesShort | apps/api/app/core/mc_versions.py:49-51 | the input `1.21.0.x` and `1.21` |
| McIntervals.SaysIsIn | apps/api/app/core/mc_versions.py:40-62 | every entry, however written, takes exactly the versions of one interval that have as many components as it asks for |
| McIntervals.MeetIff | apps/api/app/core/mc_versions.py:34-37 | two intervals have a version in common, of any length asked for, if and only if each lower end is below each upper end |
| McIntervals.EntriesMeetIff | apps/api/app/core/mc_versions.py:40-62 | two entries take a version in common if and only if their intervals meet |
| McIntervals.ListsMeetIff | apps/api/app/core/mc_versions.py:65-69 | two builds' lists of entries, an empty one taking all, take a written version in common if and only if the computation on the lists says so |
| Releases.KeyOfText | apps/api/app/core/releases.py:20-32 | the key of a version with or without a pre-release is its numbers and an end mark |
| Releases.KeysFlip | apps/api/app/core/releases.py:20-32 | for keys of any version texts: swapping the sides flips the outcome, and equal are only equal keys |
| Releases.KeysTrans | apps/api/app/core/releases.py:20-32 | for keys of any version texts: what is at most what is at most a third is comparable with it and at most it |
| Releases.CompareReleasesIs | apps/api/app/core/releases.py:20-32 | what comparing two keys comes to in every case, also where one list of numbers begins the other |
| Releases.MixedIff | apps/api/app/core/releases.py:25-32 | comparing text with a number, which raises an error, happens if and only if a pre-release meets a version with the same numbers and more |
| Releases.OrderIsOfVersionsIff | apps/api/app/core/releases.py:20-32 | two releases with different numbers, or with no pre-release, are ordered as their numbers are as versions (less, greater and equal alike) if and only if neither list of numbers begins the other |
| Releases.ShorterSortsLast | apps/api/app/core/releases.py:25-32 | the other half in full: a release sorts after every longer version that begins with it, though as a version it is no greater |
| Releases.ShorterIsNotNewer | apps/api/app/core/releases.py:25-32 | the input `1.4` and `1.4.1`: the older version counts as the newer |
| Releases.BetaDoesNotCompare | apps/api/app/core/releases.py:25-32 | the input `1.0-beta` and `1.0.1`: comparing their keys fails |
| Releases.SameLengthOrder | apps/api/app/core/releases.py:20-32 | among versions of one length, such as X.Y.Z, keys never mix types and are totally ordered as items 2 and 3 of section 11 of Semantic Versioning 2.0.0 ask: numbers first, a pre-release before its release |
| Releases.OneLengthComparable | apps/api/app/core/releases.py:20-32 | builds whose versions are X.Y.Z with or without a pre-release, or all of some other length, never fail to compare, so the sort of the next rows cannot fail |
| Releases.SortNewestFirst | apps/api/app/core/integration_state.py:33 | the sort loses and repeats nothing, or raises an error; it gives the stable order, newest first, whenever no two versions fail to compare |
| Releases.UsableOfIs | apps/api/app/core/integration_state.py:21-32 | usable are exactly the builds not withdrawn, stable or betas being asked for, for the server's version, and for its core, or its loader for a mod of the players' pack, where both are told |
| Releases.LatestFor | apps/api/app/core/integration_state.py:29-34 | whatever the version texts, taking the first recommended build of the sorted ones, else the first, gives the newest recommended usable build, else the newest usable, if no two usable ones fail to compare; otherwise the sort fails or a usable build is offered, a recommended one if there is any; what is offered is never withdrawn, nor a beta unless asked for, nor for another version |
| Releases.LatestIsOffered | apps/api/app/core/integration_state.py:21-34 | none is offered only if none is usable; otherwise what is offered is usable, recommended if any usable build is, and no usable build of that rank is newer |
| Releases.Catalog.Recommend | apps/api/app/core/releases.py:82-89 | the row is marked, and no longer withdrawn; exactly the rows of the same plugin that list one of its entries, as texts, lose their mark, and nothing else changes |
| Releases.Catalog.Record | apps/api/app/core/releases.py:61-79 | the row of that plugin, version and file name is updated in place or a new one added, then recommended if asked |
| Releases.RowOfIff | apps/api/app/core/releases.py:61-65 | its row is the first one of that plugin, version and file name |
| Releases.StoredRows | apps/api/app/core/releases.py:61-76 | that row becomes the build but keeps its marks as recommended and withdrawn, of which a new row has none; every other row stays |
| Releases.RecommendedKeepsOne | apps/api/app/core/releases.py:82-89 | recommending leaves at most one recommended build of a plugin for any entry of the Minecraft versions, if the other rows were so |
| Releases.RecordKeepsOneIff | apps/api/app/core/releases.py:61-79 | recording keeps that if and only if it recommends, or the row was new or not recommended, or its new entries are of no other recommended build |
| Releases.RecommendedPerVersionIff | apps/api/app/core/releases.py:82-89 | recommending leaves at most one recommended build of a plugin for any Minecraft version if and only if every other recommended build whose entries meet its own, as computed from the texts, also lists one of them |
| Releases.RecordPerVersionIff | apps/api/app/core/releases.py:61-79 | the exact condition for recording: the same if it recommends; otherwise the row was new or not recommended, or the entries of no other recommended build meet its own |
| Releases.WildcardSharesVersion | apps/api/app/core/releases.py:82-89 | a wildcard and any version it takes share that version but no entry |
| Releases.NoEntriesShare | apps/api/app/core/releases.py:82-89 | two builds without entries share every version but no entry |
| Releases.TwoForOneVersion | apps/api/app/core/releases.py:82-89 | recommending a build for `1.21.4` beside a recommended one for `1.21.x` leaves both recommended, and both take 1.21.4 |
| StableSort.FirstWith | apps/api/app/core/integration_state.py:34 | the loop returns the first element with a property, else the first of all |
| StableSort.FirstOrBest | apps/api/app/core/integration_state.py:33-34 | of a sorted list that is the best of the elements with the property; without one, the best of all |
| StableSort.BestIsFirstLargest | apps/api/app/core/integration_state.py:33 | the first of the sorted list is as large as every element and larger than all listed before it |
| StableSort.SelectSorted | apps/api/app/core/integration_state.py:33-34 | selecting from the sorted list and sorting the selection are the same, for any property |
| StableSort.SortedKeeps | apps/api/app/core/integration_state.py:33 | sorting loses nothing and repeats nothing, whatever the order |
| Access.Index.constructor | apps/api/app/core/permissions.py:264-286 | the fields built from all sources index the definition of what the person holds |
| Access.Index.Add | apps/api/app/core/permissions.py:288-291 | one server gains the known per-server keys among those given; no other server changes |
| Access.Index.AddAll | apps/api/app/core/permissions.py:278-286 | each listed server gains them, once or more, and no other changes |
| Access.Index.KeysOn | apps/api/app/core/permissions.py:297-307 | the keys found through the index are exactly those the definition gives on that server, or everywhere |
| Access.Index.ServersWith | apps/api/app/core/permissions.py:312-319 | for every key of the catalogue it is exactly the listed servers on which the key holds; a platform administrator asking for an unknown key gets all servers though it holds on none |
| Access.Index.IsStaff | apps/api/app/core/permissions.py:293-295 | true if and only if some key holds somewhere |
| Access.SanitizedIs | apps/api/app/core/permissions.py:237-240 | exactly the known keys survive |
| Access.FromRolesIs | apps/api/app/core/permissions.py:264-286 | what roles give is the union over roles that are not badges, whatever their order; a role limited to servers never gives a platform key |
| Access.RoleAddsIff | apps/api/app/core/permissions.py:278-291 | what one more role adds for anyone but an administrator: nothing if it is a badge or the person is no staff; its known keys everywhere if it has no list of servers; else, on the servers listed, those of them that can be given for one server |
| Access.WithoutRolesIff | apps/api/app/core/permissions.py:264-307 | what a person without roles holds, from the fields: an administrator all known keys; staff their own known keys everywhere and those given for a server there; who administers a server all there that can be given for one, but for two |
| ScoreLedger.ScoreBook.AddScore | apps/bot/services/games.py:91-95 | one score moves by the amount, stopping at zero, and the new score is returned; the time of the last claim and every other row stay |
| ScoreLedger.ScoreBook.PvpSettle | apps/bot/services/games.py:133-146 | the winner gains the reward and the loser pays as much of it as there is |
| ScoreLedger.ScoreBook.SoloWager | apps/bot/services/games.py:149-157 | a stake that is not covered changes nothing; otherwise stake and payout are booked and the balance returned |
| ScoreLedger.ScoreBook.ClaimDaily | apps/bot/services/games.py:160-174 | a claim succeeds if and only if 86400 seconds have passed since the last; it adds 50 and stores the time, or changes no score and says how long to wait |
| ScoreLedger.ScoreBook.Play | apps/bot/services/games.py:91-174 | an event of the runs below does to the rows what the call that books it does |
| ScoreLedger.SupplyIsBooked | apps/bot/services/games.py:91-174 | in every run of fair events no score is negative and the scores add up to exactly what was booked, so the stop at zero never loses anything |
| ScoreLedger.DuelMoves | apps/bot/services/games.py:133-146 | a duel between two people changes their two scores, by the reward and by what the loser can pay, and no other |
| ScoreLedger.ClaimsAreDaysApart | apps/bot/services/games.py:160-174 | in every run consecutive successful claims of a player are at least 24 hours apart, whatever the clock does between |
| ScoreLedger.ClaimsIff | apps/bot/services/games.py:160-174 | and a claim succeeds in a run if and only if the player has made none, or the last one at least 24 hours before |
| ScoreLedger.ClaimsSpan | apps/bot/services/games.py:160-174 | so n successful claims span at least n - 1 days |

## Left out

- HTTP, Telegram, RCON, systemd, tar, zstd, the disk and the network are inputs that say how each call turns out. Tables are values; each commit is one atomic step.
- In `GamePerms`: the order in which one call queues its changes (any order is allowed), who asked, times and result texts.
- In `GamePerms`: the operations on groups other than deletion, which the reconciliation ignores; an edit that also changes the servers of a role, which by itself only drops groups; and who may edit or give which role.
- In `TelegramMarkdown`: decoding the UTF-16 output, which replaces a surrogate pair split by a marker; excerpt, title and cover; and how a Markdown reader pairs equal markers, which are read here by the entity they belong to.
- TelegramBrackets.BracketedIffNested: entity lengths are taken to be non-negative, as the Telegram Bot API sends them.
- TelegramKinds.SpansAre: the same.
- BackupQueue.ScheduleAdds: the list of servers names each once, as its primary key ensures.
- Watchdog.OutageIsReportedOnceIff: the hang limit is positive, as the settings form demands.
- In `WorldSwap`: the server is taken not to start between the check before the swap and the end of the swap; a rename onto an existing empty folder is taken to fail; world names in a backup are taken to be distinct; a server that runs when it is to be stopped is taken to have run, and one that does not not to have, since the archive was made.
- BackupQueue.Worker.Drain: the clock stands still during the loop, and so in `BackupQueue.DrainEndsIff`; `BackupClock.DrainEndsByIff` lets it go on. No row is dated in the future.
- In `BackupQueue`: pruning, which removes only backups that are done, jar changes applied while a server is stopped, and what a planned restart does.
- In `Watchdog`: what a thread dump holds (only whether taking it raises an error is modelled), texts, and the difference between the worker's and the database's clock.
- FileJobs.LastWordIsTrueIff: the plugin is taken to post results only for jobs it was handed, as the module describes it.
- In `FileTransfer`: the plugin is taken to work as the module's own description says (a part file, swapped in by the final piece after its size and digest agree); base64, the `create` flag, blobs, and a file that changes while it is read are not modelled.
- In `PluginDependents`: reading the metadata of jars, and loading and unloading themselves, of which only the order is modelled.
- In `CallParser`: comments, patterns and the recipes made of the arguments.
- In `McVersions` and `Releases`: digits, letter case and white space outside ASCII, `label`, and the storing of files.
- Releases.SortNewestFirst: when two versions fail to compare, whether the sort meets them, and so raises an error, or what order it leaves, is not modelled (`Releases.MixedIff` says which versions fail to compare).
- Access.Index.IsStaff: the catalogue has at least one key for server administrators, as it does in the source.
- In `ScoreLedger`: cooldowns, allowed chats, rank and top lists, and the rounds kept in memory by the handlers.
- Server scripts, HTTP routes, migrations and the rest of the panel: plumbing.
