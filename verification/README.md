# A verified model of the pickup-game server

The server fills a queue, lets the players ready up and vote for a map, splits them into two
teams, makes a game on a free game server and handles substitutions until the game is over.
This project models that path in Dafny and proves what holds of it in every run.

`dafny verify dfyconfig.toml` checks everything.

## How it is organised

Each part has a *specification* (what every entry point does to a value that holds the whole
state), a *class* whose methods update fields in place and are proved to follow that
specification (`View()` is the state as a value), and *theorems* about all sequences of steps.
A step that is not possible in a state changes nothing, so "every run" is "every sequence of steps".
The `...Effects` modules say of each call when it is refused, with which error, and what it changes,
in terms of slots, marks, votes and servers rather than of the functions of the specification.

| part | specification | class | theorems |
|---|---|---|---|
| queue, launcher | `QueueModel`, `LaunchLedger` | `QueueService`, `AutoGameLauncherService` | `QueueSafety`, `QueueTheorems`, `QueueEffects`, `LaunchLedger`, `QueueWitnesses` |
| friends, lobby | `Friends` | `Friends.FriendsService` | `LobbyTheorems`, `LobbyEffects`, `LaunchTeams`, `LobbyWitnesses` |
| team picking | `PickTeams` | methods of `PickTeams` | `Lineups`, `TeamTheorems`, `TeamLimits`, `FriendTeams` |
| one game | `GameLifecycle` | `GameServices` | `LifecycleTheorems`, `LifecycleEffects`, `QueueToGame`, `TwoGames`, `TwoGamesReads`, `TwoGamesWitness` |
| game servers | `GameServers` | `GameServersService` | `ServerTheorems`, `ServerEffects`, `ServerLimits`, `ServerWitnesses` |
| map vote | `MapVote` | `MapVoteService` | `MapVoteTheorems`, `MapVoteEffects`, `MapVoteLimits` |
| presence, log packets | `OnlinePlayers`, `LogParser` | `OnlinePlayers.OnlinePlayersService` | in the same files |

Players, games, servers, maps and sockets are natural numbers used as keys; skills are reals.
The database's verdict on a joining player, bans, shuffles, die rolls, RCON outcomes and
reservations are parameters. Waiting points inside a method split it into steps where that
matters: a join is suspended between its state check and its slot claim; a launch checks its slot
array, later makes the game and resets the queue, or throws; an assignment writes the server before
the game; a release, a heartbeat and the update of a dead server read the record and write it in
separate steps; a cleanup starts and later ends; the winner of a vote is decided, then every cooldown
is lowered, then its own is set; a draw reads the pool and later publishes options. Every `setImmediate` is counted in `immediates`.

## What came out

* The queue misses no update, provided it has at least one slot, unless a launch throws
  (`NoLostUpdate`; the proof needs no second slot). A waiting queue is full with nobody to look at it
  exactly if its last launch has thrown and no slot was touched since (`MissedExactly`, reachable by
  `FailedLaunchCanBeMissed`), and only the next slot change helps (`MissedEndsExactly`). A launching
  queue is stuck for good exactly if its launch has thrown and no callback is left
  (`FailedLaunchBlocksTheQueue`, reachable by `FailedLaunchCanBlock`).
* The phases change in no other way than those the code names (`PhaseExactly`): a ready queue that
  loses some of its players stays ready until a timer ends it.
* A ready queue with every slot ready and no callback exists (`ReadyQueueCanStall`). It arises
  exactly when the last callback finds the waiting queue full and all ready (`StallBeginsExactly`),
  and ends with the next slot change (`StallEndsExactly`).
* Callbacks that pile up can launch one full queue twice (`OneQueueCanLaunchTwice`; exactly when, in
  `SecondLaunchExactly`). Both launches hold the same slot array; if nobody touches it, two games are
  made of the same players (`SamePlayersTwice`; in general, `SecondGame`).
* A launch takes the friendships of its beginning and the slots of its check. Unless a slot changed in
  between it finds teams exactly if no medic's friend is the other medic (`LaunchTeamsExactly`);
  otherwise it can throw for friends of an earlier moment (`LaunchCanKeepOldFriends`).
* The picker is optimal over all splits exactly if at most one class has four players
  (`BestExactlyWithOneFour`). The default 6v6 configuration has two such classes. The comment in
  `pick-teams.ts` promises 36 lineups for 6v6; the code makes 2^2 * 4^2 = 64 (`GeneratedOnce`).
* With medic friends, teams exist exactly if no medic's friend is the other medic
  (`TeamsExistExactly`). The service checks the friend's class when the mark is made, not when the
  friend changes slots: a marked scout can move to the other medic slot, and then the launch of the
  full queue throws (`FriendCanBecomeMedic`).
* A substitute is refused for somebody who plays exactly if that player was replaced in the game
  before (`RefusedExactly`): the first slot found is the replaced one. Players can come back and
  meet this (`ReturningPlayerExists`), for the rest of the game (`ReturningPlayerCannotBeSubstituted`).
* The end of a game frees everybody who ever had a slot in it. Once the game is over and its timer
  has fired nobody is marked with it (`FreedWhenOver`), but a player who was replaced and plays
  elsewhere loses the mark of the other game (`OtherMarksExactly`, `EndCanFreeOtherGame`).
* A player can be in two games in progress (`OnePlayerInTwoGames`). The players of a game stay out of
  the queue and of all launches exactly as long as no replacement is out of reach of its kick, because
  the queue is launching or a launch has slots of its own, and no join that read the player's record
  before a replacement ends after it (`ApartExactly`, `EntanglingJoin`, `NobodyPlaysTwice`,
  `EntangledPlaysTwice`).
* No mutex guards a release, and the periodic check unsets without asking again. A game in progress
  keeps its server exactly as long as no release writes while the server is in use
  (`ServerExclusivity`); a slow check can do that (`CheckCanTakeServerInUse`), and then two games in
  progress can have one server (`TwoGamesCanShare`, `StruckCanBeShared`). A second cleanup is
  scheduled exactly when an update that read the server with its game writes after the game is gone
  (`CleanupSparesGames`, `TwoReleases`), which a check at the end of a match or a heartbeat can bring
  about (`HeartbeatCanDouble`); it can then succeed on a server that is in use
  (`SecondCleanupCanHitAGame`), and such a server can be reused uncleaned (`UncleanReuse`). If the
  updates of a server did not overlap, none of this could happen (`ApartIsSafe`).
* A game launched again keeps its first server: until its end no check frees it
  (`OrphanOutlivesChecks`), and after its end only a check does (`OrphanStays`,
  `RelaunchKeepsBothServers`, `CheckAllReleases`). Servers are orphaned exactly by relaunches and by
  a restart during an assignment (`OrphanedExactly`, `ServerCanBeOrphaned`).
* A failed cleanup, or a release that overtook another one, takes a static server out until a
  restart (`StrandedExactly`, `StrandedStays`, `ServerCanBeStranded`).
* Positive map cooldowns stay distinct exactly as long as no win is settled while another map has the
  full cooldown (`CooldownsDifferExactly`). Wins of different maps that do not overlap never do that
  (`ApartWinsDiffer`), overlapping ones can always (`OverlapCollides`), and a queue that launches
  twice makes them overlap. Then some run offers too few maps (`TooFewCanBeLeft`,
  `TogetherRunsShort`); without it every draw offers enough (`ScrambleOffersEnough`).
* After orderly wins the last winner is on offer exactly as long as its options are in place
  (`LastWinnerOfferedExactly`), when it can win again (`UndrawnWinnerCanRepeat`), unless a draw that
  read the pool before the win is published after it (`LateDrawOffersWinner`).

## Model

| member | source | states |
|---|---|---|
| QueueTheorems.NoLostUpdate | src/queue/services/queue.service.ts:243-264 | for every run: waiting and full, ready and empty, or launching with an unready slot each imply that a callback is pending; the one exception is a queue back in waiting after launching, untouched since, whose launch is out or has failed; true of exactly the configurations that have a slot |
| QueueTheorems.WaitingFullExactly | src/queue/services/queue.service.ts:243-264 | in every run a waiting queue without a callback is full if and only if a launch is out or has failed and no slot was touched since launching was entered |
| QueueTheorems.MissedExactly | src/queue/services/auto-game-launcher.service.ts:31-43 | in every run a full queue waits with no callback and no launch if and only if its launches have thrown and no slot was touched since |
| QueueTheorems.MissedEndsExactly | src/queue/services/queue.service.ts:69-71 | this ends exactly with the next published slot change |
| QueueTheorems.LaunchingIsFull | src/queue/services/queue.service.ts:252-258 | in every run, while launching and before a reset, each slot is held by its own ready player |
| QueueTheorems.LaunchFreeze | src/queue/services/queue.service.ts:121-223 | over any stretch of steps that stays launching without a reset no slot changes, suspended joins, kicks and leaves included |
| QueueTheorems.FrozenStep | src/queue/services/queue.service.ts:260-262 | even a leftover callback that ends the launching phase early leaves the slots alone |
| QueueTheorems.FailedLaunchBlocksTheQueue | src/queue/services/auto-game-launcher.service.ts:31-43 | a launching queue can never again change a slot or its phase if and only if its launch has thrown and no callback is left |
| QueueTheorems.StallBeginsExactly | src/queue/services/queue.service.ts:243-264 | in every run, ready with every slot ready and no callback arises exactly from the last callback on a waiting queue that is full and all ready |
| QueueTheorems.StallEndsExactly | src/queue/services/queue.service.ts:69-71 | such a stall ends exactly with the next published slot change |
| QueueTheorems.LaunchBeginsExactly | src/queue/services/queue.service.ts:252-258 | in every run a launch begins exactly when a callback finds the queue ready and every slot ready, other launches or not |
| QueueTheorems.ReadyWindow | src/queue/services/queue.service.ts:266-327 | a timer is armed exactly in the ready phase; that phase ends within the longer of the two timeouts; once the first timer has fired all occupied slots are ready |
| QueueTheorems.ReadyUpTimeoutEffect | src/queue/services/queue.service.ts:314-340 | at the first timeout exactly the ready players keep their slots; the second timer is due at readyStateTimeout after the phase began, or, if that is not later, the queue is unready and waiting at once |
| QueueTheorems.QueueMembership | src/queue/services/queue.service.ts:280-312 | in every run: one slot a player, ready slots are occupied, ids and classes are those of the configuration, and replaying the join and leave events gives the occupants |
| QueueTheorems.JoinEffect | src/queue/services/queue.service.ts:142-175 | a join succeeds exactly for an admitted player and an existing empty slot; the player then holds that slot and no other, is ready exactly if the queue is ready or full, and nobody else moves |
| QueueTheorems.LeaveEffect | src/queue/services/queue.service.ts:186-201 | a player gives up exactly the own slot, unless ready outside the waiting phase, when nothing changes |
| QueueTheorems.KickEffect | src/queue/services/queue.service.ts:203-223 | outside launching exactly the named players are removed and every other slot is untouched |
| QueueTheorems.ReadyUpEffect | src/queue/services/queue.service.ts:225-241 | readying up changes the own slot only |
| QueueEffects.PhaseExactly | src/queue/services/queue.service.ts:243-264 | in every run: waiting becomes ready exactly by a callback that finds every slot taken; ready becomes waiting exactly by a callback that finds every slot empty, or by the second timer, or by the first if no second is due later; ready becomes launching exactly by a callback that finds every slot ready; launching becomes waiting exactly by a callback |
| QueueEffects.CallbackEffect | src/queue/services/queue.service.ts:243-264 | a callback changes no slot and publishes no event; entering launching starts exactly one launch |
| QueueEffects.TimerExactly | src/queue/services/queue.service.ts:266-327 | in every run: entering ready arms the first timer, leaving it disarms, only the first timer arms the second, and nothing else touches an armed timer |
| QueueEffects.ElapseExactly | src/queue/services/queue.service.ts:266-278 | time passes by as much as it is told, but not beyond an armed timer |
| QueueEffects.UnreadyTimeoutEffect | src/queue/services/queue.service.ts:335-340 | at the second timeout everyone keeps the slot, nobody is ready and the queue waits |
| QueueEffects.OneCallbackPerChange | src/queue/services/queue.service.ts:69-71 | over every step the pending callbacks grow by the published slot changes, less the callback that ran |
| QueueEffects.PublishesExactly | src/queue/services/queue.service.ts:142-241 | in every run, which steps publish a slot change: an admitted join of an empty slot, an allowed leave, any kick outside launching, the ready-up of a queued player, a timer that kicks or unreadies, a reset |
| QueueEffects.JoinRefusalExactly | src/queue/services/queue.service.ts:121-151 | in every run, each error of a join and when it is given, slot ids being positions |
| QueueEffects.JoiningExactly | src/queue/services/queue.service.ts:121-175 | in every run at most one join is under way, from its state check to its claim, and a second one waits |
| QueueEffects.LeaveRefusalExactly | src/queue/services/queue.service.ts:186-201 | in every run, each error of a leave: not queued, or ready outside the waiting phase |
| QueueEffects.ReadyUpRefusalExactly | src/queue/services/queue.service.ts:225-241 | each error of a ready-up: another phase than ready, or not queued |
| QueueEffects.KickEvents | src/queue/services/queue.service.ts:210-220 | a kick publishes that a player left exactly once if the player was queued and is named, however often, and never otherwise |
| QueueEffects.EmptyKickEvents | src/queue/services/queue.service.ts:329-333 | as long as a slot is free, each empty entry of a kick publishes that nobody left, as the first timeout does for every free slot |
| QueueEffects.ResetEffect | src/queue/services/queue.service.ts:280-312 | in every run a launch that made its game empties every slot, keeping ids and classes, and leaves phase and timer as they are |
| QueueEffects.ThrowEffect | src/queue/services/auto-game-launcher.service.ts:31-43 | a launch that throws changes nothing else |
| QueueEffects.LayoutInOrder | src/queue/services/queue.service.ts:280-307 | the slots of a class follow those of the classes before it, `count` for each team, numbered through |
| QueueSafety.StepKeeps | src/queue/services/queue.service.ts:69-80 | the combined invariant of slots, phase, timer and event log is kept by every step |
| QueueSafety.KickEachKeeps | src/queue/services/queue.service.ts:210-220 | kicking a list, with empty entries for empty slots, clears exactly the slots of the listed players |
| QueueWitnesses.ReadyQueueCanStall | src/queue/services/queue.service.ts:157-162 | some run ends ready, all slots ready, with no callback |
| QueueWitnesses.FailedLaunchCanBlock | src/queue/services/auto-game-launcher.service.ts:31-43 | some run reaches the blocked state |
| QueueWitnesses.FailedLaunchCanBeMissed | src/queue/services/auto-game-launcher.service.ts:31-43 | some run leaves a full, all ready queue waiting with no callback and no launch |
| QueueWitnesses.OneQueueCanLaunchTwice | src/queue/services/auto-game-launcher.service.ts:31-43 | some run makes two games of the same two players, from one slot array |
| LaunchLedger.LedgerRunsTheQueue | src/queue/services/auto-game-launcher.service.ts:31-43 | the queue with its launches and their slot arrays runs as the queue of QueueModel does |
| LaunchLedger.BeginExactly | src/queue/services/auto-game-launcher.service.ts:25-29 | a launch begins exactly when the queue starts launching, with the slot array of that moment |
| LaunchLedger.CheckExactly | src/queue/services/auto-game-launcher.service.ts:31-43 | a launch goes on with the slots of its own array exactly if all are taken, and throws otherwise |
| LaunchLedger.MakeExactly | src/queue/services/auto-game-launcher.service.ts:36-42 | one that goes on makes its game of the slots it read, and the queue gets a new array |
| LaunchLedger.ThrowExactly | src/queue/services/auto-game-launcher.service.ts:31-43 | a launch can throw until it has made its game, and changes no other launch and no slot |
| LaunchLedger.GamesAreFull | src/games/services/games.service.ts:163-173 | in every run every game is made of a full slot array of the configuration, each player in one slot |
| LaunchLedger.SecondLaunchExactly | src/queue/services/queue.service.ts:243-264 | a slot array gets a second launch exactly when a callback finds the queue ready and all ready although a launch has begun since the last reset |
| LaunchLedger.SecondGame | src/queue/services/auto-game-launcher.service.ts:31-43 | once one of two launches of a slot array has made its game, the other can make one, and whatever happens only of the slots it had checked, or else of those at the reset |
| LaunchLedger.SamePlayersTwice | src/queue/services/auto-game-launcher.service.ts:31-43 | if the array is as the first launch read it, and the other has not read anything else, both games are of the same players |
| QueueService.QueueService.ResetSlots | src/queue/services/queue.service.ts:280-307 | the nested loops build the empty slots of the configuration |
| QueueService.QueueService.BeginJoin | src/queue/services/queue.service.ts:121-128 | refused exactly while launching; otherwise the join is suspended and nothing else changes |
| QueueService.QueueService.FinishJoin | src/queue/services/queue.service.ts:129-175 | the resumed join follows the specified claim or refusal on the state it finds |
| QueueService.QueueService.Leave | src/queue/services/queue.service.ts:186-201 | follows the specification, refusal included |
| QueueService.QueueService.Kick | src/queue/services/queue.service.ts:203-223 | the loop over the players follows the specified sequence of removals and publishes once |
| QueueService.QueueService.ReadyUp | src/queue/services/queue.service.ts:225-241 | follows the specification, refusal included |
| QueueService.QueueService.MaybeUpdateState | src/queue/services/queue.service.ts:243-264 | a callback makes the specified phase change, which is that of `PhaseExactly` |
| QueueService.QueueService.UnreadyQueue | src/queue/services/queue.service.ts:335-340 | the loop unreadies every occupied slot, publishes and returns to waiting |
| QueueService.QueueService.TimerFires | src/queue/services/queue.service.ts:314-340 | both timers follow the specification |
| AutoGameLauncherService.AutoGameLauncherService.OnImmediate | src/queue/services/auto-game-launcher.service.ts:25-29 | a callback that enters launching begins one launch of the current slot array |
| AutoGameLauncherService.AutoGameLauncherService.CheckSlots | src/queue/services/auto-game-launcher.service.ts:36-40 | the launch goes on exactly if its own slot array is full, and throws otherwise |
| AutoGameLauncherService.AutoGameLauncherService.FinishLaunch | src/queue/services/auto-game-launcher.service.ts:36-42 | the game is made of the slots read, and the queue gets a new slot array |
| AutoGameLauncherService.AutoGameLauncherService.Throws | src/queue/services/auto-game-launcher.service.ts:31-43 | a launch that throws resets nothing |
| Friends.FriendsService.MarkFriend | src/queue/services/friends.service.ts:24-72 | follows the specification with every error in the order of the checks |
| Friends.FriendsService.CleanupFriendships | src/queue/services/friends.service.ts:74-81 | a friendship is left afterwards if and only if it was there and its source holds a medic slot |
| LobbyTheorems.MarkEffect | src/queue/services/friends.service.ts:64-67 | an accepted mark replaces the source's friend and keeps all other friendships |
| LobbyEffects.MarkRefusedEarly | src/queue/services/friends.service.ts:24-45 | a mark is refused while launching; with a target, both must be queued, and a missing source is the one named; without one nothing else is asked |
| LobbyEffects.MarkRefusalExactly | src/queue/services/friends.service.ts:47-62 | between queued players it is refused exactly if the source's slot may not pick the target's class, or else if the target is somebody's friend already, the source's own included |
| LobbyEffects.FriendshipExactly | src/queue/services/friends.service.ts:24-81 | in every run a friendship is there after a step exactly if an accepted mark made it, or it was there and neither an accepted mark of its source replaced it nor a published slot change left its source without a medic slot |
| LobbyTheorems.FriendsAreUnique | src/queue/services/friends.service.ts:24-81 | in every run of queue and friends, nobody is the source of two friendships or the target of two |
| LobbyTheorems.FriendsOfQueuedMedics | src/queue/services/friends.service.ts:20-22 | when only medics may pick, every friendship's source holds a medic slot at every moment |
| LobbyTheorems.QueueToTeams | src/games/services/games.service.ts:163-182 | for every run, full queue and shuffle, neither the parity assertion nor "not implemented" is raised, and teams found are the queued players with `count` of each class a side and every friend list on one side |
| LobbyTheorems.LaunchFindsTeamsExactly | src/games/services/games.service.ts:163-182 | with one medic a side, the friendships and the full queue of one moment give teams exactly if no medic's friend is the other medic |
| LaunchTeams.LaunchTeamsExactly | src/queue/services/auto-game-launcher.service.ts:31-40 | the same for a launch, which takes friendships and slots at different moments, if its slots are still those it began with |
| LaunchTeams.UntouchedUntilCheck | src/queue/services/auto-game-launcher.service.ts:36-40 | that is so as long as no slot change has been published since it began |
| LobbyWitnesses.FriendCanBecomeMedic | src/queue/services/friends.service.ts:47-81 | some run of legal joins and marks fills the queue so that no skills and no shuffle give teams |
| LobbyWitnesses.LaunchCanKeepOldFriends | src/queue/services/auto-game-launcher.service.ts:31-40 | some launch reads slots that give no teams with a friendship it took when it began and that the lobby no longer has |
| PickTeams.MakeAllPossibleLineups | src/games/utils/pick-teams.ts:34-109 | fails with the error of the first bad class, and otherwise lists the product of the class options in generation order |
| PickTeams.MakeLineup | src/games/utils/pick-teams.ts:88-105 | appends exactly the completions of its prefix to what was collected before |
| PickTeams.PickTeams | src/games/utils/pick-teams.ts:167-193 | returns the selected lineup, team 0 in blu and team 1 in red, or the error |
| Lineups.GeneratedExactly | src/games/utils/pick-teams.ts:88-105 | a lineup is generated exactly if it puts together one listed option per class |
| Lineups.GeneratedOnce | src/games/utils/pick-teams.ts:43-108 | 2^a * 4^b lineups for a two-player and b four-player classes, no two equal |
| Lineups.GeneratedInOrder | src/games/utils/pick-teams.ts:88-105 | the lineups are generated class by class: the options of the first class one after the other, each with all lineups of the other classes in their own order |
| Lineups.ClassesInOrder | src/games/utils/pick-teams.ts:172 | the classes are taken in the order in which the players show them |
| Lineups.GeneratedIsSplit | src/games/utils/pick-teams.ts:43-77 | every generated lineup uses all players and halves every class |
| TeamTheorems.SortKeeps | src/games/utils/pick-teams.ts:183 | sorting orders by difference and keeps the lineups |
| TeamTheorems.SumIs | src/games/utils/pick-teams.ts:115-117 | total skill: nothing of nobody, a player's own, and of two groups together the sum of both |
| TeamTheorems.DifferenceIs | src/games/utils/pick-teams.ts:111-132 | the difference of a lineup is the distance of the two teams' mean skills |
| TeamTheorems.EvenDifference | src/games/utils/pick-teams.ts:111-132 | for teams of one size it is the gap in total skill over that size |
| TeamTheorems.DifferenceOrders | src/games/utils/pick-teams.ts:183 | of two splits of the same players the one with the smaller difference is the one with the smaller gap in total skill |
| TeamTheorems.FirstErrorIs | src/games/utils/pick-teams.ts:44-82 | the error raised is that of the first class of a size other than two or four: the parity assertion if odd, "not implemented" if even |
| TeamTheorems.OptionsListed | src/games/utils/pick-teams.ts:48-77 | two players give both orders; of four the first is paired with each of the others in turn, and the last option swaps the first |
| TeamTheorems.SortIsStable | src/games/utils/pick-teams.ts:183 | lineups of equal difference keep their order |
| TeamTheorems.SelectsFirst | src/games/utils/pick-teams.ts:174-185 | of the acceptable generated lineups with the least difference the first one is selected |
| TeamTheorems.RespectsMeans | src/games/utils/pick-teams.ts:134-162 | the set-size test says that no list names players of both teams, absent ones ignored |
| TeamTheorems.RespectsExactly | src/games/utils/pick-teams.ts:134-162 | a split passes the friends check exactly if no list names a player of blu and a player of red |
| TeamTheorems.SelectFacts | src/games/utils/pick-teams.ts:174-185 | selection succeeds exactly if a generated lineup passes the friends check, and then takes one of least difference, which is one of least gap in total skill |
| TeamTheorems.SplitIsGenerated | src/games/utils/pick-teams.ts:59-77 | with at most one class of four, every split is generated up to swapping the teams |
| TeamTheorems.GlobalMinimality | src/games/utils/pick-teams.ts:164-193 | with at most one class of four, teams are found exactly if an acceptable split exists, and none has a smaller gap between the teams' total skills |
| TeamTheorems.ShuffleDoesNotMatter | src/games/services/games.service.ts:179 | then shuffling changes neither success nor the gap in total skill |
| TeamLimits.BestExactlyWithOneFour | src/games/utils/pick-teams.ts:59-77 | for a given roster the selection has the least gap in total skill of all splits, for all skills and friends, if and only if at most one class has four players |
| FriendTeams.FriendsCanPlay | src/games/utils/pick-teams.ts:134-162 | medic friendships to distinct players, none to the other medic, leave a generated lineup that respects them |
| FriendTeams.TeamsExistExactly | src/games/utils/pick-teams.ts:134-185 | under medic friendships teams are found if and only if no medic picked the other medic |
| LifecycleTheorems.OverIsFinal | src/games/services/player-substitution.service.ts:215-308 | in every run a game that is over stays over and no substitution step changes it, though a replacement never looks at the state |
| LifecycleTheorems.SlotsOfAPlayer | src/games/services/player-substitution.service.ts:68-105 | in every run: earlier slots of a player are replaced, only a sole slot waits, waiting implies in progress, and in progress the mark equals holding a slot |
| LifecycleTheorems.SlotsOnlyGrow | src/games/services/player-substitution.service.ts:277-308 | slots are only appended; player, team and class never change; replaced is never undone |
| LifecycleTheorems.TeamsKeepStrength | src/games/services/player-substitution.service.ts:277-308 | per team and class as many slots are not replaced as at creation, in every run |
| LifecycleTheorems.RefusedExactly | src/games/services/player-substitution.service.ts:66-84 | in every run, for a player who holds a slot of a game in progress, a substitute is refused if and only if the player was replaced in it before |
| LifecycleTheorems.ReturningPlayerCannotBeSubstituted | src/games/models/game.ts:127-129 | once replaced, every later substitution request for that player is refused |
| LifecycleTheorems.ReturningPlayerExists | src/games/services/player-substitution.service.ts:273-308 | some run of a new game leads a replaced player back into a slot and into that refusal |
| LifecycleTheorems.ReplacedSlots | src/games/services/player-substitution.service.ts:273-308 | a replacement retires exactly the waiting slot and appends one of the same team and class, in a game in progress, for a player holding none |
| LifecycleEffects.SubstituteRefusalExactly | src/games/services/player-substitution.service.ts:66-81 | in every run, each error of a substitute request, or of cancelling one, in order: no slot, game over, replaced before |
| LifecycleEffects.ReplaceRefusalExactly | src/games/services/player-substitution.service.ts:219-275 | each error of a replacement, in order: banned, no waiting slot of the replacee, another player who is marked with any game at all |
| LifecycleEffects.SubstituteEffect | src/games/services/player-substitution.service.ts:66-105 | in every run a substitute request makes exactly the player's one slot wait, or changes nothing |
| LifecycleEffects.CancelEffect | src/games/services/player-substitution.service.ts:153-200 | in every run cancelling makes exactly that slot active again, or changes nothing |
| LifecycleEffects.ReplaceEffect | src/games/services/player-substitution.service.ts:215-341 | in every run: a banned or marked replacement changes nothing; the replacee takes the own slot back; anyone else gets a new slot of the same team and class and the mark, the old slot is replaced, the replacee's mark is gone and no other mark changes |
| LifecycleEffects.OtherMarksExactly | src/games/services/game-event-handler.service.ts:178-209 | in every run a step of this game changes a mark that names another game exactly if it frees a player with a slot here; while the game is in progress that is a replaced slot; a replacement never does |
| LifecycleEffects.EndCanFreeOtherGame | src/games/services/game-runtime.service.ts:92-100 | some run has a replaced player marked by another game, whose mark a forced end of this one takes away |
| LifecycleEffects.FreedExactly | src/games/services/game-event-handler.service.ts:178-209 | at the end of a match exactly the marks of players with a medic slot go; when the timer fires, and at a forced end, those of all players with a slot |
| LifecycleEffects.FreedWhenOver | src/games/services/game-event-handler.service.ts:94-96 | in every run only players with a slot are marked with the game; once it is over and no freeing is pending, nobody is |
| LifecycleEffects.StateExactly | src/games/services/game-event-handler.service.ts:33-85 | a game starts, ends and is interrupted by those steps only, and each end of a match arms one freeing |
| LifecycleEffects.EndSettles | src/games/services/game-runtime.service.ts:64-85 | either end makes every slot that is not replaced active and no other |
| LifecycleEffects.CreateEffect | src/games/services/games.service.ts:185-206 | a new game has one active slot for each picked player, in order, and marks exactly those players |
| LifecycleEffects.ReleaseStaleExactly | src/players/services/players.service.ts:230-250 | at start-up exactly a mark of this game goes that outlived it |
| LifecycleEffects.OtherGameExactly | src/games/services/games.service.ts:198-206 | other games mark and free exactly the player they name, and nobody whom this game has marked |
| GameServices.GameServices.constructor | src/games/services/games.service.ts:186-206 | the new game has everybody active and marks every player, one update each |
| GameServices.GameServices.SubstitutePlayer | src/games/services/player-substitution.service.ts:66-105 | follows the specification, refusals in order |
| GameServices.GameServices.CancelSubstitutionRequest | src/games/services/player-substitution.service.ts:153-200 | follows the specification, refusals in order |
| GameServices.GameServices.ReplacePlayer | src/games/services/player-substitution.service.ts:215-341 | push, retire and the two mark updates give the specified game |
| GameServices.GameServices.OnMatchStarted | src/games/services/game-event-handler.service.ts:33-60 | only a launching game starts |
| GameServices.GameServices.OnMatchEnded | src/games/services/game-event-handler.service.ts:62-99 | only a started game ends; waiting slots become active, medics are freed, the rest is scheduled |
| GameServices.GameServices.FreeAllPlayers | src/games/services/game-event-handler.service.ts:197-209 | the timer frees every player that ever had a slot |
| GameServices.GameServices.ForceEnd | src/games/services/game-runtime.service.ts:64-104 | interrupts a game in any state, settles waiting slots and frees all players |
| QueueToGame.FromQueueToGame | src/games/services/games.service.ts:163-209 | a game made from any full queue has exactly the queued players, each once and in the class of the queue slot, and keeps the configured number of every class on each team through every later run |
| TwoGames.ApartExactly | src/games/services/player-substitution.service.ts:273-341 | a run keeps the players of a game in progress out of the queue and of every launch under way if and only if no replacement is out of reach of its kick and no join that read before a replacement ends after it |
| TwoGamesReads.ReadExactly | src/queue/services/queue.service.ts:128-140 | in every run a join that has read goes by whether its player had an active game at one earlier moment, with the same join under way |
| TwoGamesReads.EntanglingJoin | src/queue/services/queue.service.ts:128-175 | from a new game, the first join that entangles a player read before that player replaced somebody in the game, and claims after |
| TwoGamesReads.PlayersAreMarked | src/games/services/player-substitution.service.ts:308-341 | in a run of a new game without entanglement everybody who plays in the game in progress is marked with it, launches of other games included |
| TwoGames.KickLeaves | src/queue/services/queue.service.ts:203-223 | after its kick a replacement is still bound exactly if the queue was launching with that player, or a launch has the player in slots of its own |
| TwoGames.NobodyPlaysTwice | src/queue/services/auto-game-launcher.service.ts:31-40 | in such a run no launch has read a player who holds a slot of the game in progress |
| TwoGames.EntangledPlaysTwice | src/queue/services/auto-game-launcher.service.ts:36-41 | otherwise a launch with full slots that include the player makes the second game, and the mark now names it |
| TwoGamesWitness.OnePlayerInTwoGames | src/games/services/player-substitution.service.ts:308-341 | some run ends with one player in two games in progress |
| ServerTheorems.ServerExclusivity | src/game-servers/services/game-servers.service.ts:111-164 | a run keeps, at every moment, the server of every game in progress pointing back to it if and only if no release writes while its server is in use |
| ServerTheorems.NeverShared | src/game-servers/services/game-servers.service.ts:111-126 | in such a run two games in progress never have one server |
| ServerLimits.StruckCanBeShared | src/game-servers/services/game-servers.service.ts:128-164 | once a release has written while a game in progress uses a static server, some continuation gives the server to a second game in progress; without a restart if it scheduled a cleanup and no assignment is under way |
| ServerWitnesses.TwoGamesCanShare | src/game-servers/services/game-servers.service.ts:111-164 | some run has two games in progress on one server |
| ServerWitnesses.CheckCanTakeServerInUse | src/game-servers/services/game-servers.service.ts:147-164 | some run has a game in progress whose server a slow check has taken away |
| ServerLimits.ApartIsSafe | src/game-servers/services/game-servers.service.ts:81-97 | a run in which no two updates of a server overlap has neither a release of a server in use, nor a doubled cleanup, nor a cleanup that succeeds on a server in use |
| ServerLimits.OrphanedExactly | src/games/services/game-launcher.service.ts:32-62 | a server becomes held by a game that does not point to it exactly by the second half of an assignment of that game, or by a restart during its own assignment |
| ServerLimits.RelaunchKeepsBothServers | src/games/services/game-launcher.service.ts:32-62 | launching a game again gives it another server, its end will release only that one, and the first stays taken through every run without a check of it |
| ServerLimits.OrphanStays | src/game-servers/services/game-servers.service.ts:128-141 | an orphaned server keeps its game through every run without a check of it, the end of the game included |
| ServerLimits.OrphanOutlivesChecks | src/game-servers/services/game-servers.service.ts:147-164 | while its game is in progress no check frees it either |
| ServerWitnesses.ServerCanBeOrphaned | src/games/services/game-launcher.service.ts:32-62 | some run launches a game again and leaves its first server orphaned |
| ServerTheorems.CleanedBetweenGames | src/game-servers/providers/static-game-server/services/static-game-servers.service.ts:59-80 | unless a cleanup succeeded on a server in use: between two assignments of a static server it was released and then cleaned, or the process restarted |
| ServerLimits.UncleanReuse | src/game-servers/providers/static-game-server/services/static-game-servers.service.ts:229-251 | once a cleanup has succeeded on a server in use, some continuation assigns the server again without a cleanup in between |
| ServerTheorems.TidyExactly | src/game-servers/providers/static-game-server/services/static-game-servers.service.ts:229-251 | a run keeps servers with a game dirty, and its history in order, if and only if no cleanup succeeds on a server in use |
| ServerTheorems.CleanupSparesGames | src/game-servers/providers/static-game-server/services/static-game-servers.service.ts:68-79 | a run has, at every moment, at most one cleanup pending a server and none for a server that has a game or is clean, if and only if no update that read the game writes after it is gone while a cleanup is pending or done |
| ServerTheorems.TwoReleases | src/game-servers/services/game-servers.service.ts:81-97 | of the interleavings of two releases of one server, exactly those in which both read before the first writes schedule two cleanups |
| ServerTheorems.OnlyDoublesClean | src/game-servers/providers/static-game-server/services/static-game-servers.service.ts:229-251 | without a doubled cleanup none ever succeeds on a server in use |
| ServerWitnesses.SecondCleanupCanHitAGame | src/game-servers/providers/static-game-server/services/static-game-servers.service.ts:229-251 | some run has a second cleanup succeed on the server of the next game |
| ServerWitnesses.HeartbeatCanDouble | src/game-servers/providers/static-game-server/services/static-game-servers.service.ts:160-201 | some run has a heartbeat schedule the second cleanup |
| ServerLimits.CheckAllReleases | src/game-servers/services/game-servers.service.ts:147-164 | whatever falls between the steps of a check, once its updates are done every server it read under a game that was over has been without a game since |
| ServerLimits.StrandedExactly | src/game-servers/providers/static-game-server/services/static-game-servers.service.ts:244-247 | a static server becomes dirty, without a game and with nothing to clean it, exactly by the failure of its last cleanup or by a release that read it without the game it then unsets |
| ServerLimits.RevivedExactly | src/game-servers/providers/static-game-server/services/static-game-servers.service.ts:253-261 | this ends exactly by a restart or by an update that read the server under its last game |
| ServerLimits.StrandedStays | src/game-servers/providers/static-game-server/services/static-game-servers.service.ts:126-139 | with no such update under way and no restart it is never assigned again; a restart makes it clean, and free exactly if it is online |
| ServerWitnesses.ServerCanBeStranded | src/game-servers/providers/static-game-server/services/static-game-servers.service.ts:244-247 | some run strands a server by a failed cleanup |
| GameServersService.GameServersService.FindFirstFreeGameServer | src/game-servers/providers/static-game-server/services/static-game-servers.service.ts:126-158 | a clean, online, unassigned server of highest priority, or none exactly if there is none |
| GameServersService.GameServersService.BeginAssign | src/game-servers/services/game-servers.service.ts:111-120 | static servers first, then a reservation; fails only without either; the server then points to the game |
| GameServersService.GameServersService.DoLaunch | src/games/services/game-launcher.service.ts:49-62 | on success game and server point to each other, whatever state the game is in |
| GameServersService.GameServersService.MaybeReleaseGameServer | src/game-servers/services/game-servers.service.ts:128-141 | the server's record, once read, decides: the update goes on exactly if it still names the ended game |
| GameServersService.GameServersService.ReleaseIfOver | src/game-servers/services/game-servers.service.ts:151-154 | the game's record, once read, decides: the update goes on exactly if the game is over, whatever the server has by then |
| GameServersService.GameServersService.ReadOldGameServer | src/game-servers/services/game-servers.service.ts:81-85 | an update first remembers whether the server has a game |
| GameServersService.GameServersService.WriteGameServer | src/game-servers/services/game-servers.service.ts:85-97 | the write and the two listeners: a game gone since the first read schedules a cleanup, a game come since makes the server dirty |
| GameServersService.GameServersService.CheckForGameServersToRelease | src/game-servers/services/game-servers.service.ts:147-164 | reads every server once and goes on separately with each that has a game |
| ServerLimits.HeartbeatRaises | src/game-servers/providers/static-game-server/services/static-game-servers.service.ts:160-201 | a heartbeat with nothing in between adds an unknown server clean, or brings a known one online with its priority, game or not, and leaves everything else alone |
| ServerEffects.OfflineLowers | src/game-servers/providers/static-game-server/services/static-game-servers.service.ts:221-223 | with nothing in between, a dead static server is taken offline, game or not, and all else stays |
| ServerEffects.AssignExactly | src/game-servers/providers/static-game-server/services/static-game-servers.service.ts:126-158 | an assignment is possible exactly with an available static server of the highest priority, or with a new server if none is available |
| ServerEffects.AssignEffect | src/game-servers/services/game-servers.service.ts:111-126 | both halves make game and server name each other, a static server dirty, and touch no other server or game |
| ServerEffects.EndBegins | src/game-servers/services/game-servers.service.ts:42-53 | the end of a game begins a release exactly if the game was in progress and has a server |
| ServerEffects.BeginsExactly | src/game-servers/services/game-servers.service.ts:42-53 | which steps begin an update: a published end of a game with a server, a check of a server with a game, a heartbeat, a dead server |
| ServerEffects.ReadExactly | src/game-servers/services/game-servers.service.ts:128-164 | what an update finds when it reads, and that it is over exactly if the server no longer names the ended game, or the game seen is not over |
| ServerEffects.WriteExactly | src/game-servers/services/game-servers.service.ts:85-97 | what an update leaves of each field of a stored server: a game gone since the read schedules a cleanup of a static server, a game come since makes it dirty |
| ServerEffects.WriteNew | src/game-servers/providers/static-game-server/services/static-game-servers.service.ts:173-197 | of an unknown server only a heartbeat leaves a record, of a new server that is free and clean |
| ServerEffects.EndReleases | src/game-servers/services/game-servers.service.ts:128-141 | from the end of a game, with nothing in between, its server becomes nobody's, a static one has one cleanup more ahead, and no other server is touched |
| ServerEffects.CleanupEffect | src/game-servers/providers/static-game-server/services/static-game-servers.service.ts:229-251 | one cleanup is used up; the server is clean afterwards exactly if it succeeded or was not needed; games are not touched |
| ServerEffects.NoCleanup | src/game-servers/providers/static-game-server/services/static-game-servers.service.ts:68-79 | no cleanup starts that is not scheduled, and none ends that has not started |
| ServerEffects.RestartEffect | src/game-servers/providers/static-game-server/services/static-game-servers.service.ts:253-261 | after a restart no cleanup or update is left and exactly the servers that were clean, and the static ones without a game, are clean |
| ServerEffects.GameExactly | src/games/services/game-event-handler.service.ts:33-85 | a stored game changes only by its start, its end or the second half of its own assignment |
| ServerEffects.NewGame | src/games/services/games.service.ts:185-192 | a game becomes stored exactly by its creation, launching and without a server |
| GameServersService.GameServersService.FinishCleanup | src/game-servers/providers/static-game-server/services/static-game-servers.service.ts:229-251 | only a successful cleanup makes the server clean |
| GameServersService.GameServersService.OnModuleInit | src/game-servers/providers/static-game-server/services/static-game-servers.service.ts:253-261 | a restart declares dirty unassigned servers clean and loses pending work |
| MapVoteTheorems.ResultsAreARecount | src/queue/services/map-vote.service.ts:51-85 | in every run the published results are a recount over the options, everybody has at most one vote, and the counts add up to the votes |
| MapVoteTheorems.VoteReplaces | src/queue/services/map-vote.service.ts:55-70 | a vote replaces the player's earlier one, a leave removes it, and nobody else's changes |
| MapVoteTheorems.WinnerExactly | src/queue/services/map-vote.service.ts:79-85 | there is a winner exactly if there is an option, and no option has more votes |
| MapVoteEffects.RollsExactly | src/queue/services/map-vote.service.ts:79-85 | in every run a map is picked by some roll exactly if it is an option no other has more voters than, and then by exactly one roll |
| MapVoteEffects.ResultsCountPlayers | src/queue/services/map-vote.service.ts:51-53 | in every run the count published for an option is the number of players whose vote it is |
| MapVoteEffects.VoteRefusalExactly | src/queue/services/map-vote.service.ts:55-63 | each error of a vote: the map is no option, else the player is not queued |
| MapVoteEffects.VotesExactly | src/queue/services/map-vote.service.ts:55-118 | in every run a vote is there after a step exactly if it was just accepted, or was there and neither replaced by its player, nor removed by a leave, nor cleared by new options |
| MapVoteEffects.PublishEffect | src/queue/services/map-vote.service.ts:105-110 | new options are the first three of the draw, or all if fewer, with no votes |
| MapVoteEffects.OptionsAndPool | src/queue/services/map-vote.service.ts:86-111 | only a draw changes the options and only a win the pool |
| MapVoteEffects.WinEffect | src/queue/services/map-vote.service.ts:86-93 | in every run the first write of a win lowers every positive cooldown by one, the second sets the winner's and no other |
| MapVoteTheorems.RecentWinnersDiffer | src/queue/services/map-vote.service.ts:86-94 | if every win is decided on options read after the win before was settled, any cooldown + 1 consecutive winners differ |
| MapVoteTheorems.CooldownsDifferExactly | src/queue/services/map-vote.service.ts:86-93 | a run keeps the positive cooldowns distinct throughout if and only if no win is settled while another map has the full cooldown |
| MapVoteTheorems.ApartWinsDiffer | src/queue/services/map-vote.service.ts:86-93 | that never happens if no win decrements the pool while the win of another map has decremented it and is not settled |
| MapVoteTheorems.OverlapCollides | src/queue/services/map-vote.service.ts:86-93 | after such an overlap, settling the two wins gives two maps the full cooldown |
| MapVoteTheorems.ScrambleOffersEnough | src/queue/services/map-vote.service.ts:101-111 | in every run cooldowns are at most the limit; in a run with distinct cooldowns a draw offers min(3, eligible) with at least pool size minus cooldown eligible |
| MapVoteLimits.TogetherRunsShort | src/queue/services/map-vote.service.ts:86-106 | once two wins have settled together, some continuation leaves fewer than that eligible, in a pool larger than the cooldown |
| MapVoteLimits.OverlappingWinsCollide | src/queue/services/map-vote.service.ts:79-96 | from every new vote with a cooldown and two maps, some run of two overlapping wins gives two maps the full cooldown |
| MapVoteLimits.TooFewCanBeLeft | src/queue/services/map-vote.service.ts:101-106 | so every such pool larger than the cooldown has a run with too few eligible maps |
| MapVoteTheorems.LastWinnerOfferedExactly | src/queue/services/map-vote.service.ts:86-111 | after orderly wins, and unless the options come from a draw that read too early, the last winner is among them if and only if they are those it won on |
| MapVoteLimits.LateDrawOffersWinner | src/queue/services/map-vote.service.ts:101-111 | from every new vote with a cooldown, a draw that read the pool before a win can offer the winner after it |
| MapVoteLimits.UndrawnWinnerCanRepeat | src/queue/services/map-vote.service.ts:86-94 | from every new vote, some run lets one map win twice on the same options |
| MapVoteService.MapVoteService.VoteForMap | src/queue/services/map-vote.service.ts:55-70 | follows the specification, refusals in order |
| MapVoteService.MapVoteService.DecideWinner | src/queue/services/map-vote.service.ts:79-85 | the picked option wins; the pool is not touched yet |
| MapVoteService.MapVoteService.CoolDown | src/queue/services/map-vote.service.ts:86-89 | the first write of a win takes one off every positive cooldown |
| MapVoteService.MapVoteService.SetCooldown | src/queue/services/map-vote.service.ts:90-93 | the second write gives the winner the full cooldown, whatever happened in between |
| MapVoteService.MapVoteService.FindEligible | src/queue/services/map-vote.service.ts:101-104 | a draw takes the maps eligible when it reads |
| MapVoteService.MapVoteService.PublishOptions | src/queue/services/map-vote.service.ts:105-110 | later it publishes at most three of them and clears the votes |
| OnlinePlayers.SocketsExactly | src/players/services/online-players.service.ts:27-50 | in every run the sockets kept for a player are exactly those the player opened and has not closed since, each once |
| OnlinePlayers.OnlineExactly | src/players/services/online-players.service.ts:27-66 | in every run a player who has opened a socket and not closed it since is listed, one listed without has a check pending, and with no check pending the list is exact |
| OnlinePlayers.OnlineChangesExactly | src/players/services/online-players.service.ts:27-81 | in every run a player comes online exactly by opening a socket, and goes exactly by a check that finds none open |
| OnlinePlayers.ChecksOwed | src/players/services/online-players.service.ts:51-57 | every closed socket owes one check, and a check that runs pays one |
| OnlinePlayers.ChecksSettle | src/players/services/online-players.service.ts:76-81 | running the pending checks leaves exactly the players with an open socket listed, without touching sockets |
| OnlinePlayers.OnlinePlayersService.OnConnected | src/players/services/online-players.service.ts:28-40 | follows the specification; a known socket changes nothing |
| OnlinePlayers.OnlinePlayersService.OnDisconnected | src/players/services/online-players.service.ts:42-58 | follows the specification; always schedules a check |
| OnlinePlayers.OnlinePlayersService.VerifyPlayer | src/players/services/online-players.service.ts:76-81 | only a player without a socket is taken off the list |
| LogParser.ParsePacket | src/log-receiver/utils/parse-log-message.ts:31-56 | a packet built from a mark-free password, any payload and two trailing bytes is read back exactly |
| LogParser.ParseExactly | src/log-receiver/utils/parse-log-message.ts:9-56 | parsing gives a message if and only if the bytes are a packet of it, or one cut short after the mark |
| LogParser.ErrorsExactly | src/log-receiver/utils/parse-log-message.ts:9-56 | each error and when it is given, in the order of the checks |
| LogParser.IndexOfMark | src/log-receiver/utils/parse-log-message.ts:14 | the first occurrence of the mark, or the length |

## Left out

- Cache restore at start-up: it sets slots and state without a timer or a callback; runs start from a fresh queue.
- Returned slots and log lines of the queue methods: only the refusal is returned.
- Late timers: time does not pass an armed timer's deadline before it fires.
- Missing skills and NaN averages: every player has a skill; the average of no player is 0.
- Finer interleavings of the substitution mutex, the game mutex and `forceEnd`: each method on a game is one step.
- Several games of one player, except in `TwoGames`: other games mark and free players, but never touch a mark of the modelled game, although their end would for a player replaced there (`EndCanFreeOtherGame` shows it from the other side).
- Connection statuses, scores, logs and connect strings of a game, and `reconfigure`: fields no other step reads.
- GameServers.Take: assigning a static server and marking it dirty is one step; the program does the second right after in a listener.
- GameServers.AssignStart: the search for a free server and the write to it are one step; only an assignment sets a game, and assignments exclude each other.
- GameServers.CleanupEnd: the update that makes a server clean reads and writes in one step; apart, it could only differ once a cleanup runs on a server with a game.
- The mutex of the updates by the static provider itself: their reads and writes interleave freely with everything.
- Heartbeat times and the five-minute rule for dead servers: an update to offline may begin at any time.
- The loop over orphaned games: a launch is possible for every stored game at every moment, which covers it; server configuration and log secrets are left out.
- MapVote.Lowered: the update of all cooldowns in the database is one step.
- Changes of the map pool, and voters who lose their slot by a reset (no leave event is published).
- MongoDB, RCON, Discord, Twitch, Mumble, serveme.tf requests, websockets, controllers, authentication and statistics: input and output only.
- Text decoding of log packets: passwords and payloads are bytes.
