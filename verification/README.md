# ISeeYou targeting tracker — a verified Dafny model

ISeeYou is a game-client add-on that tells the local player who is
targeting them. Its core is `TargetManager`. A frame callback polls the
game's object table at a fixed interval. Each poll picks the player
characters whose target is the local player and compares them with the
previous poll by object handle. It prints one chat line and plays one
sound for the players who started targeting, and one of each for those
who stopped. It then refreshes a bounded, newest-first target history.

The model has five modules:

- `Objects` (`objects.dfy`) holds the records: a game object
  `(id, name, targetId, isPlayer)`, a history entry
  `(id, name, timestamp)`, the 64-bit handle type and `Option`.
- `Targeting` (`targeting.dfy`) holds the targeter filter and LINQ
  `Except` with the handle-only comparer, as functions over sequences.
- `Notifications` (`notifications.dfy`) holds the chat lines and sounds
  of one tick, as a sequence of events.
- `History` (`history.dfy`) holds the specification of the history
  update: remove and insert at the front for every current targeter,
  then cut the tail.
- `Manager` (`manager.dfy`) holds the class `TargetManager`. Its fields
  are `current`, `history`, `timerStart` and the event log `events`. Its
  methods mirror the source's methods. `UpdateTargetHistory` keeps the
  source's `foreach` and `while` loops, with loop invariants.

Inputs that come from the host are method parameters:

- a millisecond clock reading, which stands in for the stopwatch;
- the configured `PollFrequency` and `MaxHistoryEntries` (defaults 100
  and 100, read live on every tick);
- the local player, as an `Option`;
- the object table, as a sequence;
- the timestamp `DateTime.Now`.

The chat and sound calls are appended to the `events` field.

`PollGateScenario`, `StartScenario` and `StopScenario` in `manager.dfy`
are worked examples checked by the verifier:

- callbacks 40 ms apart with a 100 ms interval update only on the third;
- a new targeter is announced and recorded;
- a targeter that looks away is announced as stopped, and its history
  entry stays.

Points of the code's behaviour worth noting:

- An update runs only when the elapsed time is strictly greater than
  `PollFrequency`.
- The history is refreshed for every current targeter on every tick.
- `MaxHistoryEntries` defaults to 100.
- A negative `MaxHistoryEntries` makes the trim loop empty the list and
  then call `RemoveAt(-1)`, which throws. The model reports this as the
  outcome `HistoryFault`. In that case the history is empty, `current`
  keeps its old value, the chat and sound events have already been
  emitted, and the timer has already restarted.
- `TargetManager.cs` tracks one player, the local player. It defines no
  registry of tracked players and no colour assigner.

## Model

| member | source | states |
|---|---|---|
| `Targeting.TargetersOf` | ISeeYou/TargetManager.cs:61-67 | every result is a player object of the table whose target is the local player, every such object is in the result, and the result keeps table order (a subsequence) |
| `Targeting.TargetersOfConcat` | ISeeYou/TargetManager.cs:63-66 | the filter distributes over concatenation of the table, so targeters come out in enumeration order |
| `Targeting.TargetersOfDistinct` | ISeeYou/TargetManager.cs:61-67 | a table without repeated handles yields targeters without repeated handles |
| `Targeting.ExceptById` | ISeeYou/TargetManager.cs:71-72 | `Except` with the handle-only comparer: the result's handles are exactly first's handles minus second's, no handle is repeated, and first's order is kept |
| `Targeting.ExceptSeen` | ISeeYou/TargetManager.cs:71-72 | the `Except` loop with its set of already-seen handles: its handles are first's minus the seen ones, distinct, in first's order |
| `Targeting.ExceptSeenConcat` | ISeeYou/TargetManager.cs:71-72 | `Except` streams over its first list: the second part is filtered with the first part's handles added to the seen set, so of a repeated handle the first record is reported |
| `Targeting.ExceptSeenSingle` | ISeeYou/TargetManager.cs:71-72 | a single object is reported exactly when its handle was not seen yet |
| `Targeting.ExceptKeepsFirstRecord` | ISeeYou/TargetManager.cs:71-72 | records B, C, B' (B' with B's handle) minus nothing give [B, C] |
| `Targeting.StartedStoppedDisjoint` | ISeeYou/TargetManager.cs:71-72 | no handle is reported as both started and stopped in one tick |
| `Targeting.DiffPartitions` | ISeeYou/TargetManager.cs:71-72 | every handle of the old or new targeters is exactly one of kept, started or stopped: the diff loses none and reports none twice |
| `Targeting.DiffExample` | ISeeYou/TargetManager.cs:111-116 | old targeters A, B and new targeters B (renamed), C give started [C] and stopped [A]: only the handle is compared |
| `Notifications.JoinNames` | ISeeYou/TargetManager.cs:76 | a single player's line is just that player's name |
| `Notifications.JoinNamesConcat` | ISeeYou/TargetManager.cs:86 | joining two non-empty lists is joining each, with one ", " between them |
| `Notifications.StartMessage` | ISeeYou/TargetManager.cs:76-79 | the start line is "<name> is targeting you." for one player and the joined names followed by " are targeting you." otherwise |
| `Notifications.StopMessage` | ISeeYou/TargetManager.cs:86-89 | the stop line is "<name> stopped targeting you." for one player and the joined names followed by " have stopped targeting you." otherwise |
| `Notifications.Notify` | ISeeYou/TargetManager.cs:74-92 | a tick emits two events (a line and a sound) for starts when some player started and two for stops when some player stopped |
| `Notifications.NotifyAtMostOneEach` | ISeeYou/TargetManager.cs:74-92 | exactly one start line and one start sound when some player started, none otherwise; likewise for stops; each sound follows its line and the start line comes first; a tick with no change emits nothing |
| `Notifications.SingleTargeterWording` | ISeeYou/TargetManager.cs:77-79 | for one player the lines read "<name> is targeting you." and "<name> stopped targeting you." |
| `Notifications.ManyTargetersWording` | ISeeYou/TargetManager.cs:86-89 | for several players the names are joined with ", " and the lines end "are targeting you." and "have stopped targeting you." |
| `History.RemoveIds` | ISeeYou/TargetManager.cs:100 | `RemoveAll` by handle keeps exactly the entries with other handles, in their old order |
| `History.RefreshAll` | ISeeYou/TargetManager.cs:97-104 | each iteration removes the player's entries and inserts a fresh one at the front; after the `foreach`, the history's handles are the old handles plus the targeters' handles |
| `History.Trim` | ISeeYou/TargetManager.cs:106-108 | the trim loop leaves at most `max` entries and is a prefix of its input: only tail entries go; it removes nothing when the history fits |
| `History.RefreshSplits` | ISeeYou/TargetManager.cs:97-104 | the refreshed history is the targeters' own entries followed by the old entries of all other handles, in old order with old timestamps |
| `History.FrontHandles` | ISeeYou/TargetManager.cs:97-103 | the targeters' part of the history has each of their handles exactly once |
| `History.RefreshKeepsDistinct` | ISeeYou/TargetManager.cs:97-103 | refreshing keeps history handles pairwise distinct |
| `History.FrontIsNewestFirst` | ISeeYou/TargetManager.cs:97-103 | with distinct targeters, their part of the history is their entries with the last iterated first |
| `History.FrontIsReversed` | ISeeYou/TargetManager.cs:102 | with distinct targeters, entry i of the front is the targeter at position n-1-i, stamped now |
| `History.TargeterKeptOnce` | ISeeYou/TargetManager.cs:95-109 | after the update every current targeter occurs exactly once, whatever the old history held, when the maximum is at least the number of their handles |
| `History.OthersKeepOrder` | ISeeYou/TargetManager.cs:95-109 | after the update the entries of non-targeting handles keep their order, names and timestamps; only their tail is cut |
| `History.SteadyTargetersRenewTimestamps` | ISeeYou/TargetManager.cs:95-109 | two updates with the same targeters equal one update at the later time: timestamps are renewed and nothing else moves |
| `History.ThreeTargetersTwoSlots` | ISeeYou/TargetManager.cs:106-108 | with room for two, targeters X, Y, Z leave [Z, Y] |
| `Manager.UpdatedTickHistory` | ISeeYou/TargetManager.cs:53-58 | after a completed update, `current` is the new targeters, the history fits the maximum and stays distinct, and every current targeter occurs once when they fit |
| `Manager.SteadyTargetersAreSilent` | ISeeYou/TargetManager.cs:69-92 | when the handles did not change since the last poll, nothing goes to chat or sound |
| `Manager.TargetManager.constructor` | ISeeYou/TargetManager.cs:13-25 | the timer starts at the given clock reading; no targeters, empty history, no events |
| `Manager.TargetManager.ClearTargetHistory` | ISeeYou/TargetManager.cs:20 | the history becomes empty; no other field changes |
| `Manager.TargetManager.OnFrameworkUpdate` | ISeeYou/TargetManager.cs:38-45 | elapsed time at most `PollFrequency`: nothing changes; otherwise the timer restarts at this clock reading and one update runs |
| `Manager.TargetManager.UpdateTargetingPlayers` | ISeeYou/TargetManager.cs:47-59 | no local player: no field changes; otherwise events get the tick's notifications, then the history and `current` change as the history update allows (or the `RemoveAt(-1)` fault) |
| `Manager.TargetManager.LogTargetingChanges` | ISeeYou/TargetManager.cs:69-93 | appends exactly the notifications for started = new minus current and stopped = current minus new, by handle |
| `Manager.TargetManager.UpdateTargetHistory` | ISeeYou/TargetManager.cs:95-109 | completes exactly when the maximum is non-negative, and then the history is the refreshed and trimmed old history; otherwise the history is empty; handles stay distinct |

## Left out

- The Dalamud `Framework.Update` subscription and `Dispose` (ISeeYou/TargetManager.cs:27-36) are host wiring. The model takes each frame callback as a call to `OnFrameworkUpdate`.
- The `Stopwatch` is a millisecond clock reading passed in, minus the field `timerStart`. Its tick resolution and rounding to whole milliseconds are not modelled.
- `DateTime.Now` is a single timestamp per tick. The source reads the clock again for every inserted entry, so entries of one tick may differ slightly in time.
- `Shared.Log.Debug` (ISeeYou/TargetManager.cs:103) is left out, because it only writes a diagnostic log.
- `Shared.Chat.Print` and `Shared.Sound.PlaySound` are recorded as events and not performed. Sound file paths are two named cues.
- What the host does with the `RemoveAt(-1)` exception is not modelled, because it happens outside `TargetManager`. The model returns `HistoryFault` and stops at the point where the exception is thrown.
- `IPlayerCharacter` objects are live references. A stopped targeter's name is read from the game object when it is announced. The model uses value snapshots, and `Name` and `Name.TextValue` are one string.
- `History.FrontIsReversed`: stated only for targeter lists without repeated handles. The game's object table has one object per handle. For any list, `History.FrontHandles` states the handles and their distinctness instead.
- `History.FrontIsNewestFirst`: also requires targeters without repeated handles, for the same reason.
- `History.ThreeTargetersTwoSlots`: the example uses three distinct handles.
- The tracked-player registry and colour methods (`RegisterPlayer`, `UnregisterPlayer`, `GetAllHistories`, `GetPlayerColors`) are called by other files but are not defined in ISeeYou/TargetManager.cs. They are not part of this model.
- The windows, the context menu, the plugin entry point, `Util`, `Shared` and configuration persistence are left out. They are UI, command wiring and service lookup. Only the two numeric settings enter the model, as parameters.
