/** The `TargetManager` object: the poll gate on the frame callback, the
    per-tick update of the current targeters, the chat and sound output and
    the bounded target history. */
module Manager {
  import opened Objects
  import opened Targeting
  import opened Notifications
  import opened History

  /** What one frame callback did. `HistoryFault` is the exception
      `RemoveAt(-1)` throws when the maximum is negative. */
  datatype TickOutcome = NotDue | NoLocalPlayer | Updated | HistoryFault

  /** The state change of `UpdateTargetingPlayers`, from the fields before
      (`c0`, `h0`, `e0`) to the fields after (`c1`, `h1`, `e1`). */
  ghost predicate TickEffect(c0: seq<GameObject>, h0: seq<HistoryEntry>, e0: seq<Event>,
                             c1: seq<GameObject>, h1: seq<HistoryEntry>, e1: seq<Event>,
                             localPlayer: Option<GameObject>, objects: seq<GameObject>,
                             now: Timestamp, maxHistoryEntries: int, outcome: TickOutcome)
  {
    match localPlayer
    case None =>
      outcome == NoLocalPlayer && c1 == c0 && h1 == h0 && e1 == e0
    case Some(local) =>
      var newly := TargetersOf(objects, local);
      e1 == e0 + Notify(ExceptById(newly, c0), ExceptById(c0, newly)) &&
      if maxHistoryEntries >= 0 then
        outcome == Updated && c1 == newly && h1 == Trim(RefreshAll(h0, newly, now), maxHistoryEntries)
      else
        outcome == HistoryFault && c1 == c0 && h1 == []
  }

  /** After a completed update the history respects the maximum, keeps its
      handles distinct, and holds every current targeter exactly once when
      the maximum leaves room for all of them. */
  lemma {:induction false} UpdatedTickHistory(c0: seq<GameObject>, h0: seq<HistoryEntry>, e0: seq<Event>,
                                              c1: seq<GameObject>, h1: seq<HistoryEntry>, e1: seq<Event>,
                                              localPlayer: Option<GameObject>, objects: seq<GameObject>,
                                              now: Timestamp, maxHistoryEntries: int)
    requires TickEffect(c0, h0, e0, c1, h1, e1, localPlayer, objects, now, maxHistoryEntries, Updated)
    requires EntryIdsDistinct(h0)
    ensures localPlayer.Some? && c1 == TargetersOf(objects, localPlayer.value)
    ensures |h1| <= maxHistoryEntries
    ensures EntryIdsDistinct(h1)
    ensures |ObjectIds(c1)| <= maxHistoryEntries ==>
              forall x :: x in ObjectIds(c1) ==> Occurrences(h1, x) == 1
  {
    var refreshed := RefreshAll(h0, c1, now);
    RefreshKeepsDistinct(h0, c1, now);
    SubsequencePrefix(h1, refreshed);
    SubsequenceDistinct(h1, refreshed);
    if |ObjectIds(c1)| <= maxHistoryEntries {
      forall x | x in ObjectIds(c1) ensures Occurrences(h1, x) == 1 {
        TargeterKeptOnce(h0, c1, now, maxHistoryEntries, x);
      }
    }
  }

  /** A tick whose targeters have the same handles as the previous tick's
      sends nothing to chat or sound, so a steady situation does not repeat
      its announcement every poll. */
  lemma SteadyTargetersAreSilent(current: seq<GameObject>, newly: seq<GameObject>)
    requires ObjectIds(current) == ObjectIds(newly)
    ensures Notify(ExceptById(newly, current), ExceptById(current, newly)) == []
  {
    NoHandlesNoObjects(ExceptById(newly, current));
    NoHandlesNoObjects(ExceptById(current, newly));
  }

  class TargetManager {
    /** `currentTargetingPlayers`: the targeters seen at the last completed tick. */
    var current: seq<GameObject>
    /** `targetHistory`, newest entry first. */
    var history: seq<HistoryEntry>
    /** The clock reading at which `updateTimer` was last started or restarted. */
    var timerStart: int
    /** Every `Chat.Print` and `Sound.PlaySound` call made so far, in order. */
    var events: seq<Event>

    /** The history never holds two entries for one handle. */
    ghost predicate Valid()
      reads this
    {
      EntryIdsDistinct(history)
    }

    /** The constructor starts the update timer; no one targets yet and the history is empty. */
    constructor (clock: int)
      ensures Valid()
      ensures current == [] && history == [] && timerStart == clock && events == []
    {
      current := [];
      history := [];
      timerStart := clock;
      events := [];
    }

    /** `ClearTargetHistory`: empties the history and touches nothing else. */
    method ClearTargetHistory()
      requires Valid()
      modifies this`history
      ensures Valid()
      ensures history == []
    {
      history := [];
    }

    /** `OnFrameworkUpdate`: when more than `pollFrequency` milliseconds have
        passed since the timer was (re)started, restart it and run one
        update; otherwise do nothing at all. */
    method OnFrameworkUpdate(clock: int, pollFrequency: int, maxHistoryEntries: int,
                             localPlayer: Option<GameObject>, objects: seq<GameObject>, now: Timestamp)
      returns (outcome: TickOutcome)
      requires Valid()
      modifies this
      ensures Valid()
      ensures clock - old(timerStart) <= pollFrequency ==>
                outcome == NotDue && current == old(current) && history == old(history) &&
                events == old(events) && timerStart == old(timerStart)
      ensures clock - old(timerStart) > pollFrequency ==>
                timerStart == clock &&
                TickEffect(old(current), old(history), old(events), current, history, events,
                           localPlayer, objects, now, maxHistoryEntries, outcome)
    {
      if clock - timerStart <= pollFrequency {
        return NotDue;
      }
      timerStart := clock;
      outcome := UpdateTargetingPlayers(localPlayer, objects, now, maxHistoryEntries);
    }

    /** `UpdateTargetingPlayers`: without a local player nothing happens;
        otherwise announce the changes, refresh the history and remember the
        new targeters (unless the history trim threw). */
    method UpdateTargetingPlayers(localPlayer: Option<GameObject>, objects: seq<GameObject>,
                                  now: Timestamp, maxHistoryEntries: int)
      returns (outcome: TickOutcome)
      requires Valid()
      modifies this`current, this`history, this`events
      ensures Valid()
      ensures TickEffect(old(current), old(history), old(events), current, history, events,
                         localPlayer, objects, now, maxHistoryEntries, outcome)
    {
      if localPlayer.None? {
        return NoLocalPlayer;
      }
      var newly := TargetersOf(objects, localPlayer.value);
      LogTargetingChanges(newly);
      var completed := UpdateTargetHistory(newly, now, maxHistoryEntries);
      if !completed {
        // the exception leaves the line that reassigns the targeters unreached
        return HistoryFault;
      }
      current := newly;
      outcome := Updated;
    }

    /** `LogTargetingChanges`: one chat line and one sound for the players
        who started targeting, then one of each for those who stopped. */
    method LogTargetingChanges(newly: seq<GameObject>)
      modifies this`events
      ensures events == old(events) + Notify(ExceptById(newly, current), ExceptById(current, newly))
    {
      var stopped := ExceptById(current, newly);
      var started := ExceptById(newly, current);
      if started != [] {
        events := events + [ChatMessage(StartMessage(started)), PlaySound(TargetStartSound)];
      }
      if stopped != [] {
        events := events + [ChatMessage(StopMessage(stopped)), PlaySound(TargetStopSound)];
      }
    }

    /** `UpdateTargetHistory`: for each targeter in turn, remove its entries
        and insert a fresh one at the front; then drop entries from the end
        while there are more than `maxHistoryEntries`. With a negative maximum
        the list is emptied and `RemoveAt(-1)` throws: `completed` is false. */
    method UpdateTargetHistory(newly: seq<GameObject>, now: Timestamp, maxHistoryEntries: int)
      returns (completed: bool)
      requires Valid()
      modifies this`history
      ensures Valid()
      ensures completed <==> maxHistoryEntries >= 0
      ensures completed ==> history == Trim(RefreshAll(old(history), newly, now), maxHistoryEntries)
      ensures !completed ==> history == []
    {
      for i := 0 to |newly|
        invariant history == RefreshAll(old(history), newly[..i], now)
      {
        var player := newly[i];
        assert newly[..i + 1][..i] == newly[..i];
        history := RemoveIds(history, {player.id});
        history := [EntryFor(player, now)] + history;
      }
      assert newly[..|newly|] == newly;
      RefreshKeepsDistinct(old(history), newly, now);
      ghost var refreshed := history;
      while |history| > maxHistoryEntries
        invariant history <= refreshed
        invariant history == refreshed || |history| >= maxHistoryEntries
        decreases |history|
      {
        if |history| == 0 {
          return false;
        }
        history := history[..|history| - 1];
      }
      completed := true;
      SubsequencePrefix(history, refreshed);
      SubsequenceDistinct(history, refreshed);
    }
  }

  /** Three frame callbacks 40 ms apart with a 100 ms poll interval: only
      the third, 120 ms after the timer started, runs an update. */
  method PollGateScenario()
  {
    var hero := GameObject(1, "Hero", 0, true);
    var seven := GameObject(7, "Seven", 1, true);
    var m := new TargetManager(0);
    var o := m.OnFrameworkUpdate(40, 100, 100, Some(hero), [hero, seven], 500);
    assert o == NotDue;
    o := m.OnFrameworkUpdate(80, 100, 100, Some(hero), [hero, seven], 500);
    assert o == NotDue && m.timerStart == 0;
    o := m.OnFrameworkUpdate(120, 100, 100, Some(hero), [hero, seven], 500);
    assert o == Updated && m.timerStart == 120;
  }

  /** A player who targets the local player is announced and recorded. */
  method StartScenario()
  {
    var hero := GameObject(1, "Hero", 0, true);
    var seven := GameObject(7, "Seven", 1, true);
    var m := new TargetManager(0);
    assert TargetersOf([hero, seven], hero) == [seven];
    assert ExceptById([seven], []) == [seven] && ExceptById([], [seven]) == [];
    SingleTargeterWording(seven);
    assert StartMessage([seven]) == "Seven is targeting you.";
    assert Notify([seven], []) == [ChatMessage("Seven is targeting you."), PlaySound(TargetStartSound)];
    assert RefreshAll([], [seven], 500) == [EntryFor(seven, 500)] by {
      assert [seven][..0] == [];
    }
    var o := m.OnFrameworkUpdate(120, 100, 100, Some(hero), [hero, seven], 500);
    assert o == Updated && m.current == [seven];
    assert m.history == [EntryFor(seven, 500)];
    assert m.events == [ChatMessage("Seven is targeting you."), PlaySound(TargetStartSound)];
  }

  /** A player who looks away is announced as stopped, and its history entry stays. */
  method StopScenario()
  {
    var hero := GameObject(1, "Hero", 0, true);
    var seven := GameObject(7, "Seven", 0, true);
    var m := new TargetManager(0);
    m.current := [seven];
    m.history := [EntryFor(seven, 500)];
    assert TargetersOf([hero, seven], hero) == [];
    assert ExceptById([], [seven]) == [] && ExceptById([seven], []) == [seven];
    SingleTargeterWording(seven);
    assert StopMessage([seven]) == "Seven stopped targeting you.";
    assert Notify([], [seven]) == [ChatMessage("Seven stopped targeting you."), PlaySound(TargetStopSound)];
    assert Trim(RefreshAll([EntryFor(seven, 500)], [], 600), 100) == [EntryFor(seven, 500)];
    var o := m.OnFrameworkUpdate(240, 100, 100, Some(hero), [hero, seven], 600);
    assert o == Updated && m.current == [];
    assert m.history == [EntryFor(seven, 500)];
    assert m.events == [ChatMessage("Seven stopped targeting you."), PlaySound(TargetStopSound)];
  }
}
