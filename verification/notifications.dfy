/** The chat lines and sounds one tick produces (`LogTargetingChanges`,
    lines 74-92). Chat printing and sound playback themselves are outside the
    model: they are recorded as events. */
module Notifications {
  import opened Objects

  /** `Shared.SoundTargetStartPath` and `Shared.SoundTargetStopPath`. */
  datatype SoundCue = TargetStartSound | TargetStopSound

  /** One call to `Shared.Chat.Print` or `Shared.Sound.PlaySound`. */
  datatype Event = ChatMessage(text: string) | PlaySound(cue: SoundCue)

  const Separator: string := ", "
  const StartedOne: string := " is targeting you."
  const StartedMany: string := " are targeting you."
  const StoppedOne: string := " stopped targeting you."
  const StoppedMany: string := " have stopped targeting you."

  /** `string.Join(", ", players.Select(player => player.Name))`. */
  function JoinNames(players: seq<GameObject>): (r: string)
    ensures |players| == 1 ==> r == players[0].name
  {
    if |players| == 0 then ""
    else if |players| == 1 then players[0].name
    else players[0].name + Separator + JoinNames(players[1..])
  }

  /** Joining two non-empty lists is joining each and putting one separator
      between them: names appear in list order, separated by ", ". */
  lemma {:induction false} JoinNamesConcat(a: seq<GameObject>, b: seq<GameObject>)
    requires a != [] && b != []
    ensures JoinNames(a + b) == JoinNames(a) + Separator + JoinNames(b)
  {
    assert (a + b)[0] == a[0];
    if |a| == 1 {
      assert (a + b)[1..] == b;
    } else {
      assert (a + b)[1..] == a[1..] + b;
      JoinNamesConcat(a[1..], b);
    }
  }

  /** The chat line for players who started targeting: their names, then the
      singular wording for exactly one player and the plural one otherwise. */
  function StartMessage(started: seq<GameObject>): (r: string)
    ensures |started| == 1 ==> r == started[0].name + " is targeting you."
    ensures |started| != 1 ==> r == JoinNames(started) + " are targeting you."
  {
    JoinNames(started) + (if |started| == 1 then StartedOne else StartedMany)
  }

  /** The chat line for players who stopped targeting. */
  function StopMessage(stopped: seq<GameObject>): (r: string)
    ensures |stopped| == 1 ==> r == stopped[0].name + " stopped targeting you."
    ensures |stopped| != 1 ==> r == JoinNames(stopped) + " have stopped targeting you."
  {
    JoinNames(stopped) + (if |stopped| == 1 then StoppedOne else StoppedMany)
  }

  /** Everything one tick sends to chat and sound, in emission order. */
  function Notify(started: seq<GameObject>, stopped: seq<GameObject>): (r: seq<Event>)
    ensures |r| == (if started != [] then 2 else 0) + (if stopped != [] then 2 else 0)
  {
    (if started != [] then [ChatMessage(StartMessage(started)), PlaySound(TargetStartSound)] else []) +
    (if stopped != [] then [ChatMessage(StopMessage(stopped)), PlaySound(TargetStopSound)] else [])
  }

  /** A tick gives at most one chat line and one sound for players who
      started targeting and at most one of each for players who stopped:
      exactly one when there is such a player, none otherwise. Each sound
      follows its chat line, the start announcement comes first, and a quiet
      tick emits nothing. */
  lemma {:induction false} NotifyAtMostOneEach(started: seq<GameObject>, stopped: seq<GameObject>)
    ensures var r := Notify(started, stopped);
      && multiset(r)[PlaySound(TargetStartSound)] == (if started != [] then 1 else 0)
      && multiset(r)[PlaySound(TargetStopSound)] == (if stopped != [] then 1 else 0)
      && ChatCount(r) == (if started != [] then 1 else 0) + (if stopped != [] then 1 else 0)
      && (started != [] ==> r[0] == ChatMessage(StartMessage(started)) && r[1] == PlaySound(TargetStartSound))
      && (stopped != [] ==> r[|r| - 2] == ChatMessage(StopMessage(stopped)) && r[|r| - 1] == PlaySound(TargetStopSound))
      && (r == [] <==> started == [] && stopped == [])
  {
    var starts := if started != [] then [ChatMessage(StartMessage(started)), PlaySound(TargetStartSound)] else [];
    var stops := if stopped != [] then [ChatMessage(StopMessage(stopped)), PlaySound(TargetStopSound)] else [];
    ChatCountConcat(starts, stops);
    assert ChatCount(starts) == |starts| / 2 by {
      if starts != [] { assert starts[1..] == [PlaySound(TargetStartSound)]; assert starts[1..][1..] == []; }
    }
    assert ChatCount(stops) == |stops| / 2 by {
      if stops != [] { assert stops[1..] == [PlaySound(TargetStopSound)]; assert stops[1..][1..] == []; }
    }
  }

  /** The number of chat lines among the events. */
  function ChatCount(events: seq<Event>): nat
  {
    if events == [] then 0
    else (if events[0].ChatMessage? then 1 else 0) + ChatCount(events[1..])
  }

  lemma {:induction false} ChatCountConcat(a: seq<Event>, b: seq<Event>)
    ensures ChatCount(a + b) == ChatCount(a) + ChatCount(b)
  {
    if a == [] {
      assert a + b == b;
    } else {
      assert (a + b)[0] == a[0];
      assert (a + b)[1..] == a[1..] + b;
      ChatCountConcat(a[1..], b);
    }
  }

  /** One player starting and stopping reads "<name> is targeting you." and
      "<name> stopped targeting you.". */
  lemma SingleTargeterWording(p: GameObject)
    ensures StartMessage([p]) == p.name + " is targeting you."
    ensures StopMessage([p]) == p.name + " stopped targeting you."
  {
  }

  /** Several players are listed in order, separated by ", ", with the plural wording. */
  lemma {:induction false} ManyTargetersWording(ps: seq<GameObject>, q: GameObject)
    requires ps != []
    ensures StartMessage(ps + [q]) == JoinNames(ps) + ", " + q.name + " are targeting you."
    ensures StopMessage(ps + [q]) == JoinNames(ps) + ", " + q.name + " have stopped targeting you."
  {
    JoinNamesConcat(ps, [q]);
  }
}
