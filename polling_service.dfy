/** `src/headsetcontrol_tray/ui/headset_polling_service.py`: `HeadsetPollingService`, the
    timer-driven poller. Each poll asks the headset service for its state, decides whether
    the UI must hear about it, remembers what it saw, and adapts the timer: 100 ms while
    things change, back to 1000 ms after three unchanged fast polls or on disconnect. */
module PollingService {
  import opened Prelude

  const NormalRefreshIntervalMs: int := 1000
  const FastRefreshIntervalMs: int := 100
  const FastPollNoChangeThreshold: int := 3
  const BatteryLevelFull: int := 100

  /** The answers of one poll's calls to the headset service, in the order `_poll_status`
      makes them: `is_device_connected`, then (only when connected) `get_battery_level`,
      `is_charging` and `get_chatmix_value`. */
  datatype Sample = Sample(connected: bool, batteryLevel: Option<int>, charging: Option<bool>, chatmix: Option<int>)

  /** The three values a poll remembers for the next one. */
  datatype Reading = Reading(batteryLevel: Option<int>, batteryStatusText: Option<string>, chatmix: Option<int>)

  /** The dictionary emitted as `status_updated`. */
  datatype StatusPayload = StatusPayload(
    isConnected: bool,
    batteryLevel: Option<int>,
    batteryStatusText: Option<string>,
    chatmixValue: Option<int>,
    connectionStateChanged: bool,
    dataChangedWhileConnected: bool)

  /** The poller's fields, gathered. */
  datatype PollState = PollState(
    connected: bool,
    last: Reading,
    fastPollActive: bool,
    noChangeCounter: int,
    firstPoll: bool,
    interval: int)

  /** The battery text of a connected headset: charging wins, then a full battery, then
      any known level. */
  function BatteryStatusText(level: Option<int>, charging: Option<bool>): (text: string)
    ensures text == "BATTERY_CHARGING" <==> charging == Some(true)
    ensures text == "BATTERY_FULL" <==> charging != Some(true) && level == Some(BatteryLevelFull)
    ensures text == "BATTERY_AVAILABLE" <==> charging != Some(true) && level.Some? && level.value != BatteryLevelFull
    ensures text == "BATTERY_UNAVAILABLE" <==> charging != Some(true) && level.None?
  {
    if charging == Some(true) then "BATTERY_CHARGING"
    else if level == Some(BatteryLevelFull) then "BATTERY_FULL"
    else if level.Some? then "BATTERY_AVAILABLE"
    else "BATTERY_UNAVAILABLE"
  }

  /** What a poll sees: nothing at all while disconnected. */
  function CurrentReading(s: Sample): (r: Reading)
    ensures !s.connected ==> r == Reading(None, None, None)
    ensures s.connected ==>
      r == Reading(s.batteryLevel, Some(BatteryStatusText(s.batteryLevel, s.charging)), s.chatmix)
  {
    if !s.connected then Reading(None, None, None)
    else Reading(s.batteryLevel, Some(BatteryStatusText(s.batteryLevel, s.charging)), s.chatmix)
  }

  /** `data_changed_while_connected`: while connected, any of the three values differs
      from the last poll's; while disconnected, the last poll had a level or a ChatMix
      value. */
  function DataChanged(connected: bool, current: Reading, last: Reading): (changed: bool)
    ensures connected ==> (changed <==> current != last)
    ensures !connected ==> (changed <==> last.batteryLevel.Some? || last.chatmix.Some?)
  {
    if !connected then last.batteryLevel.Some? || last.chatmix.Some?
    else (current.batteryLevel != last.batteryLevel || current.batteryStatusText != last.batteryStatusText ||
          current.chatmix != last.chatmix)
  }

  /** `_manage_polling_interval` on the fields it touches. */
  function ManageInterval(st: PollState, connected: bool, dataChanged: bool, connectionChanged: bool): (next: PollState)
    ensures next.connected == st.connected && next.last == st.last && next.firstPoll == st.firstPoll
  {
    if !connected then
      st.(interval := NormalRefreshIntervalMs, fastPollActive := false, noChangeCounter := 0)
    else if st.fastPollActive then
      if !dataChanged then
        if st.noChangeCounter + 1 >= FastPollNoChangeThreshold then
          st.(interval := NormalRefreshIntervalMs, fastPollActive := false, noChangeCounter := 0)
        else st.(noChangeCounter := st.noChangeCounter + 1)
      else st.(noChangeCounter := 0)
    else if connectionChanged || dataChanged then
      st.(interval := FastRefreshIntervalMs, fastPollActive := true, noChangeCounter := 0)
    else st
  }

  /** The fast-poll counter stays below the threshold and is 0 outside fast mode. */
  predicate CounterInvariant(st: PollState) {
    0 <= st.noChangeCounter < FastPollNoChangeThreshold && (!st.fastPollActive ==> st.noChangeCounter == 0)
  }

  /** `_poll_status` on the fields: the new state, and the payload if one is emitted. */
  function Poll(st: PollState, s: Sample): (result: (PollState, Option<StatusPayload>))
  {
    var connectionChanged := s.connected != st.connected;
    var current := CurrentReading(s);
    var dataChanged := DataChanged(s.connected, current, st.last);
    var shouldEmit := st.firstPoll || connectionChanged || dataChanged;
    var payload := StatusPayload(s.connected, current.batteryLevel, current.batteryStatusText, current.chatmix,
      connectionChanged, dataChanged);
    var afterEmit := st.(connected := s.connected, last := current, firstPoll := if shouldEmit then false else st.firstPoll);
    (ManageInterval(afterEmit, s.connected, dataChanged, connectionChanged), if shouldEmit then Some(payload) else None)
  }

  /** Each poll keeps the counter invariant. */
  lemma PollKeepsCounterInvariant(st: PollState, s: Sample)
    requires CounterInvariant(st)
    ensures CounterInvariant(Poll(st, s).0)
  {
  }

  /** A poll emits exactly when it is the first, the connection flipped, or the data
      changed; an emitting poll clears the first-poll flag; the last-known values always
      become the current ones. */
  lemma PollEmission(st: PollState, s: Sample)
    ensures var (next, payload) := Poll(st, s);
      (payload.Some? <==>
        st.firstPoll || s.connected != st.connected || DataChanged(s.connected, CurrentReading(s), st.last)) &&
      (payload.Some? ==> (!next.firstPoll && payload.value.isConnected == s.connected &&
                          payload.value.connectionStateChanged == (s.connected != st.connected))) &&
      next.last == CurrentReading(s) && next.connected == s.connected
  {
  }

  /** A disconnected poll resets the timer to normal and leaves fast mode. */
  lemma DisconnectResetsInterval(st: PollState, s: Sample)
    requires !s.connected
    ensures var next := Poll(st, s).0;
      next.interval == NormalRefreshIntervalMs && !next.fastPollActive && next.noChangeCounter == 0
  {
  }

  /** In normal mode with a connection, a change of connection or data switches to the
      fast interval with a fresh counter. */
  lemma ChangeStartsFastPolling(st: PollState, s: Sample)
    requires s.connected && !st.fastPollActive
    requires s.connected != st.connected || DataChanged(s.connected, CurrentReading(s), st.last)
    ensures var next := Poll(st, s).0;
      next.interval == FastRefreshIntervalMs && next.fastPollActive && next.noChangeCounter == 0
  {
  }

  /** Once disconnected and reported, further disconnected polls emit nothing. */
  lemma RepeatedDisconnectIsQuiet(st: PollState, s1: Sample, s2: Sample)
    requires !s1.connected && !s2.connected
    ensures Poll(Poll(st, s1).0, s2).1.None?
  {
    PollEmission(st, s1);
  }

  /** The same connected sample, polled again, is not a change. */
  lemma SteadySampleIsQuiet(st: PollState, s: Sample)
    requires s.connected
    ensures var next := Poll(st, s).0;
      Poll(next, s).1.None? && !DataChanged(s.connected, CurrentReading(s), next.last)
  {
    PollEmission(st, s);
  }

  /** Three unchanged connected polls in fast mode bring the timer back to normal. */
  lemma FastPollingExpires(st: PollState, s: Sample)
    requires CounterInvariant(st) && st.fastPollActive && st.connected && s.connected
    requires CurrentReading(s) == st.last
    ensures var st3 := Poll(Poll(Poll(st, s).0, s).0, s).0;
      !st3.fastPollActive && st3.interval == NormalRefreshIntervalMs && st3.noChangeCounter == 0
  {
    var st1 := Poll(st, s).0;
    var st2 := Poll(st1, s).0;
    assert st1.last == st.last && st1.connected;
    assert st2.last == st.last && st2.connected;
  }

  class HeadsetPollingService {
    var isCurrentlyConnected: bool
    var lastKnownBatteryLevel: Option<int>
    var lastKnownBatteryStatusText: Option<string>
    var lastKnownChatmixValue: Option<int>
    var fastPollActive: bool
    var fastPollNoChangeCounter: int
    var isFirstPoll: bool
    /** The `QTimer`: whether it runs, and its interval (0 until first set). */
    var timerActive: bool
    var interval: int
    /** Every `status_updated` emission, in order. */
    var emitted: seq<StatusPayload>

    function State(): (st: PollState)
      reads this
    {
      PollState(isCurrentlyConnected,
        Reading(lastKnownBatteryLevel, lastKnownBatteryStatusText, lastKnownChatmixValue),
        fastPollActive, fastPollNoChangeCounter, isFirstPoll, interval)
    }

    ghost predicate Valid()
      reads this
    {
      CounterInvariant(State())
    }

    constructor ()
      ensures State() == PollState(false, Reading(None, None, None), false, 0, true, 0)
      ensures !timerActive && emitted == []
      ensures Valid()
    {
      isCurrentlyConnected := false;
      lastKnownBatteryLevel := None;
      lastKnownBatteryStatusText := None;
      lastKnownChatmixValue := None;
      fastPollActive := false;
      fastPollNoChangeCounter := 0;
      isFirstPoll := true;
      timerActive := false;
      interval := 0;
      emitted := [];
    }

    /** `start`: only an idle timer is started, at the normal interval, followed by one
        immediate poll, which always emits. */
    method Start(s: Sample)
      requires Valid()
      modifies this
      ensures timerActive
      ensures old(timerActive) ==> State() == old(State()) && emitted == old(emitted)
      ensures !old(timerActive) ==>
        State() == Poll(old(State()).(firstPoll := true, interval := NormalRefreshIntervalMs), s).0 &&
        |emitted| == |old(emitted)| + 1 &&
        emitted[|emitted| - 1].isConnected == s.connected
      ensures Valid()
    {
      if !timerActive {
        isFirstPoll := true;
        interval := NormalRefreshIntervalMs;
        timerActive := true;
        PollStatus(s);
      }
    }

    /** `stop`. */
    method Stop()
      modifies this`timerActive
      ensures !timerActive
    {
      if timerActive {
        timerActive := false;
      }
    }

    /** `_poll_status`. */
    method PollStatus(s: Sample)
      requires Valid()
      modifies this`isCurrentlyConnected, this`lastKnownBatteryLevel, this`lastKnownBatteryStatusText
      modifies this`lastKnownChatmixValue, this`fastPollActive, this`fastPollNoChangeCounter
      modifies this`isFirstPoll, this`interval, this`emitted
      ensures State() == Poll(old(State()), s).0
      ensures emitted == old(emitted) + (if Poll(old(State()), s).1.Some? then [Poll(old(State()), s).1.value] else [])
      ensures Valid()
    {
      var previous := isCurrentlyConnected;
      var connected := s.connected;
      isCurrentlyConnected := connected;
      var connectionChanged := connected != previous;
      var current := CurrentReading(s);
      var dataChanged := DataChanged(connected, current,
        Reading(lastKnownBatteryLevel, lastKnownBatteryStatusText, lastKnownChatmixValue));
      var shouldEmit := isFirstPoll || connectionChanged || dataChanged;
      if shouldEmit {
        emitted := emitted + [StatusPayload(connected, current.batteryLevel, current.batteryStatusText,
          current.chatmix, connectionChanged, dataChanged)];
        isFirstPoll := false;
      }
      lastKnownBatteryLevel := current.batteryLevel;
      lastKnownBatteryStatusText := current.batteryStatusText;
      lastKnownChatmixValue := current.chatmix;
      ManagePollingInterval(connected, dataChanged, connectionChanged);
    }

    /** `_manage_polling_interval`. */
    method ManagePollingInterval(currentIsConnected: bool, dataChangedThisCycle: bool, connectionStateChangedThisCycle: bool)
      requires Valid()
      modifies this`interval, this`fastPollActive, this`fastPollNoChangeCounter
      ensures State() == ManageInterval(old(State()), currentIsConnected, dataChangedThisCycle, connectionStateChangedThisCycle)
      ensures Valid()
    {
      if !currentIsConnected {
        if interval != NormalRefreshIntervalMs {
          interval := NormalRefreshIntervalMs;
        }
        fastPollActive := false;
        fastPollNoChangeCounter := 0;
      } else if fastPollActive {
        if !dataChangedThisCycle {
          fastPollNoChangeCounter := fastPollNoChangeCounter + 1;
          if fastPollNoChangeCounter >= FastPollNoChangeThreshold {
            interval := NormalRefreshIntervalMs;
            fastPollActive := false;
            fastPollNoChangeCounter := 0;
          }
        } else {
          fastPollNoChangeCounter := 0;
        }
      } else if connectionStateChangedThisCycle || dataChangedThisCycle {
        if interval != FastRefreshIntervalMs {
          interval := FastRefreshIntervalMs;
        }
        fastPollActive := true;
        fastPollNoChangeCounter := 0;
      }
    }
  }
}
