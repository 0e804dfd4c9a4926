/** createTelemetrySender of src/lib/telemetry.ts. A call runs to its fetch without interruption
    (Begin) and ends when the fetch does (End); any other call may come in between. */
module TelemetrySender {
  import opened Results
  import opened Sequences

  const WINDOW: nat := 60_000
  const WINDOW_LIMIT: nat := 20
  const TOTAL_LIMIT: nat := 200

  datatype Mode = Client | Proxy

  /** A parsed event: key is name and route; fits says that its JSON is at most 1024 bytes. */
  datatype Event = Event(key: string, isError: bool, fits: bool)

  /** A send, with the start of the window it was counted in. */
  datatype Send = Send(at: nat, window: nat, key: string, isError: bool)

  /** sends records every fetch started so far. */
  datatype State = State(
    inFlight: bool,
    total: nat,
    windowStart: nat,
    windowCount: nat,
    errors: map<string, nat>,
    sends: seq<Send>)

  const INITIAL := State(false, 0, 0, 0, map[], [])

  /** A call while the sender is configured (enabled, allowed, with an endpoint) or not. */
  datatype Action = Begin(configured: bool, now: nat, event: Option<Event>) | End

  /** The window of a call: a new one when the last is 60 s old. */
  function Roll(s: State, now: nat): State {
    if now - s.windowStart >= WINDOW then s.(windowStart := now, windowCount := 0) else s
  }

  predicate Repeats(mode: Mode, errors: map<string, nat>, now: nat, event: Event) {
    mode == Client && event.isError && event.key in errors && now - errors[event.key] < WINDOW
  }

  function Record(mode: Mode, s: State, now: nat, event: Event): State {
    State(true, s.total + 1, s.windowStart, s.windowCount + 1,
          if mode == Client && event.isError then s.errors[event.key := now] else s.errors,
          s.sends + [Send(now, s.windowStart, event.key, event.isError)])
  }

  function Do(mode: Mode, s: State, action: Action): State {
    match action
    case End => s.(inFlight := false)
    case Begin(configured, now, event) =>
      if !configured || s.inFlight || (mode == Client && s.total >= TOTAL_LIMIT) || event.None? then s
      else Attempt(mode, Roll(s, now), now, event.value)
  }

  function Attempt(mode: Mode, s: State, now: nat, event: Event): State {
    if s.windowCount >= WINDOW_LIMIT || Repeats(mode, s.errors, now, event) || !event.fits then s
    else Record(mode, s, now, event)
  }

  function Run(mode: Mode, actions: seq<Action>): State {
    if actions == [] then INITIAL
    else Do(mode, Run(mode, actions[..|actions| - 1]), actions[|actions| - 1])
  }

  /** The clock of the calls never goes back. */
  ghost predicate Ordered(actions: seq<Action>) {
    forall i, j :: 0 <= i < j < |actions| && actions[i].Begin? && actions[j].Begin? ==> actions[i].now <= actions[j].now
  }

  // ---------------------------------------------------------------- what every call keeps

  ghost predicate Before(s: State, now: nat) {
    && s.windowStart <= now
    && forall k :: 0 <= k < |s.sends| ==> s.sends[k].at <= now
  }

  /** Sends in the order of their windows, which begin at least 60 s apart and hold 20 each. */
  ghost predicate Windows(s: State) {
    && s.windowCount <= WINDOW_LIMIT && s.windowCount <= |s.sends|
    && (forall k :: 0 <= k < |s.sends| ==> InWindow(s.sends[k]) && s.sends[k].window <= s.windowStart)
    && (forall j, k :: 0 <= j < k < |s.sends| ==> Apart(s.sends[j], s.sends[k]))
    && (forall k :: 0 <= k < |s.sends| - s.windowCount ==> s.sends[k].window + WINDOW <= s.windowStart)
    && (forall k :: |s.sends| - s.windowCount <= k < |s.sends| ==> s.sends[k].window == s.windowStart)
    && forall j, k :: 0 <= j && j + WINDOW_LIMIT <= k < |s.sends| ==> s.sends[j].window < s.sends[k].window
  }

  ghost predicate InWindow(send: Send) {
    send.window <= send.at < send.window + WINDOW
  }

  ghost predicate Apart(first: Send, second: Send) {
    && first.at <= second.at
    && (first.window == second.window || first.window + WINDOW <= second.window)
  }

  ghost predicate SameError(first: Send, second: Send) {
    first.isError && second.isError && first.key == second.key
  }

  /** Errors remembers the last send of each error. */
  ghost predicate ErrorsSpaced(s: State) {
    && (forall k :: 0 <= k < |s.sends| && s.sends[k].isError ==>
          s.sends[k].key in s.errors && s.sends[k].at <= s.errors[s.sends[k].key])
    && forall j, k :: 0 <= j < k < |s.sends| && SameError(s.sends[j], s.sends[k]) ==>
         s.sends[j].at + WINDOW <= s.sends[k].at
  }

  ghost predicate Sound(mode: Mode, s: State) {
    && s.total == |s.sends| && Windows(s)
    && (mode == Client ==> s.total <= TOTAL_LIMIT && ErrorsSpaced(s))
  }

  lemma RollKeepsWindows(s: State, now: nat)
    requires Windows(s) && Before(s, now)
    ensures Windows(Roll(s, now)) && Before(Roll(s, now), now)
    ensures now - Roll(s, now).windowStart < WINDOW
  {
  }

  lemma RecordKeepsWindows(mode: Mode, s: State, now: nat, event: Event)
    requires Windows(s) && Before(s, now) && s.windowCount < WINDOW_LIMIT
    requires s.windowStart <= now < s.windowStart + WINDOW
    ensures Windows(Record(mode, s, now, event)) && Before(Record(mode, s, now, event), now)
  {
  }

  lemma RecordSpacesErrors(s: State, now: nat, event: Event)
    requires ErrorsSpaced(s) && Before(s, now) && !Repeats(Client, s.errors, now, event)
    ensures ErrorsSpaced(Record(Client, s, now, event))
  {
  }

  lemma AttemptKeepsSound(mode: Mode, s: State, now: nat, event: Event)
    requires Sound(mode, s) && Before(s, now) && now < s.windowStart + WINDOW
    requires mode == Client ==> s.total < TOTAL_LIMIT
    ensures Sound(mode, Attempt(mode, s, now, event)) && Before(Attempt(mode, s, now, event), now)
  {
    if s.windowCount < WINDOW_LIMIT && !Repeats(mode, s.errors, now, event) && event.fits {
      RecordKeepsWindows(mode, s, now, event);
      if mode == Client {
        RecordSpacesErrors(s, now, event);
      }
    }
  }

  lemma DoKeepsSound(mode: Mode, s: State, action: Action)
    requires Sound(mode, s)
    requires action.Begin? ==> Before(s, action.now)
    ensures Sound(mode, Do(mode, s, action))
    ensures action.Begin? ==> Before(Do(mode, s, action), action.now)
  {
    if action.Begin? && action.event.Some? && (mode == Client ==> s.total < TOTAL_LIMIT) {
      RollKeepsSound(mode, s, action.now);
      AttemptKeepsSound(mode, Roll(s, action.now), action.now, action.event.value);
    }
  }

  lemma RollKeepsSound(mode: Mode, s: State, now: nat)
    requires Sound(mode, s) && Before(s, now)
    ensures Sound(mode, Roll(s, now)) && Before(Roll(s, now), now) && now < Roll(s, now).windowStart + WINDOW
  {
    RollKeepsWindows(s, now);
  }

  ghost predicate NotLater(actions: seq<Action>, now: nat) {
    forall k :: 0 <= k < |actions| && actions[k].Begin? ==> actions[k].now <= now
  }

  lemma {:induction false} EveryRunIsSound(mode: Mode, actions: seq<Action>)
    requires Ordered(actions)
    ensures Sound(mode, Run(mode, actions))
    ensures forall now: nat :: NotLater(actions, now) ==> Before(Run(mode, actions), now)
  {
    if actions != [] {
      var n := |actions| - 1;
      EveryRunIsSound(mode, actions[..n]);
      if actions[n].Begin? {
        assert NotLater(actions[..n], actions[n].now);
      }
      DoKeepsSound(mode, Run(mode, actions[..n]), actions[n]);
      forall now: nat | NotLater(actions, now)
        ensures Before(Run(mode, actions), now)
      {
        assert NotLater(actions[..n], now);
      }
    }
  }

  /** Any 41 sends in a row take more than a minute, so that no minute has more than 40. */
  lemma FortyAMinute(mode: Mode, actions: seq<Action>, k: nat)
    requires Ordered(actions)
    requires k + 40 < |Run(mode, actions).sends|
    ensures var sends := Run(mode, actions).sends;
            sends[k].at + 60_000 < sends[k + 40].at
  {
    EveryRunIsSound(mode, actions);
    var sends := Run(mode, actions).sends;
    var first, middle, last := sends[k], sends[k + WINDOW_LIMIT], sends[k + 2 * WINDOW_LIMIT];
    assert Apart(first, middle) && Apart(middle, last);
    assert InWindow(first) && InWindow(last);
  }

  /** The limits of a browser's session: 200 sends in all, and a minute between two sends of the
      same error. */
  lemma SessionLimits(actions: seq<Action>)
    requires Ordered(actions)
    ensures var sends := Run(Client, actions).sends;
            && |sends| <= 200
            && forall j, k :: 0 <= j < k < |sends| && SameError(sends[j], sends[k]) ==>
                 sends[j].at + 60_000 <= sends[k].at
  {
    EveryRunIsSound(Client, actions);
  }

  /** A call sends only when no send is in flight, so that two sends have an End between them. */
  lemma {:induction false} NeverTwoInFlight(mode: Mode, actions: seq<Action>, more: seq<Action>)
    requires Run(mode, actions).inFlight
    requires End !in more
    ensures Run(mode, actions + more) == Run(mode, actions)
  {
    if more == [] {
      assert actions + more == actions;
    } else {
      var n := |more| - 1;
      NeverTwoInFlight(mode, actions, more[..n]);
      assert (actions + more)[..|actions + more| - 1] == actions + more[..n];
      assert more[n] in more;
    }
  }

  const VIEW := Event("view", false, true)

  /** count sends at one moment, each with its end. */
  function Burst(now: nat, count: nat): (burst: seq<Action>)
    ensures forall k :: 0 <= k < |burst| && burst[k].Begin? ==> burst[k].now == now
  {
    if count == 0 then [] else Burst(now, count - 1) + [Begin(true, now, Some(VIEW)), End]
  }

  function Views(now: nat, window: nat, count: nat): (views: seq<Send>)
    ensures |views| == count && forall k :: 0 <= k < count ==> views[k].at == now
  {
    if count == 0 then [] else Views(now, window, count - 1) + [Send(now, window, "view", false)]
  }

  /** t is s after so many of them. */
  ghost predicate AfterBurst(s: State, t: State, now: nat, count: nat) {
    && !t.inFlight && t.total == s.total + count
    && Roll(t, now).windowStart == Roll(s, now).windowStart && Roll(t, now).windowCount == count
    && t.sends == s.sends + Views(now, Roll(s, now).windowStart, count)
  }

  lemma OneMore(mode: Mode, s: State, t: State, now: nat, count: nat)
    requires AfterBurst(s, t, now, count) && count < WINDOW_LIMIT
    requires mode == Client ==> s.total + count < TOTAL_LIMIT
    ensures AfterBurst(s, Do(mode, Do(mode, t, Begin(true, now, Some(VIEW))), End), now, count + 1)
  {
    var window := Roll(s, now).windowStart;
    SendOne(mode, t, now);
    Associative(s.sends, Views(now, window, count), [Send(now, window, "view", false)]);
  }

  lemma {:induction false} BurstSends(mode: Mode, actions: seq<Action>, now: nat, count: nat)
    requires count <= WINDOW_LIMIT
    requires var s := Run(mode, actions);
             !s.inFlight && Roll(s, now).windowCount == 0 && (mode == Client ==> s.total + count <= TOTAL_LIMIT)
    ensures AfterBurst(Run(mode, actions), Run(mode, actions + Burst(now, count)), now, count)
  {
    if count == 0 {
      assert actions + Burst(now, count) == actions;
    } else {
      BurstSends(mode, actions, now, count - 1);
      var before := actions + Burst(now, count - 1);
      var begin := Begin(true, now, Some(VIEW));
      assert actions + Burst(now, count) == before + [begin] + [End];
      RunTwo(mode, before, begin, End);
      OneMore(mode, Run(mode, actions), Run(mode, before), now, count - 1);
    }
  }

  lemma RunTwo(mode: Mode, actions: seq<Action>, first: Action, second: Action)
    ensures Run(mode, actions + [first] + [second]) == Do(mode, Do(mode, Run(mode, actions), first), second)
  {
    assert (actions + [first])[..|actions|] == actions;
    assert (actions + [first] + [second])[..|actions| + 1] == actions + [first];
  }

  lemma SendOne(mode: Mode, s: State, now: nat)
    requires !s.inFlight && (mode == Client ==> s.total < TOTAL_LIMIT) && Roll(s, now).windowCount < WINDOW_LIMIT
    ensures var t := Do(mode, Do(mode, s, Begin(true, now, Some(VIEW))), End);
            var rolled := Roll(s, now);
            && !t.inFlight && t.total == s.total + 1
            && Roll(t, now).windowStart == rolled.windowStart && Roll(t, now).windowCount == rolled.windowCount + 1
            && t.sends == s.sends + [Send(now, rolled.windowStart, "view", false)]
  {
  }

  const ERROR := Event("error", true, true)

  /** Calls from time t on that leave a window open in which nothing was sent: an error that
      repeats within the minute is refused only after it has opened the window. */
  function Opening(t: nat): seq<Action> {
    [Begin(true, t, Some(VIEW))] + [End] + [Begin(true, t + WINDOW / 2, Some(ERROR))] + [End]
    + [Begin(true, t + WINDOW, Some(ERROR))]
  }

  lemma RunOne(mode: Mode, actions: seq<Action>, action: Action)
    ensures Run(mode, actions + [action]) == Do(mode, Run(mode, actions), action)
  {
    assert (actions + [action])[..|actions|] == actions;
  }

  lemma OpeningSendsTwo(t: nat)
    requires t >= WINDOW
    ensures var s := Run(Client, Opening(t));
            && !s.inFlight && s.total == 2 && s.windowStart == t + WINDOW && s.windowCount == 0
            && s.sends == [Send(t, t, "view", false), Send(t + WINDOW / 2, t, "error", true)]
  {
    var one := [Begin(true, t, Some(VIEW))];
    var two := one + [End];
    var three := two + [Begin(true, t + WINDOW / 2, Some(ERROR))];
    assert [] + one == one;
    RunOne(Client, [], one[0]);
    RunOne(Client, one, End);
    RunOne(Client, two, Begin(true, t + WINDOW / 2, Some(ERROR)));
    RunOne(Client, three, End);
    RunOne(Client, three + [End], Begin(true, t + WINDOW, Some(ERROR)));
  }

  lemma OrderedTogether(a: seq<Action>, b: seq<Action>, now: nat)
    requires Ordered(a) && Ordered(b) && NotLater(a, now)
    requires forall k :: 0 <= k < |b| && b[k].Begin? ==> b[k].now >= now
    ensures Ordered(a + b)
  {
    assert forall k :: 0 <= k < |a| ==> (a + b)[k] == a[k];
    assert forall k :: 0 <= k < |b| ==> (a + b)[|a| + k] == b[k];
  }

  /** 20 sends at the end of a window in which nothing was sent, and 20 a millisecond later. */
  lemma TwoBursts(actions: seq<Action>, late: nat)
    requires var s := Run(Client, actions);
             && !s.inFlight && s.total + 2 * WINDOW_LIMIT <= TOTAL_LIMIT && s.windowCount == 0
             && s.windowStart + WINDOW == late + 1
    ensures Run(Client, actions + Burst(late, WINDOW_LIMIT) + Burst(late + 1, WINDOW_LIMIT)).sends ==
            Run(Client, actions).sends + Views(late, late + 1 - WINDOW, WINDOW_LIMIT)
            + Views(late + 1, late + 1, WINDOW_LIMIT)
  {
    BurstSends(Client, actions, late, WINDOW_LIMIT);
    BurstSends(Client, actions + Burst(late, WINDOW_LIMIT), late + 1, WINDOW_LIMIT);
  }

  lemma BurstsAreLater(t: nat, first: seq<Action>, second: seq<Action>)
    requires forall k :: 0 <= k < |first| && first[k].Begin? ==> first[k].now == t + 2 * WINDOW - 1
    requires forall k :: 0 <= k < |second| && second[k].Begin? ==> second[k].now == t + 2 * WINDOW
    ensures Ordered(Opening(t) + first + second)
    ensures var all := Opening(t) + first + second;
            forall k :: 0 <= k < |all| && all[k].Begin? ==> all[k].now >= t
  {
    OrderedTogether(Opening(t), first, t + 2 * WINDOW - 1);
    OrderedTogether(Opening(t) + first, second, t + 2 * WINDOW);
  }

  /** Whenever a session begins, 40 sends within two milliseconds can happen in it: the limit of
      20 is one of fixed windows. */
  lemma FortyAtOnce(t: nat) returns (actions: seq<Action>)
    requires t >= WINDOW
    ensures Ordered(actions)
    ensures forall k :: 0 <= k < |actions| && actions[k].Begin? ==> actions[k].now >= t
    ensures var sends := Run(Client, actions).sends;
            && |sends| == 2 + 40
            && forall k :: 2 <= k < |sends| ==> t + 2 * WINDOW - 1 <= sends[k].at <= t + 2 * WINDOW
  {
    var late := t + 2 * WINDOW - 1;
    var first, second := Burst(late, WINDOW_LIMIT), Burst(late + 1, WINDOW_LIMIT);
    OpeningSendsTwo(t);
    BurstsAreLater(t, first, second);
    actions := Opening(t);
    TwoBursts(actions, late);
    actions := actions + first + second;
  }

  // ---------------------------------------------------------------- the sliding limit

  /** The sends after a time. */
  function Recent(sends: seq<Send>, after: int): set<nat> {
    set k: nat | k < |sends| && sends[k].at > after
  }

  /** Those of them that were counted in windows before this one. */
  function Earlier(sends: seq<Send>, after: int, windowStart: nat): set<nat> {
    set k: nat | k < |sends| && sends[k].at > after && sends[k].window < windowStart
  }

  function Between(low: nat, high: nat): (between: set<nat>)
    requires low <= high
    ensures forall k: nat :: k in between <==> low <= k < high
    ensures |between| == high - low
  {
    if low == high then {} else Between(low, high - 1) + {high - 1}
  }

  lemma RecentSplits(s: State, now: nat)
    requires Windows(s) && Before(s, now) && now < s.windowStart + WINDOW
    ensures forall k: nat :: k < |s.sends| - s.windowCount ==> s.sends[k].window < s.windowStart
    ensures forall k: nat :: |s.sends| - s.windowCount <= k < |s.sends| ==>
              s.sends[k].window == s.windowStart && s.sends[k].at > now - WINDOW
  {
    assert forall k :: 0 <= k < |s.sends| ==> InWindow(s.sends[k]);
  }

  lemma RecentAre(sends: seq<Send>, send: Send, after: int, windowStart: nat, current: nat)
    requires current <= |sends| && send.at > after
    requires forall k: nat :: k < current ==> sends[k].window < windowStart
    requires forall k: nat :: current <= k < |sends| ==> sends[k].window == windowStart && sends[k].at > after
    ensures |Recent(sends + [send], after)| == |sends| + 1 - current + |Earlier(sends, after, windowStart)|
  {
    var earlier, late := Earlier(sends, after, windowStart), Between(current, |sends| + 1);
    assert forall k: nat :: k < |sends| ==> (sends + [send])[k] == sends[k];
    assert Recent(sends + [send], after) == earlier + late;
    assert earlier !! late;
  }

  lemma RecentIs(mode: Mode, s: State, now: nat, event: Event)
    requires Windows(s) && Before(s, now) && now < s.windowStart + WINDOW
    ensures |Recent(Record(mode, s, now, event).sends, now - WINDOW)| ==
            s.windowCount + 1 + |Earlier(s.sends, now - WINDOW, s.windowStart)|
  {
    RecentSplits(s, now);
    var send := Send(now, s.windowStart, event.key, event.isError);
    RecentAre(s.sends, send, now - WINDOW, s.windowStart, |s.sends| - s.windowCount);
  }

  /** A send keeps the limit of 20 in the minute that ends with it exactly if the window's count
      and the sends of earlier windows in that minute were fewer than 20 before it. */
  lemma KeepsSlidingLimit(mode: Mode, actions: seq<Action>, now: nat, event: Event)
    requires Ordered(actions + [Begin(true, now, Some(event))])
    requires var s := Run(mode, actions);
             |Do(mode, s, Begin(true, now, Some(event))).sends| > |s.sends|
    ensures var s := Roll(Run(mode, actions), now);
            var t := Do(mode, Run(mode, actions), Begin(true, now, Some(event)));
            |Recent(t.sends, now - WINDOW)| <= WINDOW_LIMIT <==>
            s.windowCount + |Earlier(s.sends, now - WINDOW, s.windowStart)| < WINDOW_LIMIT
  {
    var all := actions + [Begin(true, now, Some(event))];
    assert forall k :: 0 <= k < |actions| ==> all[k] == actions[k];
    assert all[|actions|] == Begin(true, now, Some(event));
    assert NotLater(actions, now);
    EveryRunIsSound(mode, actions);
    RollKeepsWindows(Run(mode, actions), now);
    RecentIs(mode, Roll(Run(mode, actions), now), now, event);
  }

  // ---------------------------------------------------------------- the limit in a new window

  /** What a window that opens now may see: 20, or what is left of the session. */
  function Quota(mode: Mode, s: State): int {
    if mode == Client && TOTAL_LIMIT - s.total < WINDOW_LIMIT then TOTAL_LIMIT - s.total else WINDOW_LIMIT
  }

  /** The sends in the minute that ends with send k. */
  function MinuteOf(sends: seq<Send>, k: nat): set<nat>
    requires k < |sends|
  {
    set j: nat | j <= k && sends[j].at > sends[k].at - WINDOW
  }

  ghost predicate KeepsLimit(sends: seq<Send>, from: nat) {
    forall k: nat :: from <= k < |sends| ==> |MinuteOf(sends, k)| <= WINDOW_LIMIT
  }

  ghost predicate InMinute(action: Action, now: nat) {
    action.Begin? ==> now <= action.now < now + WINDOW
  }

  /** Calls in the minute from now on. */
  ghost predicate Follow(actions: seq<Action>, now: nat) {
    Ordered(actions) && forall k :: 0 <= k < |actions| ==> InMinute(actions[k], now)
  }

  /** t is s after calls of which none but the first to be counted opened a window. */
  ghost predicate Continues(s: State, t: State, now: nat) {
    && s.sends <= t.sends
    && (forall k :: |s.sends| <= k < |t.sends| ==> t.sends[k].at >= now)
    && if t.windowStart >= now
       then t.windowStart < now + WINDOW && t.windowCount == |t.sends| - |s.sends|
       else t.windowStart + WINDOW <= now && t.sends == s.sends
  }

  lemma ContinueOne(mode: Mode, s: State, t: State, action: Action, now: nat)
    requires Continues(s, t, now) && InMinute(action, now)
    ensures Continues(s, Do(mode, t, action), now)
  {
  }

  lemma {:induction false} MinuteContinues(mode: Mode, actions: seq<Action>, more: seq<Action>, now: nat)
    requires Run(mode, actions).windowStart + WINDOW <= now && Follow(more, now)
    ensures Continues(Run(mode, actions), Run(mode, actions + more), now)
  {
    if more == [] {
      assert actions + more == actions;
    } else {
      var n := |more| - 1;
      MinuteContinues(mode, actions, more[..n], now);
      ContinueOne(mode, Run(mode, actions), Run(mode, actions + more[..n]), more[n], now);
      assert (actions + more)[..|actions + more| - 1] == actions + more[..n];
    }
  }

  lemma FollowIsOrdered(actions: seq<Action>, more: seq<Action>, now: nat)
    requires Ordered(actions) && NotLater(actions, now) && Follow(more, now)
    ensures Ordered(actions + more)
  {
    assert forall k :: 0 <= k < |more| ==> InMinute(more[k], now);
    OrderedTogether(actions, more, now);
  }

  lemma MinuteIsSmall(before: seq<Send>, sends: seq<Send>, k: nat, now: nat)
    requires before <= sends && |before| <= k < |sends| && sends[k].at >= now
    ensures |MinuteOf(sends, k)| <= |Recent(before, now - WINDOW)| + |sends| - |before|
  {
    var recent, later := Recent(before, now - WINDOW), Between(|before|, |sends|);
    SubsetIsNoLarger(MinuteOf(sends, k), recent + later);
    assert recent !! later;
  }

  /** Sends at one moment after others. */
  lemma BurstFillsMinute(before: seq<Send>, sends: seq<Send>, now: nat)
    requires before <= sends && |before| < |sends|
    requires forall k :: |before| <= k < |sends| ==> sends[k].at == now
    ensures |MinuteOf(sends, |sends| - 1)| == |Recent(before, now - WINDOW)| + |sends| - |before|
  {
    var recent, burst := Recent(before, now - WINDOW), Between(|before|, |sends|);
    assert MinuteOf(sends, |sends| - 1) == recent + burst;
    assert recent !! burst;
  }

  /** Whatever calls come in its minute. */
  ghost predicate MinuteKeepsLimit(mode: Mode, actions: seq<Action>, now: nat) {
    forall more :: Follow(more, now) ==> KeepsLimit(Run(mode, actions + more).sends, |Run(mode, actions).sends|)
  }

  lemma FewEnough(mode: Mode, actions: seq<Action>, more: seq<Action>, now: nat)
    requires Ordered(actions) && NotLater(actions, now) && Run(mode, actions).windowStart + WINDOW <= now
    requires Follow(more, now)
    requires var s := Run(mode, actions);
             Quota(mode, s) == 0 || |Recent(s.sends, now - WINDOW)| + Quota(mode, s) <= WINDOW_LIMIT
    ensures KeepsLimit(Run(mode, actions + more).sends, |Run(mode, actions).sends|)
  {
    var s, t := Run(mode, actions), Run(mode, actions + more);
    EveryRunIsSound(mode, actions);
    FollowIsOrdered(actions, more, now);
    EveryRunIsSound(mode, actions + more);
    MinuteContinues(mode, actions, more, now);
    forall k: nat | |s.sends| <= k < |t.sends|
      ensures |MinuteOf(t.sends, k)| <= WINDOW_LIMIT
    {
      MinuteIsSmall(s.sends, t.sends, k, now);
    }
  }

  lemma TooMany(mode: Mode, actions: seq<Action>, now: nat) returns (more: seq<Action>)
    requires Ordered(actions) && NotLater(actions, now) && Run(mode, actions).windowStart + WINDOW <= now
    requires var s := Run(mode, actions);
             Quota(mode, s) > 0 && |Recent(s.sends, now - WINDOW)| + Quota(mode, s) > WINDOW_LIMIT
    ensures Follow(more, now)
    ensures !KeepsLimit(Run(mode, actions + more).sends, |Run(mode, actions).sends|)
  {
    var s := Run(mode, actions);
    var count := Quota(mode, s);
    more := [End] + Burst(now, count);
    RunOne(mode, actions, End);
    BurstSends(mode, actions + [End], now, count);
    assert actions + more == actions + [End] + Burst(now, count);
    BurstFillsMinute(s.sends, Run(mode, actions + more).sends, now);
  }

  /** A window that opens now keeps the limit of 20 in every minute, whatever calls come in the
      minute from now on, exactly if the sends of the minute before leave room for all it may
      see. Before the last 20 sends of a session: exactly if nothing was sent in that minute. */
  lemma OpeningDecides(mode: Mode, actions: seq<Action>, now: nat)
    requires Ordered(actions) && NotLater(actions, now) && Run(mode, actions).windowStart + WINDOW <= now
    ensures var s := Run(mode, actions);
            MinuteKeepsLimit(mode, actions, now) <==>
            Quota(mode, s) == 0 || |Recent(s.sends, now - WINDOW)| + Quota(mode, s) <= WINDOW_LIMIT
  {
    var s := Run(mode, actions);
    EveryRunIsSound(mode, actions);
    if Quota(mode, s) == 0 || |Recent(s.sends, now - WINDOW)| + Quota(mode, s) <= WINDOW_LIMIT {
      forall more | Follow(more, now)
        ensures KeepsLimit(Run(mode, actions + more).sends, |s.sends|)
      {
        FewEnough(mode, actions, more, now);
      }
    } else {
      var more := TooMany(mode, actions, now);
    }
  }

  // ---------------------------------------------------------------- when a call sends

  /** Errors remembers nothing but sends. */
  ghost predicate ErrorsAreSends(s: State) {
    forall key :: key in s.errors ==>
      exists k :: 0 <= k < |s.sends| && s.sends[k].isError && s.sends[k].key == key && s.sends[k].at == s.errors[key]
  }

  lemma RecordKeepsErrors(mode: Mode, s: State, now: nat, event: Event)
    requires ErrorsAreSends(s)
    ensures ErrorsAreSends(Record(mode, s, now, event))
  {
    var t := Record(mode, s, now, event);
    assert forall k :: 0 <= k < |s.sends| ==> t.sends[k] == s.sends[k];
    forall key | key in t.errors
      ensures exists k :: && 0 <= k < |t.sends| && t.sends[k].isError && t.sends[k].key == key
                          && t.sends[k].at == t.errors[key]
    {
      if mode == Client && event.isError && key == event.key {
        assert t.sends[|s.sends|].key == key;
      } else {
        var k :| 0 <= k < |s.sends| && s.sends[k].isError && s.sends[k].key == key && s.sends[k].at == s.errors[key];
        assert t.sends[k].key == key;
      }
    }
  }

  lemma {:induction false} RunKeepsErrors(mode: Mode, actions: seq<Action>)
    ensures ErrorsAreSends(Run(mode, actions))
  {
    if actions != [] {
      var n := |actions| - 1;
      var s := Run(mode, actions[..n]);
      RunKeepsErrors(mode, actions[..n]);
      if actions[n].Begin? && actions[n].event.Some? {
        RecordKeepsErrors(mode, Roll(s, actions[n].now), actions[n].now, actions[n].event.value);
      }
    }
  }

  /** The same error was sent in the last minute. */
  ghost predicate SentLately(sends: seq<Send>, event: Event, now: nat) {
    event.isError && exists k :: 0 <= k < |sends| && sends[k].isError && sends[k].key == event.key
                                 && sends[k].at + 60_000 > now
  }

  lemma RepeatsIfSentLately(s: State, now: nat, event: Event)
    requires ErrorsSpaced(s) && ErrorsAreSends(s)
    ensures Repeats(Client, s.errors, now, event) <==> SentLately(s.sends, event, now)
  {
    if Repeats(Client, s.errors, now, event) {
      var k :| && 0 <= k < |s.sends| && s.sends[k].isError && s.sends[k].key == event.key
               && s.sends[k].at == s.errors[event.key];
    }
  }

  /** The sends in a window that is open at this time. */
  function InOpenWindow(sends: seq<Send>, now: nat): set<nat> {
    set k: nat | k < |sends| && sends[k].window + 60_000 > now
  }

  lemma OpenWindowIsCounted(s: State, now: nat)
    requires Windows(s) && Before(s, now)
    ensures |InOpenWindow(s.sends, now)| == Roll(s, now).windowCount
  {
    if now - s.windowStart >= WINDOW {
      assert InOpenWindow(s.sends, now) == {};
    } else {
      assert InOpenWindow(s.sends, now) == Between(|s.sends| - s.windowCount, |s.sends|);
    }
  }

  ghost predicate SendsAt(mode: Mode, actions: seq<Action>, k: nat)
    requires k < |actions|
  {
    |Run(mode, actions[..k + 1]).sends| > |Run(mode, actions[..k]).sends|
  }

  /** There is a send without an End after it. */
  ghost predicate Unended(mode: Mode, actions: seq<Action>) {
    exists k: nat :: k < |actions| && SendsAt(mode, actions, k) && forall j :: k < j < |actions| ==> actions[j] != End
  }

  lemma UnendedNext(mode: Mode, actions: seq<Action>, action: Action)
    ensures Unended(mode, actions + [action]) <==>
              SendsAt(mode, actions + [action], |actions|) || (Unended(mode, actions) && action != End)
  {
    var all := actions + [action];
    forall k: nat | k < |actions|
      ensures SendsAt(mode, all, k) <==> SendsAt(mode, actions, k)
    {
      assert all[..k] == actions[..k] && all[..k + 1] == actions[..k + 1];
    }
    if Unended(mode, actions) && action != End {
      var k: nat :| && k < |actions| && SendsAt(mode, actions, k)
                    && forall j :: k < j < |actions| ==> actions[j] != End;
      assert SendsAt(mode, all, k) && forall j :: k < j < |all| ==> all[j] != End;
    }
    if Unended(mode, all) {
      var k: nat :| k < |all| && SendsAt(mode, all, k) && forall j :: k < j < |all| ==> all[j] != End;
      if k < |actions| {
        assert all[|actions|] != End;
        assert forall j :: k < j < |actions| ==> actions[j] == all[j];
      }
    }
  }

  lemma {:induction false} InFlightIsUnended(mode: Mode, actions: seq<Action>)
    ensures Run(mode, actions).inFlight <==> Unended(mode, actions)
  {
    if actions != [] {
      var n := |actions| - 1;
      InFlightIsUnended(mode, actions[..n]);
      UnendedNext(mode, actions[..n], actions[n]);
      assert actions == actions[..n] + [actions[n]] && actions[..n + 1] == actions;
    }
  }

  /** A call sends exactly if it is configured, the event is known and of at most 1024 bytes, no send
      is in flight, fewer than 20 were sent in the window that is open, and, in a browser, fewer
      than 200 in all and the same error not within the last minute. */
  lemma SendsExactly(mode: Mode, actions: seq<Action>, configured: bool, now: nat, event: Option<Event>)
    requires Ordered(actions + [Begin(configured, now, event)])
    ensures var sends := Run(mode, actions).sends;
            SendsAt(mode, actions + [Begin(configured, now, event)], |actions|) <==>
              && configured && event.Some? && event.value.fits && !Unended(mode, actions)
              && |InOpenWindow(sends, now)| < 20
              && (mode == Client ==> |sends| < 200 && !SentLately(sends, event.value, now))
  {
    var all := actions + [Begin(configured, now, event)];
    assert forall k :: 0 <= k < |actions| ==> all[k] == actions[k];
    assert all[|actions|] == Begin(configured, now, event);
    assert NotLater(actions, now) && all[..|actions|] == actions && all[..|actions| + 1] == all;
    EveryRunIsSound(mode, actions);
    RunKeepsErrors(mode, actions);
    InFlightIsUnended(mode, actions);
    OpenWindowIsCounted(Run(mode, actions), now);
    if event.Some? && mode == Client {
      RepeatsIfSentLately(Run(mode, actions), now, event.value);
    }
  }

  // ---------------------------------------------------------------- the sender

  class Sender {
    const mode: Mode
    var inFlight: bool
    var total: nat
    var windowStart: nat
    var windowCount: nat
    var errors: map<string, nat>
    ghost var sends: seq<Send>

    ghost function Now(): State
      reads this
    {
      State(inFlight, total, windowStart, windowCount, errors, sends)
    }

    constructor (mode: Mode)
      ensures this.mode == mode && Now() == INITIAL
    {
      this.mode := mode;
      inFlight, total, windowStart, windowCount, errors, sends := false, 0, 0, 0, map[], [];
    }

    /** Up to the fetch; what a caller is told at once is that nothing was sent. */
    method Call(configured: bool, now: nat, event: Option<Event>) returns (fetching: bool)
      requires Sound(mode, Now()) && Before(Now(), now)
      modifies this
      ensures Now() == Do(mode, old(Now()), Begin(configured, now, event))
      ensures Sound(mode, Now()) && Before(Now(), now)
      ensures fetching <==> |sends| == old(|sends|) + 1
      ensures fetching ==> !old(inFlight) && inFlight && configured && event.Some? && event.value.fits
    {
      DoKeepsSound(mode, Now(), Begin(configured, now, event));
      fetching := false;
      if !configured || inFlight || (mode == Client && total >= TOTAL_LIMIT) || event.None? {
        return;
      }
      if now - windowStart >= WINDOW {
        windowStart, windowCount := now, 0;
      }
      if windowCount >= WINDOW_LIMIT || Repeats(mode, errors, now, event.value) || !event.value.fits {
        return;
      }
      inFlight := true;
      total, windowCount := total + 1, windowCount + 1;
      if mode == Client && event.value.isError {
        errors := errors[event.value.key := now];
      }
      sends := sends + [Send(now, windowStart, event.value.key, event.value.isError)];
      fetching := true;
    }

    /** The finally of a call that fetched. */
    method Finish()
      requires Sound(mode, Now()) && inFlight
      modifies this`inFlight
      ensures Now() == Do(mode, old(Now()), End) && Sound(mode, Now())
    {
      inFlight := false;
    }
  }
}
