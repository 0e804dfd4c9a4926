/** The two stores of src/lib/rate-limiter.ts, called one at a time: the Redis sorted set and
    the in-memory windows both decide by counting the admitted requests of the last window. */
module RateLimitStores {
  import opened RateLimitRules

  datatype Verdict = Verdict(allowed: bool, remaining: nat, retryAfter: nat)

  // Math.ceil(ms / 1000)
  function CeilSeconds(ms: int): int {
    -((-ms) / 1000)
  }

  function Max(a: int, b: int): int {
    if a < b then b else a
  }

  // ---------------------------------------------------------------- the reference

  /** The timestamps after a time, in order. */
  function Live(times: seq<int>, after: int): (live: seq<int>)
    ensures forall t :: t in live ==> t > after
  {
    if times == [] then []
    else (if times[0] > after then [times[0]] else []) + Live(times[1..], after)
  }

  /** The verdict from the times of all requests admitted so far. */
  function Decide(admitted: seq<int>, rule: Rule, now: int): Verdict {
    var live := Live(admitted, now - WindowMs(rule));
    if |live| < rule.limit then Verdict(true, rule.limit - |live| - 1, 0)
    else Rejection(live, rule, now)
  }

  function Rejection(live: seq<int>, rule: Rule, now: int): Verdict {
    var oldest := if live == [] then now else live[0];
    Verdict(false, 0, Max(1, CeilSeconds(oldest + WindowMs(rule) - now)))
  }

  ghost predicate Ascending(times: seq<int>, upTo: int) {
    && (forall i, j :: 0 <= i < j < |times| ==> times[i] <= times[j])
    && forall i :: 0 <= i < |times| ==> times[i] <= upTo
  }

  lemma {:induction false} LiveOfLive(times: seq<int>, early: int, late: int)
    requires early <= late
    ensures Live(Live(times, early), late) == Live(times, late)
  {
    if times != [] {
      LiveOfLive(times[1..], early, late);
      if times[0] > early {
        assert Live(times, early)[1..] == Live(times[1..], early);
      } else {
        assert Live(times, early) == Live(times[1..], early);
      }
    }
  }

  lemma {:induction false} LiveAppend(times: seq<int>, now: int, after: int)
    requires after < now
    ensures Live(times + [now], after) == Live(times, after) + [now]
  {
    if times == [] {
      assert [now][1..] == [];
    } else {
      LiveAppend(times[1..], now, after);
      var all := times + [now];
      assert all[0] == times[0] && all[1..] == times[1..] + [now];
      var head := if times[0] > after then [times[0]] else [];
      assert head + (Live(times[1..], after) + [now]) == head + Live(times[1..], after) + [now];
    }
  }

  lemma {:induction false} LiveOfAscending(times: seq<int>, upTo: int, after: int)
    requires Ascending(times, upTo)
    ensures Ascending(Live(times, after), upTo)
    ensures |Live(times, after)| <= |times|
    ensures Live(times, after) == times[|times| - |Live(times, after)|..]
  {
    if times != [] {
      LiveOfAscending(times[1..], upTo, after);
      if times[0] > after {
        AllLive(times, after);
      } else {
        assert Live(times, after) == Live(times[1..], after);
      }
    }
  }

  lemma {:induction false} AllLive(times: seq<int>, after: int)
    requires forall i :: 0 <= i < |times| ==> times[i] > after
    ensures Live(times, after) == times
  {
    if times != [] {
      AllLive(times[1..], after);
    }
  }

  lemma {:induction false} NoneLive(times: seq<int>, after: int)
    requires forall i :: 0 <= i < |times| ==> times[i] <= after
    ensures Live(times, after) == []
  {
    if times != [] {
      NoneLive(times[1..], after);
    }
  }

  /** Two records of a key answer alike from now on: they differ in expired times only. */
  ghost predicate Agrees(kept: seq<int>, admitted: seq<int>, rule: Rule, clock: int) {
    Live(kept, clock - WindowMs(rule)) == Live(admitted, clock - WindowMs(rule))
  }

  lemma LiveAgree(kept: seq<int>, admitted: seq<int>, early: int, late: int)
    requires Live(kept, early) == Live(admitted, early) && early <= late
    ensures Live(kept, late) == Live(admitted, late)
  {
    LiveOfLive(kept, early, late);
    LiveOfLive(admitted, early, late);
  }

  lemma AgreesLater(kept: seq<int>, admitted: seq<int>, rule: Rule, clock: int, now: int)
    requires Agrees(kept, admitted, rule, clock) && clock <= now
    ensures Live(kept, now - WindowMs(rule)) == Live(admitted, now - WindowMs(rule))
  {
    LiveAgree(kept, admitted, clock - WindowMs(rule), now - WindowMs(rule));
  }

  lemma AgreesAppend(kept: seq<int>, admitted: seq<int>, rule: Rule, now: int)
    requires Agrees(kept, admitted, rule, now)
    ensures Agrees(kept + [now], admitted + [now], rule, now)
  {
    LiveAppend(kept, now, now - WindowMs(rule));
    LiveAppend(admitted, now, now - WindowMs(rule));
  }

  // ---------------------------------------------------------------- remaining

  /** So many more requests at this moment. */
  function Again(admitted: seq<int>, now: int, count: nat): seq<int> {
    if count == 0 then admitted else Again(admitted, now, count - 1) + [now]
  }

  lemma {:induction false} AgainLive(admitted: seq<int>, rule: Rule, now: int, count: nat)
    ensures |Live(Again(admitted, now, count), now - WindowMs(rule))| == |Live(admitted, now - WindowMs(rule))| + count
  {
    if count > 0 {
      AgainLive(admitted, rule, now, count - 1);
      LiveAppend(Again(admitted, now, count - 1), now, now - WindowMs(rule));
    }
  }

  /** After an admitted request, so many more as remain, made at once, are admitted, and the next
      is not. */
  lemma RemainingIsExact(admitted: seq<int>, rule: Rule, now: int, count: nat)
    requires Decide(admitted, rule, now).allowed
    ensures Decide(Again(admitted, now, count + 1), rule, now).allowed <==>
              count < Decide(admitted, rule, now).remaining
  {
    AgainLive(admitted, rule, now, count + 1);
  }

  // ---------------------------------------------------------------- retryAfter

  /** After a rejection, and with no other traffic, a request d ms later is admitted exactly
      when the oldest admitted request has left the window by then; and the retryAfter that was
      announced is the least number of whole seconds that is long enough. */
  lemma RetryAfterIsEnough(admitted: seq<int>, rule: Rule, now: int, d: nat)
    requires Ascending(admitted, now) && !Decide(admitted, rule, now).allowed
    requires 1 <= |Live(admitted, now - WindowMs(rule))| <= rule.limit
    ensures var wait := Live(admitted, now - WindowMs(rule))[0] + WindowMs(rule) - now;
            var retryAfter := Decide(admitted, rule, now).retryAfter;
            && (Decide(admitted, rule, now + d).allowed <==> d >= wait)
            && 1000 * (retryAfter - 1) < wait <= 1000 * retryAfter
            && Decide(admitted, rule, now + 1000 * retryAfter).allowed
  {
    var start := now - WindowMs(rule);
    LiveOfAscending(admitted, now, start);
    WaitIs(admitted, rule, now);
    StillRejected(admitted, rule, now, d);
    StillRejected(admitted, rule, now, 1000 * Decide(admitted, rule, now).retryAfter);
  }

  lemma WaitIs(admitted: seq<int>, rule: Rule, now: int)
    requires Live(admitted, now - WindowMs(rule)) != [] && !Decide(admitted, rule, now).allowed
    ensures var wait := Live(admitted, now - WindowMs(rule))[0] + WindowMs(rule) - now;
            var retryAfter := Decide(admitted, rule, now).retryAfter;
            && |Live(admitted, now - WindowMs(rule))| >= rule.limit
            && 1000 * (retryAfter - 1) < wait <= 1000 * retryAfter
  {
    var live := Live(admitted, now - WindowMs(rule));
    var wait := live[0] + WindowMs(rule) - now;
    assert live[0] in live && wait > 0;
    CeilBounds(wait);
    assert Decide(admitted, rule, now) == Rejection(live, rule, now);
  }

  lemma CeilBounds(ms: int)
    requires ms > 0
    ensures 1000 * (CeilSeconds(ms) - 1) < ms <= 1000 * CeilSeconds(ms) && CeilSeconds(ms) >= 1
  {
  }

  lemma StillRejected(admitted: seq<int>, rule: Rule, now: int, d: nat)
    requires Ascending(Live(admitted, now - WindowMs(rule)), now)
    requires 1 <= |Live(admitted, now - WindowMs(rule))| == rule.limit
    ensures Decide(admitted, rule, now + d).allowed <==>
            d >= Live(admitted, now - WindowMs(rule))[0] + WindowMs(rule) - now
  {
    var live := Live(admitted, now - WindowMs(rule));
    var later := now + d - WindowMs(rule);
    LiveOfLive(admitted, now - WindowMs(rule), later);
    if live[0] > later {
      AllLive(live, later);
    } else {
      assert Live(live, later) == Live(live[1..], later);
      LiveIsShorter(live[1..], later);
    }
  }

  lemma {:induction false} LiveIsShorter(times: seq<int>, after: int)
    ensures |Live(times, after)| <= |times|
  {
    if times != [] {
      LiveIsShorter(times[1..], after);
    }
  }

  /** A key's record of admitted requests: in order, and never over the limit in a window. */
  ghost predicate GoodRecord(admitted: seq<int>, rule: Rule, clock: int) {
    Ascending(admitted, clock) && |Live(admitted, clock - WindowMs(rule))| <= rule.limit
  }

  lemma RecordLater(admitted: seq<int>, rule: Rule, clock: int, now: int)
    requires GoodRecord(admitted, rule, clock) && clock <= now
    ensures GoodRecord(admitted, rule, now)
    ensures Decide(admitted, rule, now).allowed ==> GoodRecord(admitted + [now], rule, now)
  {
    var live := Live(admitted, clock - WindowMs(rule));
    LiveOfLive(admitted, clock - WindowMs(rule), now - WindowMs(rule));
    LiveIsShorter(live, now - WindowMs(rule));
    LiveAppend(admitted, now, now - WindowMs(rule));
  }

  // ---------------------------------------------------------------- a store and its record

  function Get(m: map<string, seq<int>>, key: string): seq<int> {
    if key in m then m[key] else []
  }

  ghost predicate KeyOk(kept: seq<int>, admitted: seq<int>, rule: Rule, clock: int) {
    GoodRecord(admitted, rule, clock) && Agrees(kept, admitted, rule, clock)
  }

  ghost predicate OkAt(kept: map<string, seq<int>>, admitted: map<string, seq<int>>, rules: string -> Rule, clock: int,
                       key: string) {
    KeyOk(Get(kept, key), Get(admitted, key), rules(key), clock)
  }

  /** A key ends in its category, so it is always checked with one rule. */
  ghost predicate StoreOk(kept: map<string, seq<int>>, admitted: map<string, seq<int>>, rules: string -> Rule,
                          clock: int) {
    forall key :: OkAt(kept, admitted, rules, clock, key)
  }

  lemma KeyLater(kept: seq<int>, admitted: seq<int>, rule: Rule, clock: int, now: int)
    requires KeyOk(kept, admitted, rule, clock) && clock <= now
    ensures KeyOk(kept, admitted, rule, now)
  {
    AgreesLater(kept, admitted, rule, clock, now);
    RecordLater(admitted, rule, clock, now);
  }

  /** What both stores do with the times they keep for a key. */
  function Slide(kept: seq<int>, rule: Rule, now: int): (Verdict, seq<int>) {
    var live := Live(kept, now - WindowMs(rule));
    if |live| < rule.limit then (Verdict(true, rule.limit - |live| - 1, 0), live + [now])
    else (Rejection(live, rule, now), live)
  }

  function Record(admitted: seq<int>, v: Verdict, now: int): seq<int> {
    if v.allowed then admitted + [now] else admitted
  }

  /** Sliding decides as counting does, and keeps the record and what is kept in agreement. */
  lemma SlideDecides(kept: seq<int>, admitted: seq<int>, rule: Rule, now: int)
    requires KeyOk(kept, admitted, rule, now)
    ensures var (v, kept') := Slide(kept, rule, now);
            v == Decide(admitted, rule, now) && KeyOk(kept', Record(admitted, v, now), rule, now)
  {
    LiveOfLive(kept, now - WindowMs(rule), now - WindowMs(rule));
    RecordLater(admitted, rule, now, now);
    AgreesAppend(Live(kept, now - WindowMs(rule)), admitted, rule, now);
  }

  lemma StoreLater(kept: map<string, seq<int>>, admitted: map<string, seq<int>>, rules: string -> Rule, clock: int,
                   now: int)
    requires StoreOk(kept, admitted, rules, clock) && clock <= now
    ensures StoreOk(kept, admitted, rules, now)
  {
    forall key
      ensures OkAt(kept, admitted, rules, now, key)
    {
      assert OkAt(kept, admitted, rules, clock, key);
      KeyLater(Get(kept, key), Get(admitted, key), rules(key), clock, now);
    }
  }

  /** A change of one key. */
  lemma StoreChanges(kept: map<string, seq<int>>, admitted: map<string, seq<int>>, rules: string -> Rule, now: int,
                     key: string,
                     kept': map<string, seq<int>>, admitted': map<string, seq<int>>)
    requires StoreOk(kept, admitted, rules, now)
    requires KeyOk(Get(kept', key), Get(admitted', key), rules(key), now)
    requires forall other :: other != key ==> Get(kept', other) == Get(kept, other)
    requires forall other :: other != key ==> Get(admitted', other) == Get(admitted, other)
    ensures StoreOk(kept', admitted', rules, now)
  {
    forall k
      ensures OkAt(kept', admitted', rules, now, k)
    {
      assert OkAt(kept, admitted, rules, now, k);
    }
  }

  lemma TrimKeepsKey(kept: seq<int>, admitted: seq<int>, rule: Rule, now: int, maxWindowMs: int)
    requires KeyOk(kept, admitted, rule, now) && WindowMs(rule) <= maxWindowMs
    ensures KeyOk(Live(kept, now - maxWindowMs), admitted, rule, now)
  {
    LiveOfLive(kept, now - maxWindowMs, now - WindowMs(rule));
  }

  ghost predicate IsTrim(times: seq<int>, after: int) {
    times != [] && forall t :: t in times ==> t > after
  }

  function Trimmed(kept: map<string, seq<int>>, key: string, filtered: seq<int>): map<string, seq<int>> {
    if filtered == [] then kept - {key} else kept[key := filtered]
  }

  lemma TrimKeepsStore(kept: map<string, seq<int>>, admitted: map<string, seq<int>>, rules: string -> Rule, now: int,
                       maxWindowMs: int, key: string)
    requires StoreOk(kept, admitted, rules, now) && key in kept && WindowMs(rules(key)) <= maxWindowMs
    ensures StoreOk(Trimmed(kept, key, Live(kept[key], now - maxWindowMs)), admitted, rules, now)
  {
    var filtered := Live(kept[key], now - maxWindowMs);
    assert OkAt(kept, admitted, rules, now, key);
    TrimKeepsKey(kept[key], Get(admitted, key), rules(key), now, maxWindowMs);
    var trimmed := Trimmed(kept, key, filtered);
    assert Get(trimmed, key) == filtered;
    StoreChanges(kept, admitted, rules, now, key, trimmed, admitted);
  }

  method Filter(timestamps: seq<int>, after: int) returns (kept: seq<int>)
    ensures kept == Live(timestamps, after)
  {
    kept := [];
    var k := |timestamps|;
    while k > 0
      invariant 0 <= k <= |timestamps|
      invariant kept == Live(timestamps[k..], after)
    {
      k := k - 1;
      assert timestamps[k..][1..] == timestamps[k + 1..];
      if timestamps[k] > after {
        kept := [timestamps[k]] + kept;
      }
    }
  }

  // ---------------------------------------------------------------- in memory

  /** The body of memCheck: the window of one key, before and after. */
  method SlideWindow(window: seq<int>, rule: Rule, now: int) returns (v: Verdict, timestamps: seq<int>)
    ensures (v, timestamps) == Slide(window, rule, now)
  {
    timestamps := Filter(window, now - WindowMs(rule));
    if |timestamps| >= rule.limit {
      var oldest := if timestamps == [] then now else timestamps[0];
      v := Verdict(false, 0, Max(1, CeilSeconds(oldest + WindowMs(rule) - now)));
    } else {
      timestamps := timestamps + [now];
      v := Verdict(true, rule.limit - |timestamps|, 0);
    }
  }

  class MemoryStore {
    const rules: string -> Rule
    const maxWindowMs: int
    var windows: map<string, seq<int>>
    ghost var admitted: map<string, seq<int>>
    ghost var clock: int

    ghost predicate Valid()
      reads this
    {
      && (forall key :: WindowMs(rules(key)) <= maxWindowMs)
      && StoreOk(windows, admitted, rules, clock)
    }

    constructor (rules: string -> Rule, maxWindowMs: int, now: int)
      requires forall key :: WindowMs(rules(key)) <= maxWindowMs
      ensures Valid() && clock == now && this.rules == rules && admitted == map[]
    {
      this.rules, this.maxWindowMs := rules, maxWindowMs;
      windows, admitted, clock := map[], map[], now;
    }

    /** memCheck */
    method Check(key: string, now: int) returns (v: Verdict)
      requires Valid() && clock <= now
      modifies this
      ensures Valid() && clock == now
      ensures v == Decide(Get(old(admitted), key), rules(key), now)
      ensures admitted == if v.allowed then old(admitted)[key := Get(old(admitted), key) + [now]] else old(admitted)
    {
      StoreLater(windows, admitted, rules, clock, now);
      assert OkAt(windows, admitted, rules, now, key);
      clock := now;
      ghost var before, record := windows, admitted;
      SlideDecides(Get(windows, key), Get(admitted, key), rules(key), now);
      var timestamps;
      v, timestamps := SlideWindow(Get(windows, key), rules(key), now);
      windows := windows[key := timestamps];
      if v.allowed {
        admitted := admitted[key := Get(admitted, key) + [now]];
      }
      StoreChanges(before, record, rules, now, key, windows, admitted);
    }

    /** A cleanup tick forgets no time that could still count, for any key, and leaves none that
        can count for no rule. */
    method Cleanup(now: int)
      requires Valid() && clock <= now
      modifies this
      ensures Valid() && clock == now && admitted == old(admitted)
      ensures windows.Keys <= old(windows.Keys) && forall key :: key in windows ==>
                IsTrim(windows[key], now - maxWindowMs)
    {
      StoreLater(windows, admitted, rules, clock, now);
      clock := now;
      var todo := windows.Keys;
      while todo != {}
        invariant todo <= windows.Keys <= old(windows.Keys)
        invariant Valid() && clock == now && admitted == old(admitted)
        invariant forall key :: key in windows.Keys - todo ==> IsTrim(windows[key], now - maxWindowMs)
        decreases todo
      {
        var key :| key in todo;
        assert WindowMs(rules(key)) <= maxWindowMs;
        TrimKeepsStore(windows, admitted, rules, now, maxWindowMs, key);
        var filtered := Filter(windows[key], now - maxWindowMs);
        windows := Trimmed(windows, key, filtered);
        todo := todo - {key};
      }
    }
  }

  // ---------------------------------------------------------------- in Redis

  /** Members are unique per call, and ties of score are ordered by member. */
  datatype Entry = Entry(score: int, member: nat)

  function Scores(z: seq<Entry>): seq<int> {
    if z == [] then [] else [z[0].score] + Scores(z[1..])
  }

  function RemoveUpTo(z: seq<Entry>, max: int): seq<Entry> {
    if z == [] then []
    else (if z[0].score > max then [z[0]] else []) + RemoveUpTo(z[1..], max)
  }

  function Add(z: seq<Entry>, e: Entry): seq<Entry> {
    if z == [] then [e]
    else if z[0].score < e.score || (z[0].score == e.score && z[0].member < e.member) then [z[0]] + Add(z[1..], e)
    else [e] + z
  }

  function Remove(z: seq<Entry>, member: nat): seq<Entry> {
    if z == [] then []
    else if z[0].member == member then z[1..]
    else [z[0]] + Remove(z[1..], member)
  }

  lemma {:induction false} ScoresOfRemoveUpTo(z: seq<Entry>, max: int)
    ensures Scores(RemoveUpTo(z, max)) == Live(Scores(z), max)
  {
    if z != [] {
      ScoresOfRemoveUpTo(z[1..], max);
      assert Scores(z)[1..] == Scores(z[1..]);
      if z[0].score > max {
        assert RemoveUpTo(z, max)[1..] == RemoveUpTo(z[1..], max);
      } else {
        assert RemoveUpTo(z, max) == RemoveUpTo(z[1..], max);
      }
    }
  }

  ghost predicate AllBelow(z: seq<Entry>, member: nat) {
    forall i :: 0 <= i < |z| ==> z[i].member < member
  }

  lemma {:induction false} RemoveUpToMembers(z: seq<Entry>, max: int, member: nat)
    requires AllBelow(z, member)
    ensures AllBelow(RemoveUpTo(z, max), member)
  {
    if z != [] {
      RemoveUpToMembers(z[1..], max, member);
      if z[0].score <= max {
        assert RemoveUpTo(z, max) == RemoveUpTo(z[1..], max);
      }
    }
  }

  lemma {:induction false} RemoveUndoesAdd(z: seq<Entry>, e: Entry)
    requires forall i :: 0 <= i < |z| ==> z[i].member != e.member
    ensures Remove(Add(z, e), e.member) == z
  {
    if z != [] {
      RemoveUndoesAdd(z[1..], e);
    }
  }

  lemma {:induction false} ScoresOfAdd(z: seq<Entry>, e: Entry)
    requires Ascending(Scores(z), e.score)
    ensures Scores(Add(z, e)) == Scores(z) + [e.score]
  {
    if z == [] {
      assert [e][1..] == [];
    } else {
      assert Scores(z)[0] == z[0].score && Scores(z)[1..] == Scores(z[1..]);
      ScoresOfAdd(z[1..], e);
      if Add(z, e) == [e] + z {
        assert forall i :: 0 <= i < |Scores(z)| ==> Scores(z)[i] == e.score;
        assert Scores([e] + z) == [e.score] + Scores(z);
      } else {
        assert Add(z, e)[1..] == Add(z[1..], e);
      }
    }
  }

  lemma {:induction false} AddMembers(z: seq<Entry>, e: Entry)
    ensures forall i :: 0 <= i < |Add(z, e)| ==> Add(z, e)[i] == e || Add(z, e)[i] in z
  {
    if z != [] {
      AddMembers(z[1..], e);
    }
  }

  lemma {:induction false} SameLength(z: seq<Entry>)
    ensures |Scores(z)| == |z|
    ensures forall i :: 0 <= i < |z| ==> Scores(z)[i] == z[i].score
  {
    if z != [] {
      SameLength(z[1..]);
    }
  }

  lemma KeptAscend(z: seq<Entry>, now: int, after: int)
    requires Ascending(Scores(z), now)
    ensures Ascending(Scores(RemoveUpTo(z, after)), now)
  {
    ScoresOfRemoveUpTo(z, after);
    LiveOfAscending(Scores(z), now, after);
  }

  lemma AddThenRemove(kept: seq<Entry>, now: int, member: nat)
    requires Ascending(Scores(kept), now) && AllBelow(kept, member)
    ensures Remove(Add(kept, Entry(now, member)), member) == kept
    ensures Scores(Add(kept, Entry(now, member))) == Scores(kept) + [now]
    ensures forall i :: 0 <= i < |Add(kept, Entry(now, member))| ==> Add(kept, Entry(now, member))[i].member <= member
  {
    ScoresOfAdd(kept, Entry(now, member));
    RemoveUndoesAdd(kept, Entry(now, member));
    AddMembers(kept, Entry(now, member));
  }

  /** What is read back from the sorted set is enough to slide. */
  lemma SlideOfScores(z: seq<Entry>, rule: Rule, now: int, member: nat)
    requires Ascending(Scores(z), now) && AllBelow(z, member)
    ensures var kept := RemoveUpTo(z, now - WindowMs(rule));
            var oldest := if kept == [] then now else kept[0].score;
            Slide(Scores(z), rule, now) ==
              if |kept| < rule.limit then (Verdict(true, rule.limit - |kept| - 1, 0), Scores(kept) + [now])
              else (Verdict(false, 0, Max(1, CeilSeconds(oldest + WindowMs(rule) - now))), Scores(kept))
  {
    ScoresOfRemoveUpTo(z, now - WindowMs(rule));
    SameLength(RemoveUpTo(z, now - WindowMs(rule)));
    SlideFrom(Scores(z), Scores(RemoveUpTo(z, now - WindowMs(rule))), rule, now);
  }

  lemma SlideFrom(times: seq<int>, live: seq<int>, rule: Rule, now: int)
    requires live == Live(times, now - WindowMs(rule))
    ensures var oldest := if live == [] then now else live[0];
            Slide(times, rule, now) ==
              if |live| < rule.limit then (Verdict(true, rule.limit - |live| - 1, 0), live + [now])
              else (Verdict(false, 0, Max(1, CeilSeconds(oldest + WindowMs(rule) - now))), live)
  {
  }

  lemma AddedThenRemoved(z: seq<Entry>, rule: Rule, now: int, member: nat)
    requires Ascending(Scores(z), now) && AllBelow(z, member)
    ensures var kept := RemoveUpTo(z, now - WindowMs(rule));
            var added := Add(kept, Entry(now, member));
            && Remove(added, member) == kept
            && Scores(added) == Scores(kept) + [now]
            && AllBelow(kept, member + 1) && AllBelow(added, member + 1)
  {
    KeptAscend(z, now, now - WindowMs(rule));
    RemoveUpToMembers(z, now - WindowMs(rule), member);
    AddThenRemove(RemoveUpTo(z, now - WindowMs(rule)), now, member);
  }

  /** redisCheck, with nothing between its MULTI block and its ZREM. Members grow from call to
      call; how uuids of the same millisecond compare makes no difference, because only scores
      are read back. */
  method Exchange(z: seq<Entry>, rule: Rule, now: int, member: nat) returns (v: Verdict, after: seq<Entry>)
    requires Ascending(Scores(z), now) && AllBelow(z, member)
    ensures (v, Scores(after)) == Slide(Scores(z), rule, now)
    ensures AllBelow(after, member + 1)
  {
    AddedThenRemoved(z, rule, now, member);
    SlideOfScores(z, rule, now, member);
    after := RemoveUpTo(z, now - WindowMs(rule));
    var count := |after|;
    after := Add(after, Entry(now, member));
    if count >= rule.limit {
      after := Remove(after, member);
      var oldest := if after == [] then now else after[0].score;
      v := Verdict(false, 0, Max(1, CeilSeconds(oldest + WindowMs(rule) - now)));
    } else {
      v := Verdict(true, rule.limit - count - 1, 0);
    }
  }

  lemma LaterSlide(kept: seq<int>, admitted: seq<int>, rule: Rule, clock: int, now: int)
    requires KeyOk(kept, admitted, rule, clock) && clock <= now && Ascending(kept, clock)
    ensures var (v, kept') := Slide(kept, rule, now);
            v == Decide(admitted, rule, now) && KeyOk(kept', Record(admitted, v, now), rule, now) &&
                Ascending(kept', now)
  {
    KeyLater(kept, admitted, rule, clock, now);
    SlideDecides(kept, admitted, rule, now);
    SlideIsAscending(kept, rule, now);
  }

  lemma SlideIsAscending(kept: seq<int>, rule: Rule, now: int)
    requires Ascending(kept, now)
    ensures Ascending(Slide(kept, rule, now).1, now)
  {
    LiveOfAscending(kept, now, now - WindowMs(rule));
  }

  ghost predicate KeyIsValid(entries: seq<Entry>, admitted: seq<int>, rule: Rule, clock: int, expiresAt: int,
                             member: nat) {
    KeyState(entries, admitted, rule, clock, expiresAt) && AllBelow(entries, member)
  }

  ghost predicate KeyState(entries: seq<Entry>, admitted: seq<int>, rule: Rule, clock: int, expiresAt: int) {
    && KeyOk(Scores(entries), admitted, rule, clock)
    && expiresAt - WindowMs(rule) <= clock
    && Ascending(Scores(entries), expiresAt - WindowMs(rule))
  }

  lemma KeyStateAfter(entries: seq<Entry>, admitted: seq<int>, rule: Rule, clock: int, expiresAt: int, now: int,
                      v: Verdict, after: seq<Entry>)
    requires KeyState(entries, admitted, rule, clock, expiresAt) && clock <= now
    requires (v, Scores(after)) == Slide(Scores(entries), rule, now)
    ensures v == Decide(admitted, rule, now)
    ensures KeyState(after, Record(admitted, v, now), rule, now, now + WindowMs(rule))
  {
    AscendingLater(Scores(entries), expiresAt - WindowMs(rule), clock);
    LaterSlide(Scores(entries), admitted, rule, clock, now);
  }

  lemma AscendingLater(times: seq<int>, clock: int, now: int)
    requires Ascending(times, clock) && clock <= now
    ensures Ascending(times, now)
  {
  }

  lemma KeyStateExpired(entries: seq<Entry>, admitted: seq<int>, rule: Rule, clock: int, expiresAt: int, now: int)
    requires KeyState(entries, admitted, rule, clock, expiresAt) && clock <= now && now >= expiresAt
    ensures KeyState([], admitted, rule, now, expiresAt)
  {
    KeyLater(Scores(entries), admitted, rule, clock, now);
    NoneLive(Scores(entries), now - WindowMs(rule));
  }

  method CheckKey(entries: seq<Entry>, ghost admitted: seq<int>, rule: Rule, ghost clock: int, ghost expiresAt: int,
                  member: nat, now: int)
    returns (v: Verdict, after: seq<Entry>)
    requires KeyIsValid(entries, admitted, rule, clock, expiresAt, member) && clock <= now
    ensures v == Decide(admitted, rule, now)
    ensures KeyIsValid(after, Record(admitted, v, now), rule, now, now + WindowMs(rule), member + 1)
  {
    AscendingLater(Scores(entries), expiresAt - WindowMs(rule), now);
    v, after := Exchange(entries, rule, now, member);
    KeyStateAfter(entries, admitted, rule, clock, expiresAt, now, v, after);
  }

  /** One key of Redis, with its time to live. */
  class RedisKey {
    const rule: Rule
    var entries: seq<Entry>
    var nextMember: nat
    var expiresAt: int
    ghost var admitted: seq<int>
    ghost var clock: int

    ghost predicate Valid()
      reads this
    {
      KeyIsValid(entries, admitted, rule, clock, expiresAt, nextMember)
    }

    constructor (rule: Rule, now: int)
      ensures Valid() && clock == now && admitted == [] && this.rule == rule
    {
      this.rule, entries, nextMember, expiresAt, admitted, clock := rule, [], 0, now, [], now;
    }

    method Check(now: int) returns (v: Verdict)
      requires Valid() && clock <= now
      modifies this
      ensures Valid() && clock == now
      ensures v == Decide(old(admitted), rule, now)
      ensures admitted == Record(old(admitted), v, now)
    {
      var after;
      v, after := CheckKey(entries, admitted, rule, clock, expiresAt, nextMember, now);
      ghost var record := Record(admitted, v, now);
      entries, nextMember, expiresAt := after, nextMember + 1, now + WindowMs(rule);
      admitted, clock := record, now;
      assert KeyIsValid(entries, admitted, rule, clock, expiresAt, nextMember);
    }

    /** The time to live runs out, a window after the last check: nothing live is lost. */
    method Expire(now: int)
      requires Valid() && clock <= now && now >= expiresAt
      modifies this
      ensures Valid() && clock == now && admitted == old(admitted)
    {
      KeyStateExpired(entries, admitted, rule, clock, expiresAt, now);
      entries, clock := [], now;
    }
  }
}
