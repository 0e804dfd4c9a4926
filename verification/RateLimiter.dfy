/** redisCheck of src/lib/rate-limiter.ts, called by any number of app instances on one key:
    each call is a MULTI block, and a rejected call removes its own entry some time later. */
module RateLimiter {
  import opened RateLimitRules
  import opened Sequences

  /** One call: its timestamp and its verdict. Its index in the history is its member. */
  datatype Call = Call(at: int, admitted: bool)

  /** scores is the sorted set (member to score); awaiting are the rejected calls whose ZREM
      has not arrived; cut is the score up to which entries have been dropped. */
  datatype Store = Store(
    scores: map<nat, int>,
    history: seq<Call>,
    awaiting: set<nat>,
    clock: int,
    cut: int)

  /** Expire is the key's time to live running out, a window after its last MULTI. */
  datatype Action = Multi(now: int) | Zrem(member: nat) | Expire(now: int)

  function Purge(scores: map<nat, int>, windowStart: int): map<nat, int> {
    map m | m in scores && scores[m] > windowStart :: scores[m]
  }

  function Check(rule: Rule, s: Store, now: int): Store {
    var kept := Purge(s.scores, now - WindowMs(rule));
    var admitted := |kept| < rule.limit;
    var member := |s.history|;
    Store(kept[member := now],
          s.history + [Call(now, admitted)],
          if admitted then s.awaiting else s.awaiting + {member},
          now,
          now - WindowMs(rule))
  }

  /** A step whose time lies in the past, or that has nothing to do, changes nothing. */
  function Do(rule: Rule, s: Store, a: Action): Store {
    match a
    case Multi(now) => if now < s.clock then s else Check(rule, s, now)
    case Zrem(m) =>
      if m !in s.awaiting then s else s.(scores := s.scores - {m}, awaiting := s.awaiting - {m})
    case Expire(now) =>
      if now < s.clock || (s.history != [] && now < s.history[|s.history| - 1].at + WindowMs(rule)) then s
      else s.(scores := map[], clock := now, cut := now - WindowMs(rule))
  }

  function Run(rule: Rule, actions: seq<Action>): Store {
    if actions == [] then Store(map[], [], {}, 0, 0 - WindowMs(rule))
    else Do(rule, Run(rule, actions[..|actions| - 1]), actions[|actions| - 1])
  }

  // ---------------------------------------------------------------- the sorted set

  function AdmittedIn(history: seq<Call>, after: int, upTo: int): set<nat> {
    set i: nat | i < |history| && history[i].admitted && after < history[i].at <= upTo
  }

  function AwaitingIn(history: seq<Call>, awaiting: set<nat>, after: int): set<nat> {
    set i: nat | i < |history| && i in awaiting && after < history[i].at
  }

  /** The members that count after a time, with their scores. */
  function Live(history: seq<Call>, awaiting: set<nat>, after: int): map<nat, int> {
    map i: nat | i < |history| && (history[i].admitted || i in awaiting) && after < history[i].at :: history[i].at
  }

  ghost predicate Ordered(history: seq<Call>, clock: int) {
    && (forall i, j :: 0 <= i < j < |history| ==> history[i].at <= history[j].at)
    && forall i :: 0 <= i < |history| ==> history[i].at <= clock
  }

  ghost predicate AllRejected(history: seq<Call>, awaiting: set<nat>) {
    forall i :: i in awaiting ==> i < |history| && !history[i].admitted
  }

  /** The sorted set is the admitted calls after the cut and the rejections awaiting ZREM,
      and everything up to the cut is out of every window still to come. */
  ghost predicate Exact(rule: Rule, s: Store) {
    && Ordered(s.history, s.clock)
    && AllRejected(s.history, s.awaiting)
    && s.cut <= s.clock - WindowMs(rule)
    && s.scores == Live(s.history, s.awaiting, s.cut)
  }

  lemma PurgeLive(history: seq<Call>, awaiting: set<nat>, cut: int, start: int)
    requires cut <= start
    ensures Purge(Live(history, awaiting, cut), start) == Live(history, awaiting, start)
  {
  }

  lemma AppendLive(history: seq<Call>, awaiting: set<nat>, call: Call, after: int)
    requires after < call.at && forall i :: i in awaiting ==> i < |history|
    ensures var n := |history|;
            Live(history + [call], if call.admitted then awaiting else awaiting + {n}, after) ==
            Live(history, awaiting, after)[n := call.at]
  {
  }

  lemma RemoveLive(history: seq<Call>, awaiting: set<nat>, m: nat, after: int)
    requires m < |history| && !history[m].admitted
    ensures Live(history, awaiting - {m}, after) == Live(history, awaiting, after) - {m}
  {
  }

  lemma DisjointSizes(a: set<nat>, b: set<nat>)
    requires a !! b
    ensures |a + b| == |a| + |b|
  {
  }

  lemma LiveSize(history: seq<Call>, awaiting: set<nat>, after: int, upTo: int)
    requires AllRejected(history, awaiting) && Ordered(history, upTo)
    ensures |Live(history, awaiting, after)| ==
            |AdmittedIn(history, after, upTo)| + |AwaitingIn(history, awaiting, after)|
  {
    var live := Live(history, awaiting, after);
    var admitted, waiting := AdmittedIn(history, after, upTo), AwaitingIn(history, awaiting, after);
    assert |live| == |live.Keys|;
    assert live.Keys == admitted + waiting;
    DisjointSizes(admitted, waiting);
  }

  /** The verdict counts the admitted calls of the window and the rejections still awaiting
      ZREM, and nothing else. */
  lemma VerdictCounts(rule: Rule, s: Store, now: int)
    requires Exact(rule, s) && now >= s.clock
    ensures var start := now - WindowMs(rule);
            Check(rule, s, now).history[|s.history|].admitted <==>
              |AdmittedIn(s.history, start, now)| + |AwaitingIn(s.history, s.awaiting, start)| < rule.limit
  {
    KeptCounts(s.history, s.awaiting, s.cut, s.clock, now - WindowMs(rule), now);
    VerdictIs(rule, s, now);
  }

  lemma VerdictIs(rule: Rule, s: Store, now: int)
    ensures Check(rule, s, now).history[|s.history|].admitted <==> |Purge(s.scores, now - WindowMs(rule))| < rule.limit
  {
  }

  lemma KeptCounts(history: seq<Call>, awaiting: set<nat>, cut: int, clock: int, start: int, now: int)
    requires Ordered(history, clock) && AllRejected(history, awaiting)
    requires clock <= now && cut <= start
    ensures |Purge(Live(history, awaiting, cut), start)| ==
            |AdmittedIn(history, start, now)| + |AwaitingIn(history, awaiting, start)|
  {
    PurgeLive(history, awaiting, cut, start);
    OrderedLater(history, clock, now);
    LiveSize(history, awaiting, start, now);
  }

  lemma OrderedLater(history: seq<Call>, clock: int, now: int)
    requires Ordered(history, clock) && clock <= now
    ensures Ordered(history, now)
  {
  }

  lemma AppendKeepsOrder(history: seq<Call>, awaiting: set<nat>, call: Call, clock: int)
    requires Ordered(history, clock) && AllRejected(history, awaiting) && clock <= call.at
    ensures Ordered(history + [call], call.at)
    ensures AllRejected(history + [call], if call.admitted then awaiting else awaiting + {|history|})
  {
  }

  lemma CheckKeepsExact(rule: Rule, s: Store, now: int)
    requires Exact(rule, s) && now >= s.clock
    ensures Exact(rule, Check(rule, s, now))
  {
    var start := now - WindowMs(rule);
    var kept := Live(s.history, s.awaiting, start);
    var call := Call(now, |kept| < rule.limit);
    PurgeLive(s.history, s.awaiting, s.cut, start);
    CheckIs(rule, s, now, kept);
    AppendLive(s.history, s.awaiting, call, start);
    AppendKeepsOrder(s.history, s.awaiting, call, s.clock);
    IsExact(rule, s.history + [call], if call.admitted then s.awaiting else s.awaiting + {|s.history|}, now);
  }

  lemma IsExact(rule: Rule, history: seq<Call>, awaiting: set<nat>, now: int)
    requires Ordered(history, now) && AllRejected(history, awaiting)
    ensures var start := now - WindowMs(rule);
            Exact(rule, Store(Live(history, awaiting, start), history, awaiting, now, start))
  {
  }

  lemma DoKeepsExact(rule: Rule, s: Store, a: Action)
    requires Exact(rule, s)
    ensures Exact(rule, Do(rule, s, a))
  {
    match a
    case Multi(now) => if now >= s.clock { CheckKeepsExact(rule, s, now); }
    case Zrem(m) => if m in s.awaiting { RemoveLive(s.history, s.awaiting, m, s.cut); }
    case Expire(now) =>
      if Do(rule, s, a) != s {
        assert Live(s.history, s.awaiting, now - WindowMs(rule)) == map[];
      }
  }

  // ---------------------------------------------------------------- the limit

  function Window(rule: Rule, history: seq<Call>, t: int): set<nat> {
    AdmittedIn(history, t - WindowMs(rule), t)
  }

  /** No window of the rule's length, wherever it lies, holds more than limit admitted calls. */
  ghost predicate WithinLimit(rule: Rule, history: seq<Call>) {
    forall t :: |Window(rule, history, t)| <= rule.limit
  }

  lemma WindowAfter(rule: Rule, history: seq<Call>, call: Call, t: int)
    requires Ordered(history, call.at)
    ensures var before, after := Window(rule, history, t), Window(rule, history + [call], t);
            if call.admitted && t - WindowMs(rule) < call.at <= t then
              after == before + {|history|} && before <= AdmittedIn(history, call.at - WindowMs(rule), call.at)
            else after == before
  {
  }

  lemma CheckKeepsLimit(rule: Rule, s: Store, now: int)
    requires Exact(rule, s) && now >= s.clock && WithinLimit(rule, s.history)
    ensures WithinLimit(rule, Check(rule, s, now).history)
  {
    var next := Check(rule, s, now);
    var call := next.history[|s.history|];
    VerdictCounts(rule, s, now);
    forall t
      ensures |Window(rule, next.history, t)| <= rule.limit
    {
      WindowAfter(rule, s.history, call, t);
      if call.admitted && t - WindowMs(rule) < call.at <= t {
        SubsetIsNoLarger(Window(rule, s.history, t), AdmittedIn(s.history, now - WindowMs(rule), now));
      }
    }
  }

  /** Over every interleaving of MULTI blocks, late ZREMs and expiry, with timestamps that do
      not decrease in transaction order, the sorted set is exact and no window is overfull. */
  lemma {:induction false} EveryRunIsExact(rule: Rule, actions: seq<Action>)
    ensures var s := Run(rule, actions);
            Exact(rule, s) && WithinLimit(rule, s.history)
  {
    if actions == [] {
      forall t ensures Window(rule, [], t) == {} {}
    } else {
      var before := Run(rule, actions[..|actions| - 1]);
      var a := actions[|actions| - 1];
      EveryRunIsExact(rule, actions[..|actions| - 1]);
      DoKeepsExact(rule, before, a);
      if a.Multi? && a.now >= before.clock {
        CheckKeepsLimit(rule, before, a.now);
      }
    }
  }

  /** Step k is the call whose member is m; it was rejected. */
  ghost predicate RejectsAt(rule: Rule, actions: seq<Action>, k: nat, m: nat)
    requires k < |actions|
  {
    var before, after := Run(rule, actions[..k]).history, Run(rule, actions[..k + 1]).history;
    |before| == m && |after| == m + 1 && !after[m].admitted
  }

  /** Call m was rejected, and its ZREM has not come since. */
  ghost predicate Unremoved(rule: Rule, actions: seq<Action>, m: nat) {
    exists k: nat :: && k < |actions| && RejectsAt(rule, actions, k, m)
                     && forall j :: k < j < |actions| ==> actions[j] != Zrem(m)
  }

  lemma UnremovedNext(rule: Rule, actions: seq<Action>, a: Action, m: nat)
    ensures Unremoved(rule, actions + [a], m) <==>
              RejectsAt(rule, actions + [a], |actions|, m) || (Unremoved(rule, actions, m) && a != Zrem(m))
  {
    var all := actions + [a];
    forall k: nat | k < |actions|
      ensures RejectsAt(rule, all, k, m) <==> RejectsAt(rule, actions, k, m)
    {
      assert all[..k] == actions[..k] && all[..k + 1] == actions[..k + 1];
    }
    if Unremoved(rule, actions, m) && a != Zrem(m) {
      var k: nat :| && k < |actions| && RejectsAt(rule, actions, k, m)
                    && forall j :: k < j < |actions| ==> actions[j] != Zrem(m);
      assert RejectsAt(rule, all, k, m) && forall j :: k < j < |all| ==> all[j] != Zrem(m);
    }
    if Unremoved(rule, all, m) {
      var k: nat :| && k < |all| && RejectsAt(rule, all, k, m)
                    && forall j :: k < j < |all| ==> all[j] != Zrem(m);
      if k < |actions| {
        assert all[|actions|] != Zrem(m);
        assert forall j :: k < j < |actions| ==> actions[j] == all[j];
      }
    }
  }

  /** Over every run the rejections that count are those whose ZREM has not come. */
  lemma {:induction false} AwaitingIsUnremoved(rule: Rule, actions: seq<Action>, m: nat)
    ensures m in Run(rule, actions).awaiting <==> Unremoved(rule, actions, m)
    ensures m in Run(rule, actions).awaiting ==> m < |Run(rule, actions).history|
  {
    if actions != [] {
      var n := |actions| - 1;
      AwaitingIsUnremoved(rule, actions[..n], m);
      UnremovedNext(rule, actions[..n], actions[n], m);
      assert actions == actions[..n] + [actions[n]] && actions[..n + 1] == actions;
    }
  }

  /** When the key expires, the set is emptied, and nothing in it would have counted again. */
  lemma ExpiryDropsNothingThatCounts(rule: Rule, s: Store, now: int, later: int)
    requires Exact(rule, s) && s.clock <= now <= later
    requires s.history == [] || s.history[|s.history| - 1].at + WindowMs(rule) <= now
    ensures Do(rule, s, Expire(now)).scores == map[]
    ensures AdmittedIn(s.history, later - WindowMs(rule), later) == {}
    ensures AwaitingIn(s.history, s.awaiting, later - WindowMs(rule)) == {}
  {
    assert forall i :: 0 <= i < |s.history| ==> s.history[i].at <= s.history[|s.history| - 1].at;
  }

  /** A rejection that awaits its ZREM does count: with a limit of one, a call that was
      refused late in a window gets a later call refused although nothing is admitted in that
      call's window any more. */
  lemma AwaitingRejectionCounts(rule: Rule, at: int, refused: int, now: int)
    requires rule.limit == 1 && 0 <= at < refused < at + WindowMs(rule) <= now < refused + WindowMs(rule)
    ensures var s := Run(rule, [Multi(at), Multi(refused), Multi(now)]);
            && s.history == [Call(at, true), Call(refused, false), Call(now, false)]
            && AdmittedIn(s.history, now - WindowMs(rule), now) == {}
  {
    var s2 := AfterRefusal(rule, at, refused);
    ThirdCall(rule, s2, at, refused, now);
    ThreeChecks(rule, at, refused, now);
  }

  lemma ThirdCall(rule: Rule, s: Store, at: int, refused: int, now: int)
    requires rule.limit == 1 && at + WindowMs(rule) <= now < refused + WindowMs(rule)
    requires s.history == [Call(at, true), Call(refused, false)] && s.scores == map[0 := at, 1 := refused]
    ensures var history := Check(rule, s, now).history;
            && history == [Call(at, true), Call(refused, false), Call(now, false)]
            && AdmittedIn(history, now - WindowMs(rule), now) == {}
  {
    assert Purge(s.scores, now - WindowMs(rule)) == map[1 := refused];
    CheckIs(rule, s, now, map[1 := refused]);
    var history := Check(rule, s, now).history;
    assert history == [Call(at, true), Call(refused, false), Call(now, false)];
    assert forall i :: 0 <= i < |history| ==> !history[i].admitted || history[i].at <= now - WindowMs(rule);
  }

  lemma AfterFirst(rule: Rule, at: int)
    requires rule.limit == 1 && 0 <= at
    ensures var s := Check(rule, Run(rule, []), at);
            s.history == [Call(at, true)] && s.scores == map[0 := at]
  {
    var s0 := Run(rule, []);
    assert Purge(s0.scores, at - WindowMs(rule)) == map[];
    CheckIs(rule, s0, at, map[]);
  }

  lemma AfterSecond(rule: Rule, s: Store, at: int, refused: int)
    requires rule.limit == 1 && at < refused < at + WindowMs(rule)
    requires s.history == [Call(at, true)] && s.scores == map[0 := at]
    ensures var t := Check(rule, s, refused);
            && t.history == [Call(at, true), Call(refused, false)]
            && t.scores == map[0 := at, 1 := refused] && t.clock == refused
  {
    assert Purge(s.scores, refused - WindowMs(rule)) == map[0 := at];
    CheckIs(rule, s, refused, map[0 := at]);
    assert map[0 := at][1 := refused] == map[0 := at, 1 := refused];
    assert [Call(at, true)] + [Call(refused, false)] == [Call(at, true), Call(refused, false)];
  }

  lemma AfterRefusal(rule: Rule, at: int, refused: int) returns (s: Store)
    requires rule.limit == 1 && 0 <= at < refused < at + WindowMs(rule)
    ensures s == Check(rule, Check(rule, Run(rule, []), at), refused)
    ensures s.history == [Call(at, true), Call(refused, false)]
    ensures s.scores == map[0 := at, 1 := refused] && s.clock == refused
  {
    AfterFirst(rule, at);
    AfterSecond(rule, Check(rule, Run(rule, []), at), at, refused);
    s := Check(rule, Check(rule, Run(rule, []), at), refused);
  }

  lemma CheckIs(rule: Rule, s: Store, now: int, kept: map<nat, int>)
    requires kept == Purge(s.scores, now - WindowMs(rule))
    ensures Check(rule, s, now) ==
            Store(kept[|s.history| := now], s.history + [Call(now, |kept| < rule.limit)],
                  if |kept| < rule.limit then s.awaiting else s.awaiting + {|s.history|}, now, now - WindowMs(rule))
  {
  }

  lemma ThreeChecks(rule: Rule, a: int, b: int, c: int)
    requires 0 <= a <= b <= c
    ensures Run(rule, [Multi(a), Multi(b), Multi(c)]) == Check(rule, Check(rule, Check(rule, Run(rule, []), a), b), c)
  {
    assert [Multi(a)][..0] == [] && [Multi(a), Multi(b)][..1] == [Multi(a)];
    assert [Multi(a), Multi(b), Multi(c)][..2] == [Multi(a), Multi(b)];
    assert Run(rule, [Multi(a)]) == Check(rule, Run(rule, []), a);
    assert Run(rule, [Multi(a), Multi(b)]) == Check(rule, Run(rule, [Multi(a)]), b);
  }
}
