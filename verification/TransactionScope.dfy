/** The transaction scope of src/database/pgsql.ts: nested calls join the outermost
    transaction, and effects wait for its outcome. Bodies are program trees. */
module TransactionScope {
  import opened Sequences

  // ---------------------------------------------------------------- programs

  /** ok tells whether the effect succeeds when it is run. */
  datatype Effect = Effect(id: nat, ok: bool)

  /** What COMMIT does: it takes effect and says so, it does not take effect, or it takes effect
      and its answer is lost, which to the client is an error like any other. */
  datatype Commit = Answered | Refused | Unanswered

  datatype Program =
    | Skip
    | Throw
    | Write(value: int)                            // through the innermost open handle
    | AfterCommit(effect: Effect)
    | AfterRollback(effect: Effect)
    | Then(first: Program, second: Program)
    | Catch(body: Program)
    | Transaction(body: Program, commit: Commit)   // withDatabaseTransaction
    | Begin(body: Program, commit: Commit)         // begin of the proxied client

  datatype Event =
    | Opened
    | DeferredCommit(effect: Effect)
    | DeferredRollback(effect: Effect)
    | Committed
    | Aborted
    | CommittedUnanswered
    | Ran(effect: Effect)       // an effect that was deferred
    | RanAtOnce(effect: Effect) // one outside any scope

  /** stored is durable; open are the writes of the innermost open transaction or savepoint. */
  datatype World = World(
    stored: seq<int>,
    open: seq<int>,
    inTransaction: bool,
    inScope: bool,
    commitEffects: seq<Effect>,
    rollbackEffects: seq<Effect>,
    trace: seq<Event>)

  function Rans(effects: seq<Effect>): seq<Event> {
    if effects == [] then [] else [Ran(effects[0])] + Rans(effects[1..])
  }

  function Reversed(effects: seq<Effect>): seq<Effect> {
    if effects == [] then [] else Reversed(effects[1..]) + [effects[0]]
  }

  predicate AllOk(effects: seq<Effect>) {
    forall i :: 0 <= i < |effects| ==> effects[i].ok
  }

  // ---------------------------------------------------------------- what running a program does

  function EnterScope(w: World): World {
    w.(open := [], inTransaction := true, inScope := true, commitEffects := [], rollbackEffects := [],
       trace := w.trace + [Opened])
  }

  predicate IsEnd(end: Event) {
    end == Committed || end == Aborted || end == CommittedUnanswered
  }

  function EndOf(completed: bool, commit: Commit): (end: Event)
    ensures IsEnd(end)
  {
    if !completed || commit.Refused? then Aborted
    else if commit.Answered? then Committed
    else CommittedUnanswered
  }

  /** The end of an outermost transaction whose body ended in w. */
  function LeaveScope(before: World, w: World, end: Event): World {
    before.(stored := if end == Aborted then w.stored else w.stored + w.open,
            trace := w.trace + [end] + Rans(if end == Committed then w.commitEffects else Reversed(w.rollbackEffects)))
  }

  /** The result is false when the program throws. */
  function Exec(p: Program, w: World): (bool, World) {
    match p
    case Skip => (true, w)
    case Throw => (false, w)
    case Write(v) => (true, if w.inTransaction then w.(open := w.open + [v]) else w.(stored := w.stored + [v]))
    case AfterCommit(e) =>
      if w.inScope then
        (true, w.(commitEffects := w.commitEffects + [e], trace := w.trace + [DeferredCommit(e)]))
      else (e.ok, w.(trace := w.trace + [RanAtOnce(e)]))
    case AfterRollback(e) =>
      if w.inScope then
        (true, w.(rollbackEffects := w.rollbackEffects + [e], trace := w.trace + [DeferredRollback(e)]))
      else (true, w)
    case Then(a, b) =>
      var (ok, w1) := Exec(a, w);
      if ok then Exec(b, w1) else (false, w1)
    case Catch(body) => (true, Exec(body, w).1)
    case Transaction(body, commit) =>
      if w.inScope then Exec(body, w)
      else
        var (ok, w1) := Exec(body, EnterScope(w));
        var end := EndOf(ok, commit);
        (end == Committed && AllOk(w1.commitEffects), LeaveScope(w, w1, end))
    case Begin(body, commit) =>
      var (ok, w1) := Exec(body, w.(open := [], inTransaction := true));
      LeaveBegin(w, w1, ok, commit)
  }

  /** The end of a begin whose body ended in w: a savepoint inside a scope, else a transaction. */
  function LeaveBegin(before: World, w: World, ok: bool, commit: Commit): (bool, World) {
    if before.inScope then
      (ok, w.(open := if ok then before.open + w.open else before.open))
    else
      var end := EndOf(ok, commit);
      (end == Committed, w.(open := before.open, inTransaction := before.inTransaction,
                            stored := if end == Aborted then w.stored else w.stored + w.open))
  }

  lemma BeginIs(body: Program, commit: Commit, w: World)
    ensures var (ok, w1) := Exec(body, w.(open := [], inTransaction := true));
            Exec(Begin(body, commit), w) == LeaveBegin(w, w1, ok, commit)
  {
  }

  // ---------------------------------------------------------------- reference meaning of a body

  /** Whether a body inside a scope ends without throwing. */
  predicate Completes(p: Program) {
    match p
    case Throw => false
    case Then(a, b) => Completes(a) && Completes(b)
    case Transaction(body, _) => Completes(body)
    case Begin(body, _) => Completes(body)
    case _ => true
  }

  /** The effects that a body inside a scope defers, in order: whatever was reached, also by
      parts that threw, were caught or were rolled back to a savepoint. */
  function Deferrals(p: Program): seq<Event> {
    match p
    case AfterCommit(e) => [DeferredCommit(e)]
    case AfterRollback(e) => [DeferredRollback(e)]
    case Then(a, b) => Deferrals(a) + if Completes(a) then Deferrals(b) else []
    case Catch(body) => Deferrals(body)
    case Transaction(body, _) => Deferrals(body)
    case Begin(body, _) => Deferrals(body)
    case _ => []
  }

  function AsCommitEffect(e: Event): seq<Effect> {
    match e
    case DeferredCommit(effect) => [effect]
    case _ => []
  }

  function AsRollbackEffect(e: Event): seq<Effect> {
    match e
    case DeferredRollback(effect) => [effect]
    case _ => []
  }

  function CommitEffectsOf(events: seq<Event>): seq<Effect> {
    if events == [] then [] else AsCommitEffect(events[0]) + CommitEffectsOf(events[1..])
  }

  function RollbackEffectsOf(events: seq<Event>): seq<Effect> {
    if events == [] then [] else AsRollbackEffect(events[0]) + RollbackEffectsOf(events[1..])
  }

  /** The writes that a body inside a scope leaves: only a savepoint takes writes back. */
  function WritesKept(p: Program): seq<int> {
    match p
    case Write(v) => [v]
    case Then(a, b) => WritesKept(a) + if Completes(a) then WritesKept(b) else []
    case Catch(body) => WritesKept(body)
    case Transaction(body, _) => WritesKept(body)
    case Begin(body, _) => if Completes(body) then WritesKept(body) else []
    case _ => []
  }

  lemma {:induction false} CommitEffectsOfConcat(a: seq<Event>, b: seq<Event>)
    ensures CommitEffectsOf(a + b) == CommitEffectsOf(a) + CommitEffectsOf(b)
  {
    if a == [] {
      assert a + b == b;
    } else {
      assert (a + b)[1..] == a[1..] + b;
      CommitEffectsOfConcat(a[1..], b);
      var head := AsCommitEffect(a[0]);
      assert head + (CommitEffectsOf(a[1..]) + CommitEffectsOf(b)) ==
          head + CommitEffectsOf(a[1..]) + CommitEffectsOf(b);
    }
  }

  lemma {:induction false} RollbackEffectsOfConcat(a: seq<Event>, b: seq<Event>)
    ensures RollbackEffectsOf(a + b) == RollbackEffectsOf(a) + RollbackEffectsOf(b)
  {
    if a == [] {
      assert a + b == b;
    } else {
      assert (a + b)[1..] == a[1..] + b;
      RollbackEffectsOfConcat(a[1..], b);
      var head := AsRollbackEffect(a[0]);
      assert head + (RollbackEffectsOf(a[1..]) + RollbackEffectsOf(b)) ==
          head + RollbackEffectsOf(a[1..]) + RollbackEffectsOf(b);
    }
  }

  /** w after a body that deferred these events and kept these writes. */
  ghost function InScopeAfter(w: World, events: seq<Event>, writes: seq<int>): World {
    w.(open := w.open + writes,
       commitEffects := w.commitEffects + CommitEffectsOf(events),
       rollbackEffects := w.rollbackEffects + RollbackEffectsOf(events),
       trace := w.trace + events)
  }

  lemma InScopeAfterNothing(w: World)
    ensures InScopeAfter(w, [], []) == w
  {
    assert w.open + [] == w.open && w.trace + [] == w.trace;
    assert w.commitEffects + [] == w.commitEffects && w.rollbackEffects + [] == w.rollbackEffects;
  }

  lemma InScopeAfterBoth(w: World, e1: seq<Event>, w1: seq<int>, e2: seq<Event>, w2: seq<int>)
    ensures InScopeAfter(InScopeAfter(w, e1, w1), e2, w2) == InScopeAfter(w, e1 + e2, w1 + w2)
  {
    CommitEffectsOfConcat(e1, e2);
    RollbackEffectsOfConcat(e1, e2);
    Associative(w.open, w1, w2);
    Associative(w.trace, e1, e2);
    Associative(w.commitEffects, CommitEffectsOf(e1), CommitEffectsOf(e2));
    Associative(w.rollbackEffects, RollbackEffectsOf(e1), RollbackEffectsOf(e2));
  }

  lemma OneDeferral(e: Effect)
    ensures CommitEffectsOf([DeferredCommit(e)]) == [e] && RollbackEffectsOf([DeferredCommit(e)]) == []
    ensures CommitEffectsOf([DeferredRollback(e)]) == [] && RollbackEffectsOf([DeferredRollback(e)]) == [e]
  {
    assert [DeferredCommit(e)][1..] == [] && [DeferredRollback(e)][1..] == [];
  }

  /** Inside a scope, running a body is what its reference meaning says. */
  lemma {:induction false} ScopedBody(p: Program, w: World)
    requires w.inScope && w.inTransaction
    ensures Exec(p, w) == (Completes(p), InScopeAfter(w, Deferrals(p), WritesKept(p)))
  {
    InScopeAfterNothing(w);
    match p
    case Then(a, b) =>
      ScopedBody(a, w);
      var w1 := Exec(a, w).1;
      InScopeAfterBoth(w, Deferrals(a), WritesKept(a), [], []);
      if Completes(a) {
        ScopedBody(b, w1);
        InScopeAfterBoth(w, Deferrals(a), WritesKept(a), Deferrals(b), WritesKept(b));
      } else {
        InScopeAfterNothing(w1);
      }
    case Catch(body) => ScopedBody(body, w);
    case Transaction(body, _) => ScopedBody(body, w);
    case Begin(body, _) =>
      ScopedBody(body, w.(open := []));
      assert [] + WritesKept(body) == WritesKept(body);
      assert w.open + [] == w.open;
    case AfterCommit(e) => OneDeferral(e);
      assert w.open + [] == w.open && w.rollbackEffects + [] == w.rollbackEffects;
    case AfterRollback(e) => OneDeferral(e);
      assert w.open + [] == w.open && w.commitEffects + [] == w.commitEffects;
    case Write(v) =>
      assert w.trace + [] == w.trace && w.commitEffects + [] == w.commitEffects &&
          w.rollbackEffects + [] == w.rollbackEffects;
    case _ =>
  }

  lemma FreshScopeBody(body: Program, w: World)
    ensures var (ok, w1) := Exec(body, EnterScope(w));
            && ok == Completes(body)
            && w1.stored == w.stored
            && w1.open == WritesKept(body)
            && w1.commitEffects == CommitEffectsOf(Deferrals(body))
            && w1.rollbackEffects == RollbackEffectsOf(Deferrals(body))
            && w1.trace == w.trace + [Opened] + Deferrals(body)
  {
    ScopedBody(body, EnterScope(w));
    FreshScopeAfter(w, Deferrals(body), WritesKept(body));
  }

  lemma FreshScopeAfter(w: World, events: seq<Event>, writes: seq<int>)
    ensures var w1 := InScopeAfter(EnterScope(w), events, writes);
            && w1.stored == w.stored && w1.open == writes
            && w1.commitEffects == CommitEffectsOf(events) && w1.rollbackEffects == RollbackEffectsOf(events)
            && w1.trace == w.trace + [Opened] + events
  {
    assert [] + writes == writes;
    assert [] + CommitEffectsOf(events) == CommitEffectsOf(events);
    assert [] + RollbackEffectsOf(events) == RollbackEffectsOf(events);
  }

  lemma OutermostIs(body: Program, commit: Commit, w: World)
    requires !w.inScope
    ensures var (ok, w1) := Exec(body, EnterScope(w));
            Exec(Transaction(body, commit), w) ==
              (EndOf(ok, commit) == Committed && AllOk(w1.commitEffects), LeaveScope(w, w1, EndOf(ok, commit)))
  {
  }

  lemma LeaveRollingBack(before: World, w: World, end: Event)
    requires w.stored == before.stored && IsEnd(end) && end != Committed
    ensures LeaveScope(before, w, end) ==
            before.(stored := if end == Aborted then before.stored else before.stored + w.open,
                    trace := w.trace + [end] + Rans(Reversed(w.rollbackEffects)))
  {
  }

  lemma LeaveCommitted(before: World, w: World)
    requires w.stored == before.stored
    ensures LeaveScope(before, w, Committed) ==
            before.(stored := before.stored + w.open, trace := w.trace + [Committed] + Rans(w.commitEffects))
  {
  }

  /** If the outermost transaction commits, every commit effect deferred below it runs once,
      in order, after the commit and even when some fail, and no rollback effect runs. */
  lemma OutermostCommits(body: Program, w: World)
    requires !w.inScope && Completes(body)
    ensures var effects := CommitEffectsOf(Deferrals(body));
            Exec(Transaction(body, Answered), w) ==
              (AllOk(effects),
               w.(stored := w.stored + WritesKept(body),
                  trace := w.trace + [Opened] + Deferrals(body) + [Committed] + Rans(effects)))
  {
    FreshScopeBody(body, w);
    OutermostIs(body, Answered, w);
    LeaveCommitted(w, Exec(body, EnterScope(w)).1);
  }

  /** If it aborts, because the body throws or COMMIT is refused, its rollback effects run once,
      last first, none of its writes is stored, and no commit effect runs. */
  lemma OutermostAborts(body: Program, commit: Commit, w: World)
    requires !w.inScope && (!Completes(body) || commit.Refused?)
    ensures var effects := RollbackEffectsOf(Deferrals(body));
            Exec(Transaction(body, commit), w) ==
              (false,
               w.(trace := w.trace + [Opened] + Deferrals(body) + [Aborted] + Rans(Reversed(effects))))
  {
    FreshScopeBody(body, w);
    OutermostIs(body, commit, w);
    LeaveRollingBack(w, Exec(body, EnterScope(w)).1, Aborted);
  }

  /** If it commits and the answer is lost, the writes are stored, and yet the rollback effects run
      and no commit effect does. */
  lemma OutermostUnanswered(body: Program, w: World)
    requires !w.inScope && Completes(body)
    ensures var effects := RollbackEffectsOf(Deferrals(body));
            Exec(Transaction(body, Unanswered), w) ==
              (false,
               w.(stored := w.stored + WritesKept(body),
                  trace := w.trace + [Opened] + Deferrals(body) + [CommittedUnanswered] + Rans(Reversed(effects))))
  {
    FreshScopeBody(body, w);
    OutermostIs(body, Unanswered, w);
    LeaveRollingBack(w, Exec(body, EnterScope(w)).1, CommittedUnanswered);
  }

  /** The writes of an outermost transaction are stored and its rollback effects run. */
  ghost predicate StoredYetRolledBack(body: Program, w: World, after: World) {
    && after.stored == w.stored + WritesKept(body)
    && exists end :: after.trace ==
        w.trace + [Opened] + Deferrals(body) + [end] + Rans(Reversed(RollbackEffectsOf(Deferrals(body))))
                     && IsEnd(end) && end != Committed
  }

  /** Rollback effects compensate writes that were stored exactly when COMMIT took effect without
      an answer: whatever the body wrote and deferred. */
  lemma CompensationIsWrongExactly(body: Program, commit: Commit, w: World)
    requires !w.inScope && WritesKept(body) != []
    ensures StoredYetRolledBack(body, w, Exec(Transaction(body, commit), w).1) <==>
              Completes(body) && commit.Unanswered?
  {
    var after := Exec(Transaction(body, commit), w).1;
    var before := w.trace + [Opened] + Deferrals(body);
    if !Completes(body) || commit.Refused? {
      OutermostAborts(body, commit, w);
      assert |w.stored + WritesKept(body)| > |w.stored|;
    } else if commit.Answered? {
      OutermostCommits(body, w);
      assert after.trace[|before|] == Committed;
    } else {
      OutermostUnanswered(body, w);
      assert IsEnd(CommittedUnanswered);
    }
  }

  /** For example: a row is written and the effect that would undo its external part registered;
      the row stays, and its external part is undone. */
  lemma LostAnswerUndoes(value: int, undo: Effect, w: World)
    requires !w.inScope
    ensures var (ok, after) := Exec(Transaction(Then(Write(value), AfterRollback(undo)), Unanswered), w);
            && !ok && after.stored == w.stored + [value]
            && after.trace == w.trace + [Opened, DeferredRollback(undo), CommittedUnanswered, Ran(undo)]
  {
    OutermostUnanswered(Then(Write(value), AfterRollback(undo)), w);
    WriteAndUndo(value, undo);
    var events := [Opened] + [DeferredRollback(undo)] + [CommittedUnanswered] + [Ran(undo)];
    assert events == [Opened, DeferredRollback(undo), CommittedUnanswered, Ran(undo)];
    assert w.trace + [Opened] + [DeferredRollback(undo)] + [CommittedUnanswered] + [Ran(undo)] == w.trace + events;
  }

  lemma WriteAndUndo(value: int, undo: Effect)
    ensures var body := Then(Write(value), AfterRollback(undo));
            && Completes(body) && Deferrals(body) == [DeferredRollback(undo)] && WritesKept(body) == [value]
            && Rans(Reversed(RollbackEffectsOf(Deferrals(body)))) == [Ran(undo)]
  {
    OneDeferral(undo);
    var body := Then(Write(value), AfterRollback(undo));
    assert Deferrals(body) == [] + [DeferredRollback(undo)] == [DeferredRollback(undo)];
    assert Reversed([undo]) == [undo] && Rans([undo]) == [Ran(undo)];
  }

  /** A failure that is caught below the outermost transaction takes back the writes of its
      savepoint, but none of its effects: its commit effects still run, and its rollback
      effects do not. */
  lemma CaughtFailureKeepsEffects(body: Program, w: World)
    requires !w.inScope && !Completes(body)
    ensures var (_, after) := Exec(Transaction(Catch(Begin(body, Answered)), Answered), w);
            && after.stored == w.stored
            && after.trace == w.trace + [Opened] + Deferrals(body) + [Committed] +
                Rans(CommitEffectsOf(Deferrals(body)))
  {
    CaughtMeans(body);
    OutermostCommits(Catch(Begin(body, Answered)), w);
    assert w.stored + [] == w.stored;
  }

  lemma CaughtMeans(body: Program)
    ensures var caught := Catch(Begin(body, Answered));
            && Completes(caught) && Deferrals(caught) == Deferrals(body)
            && (!Completes(body) ==> WritesKept(caught) == [])
  {
  }

  // ---------------------------------------------------------------- every run, watched from outside

  /** A monitor of the trace that knows nothing of programs. */
  datatype Monitor =
    | Quiet
    | Collecting(commits: seq<Effect>, rollbacks: seq<Effect>)
    | Draining(due: seq<Effect>)
    | Violation

  function Due(effects: seq<Effect>): Monitor {
    if effects == [] then Quiet else Draining(effects)
  }

  function Watch(m: Monitor, e: Event): Monitor {
    match m
    case Violation => Violation
    case Quiet => if e.Opened? then Collecting([], []) else if e.RanAtOnce? then Quiet else Violation
    case Collecting(commits, rollbacks) =>
      (match e
       case DeferredCommit(effect) => Collecting(commits + [effect], rollbacks)
       case DeferredRollback(effect) => Collecting(commits, rollbacks + [effect])
       case Committed => Due(commits)
       case Aborted => Due(Reversed(rollbacks))
       case CommittedUnanswered => Due(Reversed(rollbacks))
       case _ => Violation)
    case Draining(due) =>
      if due != [] && e == Ran(due[0]) then Due(due[1..]) else Violation
  }

  function WatchAll(m: Monitor, trace: seq<Event>): Monitor
    decreases trace
  {
    if trace == [] then m else WatchAll(Watch(m, trace[0]), trace[1..])
  }

  lemma {:induction false} WatchAllConcat(m: Monitor, a: seq<Event>, b: seq<Event>)
    ensures WatchAll(m, a + b) == WatchAll(WatchAll(m, a), b)
    decreases a
  {
    if a == [] {
      assert a + b == b;
    } else {
      assert (a + b)[1..] == a[1..] + b;
      WatchAllConcat(Watch(m, a[0]), a[1..], b);
    }
  }

  lemma {:induction false} DrainingEnds(effects: seq<Effect>)
    ensures WatchAll(Due(effects), Rans(effects)) == Quiet
  {
    if effects != [] {
      DrainingEnds(effects[1..]);
      assert Rans(effects)[1..] == Rans(effects[1..]);
    }
  }

  ghost predicate OnlyDeferrals(events: seq<Event>) {
    forall i :: 0 <= i < |events| ==> events[i].DeferredCommit? || events[i].DeferredRollback?
  }

  lemma {:induction false} CollectsDeferrals(events: seq<Event>, commits: seq<Effect>, rollbacks: seq<Effect>)
    requires OnlyDeferrals(events)
    ensures WatchAll(Collecting(commits, rollbacks), events) ==
            Collecting(commits + CommitEffectsOf(events), rollbacks + RollbackEffectsOf(events))
  {
    if events == [] {
      assert commits + [] == commits && rollbacks + [] == rollbacks;
    } else {
      var c, r := AsCommitEffect(events[0]), AsRollbackEffect(events[0]);
      WatchDeferral(commits, rollbacks, events[0]);
      CollectsDeferrals(events[1..], commits + c, rollbacks + r);
      Associative(commits, c, CommitEffectsOf(events[1..]));
      Associative(rollbacks, r, RollbackEffectsOf(events[1..]));
    }
  }

  lemma WatchDeferral(commits: seq<Effect>, rollbacks: seq<Effect>, e: Event)
    requires e.DeferredCommit? || e.DeferredRollback?
    ensures Watch(Collecting(commits, rollbacks), e) ==
              Collecting(commits + AsCommitEffect(e), rollbacks + AsRollbackEffect(e))
  {
    assert commits + [] == commits && rollbacks + [] == rollbacks;
  }

  lemma {:induction false} DeferralsOnly(p: Program)
    ensures OnlyDeferrals(Deferrals(p))
  {
    match p
    case Then(a, b) =>
      DeferralsOnly(a);
      DeferralsOnly(b);
    case Catch(body) => DeferralsOnly(body);
    case Transaction(body, _) => DeferralsOnly(body);
    case Begin(body, _) => DeferralsOnly(body);
    case _ =>
  }

  lemma BlockIsAccepted(events: seq<Event>, end: Event, effects: seq<Effect>)
    requires OnlyDeferrals(events)
    requires IsEnd(end)
    requires effects == if end == Committed then CommitEffectsOf(events) else Reversed(RollbackEffectsOf(events))
    ensures WatchAll(Quiet, [Opened] + (events + ([end] + Rans(effects)))) == Quiet
  {
    var tail := [end] + Rans(effects);
    WatchAllConcat(Quiet, [Opened], events + tail);
    assert WatchAll(Quiet, [Opened]) == Collecting([], []) by { assert [Opened][1..] == []; }
    WatchAllConcat(Collecting([], []), events, tail);
    CollectsDeferrals(events, [], []);
    var m := Collecting(CommitEffectsOf(events), RollbackEffectsOf(events));
    assert [] + CommitEffectsOf(events) == CommitEffectsOf(events);
    assert [] + RollbackEffectsOf(events) == RollbackEffectsOf(events);
    assert WatchAll(m, [end]) == Due(effects) by { assert [end][1..] == []; }
    WatchAllConcat(m, [end], Rans(effects));
    DrainingEnds(effects);
  }

  lemma AppendedBlockIsAccepted(trace: seq<Event>, events: seq<Event>, end: Event, effects: seq<Effect>)
    requires WatchAll(Quiet, trace) == Quiet && OnlyDeferrals(events)
    requires IsEnd(end)
    requires effects == if end == Committed then CommitEffectsOf(events) else Reversed(RollbackEffectsOf(events))
    ensures WatchAll(Quiet, trace + [Opened] + events + [end] + Rans(effects)) == Quiet
  {
    var block := [Opened] + (events + ([end] + Rans(effects)));
    FiveTogether(trace, [Opened], events, [end], Rans(effects));
    BlockIsAccepted(events, end, effects);
    WatchAllConcat(Quiet, trace, block);
  }

  lemma OutermostIsAccepted(body: Program, commit: Commit, w: World)
    requires !w.inScope && WatchAll(Quiet, w.trace) == Quiet
    ensures WatchAll(Quiet, Exec(Transaction(body, commit), w).1.trace) == Quiet
  {
    DeferralsOnly(body);
    var events := Deferrals(body);
    var rollbacks := Reversed(RollbackEffectsOf(events));
    if !Completes(body) || commit.Refused? {
      OutermostAborts(body, commit, w);
      AppendedBlockIsAccepted(w.trace, events, Aborted, rollbacks);
    } else if commit.Answered? {
      OutermostCommits(body, w);
      AppendedBlockIsAccepted(w.trace, events, Committed, CommitEffectsOf(events));
    } else {
      OutermostUnanswered(body, w);
      AppendedBlockIsAccepted(w.trace, events, CommittedUnanswered, rollbacks);
    }
  }

  /** Every program, run outside any scope, has a trace that the monitor accepts: deferred
      effects run only after the outcome of the transaction they were deferred in, each once,
      in the order due, with nothing in between. */
  lemma {:induction false} EveryRunIsAccepted(p: Program, w: World)
    requires !w.inScope && WatchAll(Quiet, w.trace) == Quiet
    ensures var after := Exec(p, w).1;
            && !after.inScope
            && after.inTransaction == w.inTransaction
            && WatchAll(Quiet, after.trace) == Quiet
  {
    match p
    case AfterCommit(e) =>
      WatchAllConcat(Quiet, w.trace, [RanAtOnce(e)]);
      assert WatchAll(Quiet, [RanAtOnce(e)]) == Quiet by { assert [RanAtOnce(e)][1..] == []; }
    case Then(a, b) =>
      EveryRunIsAccepted(a, w);
      if Exec(a, w).0 {
        EveryRunIsAccepted(b, Exec(a, w).1);
      }
    case Catch(body) => EveryRunIsAccepted(body, w);
    case Transaction(body, commit) => OutermostIsAccepted(body, commit, w);
    case Begin(body, _) => EveryRunIsAccepted(body, w.(open := [], inTransaction := true));
    case _ =>
  }

  // ---------------------------------------------------------------- reference meaning outside a scope

  /** Whether a program outside any scope ends without throwing. */
  predicate EndsWell(p: Program) {
    match p
    case Throw => false
    case AfterCommit(e) => e.ok
    case Then(a, b) => EndsWell(a) && EndsWell(b)
    case Transaction(body, commit) =>
      Completes(body) && commit.Answered? && AllOk(CommitEffectsOf(Deferrals(body)))
    case Begin(body, commit) => EndsWell(body) && commit.Answered?
    case _ => true
  }

  /** The trace of an outermost transaction. */
  function Block(body: Program, commit: Commit): seq<Event> {
    var end := EndOf(Completes(body), commit);
    [Opened] + Deferrals(body) + [end]
    + Rans(if end == Committed then CommitEffectsOf(Deferrals(body))
           else Reversed(RollbackEffectsOf(Deferrals(body))))
  }

  function Happens(p: Program): seq<Event> {
    match p
    case AfterCommit(e) => [RanAtOnce(e)]
    case Then(a, b) => Happens(a) + if EndsWell(a) then Happens(b) else []
    case Catch(body) => Happens(body)
    case Transaction(body, commit) => Block(body, commit)
    case Begin(body, _) => Happens(body)
    case _ => []
  }

  /** What is written through the handle of an enclosing begin. */
  function WritesHeld(p: Program): seq<int> {
    match p
    case Write(v) => [v]
    case Then(a, b) => WritesHeld(a) + if EndsWell(a) then WritesHeld(b) else []
    case Catch(body) => WritesHeld(body)
    case _ => []
  }

  /** What is durable at the end. Writes of a begin are, unless it threw or its COMMIT was refused;
      a transaction is on a connection of its own, so that no enclosing begin takes it back. */
  function WritesStored(p: Program, held: bool): seq<int> {
    match p
    case Write(v) => if held then [] else [v]
    case Then(a, b) => WritesStored(a, held) + if EndsWell(a) then WritesStored(b, held) else []
    case Catch(body) => WritesStored(body, held)
    case Transaction(body, commit) => if Completes(body) && !commit.Refused? then WritesKept(body) else []
    case Begin(body, commit) =>
      WritesStored(body, true) + if EndsWell(body) && !commit.Refused? then WritesHeld(body) else []
    case _ => []
  }

  ghost function OutsideAfter(w: World, events: seq<Event>, held: seq<int>, durable: seq<int>): World {
    w.(trace := w.trace + events, open := w.open + held, stored := w.stored + durable)
  }

  lemma OutsideAfterNothing(w: World)
    ensures OutsideAfter(w, [], [], []) == w
  {
    assert w.open + [] == w.open && w.trace + [] == w.trace && w.stored + [] == w.stored;
  }

  lemma OutsideAfterBoth(w: World, e1: seq<Event>, h1: seq<int>, d1: seq<int>, e2: seq<Event>, h2: seq<int>,
                         d2: seq<int>)
    ensures OutsideAfter(OutsideAfter(w, e1, h1, d1), e2, h2, d2) == OutsideAfter(w, e1 + e2, h1 + h2, d1 + d2)
  {
    Associative(w.trace, e1, e2);
    Associative(w.open, h1, h2);
    Associative(w.stored, d1, d2);
  }

  function HeldIn(p: Program, w: World): seq<int> {
    if w.inTransaction then WritesHeld(p) else []
  }

  /** Outside any scope, running a program is what its reference meaning says. */
  lemma {:induction false} UnscopedBody(p: Program, w: World)
    requires !w.inScope
    ensures Exec(p, w) == (EndsWell(p), OutsideAfter(w, Happens(p), HeldIn(p, w), WritesStored(p, w.inTransaction)))
  {
    OutsideAfterNothing(w);
    match p
    case Then(a, b) =>
      UnscopedBody(a, w);
      var w1 := Exec(a, w).1;
      if EndsWell(a) {
        UnscopedBody(b, w1);
        UnscopedThen(a, b, w);
      } else {
        assert Happens(a) + [] == Happens(a) && WritesHeld(a) + [] == WritesHeld(a);
        assert WritesStored(a, w.inTransaction) + [] == WritesStored(a, w.inTransaction);
      }
    case Catch(body) => UnscopedBody(body, w);
    case Transaction(body, commit) => UnscopedTransaction(body, commit, w);
    case Begin(body, commit) =>
      UnscopedBody(body, w.(open := [], inTransaction := true));
      UnscopedBegin(body, commit, w);
    case _ =>
  }

  lemma UnscopedThen(a: Program, b: Program, w: World)
    requires EndsWell(a)
    ensures var held := w.inTransaction;
            var w1 := OutsideAfter(w, Happens(a), HeldIn(a, w), WritesStored(a, held));
            OutsideAfter(w1, Happens(b), HeldIn(b, w1), WritesStored(b, held)) ==
              OutsideAfter(w, Happens(Then(a, b)), HeldIn(Then(a, b), w), WritesStored(Then(a, b), held))
  {
    var held := w.inTransaction;
    OutsideAfterBoth(w, Happens(a), HeldIn(a, w), WritesStored(a, held), Happens(b), HeldIn(b, w),
                     WritesStored(b, held));
    assert !held ==> HeldIn(a, w) + HeldIn(b, w) == [];
  }

  lemma BlockFollows(trace: seq<Event>, body: Program, commit: Commit)
    ensures var end := EndOf(Completes(body), commit);
            var effects := if end == Committed then CommitEffectsOf(Deferrals(body))
                           else Reversed(RollbackEffectsOf(Deferrals(body)));
            trace + Block(body, commit) == trace + [Opened] + Deferrals(body) + [end] + Rans(effects)
  {
    var end := EndOf(Completes(body), commit);
    var effects := if end == Committed then CommitEffectsOf(Deferrals(body))
                   else Reversed(RollbackEffectsOf(Deferrals(body)));
    FiveTogether(trace, [Opened], Deferrals(body), [end], Rans(effects));
    Associative([Opened], Deferrals(body), [end]);
    Associative([Opened] + Deferrals(body), [end], Rans(effects));
    Associative([Opened], Deferrals(body), [end] + Rans(effects));
  }

  lemma UnscopedTransaction(body: Program, commit: Commit, w: World)
    requires !w.inScope
    ensures var p := Transaction(body, commit);
            Exec(p, w) == (EndsWell(p), OutsideAfter(w, Happens(p), [], WritesStored(p, w.inTransaction)))
  {
    BlockFollows(w.trace, body, commit);
    assert w.open + [] == w.open && w.stored + [] == w.stored;
    if !Completes(body) || commit.Refused? {
      OutermostAborts(body, commit, w);
    } else if commit.Answered? {
      OutermostCommits(body, w);
    } else {
      OutermostUnanswered(body, w);
    }
  }

  lemma UnscopedBegin(body: Program, commit: Commit, w: World)
    requires !w.inScope
    requires var inside := w.(open := [], inTransaction := true);
             Exec(body, inside) ==
               (EndsWell(body), OutsideAfter(inside, Happens(body), WritesHeld(body), WritesStored(body, true)))
    ensures var p := Begin(body, commit);
            Exec(p, w) == (EndsWell(p), OutsideAfter(w, Happens(p), [], WritesStored(p, w.inTransaction)))
  {
    BeginIs(body, commit, w);
    assert [] + WritesHeld(body) == WritesHeld(body) && w.open + [] == w.open;
    var during := WritesStored(body, true);
    assert during + [] == during;
    Associative(w.stored, during, WritesHeld(body));
  }

  /** The effects that a program outside any scope reaches outside its transactions. */
  function ReachedAtOnce(p: Program): seq<Effect> {
    match p
    case AfterCommit(e) => [e]
    case Then(a, b) => ReachedAtOnce(a) + if EndsWell(a) then ReachedAtOnce(b) else []
    case Catch(body) => ReachedAtOnce(body)
    case Begin(body, _) => ReachedAtOnce(body)
    case _ => []
  }

  function AtOnce(events: seq<Event>): seq<Effect> {
    if events == [] then []
    else (if events[0].RanAtOnce? then [events[0].effect] else []) + AtOnce(events[1..])
  }

  lemma {:induction false} AtOnceConcat(a: seq<Event>, b: seq<Event>)
    ensures AtOnce(a + b) == AtOnce(a) + AtOnce(b)
  {
    if a == [] {
      assert a + b == b;
    } else {
      assert (a + b)[1..] == a[1..] + b;
      AtOnceConcat(a[1..], b);
      Associative(if a[0].RanAtOnce? then [a[0].effect] else [], AtOnce(a[1..]), AtOnce(b));
    }
  }

  lemma {:induction false} NoneAtOnce(events: seq<Event>)
    requires forall i :: 0 <= i < |events| ==> !events[i].RanAtOnce?
    ensures AtOnce(events) == []
  {
    if events != [] {
      NoneAtOnce(events[1..]);
    }
  }

  lemma {:induction false} RansAreDeferred(effects: seq<Effect>)
    ensures forall i :: 0 <= i < |Rans(effects)| ==> Rans(effects)[i].Ran?
  {
    if effects != [] {
      RansAreDeferred(effects[1..]);
    }
  }

  lemma BlockRunsNoneAtOnce(body: Program, commit: Commit)
    ensures AtOnce(Block(body, commit)) == []
  {
    DeferralsOnly(body);
    var end := EndOf(Completes(body), commit);
    var effects := if end == Committed then CommitEffectsOf(Deferrals(body))
                   else Reversed(RollbackEffectsOf(Deferrals(body)));
    RansAreDeferred(effects);
    NoneAtOnce(Rans(effects));
    NoneAtOnce([Opened]);
    NoneAtOnce([end]);
    NoneAtOnce(Deferrals(body));
    AtOnceConcat([Opened], Deferrals(body));
    AtOnceConcat([Opened] + Deferrals(body), [end]);
    AtOnceConcat([Opened] + Deferrals(body) + [end], Rans(effects));
  }

  lemma {:induction false} HappensAtOnce(p: Program)
    ensures AtOnce(Happens(p)) == ReachedAtOnce(p)
  {
    match p
    case AfterCommit(e) => assert [RanAtOnce(e)][1..] == [];
    case Then(a, b) =>
      HappensAtOnce(a);
      HappensAtOnce(b);
      AtOnceConcat(Happens(a), if EndsWell(a) then Happens(b) else []);
    case Catch(body) => HappensAtOnce(body);
    case Transaction(body, commit) => BlockRunsNoneAtOnce(body, commit);
    case Begin(body, _) => HappensAtOnce(body);
    case _ =>
  }

  /** Each effect registered outside any scope runs at once, in program order, and no other. */
  lemma UnscopedEffectsRunAtOnce(p: Program, w: World)
    requires !w.inScope
    ensures AtOnce(Exec(p, w).1.trace) == AtOnce(w.trace) + ReachedAtOnce(p)
  {
    UnscopedBody(p, w);
    AtOnceConcat(w.trace, Happens(p));
    HappensAtOnce(p);
  }

  predicate CatchFree(p: Program) {
    match p
    case Then(a, b) => CatchFree(a) && CatchFree(b)
    case Catch(_) => false
    case Transaction(body, _) => CatchFree(body)
    case Begin(body, _) => CatchFree(body)
    case _ => true
  }

  /** If one of them fails, the program throws, unless it catches, and reaches no other. */
  lemma {:induction false} FailedEffectThrows(p: Program, w: World)
    requires !w.inScope && CatchFree(p)
    ensures Exec(p, w).0 ==> AllOk(ReachedAtOnce(p))
    ensures forall i :: 0 <= i < |ReachedAtOnce(p)| - 1 ==> ReachedAtOnce(p)[i].ok
  {
    UnscopedBody(p, w);
    match p
    case Then(a, b) =>
      FailedEffectThrows(a, w);
      UnscopedBody(a, w);
      if EndsWell(a) {
        FailedEffectThrows(b, Exec(a, w).1);
        UnscopedBody(b, Exec(a, w).1);
      }
    case Begin(body, _) =>
      FailedEffectThrows(body, w);
      UnscopedBody(body, w);
    case _ =>
  }

  // ---------------------------------------------------------------- the client

  lemma {:induction false} RansConcat(a: seq<Effect>, e: Effect)
    ensures Rans(a + [e]) == Rans(a) + [Ran(e)]
  {
    if a != [] {
      assert (a + [e])[1..] == a[1..] + [e];
      RansConcat(a[1..], e);
    }
  }

  lemma {:induction false} ReversedAt(effects: seq<Effect>, k: nat)
    requires k < |effects|
    ensures |Reversed(effects)| == |effects| && Reversed(effects)[k] == effects[|effects| - 1 - k]
  {
    if |effects| > 1 {
      ReversedAt(effects[1..], if k < |effects| - 1 then k else 0);
    }
  }

  /** The module's state: the connection and the effect arrays of the current scope. */
  class Client {
    var stored: seq<int>
    var open: seq<int>
    var inTransaction: bool
    var inScope: bool
    var commitEffects: seq<Effect>
    var rollbackEffects: seq<Effect>
    var trace: seq<Event>

    constructor ()
      ensures Snapshot() == World([], [], false, false, [], [], [])
    {
      stored, open, inTransaction, inScope := [], [], false, false;
      commitEffects, rollbackEffects, trace := [], [], [];
    }

    ghost function Snapshot(): World
      reads this
    {
      World(stored, open, inTransaction, inScope, commitEffects, rollbackEffects, trace)
    }

    method RunEffect(e: Effect) returns (ok: bool)
      modifies this`trace
      ensures ok == e.ok && trace == old(trace) + [Ran(e)]
    {
      trace := trace + [Ran(e)];
      ok := e.ok;
    }

    /** The loop after a commit: a failure is kept for later and skips nothing. */
    method RunCommitEffects(effects: seq<Effect>) returns (failures: seq<Effect>)
      modifies this`trace
      ensures trace == old(trace) + Rans(effects)
      ensures failures == [] <==> AllOk(effects)
    {
      failures := [];
      var k := 0;
      while k < |effects|
        invariant 0 <= k <= |effects|
        invariant trace == old(trace) + Rans(effects[..k])
        invariant failures == [] <==> AllOk(effects[..k])
      {
        var ok := RunEffect(effects[k]);
        if !ok {
          failures := failures + [effects[k]];
        }
        assert effects[..k + 1] == effects[..k] + [effects[k]];
        RansConcat(effects[..k], effects[k]);
        k := k + 1;
      }
      assert effects[..k] == effects;
    }

    /** The loop after an abort: last registered first, failures only logged. */
    method RunRollbackEffects(cleanup: seq<Effect>)
      modifies this`trace
      ensures trace == old(trace) + Rans(Reversed(cleanup))
    {
      if cleanup != [] {
        ReversedAt(cleanup, 0);
      }
      ghost var order := Reversed(cleanup);
      var k := |cleanup|;
      while k > 0
        invariant 0 <= k <= |cleanup| == |order|
        invariant trace == old(trace) + Rans(order[..|cleanup| - k])
      {
        k := k - 1;
        var _ := RunEffect(cleanup[k]);
        ghost var n := |cleanup| - 1 - k;
        ReversedAt(cleanup, n);
        assert order[..n + 1] == order[..n] + [cleanup[k]];
        RansConcat(order[..n], cleanup[k]);
      }
      assert order[..|order|] == order;
    }

    /** After the body of an outermost transaction: settle, then drain the effects. */
    method Settle(end: Event, outerOpen: seq<int>, outerIn: bool, outerCommit: seq<Effect>, outerRollback: seq<Effect>)
      returns (ok: bool)
      requires IsEnd(end)
      modifies this
      ensures var w := old(Snapshot());
              var outer := World(w.stored, outerOpen, outerIn, false, outerCommit, outerRollback, w.trace);
              && Snapshot() == LeaveScope(outer, w, end)
              && (ok <==> end == Committed && AllOk(w.commitEffects))
    {
      var effects, cleanup, written := commitEffects, rollbackEffects, open;
      open, inTransaction, inScope := outerOpen, outerIn, false;
      commitEffects, rollbackEffects := outerCommit, outerRollback;
      trace := trace + [end];
      if end != Aborted {
        stored := stored + written;
      }
      if end != Committed {
        RunRollbackEffects(cleanup);
        return false;
      }
      var failures := RunCommitEffects(effects);
      ok := failures == [];
    }

    method WithDatabaseTransaction(body: Program, commit: Commit) returns (ok: bool)
      modifies this
      ensures (ok, Snapshot()) == Exec(Transaction(body, commit), old(Snapshot()))
      decreases body, 1
    {
      if inScope {
        ok := Execute(body);
        return;
      }
      var outerOpen, outerIn, outerCommit, outerRollback := open, inTransaction, commitEffects, rollbackEffects;
      open, inTransaction, inScope, commitEffects, rollbackEffects := [], true, true, [], [];
      trace := trace + [Opened];
      assert Snapshot() == EnterScope(old(Snapshot()));
      var completed := Execute(body);
      OutermostIs(body, commit, old(Snapshot()));
      ok := Settle(EndOf(completed, commit), outerOpen, outerIn, outerCommit, outerRollback);
    }

    /** begin, which the proxy turns into a savepoint of the scope's transaction. */
    method BeginProxied(body: Program, commit: Commit) returns (ok: bool)
      modifies this
      ensures (ok, Snapshot()) == Exec(Begin(body, commit), old(Snapshot()))
      decreases body, 1
    {
      var outerOpen, outerIn := open, inTransaction;
      open, inTransaction := [], true;
      var scoped := inScope;
      BeginIs(body, commit, old(Snapshot()));
      ok := Execute(body);
      if scoped {
        ScopedKeepsHandle(body, old(Snapshot()).(open := [], inTransaction := true));
      }
      ok := SettleBegin(ok, commit, scoped, outerOpen, outerIn);
    }

    /** After the body of a begin. */
    method SettleBegin(completed: bool, commit: Commit, scoped: bool, outerOpen: seq<int>, outerIn: bool)
      returns (ok: bool)
      modifies this
      ensures forall before: World ::
                before.inScope == scoped && before.open == outerOpen && before.inTransaction == outerIn ==>
                (ok, Snapshot()) == LeaveBegin(before, old(Snapshot()), completed, commit)
    {
      ok := completed;
      if scoped {
        open := if ok then outerOpen + open else outerOpen;
      } else {
        var end := EndOf(ok, commit);
        if end != Aborted {
          stored := stored + open;
        }
        ok := end == Committed;
        open, inTransaction := outerOpen, outerIn;
      }
    }

    method Execute(p: Program) returns (ok: bool)
      modifies this
      ensures (ok, Snapshot()) == Exec(p, old(Snapshot()))
      decreases p, 0
    {
      ok := true;
      match p
      case Skip =>
      case Throw => ok := false;
      case Write(v) =>
        if inTransaction { open := open + [v]; } else { stored := stored + [v]; }
      case AfterCommit(e) =>
        if inScope {
          commitEffects, trace := commitEffects + [e], trace + [DeferredCommit(e)];
        } else {
          trace, ok := trace + [RanAtOnce(e)], e.ok;
        }
      case AfterRollback(e) =>
        if inScope {
          rollbackEffects, trace := rollbackEffects + [e], trace + [DeferredRollback(e)];
        }
      case Then(a, b) =>
        ok := Execute(a);
        if ok {
          ok := Execute(b);
        }
      case Catch(body) =>
        var _ := Execute(body);
      case Transaction(body, commit) => ok := WithDatabaseTransaction(body, commit);
      case Begin(body, commit) => ok := BeginProxied(body, commit);
    }
  }

  lemma ScopedKeepsHandle(p: Program, w: World)
    requires w.inScope && w.inTransaction
    ensures Exec(p, w).1.inScope && Exec(p, w).1.inTransaction
  {
    ScopedBody(p, w);
  }
}
