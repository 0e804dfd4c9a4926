/** Crashes and resumption of the archive scan. The catalogue is saved before the checkpoint
    is renamed into place, so a crash between the two leaves a catalogue that is one answer
    ahead of the checkpoint; resuming must then merge that answer a second time. */
module ScanRecovery {
  import opened Results
  import opened ArchiveScan

  /** local stands for the fields that a scan never touches (stored path, hash). */
  datatype Paper = Paper(id: string, url: string, title: string, local: Option<string>)

  datatype Found = Found(reply: Reply, papers: seq<Paper>)

  // ---------------------------------------------------------------- catalogue merge

  function IndexOf(catalogue: seq<Paper>, id: string): (i: nat)
    ensures i <= |catalogue|
    ensures i < |catalogue| ==> catalogue[i].id == id
    ensures forall j :: 0 <= j < i ==> catalogue[j].id != id
  {
    if catalogue == [] || catalogue[0].id == id then 0 else 1 + IndexOf(catalogue[1..], id)
  }

  function MergeOne(catalogue: seq<Paper>, p: Paper): seq<Paper> {
    var i := IndexOf(catalogue, p.id);
    if i < |catalogue| then catalogue[i := catalogue[i].(url := p.url, title := p.title)]
    else catalogue + [p]
  }

  function MergeAll(catalogue: seq<Paper>, found: seq<Paper>): seq<Paper> {
    if found == [] then catalogue
    else MergeOne(MergeAll(catalogue, found[..|found| - 1]), found[|found| - 1])
  }

  ghost predicate UniqueIds(catalogue: seq<Paper>) {
    forall i, j :: 0 <= i < j < |catalogue| ==> catalogue[i].id != catalogue[j].id
  }

  function LastOf(found: seq<Paper>, id: string): Option<Paper> {
    if found == [] then None
    else if found[|found| - 1].id == id then Some(found[|found| - 1])
    else LastOf(found[..|found| - 1], id)
  }

  /** The entry that a merge leaves for an entry that was already there. */
  function Refreshed(p: Paper, found: seq<Paper>): Paper {
    match LastOf(found, p.id)
    case None => p
    case Some(last) => p.(url := last.url, title := last.title)
  }

  lemma IndexOfUnique(catalogue: seq<Paper>, i: nat)
    requires UniqueIds(catalogue) && i < |catalogue|
    ensures IndexOf(catalogue, catalogue[i].id) == i
  {
  }

  lemma MergeOneRefreshes(catalogue: seq<Paper>, p: Paper)
    requires UniqueIds(catalogue)
    ensures var merged := MergeOne(catalogue, p);
            && UniqueIds(merged)
            && |catalogue| <= |merged|
            && (forall i :: 0 <= i < |catalogue| ==> merged[i].id == catalogue[i].id)
            && (forall i :: 0 <= i < |catalogue| ==> merged[i] == Refreshed(catalogue[i], [p]))
            && (forall i :: |catalogue| <= i < |merged| ==> merged[i] == p)
            && (exists i :: 0 <= i < |merged| && merged[i].id == p.id)
  {
    var merged := MergeOne(catalogue, p);
    var k := IndexOf(catalogue, p.id);
    assert merged[k].id == p.id;
    forall i | 0 <= i < |catalogue|
      ensures merged[i] == Refreshed(catalogue[i], [p])
    {
      assert LastOf([p], catalogue[i].id) == if catalogue[i].id == p.id then Some(p) else None;
      IndexOfUnique(catalogue, i);
    }
  }

  lemma RefreshedTwice(q: Paper, found: seq<Paper>)
    requires found != []
    ensures Refreshed(q, found) == Refreshed(Refreshed(q, found[..|found| - 1]), [found[|found| - 1]])
  {
    var p := found[|found| - 1];
    assert LastOf([p], q.id) == if q.id == p.id then Some(p) else None;
  }

  /** What a merge does: old entries stay in place, refreshed by the last find of their id;
      every other id found gets one new entry, with the link it was last found with. */
  ghost predicate MergesInto(catalogue: seq<Paper>, found: seq<Paper>, merged: seq<Paper>) {
    && UniqueIds(merged)
    && |catalogue| <= |merged|
    && (forall i :: 0 <= i < |catalogue| ==> merged[i] == Refreshed(catalogue[i], found))
    && (forall i :: |catalogue| <= i < |merged| ==> merged[i] == Refreshed(merged[i], found))
    && (forall i :: |catalogue| <= i < |merged| ==> LastOf(found, merged[i].id).Some?)
    && (forall id :: LastOf(found, id).Some? ==> IndexOf(merged, id) < |merged|)
  }

  lemma {:induction false} MergeAllRefreshes(catalogue: seq<Paper>, found: seq<Paper>)
    requires UniqueIds(catalogue)
    ensures MergesInto(catalogue, found, MergeAll(catalogue, found))
  {
    if found != [] {
      var before, p := found[..|found| - 1], found[|found| - 1];
      MergeAllRefreshes(catalogue, before);
      MergeStep(catalogue, found, MergeAll(catalogue, before));
    }
  }

  lemma MergeStep(catalogue: seq<Paper>, found: seq<Paper>, mid: seq<Paper>)
    requires found != [] && MergesInto(catalogue, found[..|found| - 1], mid)
    ensures MergesInto(catalogue, found, MergeOne(mid, found[|found| - 1]))
  {
    var before, p := found[..|found| - 1], found[|found| - 1];
    var merged := MergeOne(mid, p);
    MergeOneRefreshes(mid, p);
    forall i | 0 <= i < |merged|
      ensures i < |catalogue| ==> merged[i] == Refreshed(catalogue[i], found)
      ensures |catalogue| <= i ==> merged[i] == Refreshed(merged[i], found) && LastOf(found, merged[i].id).Some?
    {
      if i < |mid| {
        RefreshedTwice(if i < |catalogue| then catalogue[i] else mid[i], found);
      }
    }
    forall id | LastOf(found, id).Some?
      ensures IndexOf(merged, id) < |merged|
    {
      if id != p.id {
        var j := IndexOf(mid, id);
        assert merged[j].id == id;
      }
    }
  }

  /** Merging the same answer twice is merging it once. */
  lemma MergeIsIdempotent(catalogue: seq<Paper>, found: seq<Paper>)
    requires UniqueIds(catalogue)
    ensures MergeAll(MergeAll(catalogue, found), found) == MergeAll(catalogue, found)
  {
    var once := MergeAll(catalogue, found);
    var twice := MergeAll(once, found);
    MergeAllRefreshes(catalogue, found);
    MergeAllRefreshes(once, found);
    forall i | 0 <= i < |once|
      ensures twice[i] == once[i]
    {
      assert once[i] == Refreshed(once[i], found);
    }
    if |once| < |twice| {
      IndexOfUnique(twice, IndexOf(once, twice[|once|].id));
      assert false;
    }
  }

  /** byId holds every id of the catalogue with its place, and nothing else. */
  ghost predicate Indexes(byId: map<string, nat>, catalogue: seq<Paper>) {
    && (forall i :: 0 <= i < |catalogue| ==> catalogue[i].id in byId && byId[catalogue[i].id] == i)
    && (forall id :: id in byId ==> byId[id] < |catalogue| && catalogue[byId[id]].id == id)
  }

  lemma MergeByIndex(catalogue: seq<Paper>, byId: map<string, nat>, p: Paper)
    requires UniqueIds(catalogue) && Indexes(byId, catalogue)
    ensures UniqueIds(MergeOne(catalogue, p))
    ensures p.id in byId ==>
              && MergeOne(catalogue, p) ==
                  catalogue[byId[p.id] := catalogue[byId[p.id]].(url := p.url, title := p.title)]
              && Indexes(byId, MergeOne(catalogue, p))
    ensures p.id !in byId ==>
              && MergeOne(catalogue, p) == catalogue + [p]
              && Indexes(byId[p.id := |catalogue|], MergeOne(catalogue, p))
  {
    MergeOneRefreshes(catalogue, p);
    if p.id in byId {
      IndexOfUnique(catalogue, byId[p.id]);
    }
  }

  function ById(catalogue: seq<Paper>): (byId: map<string, nat>)
    requires UniqueIds(catalogue)
    ensures Indexes(byId, catalogue)
  {
    var byId := map i: nat | i < |catalogue| :: catalogue[i].id := i;
    assert forall i: nat :: i < |catalogue| ==> catalogue[i].id in byId;
    assert forall i: nat :: i < |catalogue| ==> catalogue[byId[catalogue[i].id]].id == catalogue[i].id;
    byId
  }

  lemma MergeNext(catalogue: seq<Paper>, found: seq<Paper>, k: nat)
    requires k < |found|
    ensures MergeAll(catalogue, found[..k + 1]) == MergeOne(MergeAll(catalogue, found[..k]), found[k])
  {
    assert found[..k + 1][..k] == found[..k];
  }

  /** The loop over an answer's papers, with the byId map in place of a search. */
  method MergeFound(catalogue: seq<Paper>, found: seq<Paper>) returns (merged: seq<Paper>)
    requires UniqueIds(catalogue)
    ensures merged == MergeAll(catalogue, found)
  {
    merged := catalogue;
    var byId: map<string, nat> := ById(catalogue);
    var k := 0;
    while k < |found|
      invariant 0 <= k <= |found|
      invariant merged == MergeAll(catalogue, found[..k])
      invariant UniqueIds(merged) && Indexes(byId, merged)
    {
      var p := found[k];
      MergeByIndex(merged, byId, p);
      MergeNext(catalogue, found, k);
      if p.id in byId {
        var i := byId[p.id];
        merged := merged[i := merged[i].(url := p.url, title := p.title)];
      } else {
        byId := byId[p.id := |merged|];
        merged := merged + [p];
      }
      k := k + 1;
    }
    assert found[..k] == found;
  }

  // ---------------------------------------------------------------- the uninterrupted scan

  datatype Progress = Progress(st: ScanState, papers: seq<Paper>)

  /** One turn of the loop, with what the archive answers; None when the scan is over or throws. */
  function TurnWith(p: Progress, found: Found): Option<Progress> {
    if p.st.pending == [] || !ValidReply(found.reply) then None
    else
      var next := Advance(p.st, found.reply);
      if next.None? then None
      else Some(Progress(next.value, if found.reply.limited then p.papers else MergeAll(p.papers, found.papers)))
  }

  /** A turn against an archive that answers the same search always alike. */
  function Turn(ask: Slice -> Found, p: Progress): Option<Progress> {
    if p.st.pending == [] then None else TurnWith(p, ask(p.st.pending[0]))
  }

  lemma TurnSpendsBudget(ask: Slice -> Found, p: Progress)
    requires Turn(ask, p).Some?
    ensures TotalBudget(Turn(ask, p).value.st.pending) < TotalBudget(p.st.pending)
  {
    AdvanceSpendsBudget(p.st, ask(p.st.pending[0]).reply);
  }

  /** Where a scan that is never interrupted ends; None when it throws. */
  function Finish(ask: Slice -> Found, p: Progress): Option<Progress>
    decreases TotalBudget(p.st.pending)
  {
    if p.st.pending == [] then Some(p)
    else
      var next := Turn(ask, p);
      if next.None? then None
      else
        TurnSpendsBudget(ask, p);
        Finish(ask, next.value)
  }

  // ---------------------------------------------------------------- processes that crash

  datatype Disk = Disk(checkpoint: Option<ScanState>, papers: seq<Paper>)

  datatype Phase = Ready | Advanced | CatalogueSaved

  datatype Process = Stopped | Running(now: Progress, phase: Phase)

  datatype System = System(disk: Disk, process: Process)

  /** Crash may come at any point; a throw is a crash too. */
  datatype Action = Start | Search(found: Found) | SaveCatalogue | RenameCheckpoint | Crash

  predicate Searching(s: System) {
    s.process.Running? && s.process.phase.Ready? && s.process.now.st.pending != []
  }

  function Do(root: Slice, s: System, a: Action): System {
    match a
    case Crash => s.(process := Stopped)
    case Start =>
      if !s.process.Stopped? then s
      else
        var st := if s.disk.checkpoint.Some? then s.disk.checkpoint.value else InitialState(root);
        s.(process := Running(Progress(st, s.disk.papers), Ready))
    case Search(found) =>
      if !Searching(s) then s
      else
        var next := TurnWith(s.process.now, found);
        s.(process := if next.None? then Stopped else Running(next.value, Advanced))
    case SaveCatalogue =>
      if s.process.Stopped? || !s.process.phase.Advanced? then s
      else System(s.disk.(papers := s.process.now.papers), s.process.(phase := CatalogueSaved))
    case RenameCheckpoint =>
      if s.process.Stopped? || !s.process.phase.CatalogueSaved? then s
      else System(s.disk.(checkpoint := Some(s.process.now.st)), s.process.(phase := Ready))
  }

  function Run(root: Slice, s: System, actions: seq<Action>): System {
    if actions == [] then s
    else Do(root, Run(root, s, actions[..|actions| - 1]), actions[|actions| - 1])
  }

  function Fresh(papers: seq<Paper>): System {
    System(Disk(None, papers), Stopped)
  }

  /** Every answer of a run is the one that ask gives. */
  ghost predicate Answers(ask: Slice -> Found, root: Slice, s: System, actions: seq<Action>) {
    actions != [] ==>
      && Answers(ask, root, s, actions[..|actions| - 1])
      && AnswersNext(ask, Run(root, s, actions[..|actions| - 1]), actions[|actions| - 1])
  }

  ghost predicate AnswersNext(ask: Slice -> Found, s: System, a: Action) {
    a.Search? && Searching(s) ==> a.found == ask(s.process.now.st.pending[0])
  }

  /** Every answer of a run is one that the archive may give. */
  ghost predicate FaithfulRun(archive: seq<Row>, root: Slice, s: System, actions: seq<Action>) {
    actions != [] ==>
      && FaithfulRun(archive, root, s, actions[..|actions| - 1])
      && FaithfulNext(archive, Run(root, s, actions[..|actions| - 1]), actions[|actions| - 1])
  }

  ghost predicate FaithfulNext(archive: seq<Row>, s: System, a: Action) {
    a.Search? && Searching(s) ==> Faithful(archive, s.process.now.st.pending[0], a.found.reply)
  }

  /** The catalogue is that of the checkpointed progress, or one answer ahead of it. */
  ghost predicate AtOrAhead(ask: Slice -> Found, at: Progress, papers: seq<Paper>) {
    papers == at.papers || (Turn(ask, at).Some? && papers == Turn(ask, at).value.papers)
  }

  /** at is the uninterrupted scan's progress when it wrote the same checkpoint. */
  ghost predicate InStep(ask: Slice -> Found, root: Slice, initial: Progress, s: System, at: Progress) {
    && UniqueIds(at.papers)
    && Finish(ask, initial) == Finish(ask, at)
    && (if s.disk.checkpoint.None? then at == initial else at.st == s.disk.checkpoint.value)
    && AtOrAhead(ask, at, s.disk.papers)
    && match s.process
       case Stopped => true
       case Running(now, Ready) => now.st == at.st && AtOrAhead(ask, at, now.papers)
       case Running(now, Advanced) => Turn(ask, at) == Some(now)
       case Running(now, CatalogueSaved) => Turn(ask, at) == Some(now) && s.disk.papers == now.papers
  }

  /** Repeating the turn of a checkpoint, with or without its papers already merged. */
  lemma TurnAgain(ask: Slice -> Found, at: Progress, papers: seq<Paper>)
    requires UniqueIds(at.papers) && AtOrAhead(ask, at, papers)
    ensures Turn(ask, at.(papers := papers)) == Turn(ask, at)
    ensures Turn(ask, at).Some? ==> UniqueIds(Turn(ask, at).value.papers)
  {
    if at.st.pending != [] {
      var found := ask(at.st.pending[0]).papers;
      MergeIsIdempotent(at.papers, found);
      MergeAllRefreshes(at.papers, found);
    }
  }

  lemma DoKeepsStep(ask: Slice -> Found, root: Slice, initial: Progress, s: System, at: Progress, a: Action)
    returns (at': Progress)
    requires initial.st == InitialState(root)
    requires InStep(ask, root, initial, s, at) && AnswersNext(ask, s, a)
    ensures InStep(ask, root, initial, Do(root, s, a), at')
  {
    at' := at;
    if a.Search? && s.process.Running? {
      TurnAgain(ask, at, s.process.now.papers);
    }
    if a.RenameCheckpoint? && s.process.Running? && s.process.phase.CatalogueSaved? {
      TurnAgain(ask, at, at.papers);
      at' := s.process.now;
    }
  }

  lemma {:induction false} RunKeepsStep(ask: Slice -> Found, root: Slice, papers: seq<Paper>, actions: seq<Action>)
    returns (at: Progress)
    requires UniqueIds(papers) && Answers(ask, root, Fresh(papers), actions)
    ensures InStep(ask, root, Progress(InitialState(root), papers), Run(root, Fresh(papers), actions), at)
  {
    var initial := Progress(InitialState(root), papers);
    if actions == [] {
      at := initial;
    } else {
      var before := actions[..|actions| - 1];
      at := RunKeepsStep(ask, root, papers, before);
      at := DoKeepsStep(ask, root, initial, Run(root, Fresh(papers), before), at, actions[|actions| - 1]);
    }
  }

  predicate Scanned(s: System) {
    s.process.Running? && s.process.phase.Ready? && s.process.now.st.pending == []
  }

  /** However often the process crashes and is started again, wherever it crashes, a scan that
      empties its worklist ends with the rows, the expected count, the request count and the
      catalogue of the uninterrupted scan, if the archive answers a search alike each time it is
      asked; what holds if it does not is in ScanCatalogue. */
  lemma InterruptionsChangeNothing(ask: Slice -> Found, root: Slice, papers: seq<Paper>, actions: seq<Action>)
    requires UniqueIds(papers) && Answers(ask, root, Fresh(papers), actions)
    ensures var s := Run(root, Fresh(papers), actions);
            Scanned(s) ==> Finish(ask, Progress(InitialState(root), papers)) == Some(s.process.now)
  {
    var at := RunKeepsStep(ask, root, papers, actions);
    TurnAgain(ask, at, at.papers);
  }

  // ---------------------------------------------------------------- a scan can always be finished

  /** A process between turns, with the progress that at is. */
  ghost predicate BetweenTurns(s: System, at: Progress) {
    s.process.Running? && s.process.phase.Ready? && s.process.now.st == at.st
  }

  /** The scan is over: process and disk have all of it. */
  ghost predicate EndedAt(s: System, p: Progress) {
    Scanned(s) && s.process.now == p && s.disk == Disk(Some(p.st), p.papers)
  }

  lemma AnswersOne(ask: Slice -> Found, root: Slice, s: System, actions: seq<Action>, a: Action)
    requires Answers(ask, root, s, actions) && AnswersNext(ask, Run(root, s, actions), a)
    ensures Answers(ask, root, s, actions + [a])
    ensures Run(root, s, actions + [a]) == Do(root, Run(root, s, actions), a)
  {
    assert (actions + [a])[..|actions|] == actions;
  }

  /** The steps of one turn, all of which are taken. */
  lemma TurnSteps(root: Slice, s: System, found: Found)
    requires Searching(s) && TurnWith(s.process.now, found).Some?
    ensures var next := TurnWith(s.process.now, found).value;
            Do(root, Do(root, Do(root, s, Search(found)), SaveCatalogue), RenameCheckpoint) ==
              System(Disk(Some(next.st), next.papers), Running(next, Ready))
  {
  }

  lemma AnswersTurn(ask: Slice -> Found, root: Slice, s: System, actions: seq<Action>, found: Found)
    requires Answers(ask, root, s, actions) && AnswersNext(ask, Run(root, s, actions), Search(found))
    ensures var more := actions + [Search(found)] + [SaveCatalogue] + [RenameCheckpoint];
            && Answers(ask, root, s, more)
            && Run(root, s, more) ==
                 Do(root, Do(root, Do(root, Run(root, s, actions), Search(found)), SaveCatalogue), RenameCheckpoint)
  {
    AnswersOne(ask, root, s, actions, Search(found));
    AnswersOne(ask, root, s, actions + [Search(found)], SaveCatalogue);
    AnswersOne(ask, root, s, actions + [Search(found)] + [SaveCatalogue], RenameCheckpoint);
  }

  lemma OneTurn(ask: Slice -> Found, root: Slice, papers: seq<Paper>, actions: seq<Action>, at: Progress)
    returns (more: seq<Action>)
    requires Answers(ask, root, Fresh(papers), actions)
    requires var s := Run(root, Fresh(papers), actions);
             InStep(ask, root, Progress(InitialState(root), papers), s, at) && BetweenTurns(s, at)
    requires Turn(ask, at).Some?
    ensures actions < more && Answers(ask, root, Fresh(papers), more)
    ensures var next, t := Turn(ask, at).value, Run(root, Fresh(papers), more);
            && InStep(ask, root, Progress(InitialState(root), papers), t, next) && BetweenTurns(t, next)
            && t.process.now == next && t.disk == Disk(Some(next.st), next.papers)
  {
    var s := Run(root, Fresh(papers), actions);
    var found := ask(at.st.pending[0]);
    TurnAgain(ask, at, s.process.now.papers);
    AnswersTurn(ask, root, Fresh(papers), actions, found);
    TurnSteps(root, s, found);
    more := actions + [Search(found)] + [SaveCatalogue] + [RenameCheckpoint];
    TurnAgain(ask, at, at.papers);
  }

  lemma {:induction false} TurnsEnd(ask: Slice -> Found, root: Slice, papers: seq<Paper>, actions: seq<Action>,
                                    at: Progress, p: Progress)
    returns (more: seq<Action>)
    requires Answers(ask, root, Fresh(papers), actions) && Finish(ask, at) == Some(p)
    requires var s := Run(root, Fresh(papers), actions);
             InStep(ask, root, Progress(InitialState(root), papers), s, at) && BetweenTurns(s, at)
    ensures actions <= more && Answers(ask, root, Fresh(papers), more)
    ensures EndedAt(Run(root, Fresh(papers), more), p)
    decreases TotalBudget(at.st.pending)
  {
    if at.st.pending == [] {
      more := actions;
    } else {
      TurnSpendsBudget(ask, at);
      more := OneTurn(ask, root, papers, actions, at);
      more := TurnsEnd(ask, root, papers, more, Turn(ask, at).value, p);
    }
  }

  lemma Restarted(ask: Slice -> Found, root: Slice, papers: seq<Paper>, actions: seq<Action>)
    requires Answers(ask, root, Fresh(papers), actions)
    ensures var more, t := actions + [Crash] + [Start], Run(root, Fresh(papers), actions + [Crash] + [Start]);
            Answers(ask, root, Fresh(papers), more) && t.process.Running? && t.process.phase.Ready?
  {
    AnswersOne(ask, root, Fresh(papers), actions, Crash);
    AnswersOne(ask, root, Fresh(papers), actions + [Crash], Start);
  }

  /** Wherever an interrupted scan has got to: if the uninterrupted one finishes, there are further
      steps, answered as before, after which this one has too, with the same result on disk. */
  lemma EveryScanCanFinish(ask: Slice -> Found, root: Slice, papers: seq<Paper>, actions: seq<Action>, p: Progress)
    returns (more: seq<Action>)
    requires UniqueIds(papers) && Answers(ask, root, Fresh(papers), actions)
    requires Finish(ask, Progress(InitialState(root), papers)) == Some(p)
    ensures actions <= more && Answers(ask, root, Fresh(papers), more)
    ensures EndedAt(Run(root, Fresh(papers), more), p)
  {
    Restarted(ask, root, papers, actions);
    var restart := actions + [Crash] + [Start];
    var at := RunKeepsStep(ask, root, papers, restart);
    more := TurnsEnd(ask, root, papers, restart, at, p);
    assert actions <= restart;
  }

  // ---------------------------------------------------------------- any pattern of answers

  /** What is on disk, and what a process works on, is a scan's progress like any other. */
  ghost predicate TidySystem(archive: seq<Row>, root: Slice, s: System) {
    && UniqueIds(s.disk.papers)
    && (s.disk.checkpoint.Some? ==> Tidy(archive, root, s.disk.checkpoint.value))
    && (s.process.Running? ==> TidyProgress(archive, root, s.process.now))
  }

  ghost predicate TidyProgress(archive: seq<Row>, root: Slice, p: Progress) {
    Tidy(archive, root, p.st) && UniqueIds(p.papers)
  }

  lemma TurnKeepsTidy(archive: seq<Row>, root: Slice, p: Progress, found: Found)
    requires TidyProgress(archive, root, p) && p.st.pending != []
    requires Faithful(archive, p.st.pending[0], found.reply) && TurnWith(p, found).Some?
    ensures TidyProgress(archive, root, TurnWith(p, found).value)
  {
    AdvanceKeepsTidy(archive, root, p.st, found.reply);
    MergeAllRefreshes(p.papers, found.papers);
  }

  lemma DoKeepsTidy(archive: seq<Row>, root: Slice, s: System, a: Action)
    requires TidySystem(archive, root, s) && FaithfulNext(archive, s, a)
    ensures TidySystem(archive, root, Do(root, s, a))
  {
    match a
    case Start => InitialStateIsTidy(archive, root);
    case Search(found) =>
      if Searching(s) && TurnWith(s.process.now, found).Some? {
        TurnKeepsTidy(archive, root, s.process.now, found);
      }
    case _ =>
  }

  lemma {:induction false} RunKeepsTidy(archive: seq<Row>, root: Slice, papers: seq<Paper>, actions: seq<Action>)
    requires UniqueIds(papers) && FaithfulRun(archive, root, Fresh(papers), actions)
    ensures TidySystem(archive, root, Run(root, Fresh(papers), actions))
  {
    if actions != [] {
      var before := actions[..|actions| - 1];
      RunKeepsTidy(archive, root, papers, before);
      DoKeepsTidy(archive, root, Run(root, Fresh(papers), before), actions[|actions| - 1]);
    }
  }

  /** Whatever the archive answers "limited" to, and wherever the process crashed on the way: a
      scan that passes the count check holds every row of its scope once, and a scan that does
      not has missed one. */
  lemma InterruptedScanIsCovered(archive: seq<Row>, root: Slice, papers: seq<Paper>, actions: seq<Action>)
    requires UniqueIds(papers) && FaithfulRun(archive, root, Fresh(papers), actions)
    ensures var s := Run(root, Fresh(papers), actions);
            && UniqueIds(s.disk.papers)
            && (Scanned(s) ==>
                  var st := s.process.now.st;
                  && st.expected.Some?
                  && (|st.rows| == st.expected.value <==> multiset(st.rows) == Matching(archive, root)))
  {
    RunKeepsTidy(archive, root, papers, actions);
    var s := Run(root, Fresh(papers), actions);
    if Scanned(s) {
      CountCheckIsCoverage(archive, root, s.process.now.st);
    }
  }
}
