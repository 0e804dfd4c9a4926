/** What an interrupted scan leaves in the catalogue, whatever the archive calls "limited" and
    whenever the process crashes. An answer's papers are the downloads linked from its rows. */
module ScanCatalogue {
  import opened Results
  import opened ArchiveScan
  import opened ScanRecovery

  /** The papers that a row's links are parsed into. */
  type Linker = Row -> seq<Paper>

  function PapersOf(links: Linker, rows: seq<Row>): seq<Paper> {
    if rows == [] then [] else links(rows[0]) + PapersOf(links, rows[1..])
  }

  ghost predicate HasId(papers: seq<Paper>, id: string) {
    exists p :: p in papers && p.id == id
  }

  /** A row among these links a paper of that id. */
  ghost predicate Linked(links: Linker, rows: multiset<Row>, id: string) {
    exists r :: r in rows && HasId(links(r), id)
  }

  lemma {:induction false} PapersOfAreLinked(links: Linker, rows: seq<Row>, id: string)
    ensures HasId(PapersOf(links, rows), id) <==> Linked(links, multiset(rows), id)
  {
    if rows != [] {
      var first, rest := rows[0], rows[1..];
      PapersOfAreLinked(links, rest, id);
      assert rows == [first] + rest;
      assert HasId(links(first), id) ==> Linked(links, multiset(rows), id);
      assert HasId(links(first) + PapersOf(links, rest), id) <==>
          HasId(links(first), id) || HasId(PapersOf(links, rest), id);
    }
  }

  // ---------------------------------------------------------------- merging

  /** The papers that were there stay, in place, with what a scan never touches. */
  ghost predicate Extends(before: seq<Paper>, after: seq<Paper>) {
    && |before| <= |after|
    && forall i :: 0 <= i < |before| ==> after[i].id == before[i].id && after[i].local == before[i].local
  }

  lemma {:induction false} LastOfIsThere(found: seq<Paper>, id: string)
    ensures LastOf(found, id).Some? <==> HasId(found, id)
  {
    if found != [] {
      var n := |found| - 1;
      LastOfIsThere(found[..n], id);
      assert found == found[..n] + [found[n]];
    }
  }

  lemma ExtendsKeepsIds(before: seq<Paper>, after: seq<Paper>, id: string)
    requires Extends(before, after) && HasId(before, id)
    ensures HasId(after, id)
  {
    var i :| 0 <= i < |before| && before[i].id == id;
    assert after[i].id == id;
  }

  /** A merge adds the ids that were found and no others. */
  lemma MergeAddsIds(catalogue: seq<Paper>, found: seq<Paper>)
    requires UniqueIds(catalogue)
    ensures Extends(catalogue, MergeAll(catalogue, found))
    ensures forall id :: HasId(MergeAll(catalogue, found), id) <==> HasId(catalogue, id) || HasId(found, id)
  {
    var merged := MergeAll(catalogue, found);
    MergeAllRefreshes(catalogue, found);
    forall id
      ensures HasId(merged, id) <==> HasId(catalogue, id) || HasId(found, id)
    {
      LastOfIsThere(found, id);
      if HasId(catalogue, id) {
        ExtendsKeepsIds(catalogue, merged, id);
      } else if HasId(found, id) {
        var i := IndexOf(merged, id);
        assert merged[i].id == id;
      }
    }
  }

  // ---------------------------------------------------------------- runs

  /** Every answer of a run carries the papers that its rows link. */
  ghost predicate LinkedRun(links: Linker, root: Slice, s: System, actions: seq<Action>) {
    actions != [] ==>
      && LinkedRun(links, root, s, actions[..|actions| - 1])
      && LinkedNext(links, Run(root, s, actions[..|actions| - 1]), actions[|actions| - 1])
  }

  ghost predicate LinkedNext(links: Linker, s: System, a: Action) {
    a.Search? && Searching(s) && !a.found.reply.limited ==> a.found.papers == PapersOf(links, a.found.reply.rows)
  }

  /** A catalogue that began as papers0 has everything that these rows link, and nothing that no
      row of the scope links. */
  ghost predicate Between(links: Linker, scope: multiset<Row>, papers0: seq<Paper>, rows: seq<Row>,
                          papers: seq<Paper>) {
    && Extends(papers0, papers)
    && (forall id :: Linked(links, multiset(rows), id) ==> HasId(papers, id))
    && (forall id :: HasId(papers, id) ==> HasId(papers0, id) || Linked(links, scope, id))
  }

  ghost predicate SameOrMore(before: seq<Paper>, after: seq<Paper>) {
    forall id :: HasId(before, id) ==> HasId(after, id)
  }

  function RowsOf(disk: Disk): seq<Row> {
    if disk.checkpoint.Some? then disk.checkpoint.value.rows else []
  }

  /** The catalogue on disk is never behind the checkpoint, and a process never behind the disk
      and ahead of it only until it saves. */
  ghost predicate CatalogueFits(links: Linker, scope: multiset<Row>, papers0: seq<Paper>, s: System) {
    && Between(links, scope, papers0, RowsOf(s.disk), s.disk.papers)
    && (s.process.Running? ==>
          && Between(links, scope, papers0, s.process.now.st.rows, s.process.now.papers)
          && SameOrMore(s.disk.papers, s.process.now.papers)
          && (!s.process.phase.Advanced? ==> s.disk.papers == s.process.now.papers))
  }

  lemma MoreRows(links: Linker, scope: multiset<Row>, papers0: seq<Paper>, rows: seq<Row>, papers: seq<Paper>,
                 found: seq<Row>)
    requires Between(links, scope, papers0, rows, papers) && UniqueIds(papers) && multiset(found) <= scope
    ensures Between(links, scope, papers0, rows + found, MergeAll(papers, PapersOf(links, found)))
    ensures SameOrMore(papers, MergeAll(papers, PapersOf(links, found)))
  {
    var merged := MergeAll(papers, PapersOf(links, found));
    MergeAddsIds(papers, PapersOf(links, found));
    forall id
      ensures Linked(links, multiset(rows + found), id) ==> HasId(merged, id)
      ensures HasId(merged, id) ==> HasId(papers0, id) || Linked(links, scope, id)
    {
      PapersOfAreLinked(links, found, id);
      LinkedFromEither(links, rows, found, id);
      if Linked(links, multiset(found), id) {
        LinkedFromMore(links, multiset(found), scope, id);
      }
    }
  }

  lemma LinkedFromMore(links: Linker, a: multiset<Row>, b: multiset<Row>, id: string)
    requires a <= b && Linked(links, a, id)
    ensures Linked(links, b, id)
  {
    var r :| r in a && HasId(links(r), id);
    assert r in b;
  }

  lemma LinkedFromEither(links: Linker, a: seq<Row>, b: seq<Row>, id: string)
    ensures Linked(links, multiset(a + b), id) <==> Linked(links, multiset(a), id) || Linked(links, multiset(b), id)
  {
    assert multiset(a + b) == multiset(a) + multiset(b);
    if Linked(links, multiset(a), id) {
      LinkedFromMore(links, multiset(a), multiset(a + b), id);
    }
    if Linked(links, multiset(b), id) {
      LinkedFromMore(links, multiset(b), multiset(a + b), id);
    }
  }

  lemma AnswerIsInScope(archive: seq<Row>, root: Slice, st: ScanState, reply: Reply)
    requires Tidy(archive, root, st) && st.pending != []
    requires Faithful(archive, st.pending[0], reply) && !reply.limited
    ensures multiset(reply.rows) <= Matching(archive, root)
  {
    assert Inside(st.pending[0], root);
    forall r
      ensures multiset(reply.rows)[r] <= Matching(archive, root)[r]
    {
      assert multiset(reply.rows)[r] <= Matching(archive, st.pending[0])[r];
    }
  }

  lemma SearchKeepsCatalogue(archive: seq<Row>, links: Linker, root: Slice, papers0: seq<Paper>, s: System,
                             found: Found)
    requires TidySystem(archive, root, s) && Searching(s)
    requires FaithfulNext(archive, s, Search(found)) && LinkedNext(links, s, Search(found))
    requires CatalogueFits(links, Matching(archive, root), papers0, s)
    ensures CatalogueFits(links, Matching(archive, root), papers0, Do(root, s, Search(found)))
  {
    var now := s.process.now;
    if TurnWith(now, found).Some? && !found.reply.limited {
      AnswerIsInScope(archive, root, now.st, found.reply);
      MoreRows(links, Matching(archive, root), papers0, now.st.rows, now.papers, found.reply.rows);
    }
  }

  lemma DoKeepsCatalogue(archive: seq<Row>, links: Linker, root: Slice, papers0: seq<Paper>, s: System, a: Action)
    requires TidySystem(archive, root, s) && FaithfulNext(archive, s, a) && LinkedNext(links, s, a)
    requires CatalogueFits(links, Matching(archive, root), papers0, s)
    ensures CatalogueFits(links, Matching(archive, root), papers0, Do(root, s, a))
  {
    if a.Search? && Searching(s) {
      SearchKeepsCatalogue(archive, links, root, papers0, s, a.found);
    }
  }

  lemma {:induction false} RunKeepsCatalogue(archive: seq<Row>, links: Linker, root: Slice, papers0: seq<Paper>,
                                             actions: seq<Action>)
    requires UniqueIds(papers0)
    requires FaithfulRun(archive, root, Fresh(papers0), actions) && LinkedRun(links, root, Fresh(papers0), actions)
    ensures CatalogueFits(links, Matching(archive, root), papers0, Run(root, Fresh(papers0), actions))
  {
    if actions != [] {
      var before := actions[..|actions| - 1];
      RunKeepsCatalogue(archive, links, root, papers0, before);
      RunKeepsTidy(archive, root, papers0, before);
      DoKeepsCatalogue(archive, links, root, papers0, Run(root, Fresh(papers0), before), actions[|actions| - 1]);
    }
  }

  // ---------------------------------------------------------------- a scan that passes

  /** The worklist is empty and the count check passes. */
  predicate Passes(s: System) {
    Scanned(s) && s.process.now.st.expected == Some(|s.process.now.st.rows|)
  }

  /** However the archive answers, and wherever the process crashed on the way: a scan that passes
      the count check holds the rows of its scope, each once, and its catalogue has exactly the
      papers it had and those that the scope's rows link, with the old ones kept in place. */
  lemma PassingScanIsWhole(archive: seq<Row>, links: Linker, root: Slice, papers0: seq<Paper>, actions: seq<Action>)
    requires UniqueIds(papers0)
    requires FaithfulRun(archive, root, Fresh(papers0), actions) && LinkedRun(links, root, Fresh(papers0), actions)
    requires Passes(Run(root, Fresh(papers0), actions))
    ensures var s := Run(root, Fresh(papers0), actions);
            var now := s.process.now;
            && s.disk.papers == now.papers
            && multiset(now.st.rows) == Matching(archive, root)
            && now.st.expected == Some(|Matching(archive, root)|)
            && UniqueIds(now.papers) && Extends(papers0, now.papers)
            && forall id :: HasId(now.papers, id) <==> HasId(papers0, id) || Linked(links, Matching(archive, root), id)
  {
    RunKeepsTidy(archive, root, papers0, actions);
    RunKeepsCatalogue(archive, links, root, papers0, actions);
    var now := Run(root, Fresh(papers0), actions).process.now;
    CountCheckIsCoverage(archive, root, now.st);
    forall id | HasId(papers0, id)
      ensures HasId(now.papers, id)
    {
      ExtendsKeepsIds(papers0, now.papers, id);
    }
  }

  /** Two scans of one archive that pass, one of them uninterrupted or not, end with the same rows,
      expected count and catalogue ids, though no answer of one need have come in the other. */
  lemma PassingScansAgree(archive: seq<Row>, links: Linker, root: Slice, papers0: seq<Paper>, a: seq<Action>,
                          b: seq<Action>)
    requires UniqueIds(papers0)
    requires FaithfulRun(archive, root, Fresh(papers0), a) && LinkedRun(links, root, Fresh(papers0), a)
    requires FaithfulRun(archive, root, Fresh(papers0), b) && LinkedRun(links, root, Fresh(papers0), b)
    requires Passes(Run(root, Fresh(papers0), a)) && Passes(Run(root, Fresh(papers0), b))
    ensures var x, y := Run(root, Fresh(papers0), a).process.now, Run(root, Fresh(papers0), b).process.now;
            && multiset(x.st.rows) == multiset(y.st.rows) && x.st.expected == y.st.expected
            && |x.papers| == |y.papers|
            && forall id :: HasId(x.papers, id) <==> HasId(y.papers, id)
  {
    PassingScanIsWhole(archive, links, root, papers0, a);
    PassingScanIsWhole(archive, links, root, papers0, b);
    var x, y := Run(root, Fresh(papers0), a).process.now, Run(root, Fresh(papers0), b).process.now;
    SameIdsSameSize(x.papers, y.papers);
  }

  lemma SameIdsSameSize(a: seq<Paper>, b: seq<Paper>)
    requires UniqueIds(a) && UniqueIds(b)
    requires forall id :: HasId(a, id) <==> HasId(b, id)
    ensures |a| == |b|
  {
    IdsAreAsMany(a);
    IdsAreAsMany(b);
    assert Ids(a) == Ids(b) by {
      forall id
        ensures id in Ids(a) <==> id in Ids(b)
      {
        assert id in Ids(a) <==> HasId(a, id);
        assert id in Ids(b) <==> HasId(b, id);
      }
    }
  }

  function Ids(papers: seq<Paper>): set<string> {
    set i | 0 <= i < |papers| :: papers[i].id
  }

  lemma {:induction false} IdsAreAsMany(papers: seq<Paper>)
    requires UniqueIds(papers)
    ensures |Ids(papers)| == |papers|
  {
    if papers != [] {
      var n := |papers| - 1;
      IdsAreAsMany(papers[..n]);
      assert Ids(papers) == Ids(papers[..n]) + {papers[n].id};
    }
  }
}
