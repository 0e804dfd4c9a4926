/** The stored papers of scripts/exam-papers/library.ts and the download loop of archive.ts. What
    a filename says about a paper, where its PDF belongs and the hash of bytes are functions
    nobody looks into; a file of the library is only changed by the library. */
module PaperLibrary {
  import opened Results
  import opened Sequences

  type Bytes = seq<bv8>
  type Hash = string

  /** What never changes about a paper; its PDF's path is derived from it. */
  datatype Identity = Identity(id: string, filename: string, archiveId: Option<string>, irish: bool)

  datatype File = Regular(bytes: Bytes) | Other

  const PDF_MAGIC: Bytes := [0x25, 0x50, 0x44, 0x46, 0x2d]

  predicate ValidPdf(bytes: Bytes) {
    |bytes| >= |PDF_MAGIC| && bytes[..|PDF_MAGIC|] == PDF_MAGIC
  }

  /** The five characters of %PDF-, and anything. */
  lemma PdfStarts(bytes: Bytes)
    ensures ValidPdf(bytes) <==> exists rest: Bytes :: bytes == [0x25, 0x50, 0x44, 0x46, 0x2d] + rest
  {
    if ValidPdf(bytes) {
      assert bytes == [0x25, 0x50, 0x44, 0x46, 0x2d] + bytes[5..];
    }
  }

  /** What storePdf writes, and all there is in a library nobody else writes to. */
  ghost predicate AllPdfs(files: map<string, File>) {
    forall path :: path in files && files[path].Regular? ==> ValidPdf(files[path].bytes)
  }

  class Paper {
    const identity: Identity
    var url: Option<string>
    var title: string
    var localPath: Option<string>
    var sha256: Option<Hash>

    constructor (identity: Identity)
      ensures this.identity == identity && url.None? && title == "" && localPath.None? && sha256.None?
    {
      this.identity := identity;
      url, title, localPath, sha256 := None, "", None, None;
    }
  }

  /** A file of the directory that is imported: the paper its name says it is, if any. */
  datatype Source = Source(candidate: Option<Identity>, bytes: Bytes, writes: bool)

  /** A download link that a scan found. */
  datatype Link = Link(identity: Identity, url: string, title: string)

  /** What the commands do to a library: scan merges links, import takes files, download fetches
      the papers that a filter wants. */
  datatype Operation =
    | Scan(found: seq<Link>)
    | Import(sources: seq<Source>)
    | Download(wanted: Identity -> bool, answers: Identity -> Option<Bytes>, writes: bool)

  class Library {
    const hash: Bytes -> Hash
    const pathOf: Identity -> string
    var files: map<string, File>
    var papers: seq<Paper>

    constructor (hash: Bytes -> Hash, pathOf: Identity -> string, files: map<string, File>, papers: seq<Paper>)
      ensures this.hash == hash && this.pathOf == pathOf && this.files == files && this.papers == papers
    {
      this.hash, this.pathOf, this.files, this.papers := hash, pathOf, files, papers;
    }

    /** What readCatalogue accepts and saveCatalogue writes: no two papers of one id. */
    ghost predicate Unique() reads this {
      forall i, j :: 0 <= i < j < |papers| ==> papers[i].identity.id != papers[j].identity.id
    }

    ghost predicate Valid() reads this {
      Unique() && AllPdfs(files)
    }

    ghost predicate Verifies(paper: Paper)
      reads this, paper
    {
      && paper.localPath.Some? && paper.sha256.Some? && paper.localPath.value in files
      && files[paper.localPath.value].Regular?
      && ValidPdf(files[paper.localPath.value].bytes) && hash(files[paper.localPath.value].bytes) == paper.sha256.value
    }

    /** A paper with a path and a hash verifies. */
    ghost predicate Honest(paper: Paper)
      reads this, paper
    {
      paper.localPath.Some? && paper.sha256.Some? ==> Verifies(paper)
    }

    /** The paper's PDF is stored where it belongs. */
    ghost predicate Stored(paper: Paper)
      reads this, paper
    {
      var path := pathOf(paper.identity);
      && paper.localPath == Some(path) && paper.sha256.Some?
      && path in files && files[path].Regular? && hash(files[path].bytes) == paper.sha256.value
    }

    /** What later calls may not undo. */
    twostate predicate Preserved(paper: Paper)
      reads this, paper
    {
      && (old(Verifies(paper)) ==> Verifies(paper))
      && (old(Honest(paper)) ==> Honest(paper))
      && (old(Stored(paper)) ==> Stored(paper) && paper.sha256 == old(paper.sha256))
    }

    method VerifyLocal(paper: Paper) returns (verified: bool)
      ensures verified <==> Verifies(paper)
    {
      if paper.localPath.None? || paper.sha256.None? {
        return false;
      }
      var path := paper.localPath.value;
      if path !in files || files[path].Other? {
        return false;
      }
      var bytes := files[path].bytes;
      return ValidPdf(bytes) && hash(bytes) == paper.sha256.value;
    }

    predicate SameContents(file: File, bytes: Bytes) {
      file.Regular? && hash(file.bytes) == hash(bytes)
    }

    /** Whether storePdf stores: a new file, if the disk can be written, or the same contents
        again. */
    predicate CanStore(identity: Identity, bytes: Bytes, writes: bool)
      reads this
    {
      var path := pathOf(identity);
      ValidPdf(bytes) && if path in files then SameContents(files[path], bytes) else writes
    }

    /** storePdf: the file is written once; later the same contents may be stored again, others
        are refused, and then nothing changes. writes is whether the disk can be written. */
    method StorePdf(paper: Paper, bytes: Bytes, writes: bool) returns (stored: bool)
      modifies this`files, paper`localPath, paper`sha256
      ensures var path := pathOf(paper.identity);
              && stored == old(CanStore(paper.identity, bytes, writes))
              && files == if stored && path !in old(files) then old(files)[path := Regular(bytes)] else old(files)
      ensures stored ==> Holds(paper, bytes)
      ensures AllPdfs(old(files)) ==> AllPdfs(files) && forall other :: other in papers ==> Preserved(other)
      ensures AllPdfs(old(files)) && stored ==> Verifies(paper)
      ensures !stored ==> paper.localPath == old(paper.localPath) && paper.sha256 == old(paper.sha256)
    {
      if !ValidPdf(bytes) {
        return false;
      }
      var path := pathOf(paper.identity);
      if path !in files {
        if !writes {
          return false;
        }
        files := files[path := Regular(bytes)];
      } else if !SameContents(files[path], bytes) {
        return false;
      }
      paper.localPath := Some(path);
      paper.sha256 := Some(hash(bytes));
      return true;
    }

    /** The check of saveCatalogue. */
    method SaveCatalogue() returns (saved: bool)
      ensures saved <==> Unique()
    {
      var seen: set<string> := {};
      for i := 0 to |papers|
        invariant forall k :: 0 <= k < i ==> papers[k].identity.id in seen
        invariant forall id :: id in seen ==> exists k :: 0 <= k < i && papers[k].identity.id == id
        invariant forall j, k :: 0 <= j < k < i ==> papers[j].identity.id != papers[k].identity.id
      {
        if papers[i].identity.id in seen {
          return false;
        }
        seen := seen + {papers[i].identity.id};
      }
      return true;
    }

    // -------------------------------------------------------------- import

    /** byId leads to every paper of the catalogue by its id. */
    ghost predicate Indexed(byId: map<string, Paper>) reads this {
      && (forall paper :: paper in papers ==> paper.identity.id in byId && byId[paper.identity.id] == paper)
      && forall id :: id in byId ==> byId[id] in papers && byId[id].identity.id == id
    }

    /** The catalogue's paper of that id or else the only one of that filename. */
    function Existing(byId: map<string, Paper>, candidate: Identity): (paper: Option<Paper>)
      reads this
    {
      var named := Named(papers, candidate.filename);
      if candidate.id in byId then Some(byId[candidate.id])
      else if |named| == 1 then Some(named[0])
      else None
    }

    lemma ExistingIsThere(byId: map<string, Paper>, candidate: Identity)
      requires Indexed(byId)
      ensures Existing(byId, candidate).Some? ==> Existing(byId, candidate).value in papers
    {
      var named := Named(papers, candidate.filename);
      NamedAreThere(papers, candidate.filename);
      if candidate.id !in byId && |named| == 1 {
        assert named[0] in named;
      }
    }

    /** A file belongs to the paper of its id; if there is none, to the only one of its filename. */
    lemma ExistingIs(byId: map<string, Paper>, candidate: Identity, paper: Paper)
      requires Indexed(byId) && Unique()
      ensures Existing(byId, candidate) == Some(paper) <==>
                || (paper in papers && paper.identity.id == candidate.id)
                || (&& (forall other :: other in papers ==> other.identity.id != candidate.id)
                    && exists i: nat :: OnlyNamed(papers, candidate.filename, i) && papers[i] == paper)
    {
      OneNamed(papers, candidate.filename);
      if |Named(papers, candidate.filename)| == 1 {
        var i: nat :| OnlyNamed(papers, candidate.filename, i);
      }
    }

    method IndexPapers() returns (byId: map<string, Paper>)
      requires Unique()
      ensures Indexed(byId)
    {
      byId := map[];
      for i := 0 to |papers|
        invariant forall k :: 0 <= k < i ==> papers[k].identity.id in byId && byId[papers[k].identity.id] == papers[k]
        invariant forall id :: id in byId ==> byId[id] in papers && byId[id].identity.id == id
      {
        byId := byId[papers[i].identity.id := papers[i]];
      }
    }

    ghost predicate Holds(paper: Paper, bytes: Bytes)
      reads this, paper
    {
      Stored(paper) && paper.sha256 == Some(hash(bytes))
    }

    /** "already in the library" */
    ghost predicate Has(paper: Paper, bytes: Bytes)
      reads this, paper
    {
      paper.sha256 == Some(hash(bytes)) && Verifies(paper)
    }

    /** The contents are in the library already. */
    ghost predicate Present(bytes: Bytes, stored: map<string, File>) {
      exists path :: path in stored && stored[path].Regular? && hash(stored[path].bytes) == hash(bytes)
    }

    ghost predicate Taken(identity: Identity, bytes: Bytes, stored: map<string, File>) {
      pathOf(identity) in stored && !SameContents(stored[pathOf(identity)], bytes)
    }

    /** The paper, or one of its id or filename, has other contents stored. */
    ghost predicate TakenFor(candidate: Identity, bytes: Bytes, stored: map<string, File>, listed: seq<Paper>) {
      || Taken(candidate, bytes, stored)
      || exists paper :: && paper in listed && Taken(paper.identity, bytes, stored)
                         && (paper.identity.id == candidate.id || paper.identity.filename == candidate.filename)
    }

    /** Why a file may be skipped. */
    ghost predicate Excused(source: Source, stored: map<string, File>, listed: seq<Paper>) {
      || source.candidate.None? || !ValidPdf(source.bytes) || !source.writes
      || Present(source.bytes, stored)
      || TakenFor(source.candidate.value, source.bytes, stored, listed)
    }

    lemma ExcusedStays(source: Source, stored: map<string, File>, listed: seq<Paper>, stored': map<string, File>,
                       listed': seq<Paper>)
      requires Excused(source, stored, listed) && Keeps(stored, stored') && listed <= listed'
      ensures Excused(source, stored', listed')
    {
      if Present(source.bytes, stored) {
        var path :| path in stored && stored[path].Regular? && hash(stored[path].bytes) == hash(source.bytes);
        assert path in stored' && stored'[path].Regular? && hash(stored'[path].bytes) == hash(source.bytes);
      } else if source.candidate.Some? && TakenFor(source.candidate.value, source.bytes, stored, listed) {
        var candidate := source.candidate.value;
        if !Taken(candidate, source.bytes, stored) {
          var paper :| && paper in listed && Taken(paper.identity, source.bytes, stored)
                       && (paper.identity.id == candidate.id || paper.identity.filename == candidate.filename);
          assert paper in listed' && Taken(paper.identity, source.bytes, stored');
        }
      }
    }

    /** A file that is not accepted has such a reason. */
    lemma SkippedIsExcused(source: Source, byId: map<string, Paper>)
      requires Indexed(byId)
      requires source.candidate.Some? ==> !Accepts(source, Existing(byId, source.candidate.value))
      ensures Excused(source, files, papers)
    {
      if source.candidate.Some? && ValidPdf(source.bytes) && source.writes {
        var candidate := source.candidate.value;
        var existing := Existing(byId, candidate);
        ExistingIsThere(byId, candidate);
        if existing.Some? {
          ExistingIsMeant(byId, candidate);
          var paper := existing.value;
          if Has(paper, source.bytes) {
            assert files[paper.localPath.value].Regular?;
            assert Present(source.bytes, files);
          } else {
            assert Taken(paper.identity, source.bytes, files);
          }
        } else {
          assert Taken(candidate, source.bytes, files);
        }
      }
    }

    lemma ExistingIsMeant(byId: map<string, Paper>, candidate: Identity)
      requires Indexed(byId) && Existing(byId, candidate).Some?
      ensures var paper := Existing(byId, candidate).value;
              paper.identity.id == candidate.id || paper.identity.filename == candidate.filename
    {
      NamedAreThere(papers, candidate.filename);
      if candidate.id !in byId {
        assert Named(papers, candidate.filename)[0] in Named(papers, candidate.filename);
      }
    }

    /** A file whose paper the catalogue has. */
    method ImportAgain(paper: Paper, bytes: Bytes, writes: bool) returns (imported: bool)
      requires Valid() && paper in papers
      modifies this`files, paper`localPath, paper`sha256
      ensures Valid()
      ensures Keeps(old(files), files)
      ensures forall other :: other in papers ==> Preserved(other)
      ensures imported ==> Holds(paper, bytes)
      ensures imported <==> old(CanStore(paper.identity, bytes, writes) && !Has(paper, bytes))
    {
      var same := paper.sha256 == Some(hash(bytes));
      var verified := VerifyLocal(paper);
      if same && verified {
        return false;
      }
      imported := StorePdf(paper, bytes, writes);
    }

    /** A file whose paper it has not. */
    method ImportNew(candidate: Identity, bytes: Bytes, writes: bool, byId: map<string, Paper>)
      returns (imported: bool, newById: map<string, Paper>)
      requires Valid() && Indexed(byId) && candidate.id !in byId
      modifies this`files, this`papers
      ensures Valid() && Indexed(newById)
      ensures Keeps(old(files), files)
      ensures forall other :: other in old(papers) ==> Preserved(other)
      ensures !imported ==> papers == old(papers)
      ensures imported <==> old(CanStore(candidate, bytes, writes))
      ensures imported ==>
                && |papers| == |old(papers)| + 1 && old(papers) <= papers
                && var paper := papers[|old(papers)|];
                   fresh(paper) && paper.identity == candidate && Verifies(paper) && Holds(paper, bytes)
    {
      newById := byId;
      var paper := new Paper(candidate);
      imported := StorePdf(paper, bytes, writes);
      if imported {
        papers := papers + [paper];
        newById := byId[candidate.id := paper];
      }
    }

    /** The file of a paper, which the catalogue may have already, is not skipped. */
    ghost predicate Accepts(source: Source, existing: Option<Paper>)
      requires source.candidate.Some?
      reads this, if existing.Some? then {existing.value} else {}
    {
      match existing
      case Some(paper) => CanStore(paper.identity, source.bytes, source.writes) && !Has(paper, source.bytes)
      case None => CanStore(source.candidate.value, source.bytes, source.writes)
    }

    /** One file of importPapers: its contents go to the paper of its id, else to the only one of
        its filename, else to a new one. */
    method ImportOne(source: Source, byId: map<string, Paper>) returns (imported: bool, newById: map<string, Paper>)
      requires Valid() && Indexed(byId)
      modifies this`files, this`papers, set paper | paper in papers :: paper
      ensures Valid() && Indexed(newById)
      ensures Keeps(old(files), files)
      ensures forall other :: other in old(papers) ==> Preserved(other)
      ensures old(papers) <= papers
      ensures !imported ==> papers == old(papers)
      ensures forall k :: |old(papers)| <= k < |papers| ==> fresh(papers[k]) && Verifies(papers[k])
      ensures imported <==> source.candidate.Some? && old(Accepts(source, Existing(byId, source.candidate.value)))
      ensures !imported ==> Excused(source, old(files), old(papers))
      ensures imported ==>
                var existing, n := old(Existing(byId, source.candidate.value)), |old(papers)|;
                if existing.Some? then
                  papers == old(papers) && existing.value in papers && Holds(existing.value, source.bytes)
                else |papers| == n + 1 && papers[n].identity == source.candidate.value && Holds(papers[n], source.bytes)
    {
      imported, newById := false, byId;
      if source.candidate.Some? ==> !Accepts(source, Existing(byId, source.candidate.value)) {
        SkippedIsExcused(source, byId);
      }
      if source.candidate.Some? && ValidPdf(source.bytes) {
        var candidate := source.candidate.value;
        var existing := Existing(byId, candidate);
        ExistingIsThere(byId, candidate);
        if existing.Some? {
          imported := ImportAgain(existing.value, source.bytes, source.writes);
        } else {
          imported, newById := ImportNew(candidate, source.bytes, source.writes, byId);
        }
      }
    }

    ghost predicate InLibrary(bytes: Bytes)
      reads this, papers
    {
      exists paper :: paper in papers && Holds(paper, bytes)
    }

    /** After the first count sources: who is not among those that did not verify, or claimed to
        without verifying, still does not; and what was not skipped is there. */
    ghost predicate Reached(sources: seq<Source>, count: nat, skipped: set<nat>, unverified: set<Paper>,
                            dishonest: set<Paper>)
      requires count <= |sources|
      reads this, papers
    {
      && AllAs(unverified, dishonest)
      && (forall k :: k in skipped ==> k < count)
      && forall k: nat :: k < count && k !in skipped ==> InLibrary(sources[k].bytes)
    }

    /** All others verify, and all others are honest. */
    ghost predicate AllAs(unverified: set<Paper>, dishonest: set<Paper>)
      reads this, papers
    {
      forall paper :: paper in papers ==>
        (paper in unverified || Verifies(paper)) && (paper in dishonest || Honest(paper))
    }

    method ImportNext(sources: seq<Source>, i: nat, byId: map<string, Paper>, skipped: set<nat>,
                      ghost unverified: set<Paper>, ghost dishonest: set<Paper>)
      returns (imported: bool, newById: map<string, Paper>)
      requires i < |sources|
      requires Valid() && Indexed(byId) && Reached(sources, i, skipped, unverified, dishonest)
      modifies this`files, this`papers, set paper | paper in papers :: paper
      ensures Valid() && Indexed(newById)
      ensures Reached(sources, i + 1, if imported then skipped else skipped + {i}, unverified, dishonest)
      ensures Grown()
      ensures !imported ==> Excused(sources[i], old(files), old(papers))
    {
      imported, newById := ImportOne(sources[i], byId);
      forall k: nat | k < i && k !in skipped
        ensures InLibrary(sources[k].bytes)
      {
        var paper :| paper in old(papers) && old(Holds(paper, sources[k].bytes));
        assert Preserved(paper);
        assert paper in papers && Holds(paper, sources[k].bytes);
      }
      forall k | 0 <= k < |papers|
        ensures papers[k] in unverified || Verifies(papers[k])
        ensures papers[k] in dishonest || Honest(papers[k])
      {
        if k < |old(papers)| {
          assert papers[k] == old(papers)[k];
          assert Preserved(papers[k]);
        }
      }
      if imported {
        assert InLibrary(sources[i].bytes);
      }
    }

    /** What operations may do to the catalogue and the files. */
    twostate predicate Grown()
      reads this, papers
    {
      && Keeps(old(files), files)
      && old(papers) <= papers
      && forall k :: |old(papers)| <= k < |papers| ==> fresh(papers[k])
    }

    ghost predicate AllExcused(sources: seq<Source>, skipped: set<nat>, stored: map<string, File>, listed: seq<Paper>) {
      forall k :: k in skipped ==> k < |sources| && Excused(sources[k], stored, listed)
    }

    lemma AllExcusedStay(sources: seq<Source>, skipped: set<nat>, stored: map<string, File>, listed: seq<Paper>,
                         stored': map<string, File>, listed': seq<Paper>)
      requires AllExcused(sources, skipped, stored, listed) && Keeps(stored, stored') && listed <= listed'
      ensures AllExcused(sources, skipped, stored', listed')
    {
      forall k | k in skipped
        ensures Excused(sources[k], stored', listed')
      {
        ExcusedStays(sources[k], stored, listed, stored', listed');
      }
    }

    method ImportAll(sources: seq<Source>, byId: map<string, Paper>, ghost unverified: set<Paper>,
                     ghost dishonest: set<Paper>)
      returns (imported: nat, skipped: set<nat>)
      requires Valid() && Indexed(byId) && Reached(sources, 0, {}, unverified, dishonest)
      modifies this`files, this`papers, set paper | paper in papers :: paper
      ensures Valid() && Grown()
      ensures imported + |skipped| == |sources| && Reached(sources, |sources|, skipped, unverified, dishonest)
      ensures AllExcused(sources, skipped, files, papers)
    {
      imported, skipped := 0, {};
      var index := byId;
      for i := 0 to |sources|
        invariant Valid() && Indexed(index) && Grown()
        invariant imported + |skipped| == i
        invariant Reached(sources, i, skipped, unverified, dishonest)
        invariant AllExcused(sources, skipped, files, papers)
      {
        var done;
        ghost var stored, listed := files, papers;
        done, index := ImportNext(sources, i, index, skipped, unverified, dishonest);
        AllExcusedStay(sources, skipped, stored, listed, files, papers);
        if !done {
          ExcusedStays(sources[i], stored, listed, files, papers);
        }
        if done {
          imported := imported + 1;
        } else {
          skipped := skipped + {i};
        }
      }
    }

    /** importPapers. Stored files stay as they are, no paper is lost or doubled, papers that
        verified still do, new ones verify, every file that is not reported as skipped is in the
        library, and those that are have a reason. */
    method ImportPapers(sources: seq<Source>) returns (imported: nat, skipped: set<nat>)
      requires Valid()
      modifies this`files, this`papers, set paper | paper in papers :: paper
      ensures Valid() && Grown()
      ensures AllAs(old(Unverified()), old(Dishonest()))
      ensures imported + |skipped| == |sources| && AllExcused(sources, skipped, files, papers)
      ensures forall k: nat :: k < |sources| && k !in skipped ==> InLibrary(sources[k].bytes)
    {
      var byId := IndexPapers();
      imported, skipped := ImportAll(sources, byId, Unverified(), Dishonest());
    }

    ghost function Unverified(): set<Paper>
      reads this, papers
    {
      set paper | paper in papers && !Verifies(paper)
    }

    ghost function Dishonest(): set<Paper>
      reads this, papers
    {
      set paper | paper in papers && !Honest(paper)
    }

    // -------------------------------------------------------------- download

    /** One paper of downloadSelected. A failure leaves everything as it was, so that it never is
        the check of saveCatalogue that failed. */
    method DownloadOne(paper: Paper, response: Option<Bytes>, writes: bool) returns (failed: bool)
      requires Valid() && paper in papers
      modifies this`files, paper`localPath, paper`sha256
      ensures Valid() && Keeps(old(files), files)
      ensures forall other :: other in papers ==> Preserved(other)
      ensures failed <==> paper.url.Some? && !old(Verifies(paper)) &&
                          (response.None? || !old(CanStore(paper.identity, response.value, writes)))
      ensures !failed && paper.url.Some? ==> Verifies(paper)
      ensures !failed && paper.url.Some? && !old(Verifies(paper)) ==> Holds(paper, response.value)
      ensures old(Verifies(paper)) || paper.url.None? || failed ==>
                files == old(files) && paper.localPath == old(paper.localPath) && paper.sha256 == old(paper.sha256)
    {
      var verified := VerifyLocal(paper);
      if verified || paper.url.None? {
        return false;
      }
      if response.None? {
        return true;
      }
      var stored := StorePdf(paper, response.value, writes);
      if !stored {
        return true;
      }
      var saved := SaveCatalogue();
      return !saved;
    }

    /** Nothing is left to do for the paper. */
    ghost predicate IsFetched(paper: Paper)
      reads this, paper
    {
      paper.url.Some? ==> Verifies(paper)
    }

    /** The paper has a link and does not verify, and what the archive answers for it is no PDF
        response or cannot be stored. */
    ghost predicate IsStuck(paper: Paper, answers: Identity -> Option<Bytes>, writes: bool)
      reads this, paper
    {
      && !IsFetched(paper)
      && var answer := answers(paper.identity);
         answer.None? || !CanStore(paper.identity, answer.value, writes)
    }

    /** downloadSelected for the papers that a filter selected, with what the archive answers for
        each: bytes, or something that is no PDF response and ends the run, as a refused storePdf
        does. */
    method DownloadSelected(selected: seq<Paper>, answers: Identity -> Option<Bytes>, writes: bool)
      returns (failed: bool)
      requires Valid()
      requires forall k :: 0 <= k < |selected| ==> selected[k] in papers
      modifies this`files, (set paper | paper in papers)`localPath, (set paper | paper in papers)`sha256
      ensures Valid() && Keeps(old(files), files)
      ensures AllAs(old(Unverified()), old(Dishonest()))
      ensures !failed ==> forall k :: 0 <= k < |selected| ==> IsFetched(selected[k])
      ensures failed ==> exists k :: 0 <= k < |selected| && IsStuck(selected[k], answers, writes)
                                     && forall j :: 0 <= j < k ==> IsFetched(selected[j])
    {
      failed := false;
      for i := 0 to |selected|
        invariant !failed && Valid() && Keeps(old(files), files)
        invariant AllAs(old(Unverified()), old(Dishonest()))
        invariant forall k :: 0 <= k < i ==> IsFetched(selected[k])
      {
        failed := DownloadOne(selected[i], answers(selected[i].identity), writes);
        if failed {
          assert IsStuck(selected[i], answers, writes);
          return;
        }
      }
    }

    // -------------------------------------------------------------- scan

    /** The papers with their urls and titles. */
    ghost function Labels(): map<Paper, (Option<string>, string)>
      reads this, papers
    {
      map paper | paper in papers :: (paper.url, paper.title)
    }

    /** Papers are labelled by the last of these links to them, and else as before. */
    ghost predicate Labelled(found: seq<Link>, before: map<Paper, (Option<string>, string)>)
      reads this, papers
    {
      forall paper :: paper in papers ==> LabelledAs(paper, LastLink(found, paper.identity.id), before)
    }

    ghost predicate LabelledAs(paper: Paper, link: Option<Link>, before: map<Paper, (Option<string>, string)>)
      reads paper
    {
      if link.Some? then paper.url == Some(link.value.url) && paper.title == link.value.title
      else paper in before && (paper.url, paper.title) == before[paper]
    }

    /** One link: a known paper gets its url and title, an unknown one is added. */
    method MergeLink(link: Link, byId: map<string, Paper>) returns (newById: map<string, Paper>)
      requires Unique() && Indexed(byId)
      modifies this`papers, (set paper | paper in papers)`url, (set paper | paper in papers)`title
      ensures Unique() && Indexed(newById)
      ensures newById.Keys == byId.Keys + {link.identity.id}
      ensures |papers| == |old(papers)| + if link.identity.id in byId then 0 else 1
      ensures Grown() && NewSince(|old(papers)|)
      ensures newById[link.identity.id].url == Some(link.url) && newById[link.identity.id].title == link.title
      ensures forall paper :: paper in papers && paper.identity.id != link.identity.id ==>
                paper in old(papers) && paper.url == old(paper.url) && paper.title == old(paper.title)
    {
      newById := byId;
      var paper;
      if link.identity.id in byId {
        paper := byId[link.identity.id];
      } else {
        paper := new Paper(link.identity);
        papers := papers + [paper];
        newById := byId[link.identity.id := paper];
      }
      paper.url, paper.title := Some(link.url), link.title;
    }

    /** For the papers from this one on nothing is stored. */
    ghost predicate NewSince(first: nat)
      reads this, papers
    {
      forall k :: first <= k < |papers| ==> papers[k].localPath.None? && papers[k].sha256.None?
    }

    /** The first count links are merged. */
    ghost predicate Merged(found: seq<Link>, count: nat, byId: map<string, Paper>,
                           before: map<Paper, (Option<string>, string)>)
      requires count <= |found|
      reads this, papers
    {
      && Unique() && Indexed(byId)
      && (forall k :: 0 <= k < count ==> found[k].identity.id in byId)
      && Labelled(found[..count], before)
    }

    method MergeNext(found: seq<Link>, i: nat, byId: map<string, Paper>,
                     ghost before: map<Paper, (Option<string>, string)>)
      returns (newById: map<string, Paper>)
      requires i < |found| && Merged(found, i, byId, before)
      modifies this`papers, (set paper | paper in papers)`url, (set paper | paper in papers)`title
      ensures Merged(found, i + 1, newById, before)
      ensures Grown() && NewSince(|old(papers)|)
    {
      newById := MergeLink(found[i], byId);
      forall paper | paper in papers
        ensures LabelledAs(paper, LastLink(found[..i + 1], paper.identity.id), before)
      {
        LastLinkNext(found, i, paper.identity.id);
        if paper.identity.id == found[i].identity.id {
          assert paper == newById[paper.identity.id];
        } else {
          assert old(LabelledAs(paper, LastLink(found[..i], paper.identity.id), before));
        }
      }
    }

    method MergeLinks(found: seq<Link>, byId: map<string, Paper>, ghost before: map<Paper, (Option<string>, string)>)
      returns (newById: map<string, Paper>)
      requires Merged(found, 0, byId, before)
      modifies this`papers, (set paper | paper in papers)`url, (set paper | paper in papers)`title
      ensures Grown() && NewSince(|old(papers)|)
      ensures Merged(found, |found|, newById, before)
    {
      newById := byId;
      for i := 0 to |found|
        invariant Grown() && NewSince(|old(papers)|)
        invariant Merged(found, i, newById, before)
      {
        newById := MergeNext(found, i, newById, before);
      }
    }

    /** The merge of a scan: every paper found is listed, with the url and title it was last found
        with; the other papers keep theirs. */
    method MergeScan(found: seq<Link>)
      requires Valid()
      modifies this`papers, (set paper | paper in papers)`url, (set paper | paper in papers)`title
      ensures Valid() && Grown() && NewSince(|old(papers)|)
      ensures forall k :: 0 <= k < |found| ==> Lists(found[k].identity.id)
      ensures Labelled(found, old(Labels()))
    {
      var byId := IndexPapers();
      byId := MergeLinks(found, byId, Labels());
      assert found[..|found|] == found;
      forall k | 0 <= k < |found|
        ensures Lists(found[k].identity.id)
      {
        assert byId[found[k].identity.id] in papers;
      }
    }

    ghost predicate Lists(id: string) reads this {
      exists paper :: paper in papers && paper.identity.id == id
    }

    // -------------------------------------------------------------- any sequence

    /** These papers verify, and no paper but those claims to without verifying. */
    ghost predicate Keeping(verified: set<Paper>, dishonest: set<Paper>)
      reads this, papers, verified
    {
      && (forall paper :: paper in verified ==> paper in papers && Verifies(paper))
      && (forall paper :: paper in papers ==> paper in dishonest || Honest(paper))
    }

    /** All papers that are wanted, each once. */
    method Selected(wanted: Identity -> bool) returns (selected: seq<Paper>)
      ensures forall paper :: paper in selected <==> paper in papers && wanted(paper.identity)
      ensures Unique() ==> Distinct(selected)
    {
      selected := [];
      for i := 0 to |papers|
        invariant forall paper :: paper in selected <==> paper in papers[..i] && wanted(paper.identity)
        invariant Unique() ==> Distinct(selected)
      {
        if wanted(papers[i].identity) {
          selected := selected + [papers[i]];
        }
      }
    }

    /** A scan lists what it found, an import takes every file in or has a reason to skip it, and
        a download fetches every paper that is wanted, or one of them cannot be fetched. */
    ghost predicate IsPerformed(operation: Operation)
      reads this, papers
    {
      match operation
      case Scan(found) => forall k :: 0 <= k < |found| ==> Lists(found[k].identity.id)
      case Import(sources) =>
        forall k :: 0 <= k < |sources| ==> InLibrary(sources[k].bytes) || Excused(sources[k], files, papers)
      case Download(wanted, answers, writes) =>
        || (forall paper :: paper in papers && wanted(paper.identity) ==> IsFetched(paper))
        || exists paper :: paper in papers && wanted(paper.identity) && IsStuck(paper, answers, writes)
    }

    method PerformScan(found: seq<Link>, ghost verified: set<Paper>, ghost dishonest: set<Paper>)
      requires Valid() && Keeping(verified, dishonest)
      modifies this`files, this`papers, set paper | paper in papers :: paper
      ensures Valid() && Grown() && Keeping(verified, dishonest) && IsPerformed(Scan(found))
    {
      MergeScan(found);
    }

    method PerformImport(sources: seq<Source>, ghost verified: set<Paper>, ghost dishonest: set<Paper>)
      requires Valid() && Keeping(verified, dishonest)
      modifies this`files, this`papers, set paper | paper in papers :: paper
      ensures Valid() && Grown() && Keeping(verified, dishonest) && IsPerformed(Import(sources))
    {
      var _, _ := ImportPapers(sources);
    }

    method PerformDownload(wanted: Identity -> bool, answers: Identity -> Option<Bytes>, writes: bool,
                           ghost verified: set<Paper>, ghost dishonest: set<Paper>)
      requires Valid() && Keeping(verified, dishonest)
      modifies this`files, this`papers, set paper | paper in papers :: paper
      ensures Valid() && Grown() && Keeping(verified, dishonest) && IsPerformed(Download(wanted, answers, writes))
    {
      var selected := Selected(wanted);
      var _ := DownloadSelected(selected, answers, writes);
    }

    /** One command, up to saving the catalogue: the duplicate check never fires. */
    method Perform(operation: Operation, ghost verified: set<Paper>, ghost dishonest: set<Paper>) returns (saved: bool)
      requires Valid() && Keeping(verified, dishonest)
      modifies this`files, this`papers, set paper | paper in papers :: paper
      ensures Valid() && Grown() && Keeping(verified, dishonest) && saved
      ensures IsPerformed(operation)
    {
      match operation {
        case Scan(found) => PerformScan(found, verified, dishonest);
        case Import(sources) => PerformImport(sources, verified, dishonest);
        case Download(wanted, answers, writes) => PerformDownload(wanted, answers, writes, verified, dishonest);
      }
      saved := SaveCatalogue();
    }

    /** Over any sequence of scans, imports and downloads: no stored file's bytes change, no paper
        is lost, ids stay unique, so that every catalogue can be saved, and whatever verified
        still does. */
    method PerformAll(operations: seq<Operation>) returns (saves: seq<bool>)
      requires Valid()
      modifies this`files, this`papers, set paper | paper in papers :: paper
      ensures Valid() && Grown()
      ensures |saves| == |operations| && forall k :: 0 <= k < |saves| ==> saves[k]
      ensures Keeping(set paper | paper in old(papers) && old(Verifies(paper)), old(Dishonest()))
    {
      ghost var verified := set paper | paper in papers && Verifies(paper);
      ghost var dishonest := Dishonest();
      saves := [];
      for i := 0 to |operations|
        invariant Valid() && Grown() && Keeping(verified, dishonest)
        invariant |saves| == i && forall k :: 0 <= k < i ==> saves[k]
      {
        var saved := Perform(operations[i], verified, dishonest);
        saves := saves + [saved];
      }
    }
  }

  /** From an empty library, every paper with a path and a hash verifies, after any sequence. */
  method NewLibrary(hash: Bytes -> Hash, pathOf: Identity -> string, operations: seq<Operation>)
    returns (library: Library, saves: seq<bool>)
    ensures fresh(library) && library.Valid()
    ensures forall paper :: paper in library.papers && paper.localPath.Some? && paper.sha256.Some? ==>
              library.Verifies(paper)
    ensures |saves| == |operations| && forall k :: 0 <= k < |saves| ==> saves[k]
  {
    library := new Library(hash, pathOf, map[], []);
    saves := library.PerformAll(operations);
  }

  /** The last of these links to that paper. */
  function LastLink(found: seq<Link>, id: string): Option<Link> {
    if found == [] then None
    else if found[|found| - 1].identity.id == id then Some(found[|found| - 1])
    else LastLink(found[..|found| - 1], id)
  }

  lemma LastLinkNext(found: seq<Link>, i: nat, id: string)
    requires i < |found|
    ensures LastLink(found[..i + 1], id) ==
            if found[i].identity.id == id then Some(found[i]) else LastLink(found[..i], id)
  {
    assert found[..i + 1][..i] == found[..i];
  }

  /** The papers of that filename. */
  function Named(papers: seq<Paper>, filename: string): seq<Paper> {
    if papers == [] then []
    else (if papers[0].identity.filename == filename then [papers[0]] else []) + Named(papers[1..], filename)
  }

  lemma {:induction false} NamedAreThere(papers: seq<Paper>, filename: string)
    ensures forall paper :: paper in Named(papers, filename) ==> paper in papers && paper.identity.filename == filename
  {
    if papers != [] {
      NamedAreThere(papers[1..], filename);
    }
  }

  /** Paper i has that filename, and no other has. */
  ghost predicate OnlyNamed(papers: seq<Paper>, filename: string, i: nat) {
    && i < |papers| && papers[i].identity.filename == filename
    && forall j :: 0 <= j < |papers| && j != i ==> papers[j].identity.filename != filename
  }

  lemma {:induction false} NoneNamed(papers: seq<Paper>, filename: string)
    ensures Named(papers, filename) == [] <==>
              forall j :: 0 <= j < |papers| ==> papers[j].identity.filename != filename
  {
    if papers != [] {
      NoneNamed(papers[1..], filename);
      assert forall j :: 1 <= j < |papers| ==> papers[j] == papers[1..][j - 1];
    }
  }

  lemma {:induction false} OneNamed(papers: seq<Paper>, filename: string)
    ensures |Named(papers, filename)| == 1 <==> exists i: nat :: OnlyNamed(papers, filename, i)
    ensures forall i: nat :: OnlyNamed(papers, filename, i) ==> Named(papers, filename) == [papers[i]]
  {
    if papers != [] {
      var rest := papers[1..];
      OneNamed(rest, filename);
      NoneNamed(rest, filename);
      assert forall j :: 1 <= j < |papers| ==> papers[j] == rest[j - 1];
      if papers[0].identity.filename == filename {
        assert Named(rest, filename) == [] <==> OnlyNamed(papers, filename, 0);
      } else {
        assert forall i: nat :: OnlyNamed(rest, filename, i) ==> OnlyNamed(papers, filename, i + 1);
        assert forall i: nat :: OnlyNamed(papers, filename, i) ==> i > 0 && OnlyNamed(rest, filename, i - 1);
      }
    }
  }

  /** What was stored stays as it is. */
  ghost predicate Keeps(before: map<string, File>, after: map<string, File>) {
    forall path :: path in before ==> path in after && after[path] == before[path]
  }
}
