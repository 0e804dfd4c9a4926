/** The job table of scripts/exam-papers/bridge.ts. The scanner posts jobs to /request and waits;
    the signed-in browser tab polls /next and posts to /result/<id>. The server is one process,
    so a step runs from one suspension to the next: every handler is one step, except /result,
    which is suspended while it reads its body. Jobs are numbered in the order they are
    registered, which is the order a Map lists them in. */
module ArchiveBridge {
  import opened Results

  type Json = string

  datatype Reply = Answer(body: Json) | GatewayTimeout

  /** An HTTP response is written once: writing headers after headers were sent throws, and what
      is written after the client has gone is dropped. */
  datatype Response = Response(headersSent: bool, destroyed: bool, received: Option<Reply>) {
    function Send(reply: Reply): Response {
      Response(true, destroyed, if destroyed then received else Some(reply))
    }
  }

  datatype Entry = Entry(job: Json, delivered: bool)

  /** A request to /result: ignored with 204, still reading, taken with 204 or refused with 400. */
  datatype Post = Ignored | Reading(id: nat) | Taken(id: nat, body: Json) | Refused(id: nat)

  /** requests, polls and posts record what was asked so far and what came back; crashed is an
      exception nobody catches. */
  datatype Server = Server(
    jobs: map<nat, Entry>,
    timers: set<nat>,
    requests: seq<Json>,
    responses: seq<Response>,
    polls: seq<Option<nat>>,
    posts: seq<Post>,
    crashed: bool)

  datatype Action =
    | Request(job: Json, gone: bool)          // gone: the client left before "close" had a listener
    | Next
    | ResultStart(id: nat)
    | ResultEnd(post: nat, body: Option<Json>) // None: the body is too large or not JSON
    | Timeout(id: nat)
    | Close(id: nat)

  const IDLE := Server(map[], {}, [], [], [], [], false)

  /** The oldest job nobody was given, from id from on. */
  function OldestWaiting(jobs: map<nat, Entry>, from: nat, count: nat): (oldest: Option<nat>)
    ensures oldest.Some? ==> from <= oldest.value < count && oldest.value in jobs && !jobs[oldest.value].delivered
    ensures forall id :: from <= id < count && id in jobs && !jobs[id].delivered ==> oldest.Some? && oldest.value <= id
    decreases count - from
  {
    if from >= count then None
    else if from in jobs && !jobs[from].delivered then Some(from)
    else OldestWaiting(jobs, from + 1, count)
  }

  ghost predicate Enabled(s: Server, action: Action) {
    match action
    case ResultEnd(post, _) => post < |s.posts| && s.posts[post].Reading? && s.posts[post].id < |s.responses|
    case Timeout(id) => id in s.timers && id < |s.responses|
    case Close(id) => id < |s.responses| && !s.responses[id].destroyed
    case _ => |s.requests| == |s.responses|
  }

  function DoRequest(s: Server, job: Json, gone: bool): Server {
    var id := |s.responses|;
    s.(jobs := s.jobs[id := Entry(job, false)], timers := s.timers + {id}, requests := s.requests + [job],
       responses := s.responses + [Response(false, gone, None)])
  }

  function DoNext(s: Server): Server {
    match OldestWaiting(s.jobs, 0, |s.responses|)
    case None => s.(polls := s.polls + [None])
    case Some(id) => s.(jobs := s.jobs[id := s.jobs[id].(delivered := true)], polls := s.polls + [Some(id)])
  }

  function DoResultStart(s: Server, id: nat): Server {
    s.(posts := s.posts + [if id in s.jobs && s.jobs[id].delivered then Reading(id) else Ignored])
  }

  function DoResultEnd(s: Server, post: nat, body: Option<Json>): Server
    requires post < |s.posts| && s.posts[post].Reading? && s.posts[post].id < |s.responses|
  {
    var id := s.posts[post].id;
    if body.None? then s.(posts := s.posts[post := Refused(id)])
    else
      var cleared := s.(timers := s.timers - {id}, jobs := s.jobs - {id});
      if s.responses[id].headersSent then cleared.(posts := s.posts[post := Refused(id)])
      else cleared.(responses := s.responses[id := s.responses[id].Send(Answer(body.value))],
                    posts := s.posts[post := Taken(id, body.value)])
  }

  function DoTimeout(s: Server, id: nat): Server
    requires id < |s.responses|
  {
    var fired := s.(timers := s.timers - {id}, jobs := s.jobs - {id});
    if s.responses[id].destroyed then fired
    else if s.responses[id].headersSent then fired.(crashed := true)
    else fired.(responses := s.responses[id := s.responses[id].Send(GatewayTimeout)])
  }

  /** The listener is there unless the client left too early, and then it never runs. */
  function DoClose(s: Server, id: nat): Server
    requires id < |s.responses|
  {
    s.(timers := s.timers - {id}, jobs := s.jobs - {id},
       responses := s.responses[id := s.responses[id].(destroyed := true)])
  }

  function Do(s: Server, action: Action): Server
    requires Enabled(s, action)
  {
    match action
    case Request(job, gone) => DoRequest(s, job, gone)
    case Next => DoNext(s)
    case ResultStart(id) => DoResultStart(s, id)
    case ResultEnd(post, body) => DoResultEnd(s, post, body)
    case Timeout(id) => DoTimeout(s, id)
    case Close(id) => DoClose(s, id)
  }

  ghost predicate IsRun(run: seq<Server>, actions: seq<Action>) {
    && |run| == |actions| + 1 && run[0] == IDLE
    && forall k :: 0 <= k < |actions| ==> Enabled(run[k], actions[k]) && run[k + 1] == Do(run[k], actions[k])
  }

  // ---------------------------------------------------------------- what every step keeps

  ghost predicate Handed(s: Server, id: nat) {
    Some(id) in s.polls
  }

  /** A job is in the table as long as its timer is set, with its response unwritten; and a
      response that is neither written nor lost has its job in the table. */
  ghost predicate TableIsLive(s: Server) {
    && !s.crashed && |s.requests| == |s.responses|
    && (forall id :: id in s.jobs <==> id in s.timers)
    && (forall id :: id in s.jobs ==>
          id < |s.responses| && !s.responses[id].headersSent && s.jobs[id].job == s.requests[id])
    && forall id: nat :: id < |s.responses| && !s.responses[id].headersSent && !s.responses[id].destroyed ==>
        id in s.jobs
  }

  /** Jobs are handed out in the order they came, so none twice. */
  ghost predicate HandedInOrder(s: Server) {
    && (forall k :: 0 <= k < |s.polls| && s.polls[k].Some? ==> s.polls[k].value < |s.responses|)
    && (forall j, k :: 0 <= j < k < |s.polls| && s.polls[j].Some? && s.polls[k].Some? ==>
        s.polls[j].value < s.polls[k].value)
    && (forall id :: id in s.jobs && s.jobs[id].delivered ==> Handed(s, id))
    && forall id, k :: id in s.jobs && !s.jobs[id].delivered && 0 <= k < |s.polls| && s.polls[k].Some? ==>
        s.polls[k].value < id
  }

  /** An answer is the body of the one post taken for that job, which was handed out before. */
  ghost predicate AnswersAreOwn(s: Server) {
    && (forall p :: 0 <= p < |s.posts| && !s.posts[p].Ignored? ==>
          s.posts[p].id < |s.responses| && Handed(s, s.posts[p].id))
    && (forall p :: 0 <= p < |s.posts| && s.posts[p].Taken? ==> TakenIsReceived(s, s.posts[p].id, s.posts[p].body))
    && (forall p, q :: 0 <= p < q < |s.posts| && s.posts[p].Taken? && s.posts[q].Taken? ==>
        s.posts[p].id != s.posts[q].id)
    && forall id: nat :: id < |s.responses| ==> AnswerHasPost(s, id)
  }

  /** Once a post is taken, the requester has its body, unless it left before. */
  ghost predicate TakenIsReceived(s: Server, id: nat, body: Json) {
    && id < |s.responses| && s.responses[id].headersSent
    && s.responses[id].received in {Some(Answer(body)), None}
    && (s.responses[id].received == None ==> s.responses[id].destroyed)
  }

  ghost predicate AnswerHasPost(s: Server, id: nat)
    requires id < |s.responses|
  {
    && (s.responses[id].received.Some? ==> s.responses[id].headersSent)
    && (s.responses[id].headersSent && s.responses[id].received.None? ==> s.responses[id].destroyed)
    && (s.responses[id].received.Some? && s.responses[id].received.value.Answer? ==>
          exists p :: 0 <= p < |s.posts| && s.posts[p] == Taken(id, s.responses[id].received.value.body))
  }

  ghost predicate Sound(s: Server) {
    TableIsLive(s) && HandedInOrder(s) && AnswersAreOwn(s)
  }

  /** A job leaves the table, and its response, if it was open, is written or lost. */
  lemma DroppingKeepsTable(s: Server, t: Server, id: nat)
    requires TableIsLive(s) && id < |s.responses|
    requires t.jobs == s.jobs - {id} && t.timers == s.timers - {id}
    requires !t.crashed && t.requests == s.requests && |t.responses| == |s.responses|
    requires forall other: nat :: other < |s.responses| && other != id ==> t.responses[other] == s.responses[other]
    requires t.responses[id].headersSent || t.responses[id].destroyed
    ensures TableIsLive(t)
  {
  }

  lemma DoKeepsTable(s: Server, action: Action)
    requires TableIsLive(s) && Enabled(s, action)
    ensures TableIsLive(Do(s, action))
  {
    match action
    case ResultEnd(post, body) =>
      if body.Some? {
        DroppingKeepsTable(s, DoResultEnd(s, post, body), s.posts[post].id);
      }
    case Timeout(id) => DroppingKeepsTable(s, DoTimeout(s, id), id);
    case Close(id) => DroppingKeepsTable(s, DoClose(s, id), id);
    case _ =>
  }

  /** A poll that is given a job no earlier poll was given, and younger than all of theirs. */
  lemma HandingKeepsOrder(s: Server, id: nat)
    requires HandedInOrder(s) && id < |s.responses| && id in s.jobs && !s.jobs[id].delivered
    requires forall other :: other in s.jobs && !s.jobs[other].delivered ==> id <= other
    ensures HandedInOrder(s.(jobs := s.jobs[id := s.jobs[id].(delivered := true)], polls := s.polls + [Some(id)]))
  {
    var t := s.(jobs := s.jobs[id := s.jobs[id].(delivered := true)], polls := s.polls + [Some(id)]);
    assert t.polls[|s.polls|] == Some(id);
    forall other | other in t.jobs && t.jobs[other].delivered
      ensures Handed(t, other)
    {
      if other != id {
        assert Handed(s, other);
      }
    }
  }

  lemma NextKeepsOrder(s: Server)
    requires TableIsLive(s) && HandedInOrder(s)
    ensures HandedInOrder(DoNext(s))
  {
    var oldest := OldestWaiting(s.jobs, 0, |s.responses|);
    if oldest.Some? {
      HandingKeepsOrder(s, oldest.value);
    } else {
      PollingInVain(s);
    }
  }

  lemma PollingInVain(s: Server)
    requires HandedInOrder(s)
    ensures HandedInOrder(s.(polls := s.polls + [None]))
  {
    forall id | id in s.jobs && s.jobs[id].delivered
      ensures Handed(s.(polls := s.polls + [None]), id)
    {
      assert Handed(s, id);
    }
  }

  /** A step that polls nothing and hands on nothing. */
  lemma OthersKeepOrder(s: Server, t: Server)
    requires HandedInOrder(s) && t.polls == s.polls && |t.responses| >= |s.responses|
    requires forall id :: id in t.jobs ==>
              (id in s.jobs && t.jobs[id] == s.jobs[id]) || (id >= |s.responses| && !t.jobs[id].delivered)
    ensures HandedInOrder(t)
  {
    forall id | id in t.jobs && t.jobs[id].delivered
      ensures Handed(t, id)
    {
      assert Handed(s, id);
    }
  }

  lemma DoKeepsOrder(s: Server, action: Action)
    requires TableIsLive(s) && HandedInOrder(s) && Enabled(s, action)
    ensures HandedInOrder(Do(s, action))
    ensures forall id :: Handed(s, id) ==> Handed(Do(s, action), id)
  {
    if action.Next? {
      NextKeepsOrder(s);
    } else {
      OthersKeepOrder(s, Do(s, action));
    }
  }

  ghost predicate PostIsOwn(s: Server, p: nat)
    requires p < |s.posts|
  {
    && (!s.posts[p].Ignored? ==> s.posts[p].id < |s.responses| && Handed(s, s.posts[p].id))
    && (s.posts[p].Taken? ==> TakenIsReceived(s, s.posts[p].id, s.posts[p].body))
  }

  /** A response that stays as it is keeps its post. */
  lemma AnswerStays(s: Server, t: Server, id: nat)
    requires id < |s.responses| && AnswerHasPost(s, id)
    requires id < |t.responses|
    requires t.responses[id].received == s.responses[id].received
    requires t.responses[id].headersSent == s.responses[id].headersSent ||
             (t.responses[id].headersSent && t.responses[id].destroyed)
    requires s.responses[id].destroyed ==> t.responses[id].destroyed
    requires forall p :: 0 <= p < |s.posts| && s.posts[p].Taken? ==> p < |t.posts| && t.posts[p] == s.posts[p]
    ensures AnswerHasPost(t, id)
  {
    if s.responses[id].received.Some? && s.responses[id].received.value.Answer? {
      var p :| 0 <= p < |s.posts| && s.posts[p] == Taken(id, s.responses[id].received.value.body);
      assert t.posts[p] == s.posts[p];
    }
  }

  lemma AnswerKeepsPost(s: Server, action: Action, id: nat)
    requires Sound(s) && Enabled(s, action)
    requires id < |Do(s, action).responses|
    ensures AnswerHasPost(Do(s, action), id)
  {
    var t := Do(s, action);
    if id < |s.responses| {
      assert AnswerHasPost(s, id);
      if t.responses[id].received == s.responses[id].received {
        AnswerStays(s, t, id);
      } else if action.ResultEnd? {
        assert t.posts[action.post] == Taken(id, action.body.value);
      }
    }
  }

  lemma TakenOnce(s: Server, action: Action)
    requires Sound(s) && Enabled(s, action)
    ensures var t := Do(s, action);
            forall p, q :: 0 <= p < q < |t.posts| && t.posts[p].Taken? && t.posts[q].Taken? ==>
              t.posts[p].id != t.posts[q].id
  {
  }

  lemma DoKeepsAnswers(s: Server, action: Action)
    requires Sound(s) && Enabled(s, action)
    ensures AnswersAreOwn(Do(s, action))
  {
    var t := Do(s, action);
    DoKeepsOrder(s, action);
    TakenOnce(s, action);
    forall id: nat | id < |t.responses|
      ensures AnswerHasPost(t, id)
    {
      AnswerKeepsPost(s, action, id);
    }
    forall p: nat | p < |t.posts|
      ensures PostIsOwn(t, p)
    {
      PostStaysOwn(s, action, p);
    }
    CollectAnswers(t);
  }

  lemma CollectAnswers(t: Server)
    requires forall id: nat :: id < |t.responses| ==> AnswerHasPost(t, id)
    requires forall p: nat :: p < |t.posts| ==> PostIsOwn(t, p)
    requires forall p, q :: 0 <= p < q < |t.posts| && t.posts[p].Taken? && t.posts[q].Taken? ==>
              t.posts[p].id != t.posts[q].id
    ensures AnswersAreOwn(t)
  {
    assert forall p: nat {:trigger t.posts[p]} :: p < |t.posts| ==> PostIsOwn(t, p);
  }

  lemma TakenStays(s: Server, action: Action, id: nat, body: Json)
    requires Sound(s) && Enabled(s, action) && TakenIsReceived(s, id, body)
    ensures TakenIsReceived(Do(s, action), id, body)
  {
  }

  /** The post that ends now: its result is received, or dropped with the requester gone. */
  lemma EndedPostIsOwn(s: Server, post: nat, body: Option<Json>)
    requires Sound(s) && Enabled(s, ResultEnd(post, body))
    ensures PostIsOwn(DoResultEnd(s, post, body), post)
  {
    assert PostIsOwn(s, post);
    assert AnswerHasPost(s, s.posts[post].id);
    assert DoResultEnd(s, post, body).polls == s.polls;
  }

  lemma PostStaysOwn(s: Server, action: Action, p: nat)
    requires Sound(s) && Enabled(s, action)
    requires p < |Do(s, action).posts|
    requires forall id :: Handed(s, id) ==> Handed(Do(s, action), id)
    ensures PostIsOwn(Do(s, action), p)
  {
    if action.ResultEnd? && p == action.post {
      EndedPostIsOwn(s, p, action.body);
    } else if p < |s.posts| {
      assert PostIsOwn(s, p);
      assert Do(s, action).posts[p] == s.posts[p];
      if s.posts[p].Taken? {
        TakenStays(s, action, s.posts[p].id, s.posts[p].body);
      }
    }
  }

  /** In every run and after every step: no exception escapes, jobs are handed out at most once
      and in order, and answers are the jobs' own. */
  lemma {:induction false} EveryRunIsSound(run: seq<Server>, actions: seq<Action>)
    requires IsRun(run, actions)
    ensures forall k :: 0 <= k <= |actions| ==> Sound(run[k])
  {
    if actions != [] {
      var n := |actions| - 1;
      var before := run[..n + 1];
      assert IsRun(before, actions[..n]);
      EveryRunIsSound(before, actions[..n]);
      assert before[n] == run[n];
      Keeps(run[n], actions[n]);
      forall k | 0 <= k <= n
        ensures Sound(run[k])
      {
        assert before[k] == run[k];
      }
    }
  }

  /** What a requester was sent is final. */
  lemma AnswerIsFinal(s: Server, action: Action, id: nat)
    requires Sound(s) && Enabled(s, action) && id < |s.responses|
    ensures id < |Do(s, action).responses|
    ensures s.responses[id].received.Some? ==> Do(s, action).responses[id].received == s.responses[id].received
    ensures s.responses[id].destroyed ==> Do(s, action).responses[id].received == s.responses[id].received
  {
    assert AnswerHasPost(s, id);
  }

  lemma DoNeverReturnsJobs(s: Server, action: Action, id: nat)
    requires Enabled(s, action) && id < |s.responses| && id !in s.jobs
    ensures id < |Do(s, action).responses| && id !in Do(s, action).jobs
    ensures Handed(Do(s, action), id) ==> Handed(s, id)
  {
    if action.Next? && Handed(DoNext(s), id) {
      NextHandsFromTable(s, id);
    }
  }

  /** A job that left the table - answered, timed out, or with its requester gone - is in no later
      table, and no later poll is given it. */
  lemma {:induction false} JobsNeverReturn(run: seq<Server>, actions: seq<Action>, k: nat, m: nat, id: nat)
    requires IsRun(run, actions) && k <= m <= |actions|
    requires id < |run[k].responses| && id !in run[k].jobs
    ensures id < |run[m].responses| && id !in run[m].jobs
    ensures Handed(run[m], id) ==> Handed(run[k], id)
    decreases m - k
  {
    if k < m {
      JobsNeverReturn(run, actions, k, m - 1, id);
      DoNeverReturnsJobs(run[m - 1], actions[m - 1], id);
    }
  }

  lemma NextHandsFromTable(s: Server, id: nat)
    requires id !in s.jobs && Handed(DoNext(s), id)
    ensures Handed(s, id)
  {
    var t := DoNext(s);
    var k :| 0 <= k < |t.polls| && t.polls[k] == Some(id);
    if k < |s.polls| {
      assert s.polls[k] == Some(id);
    }
  }

  /** The three ways out of the table. */
  lemma JobsLeave(s: Server, action: Action)
    requires Sound(s) && Enabled(s, action)
    requires action.Timeout? || action.Close? || (action.ResultEnd? && action.body.Some?)
    ensures var id := if action.ResultEnd? then s.posts[action.post].id else action.id;
            id !in Do(s, action).jobs && id !in Do(s, action).timers
  {
  }

  /** A poll is given the oldest job nobody was given yet, and none only when there is none. */
  lemma PollTakesOldest(s: Server)
    requires Sound(s)
    ensures var t := DoNext(s);
            var waiting := set id | id in s.jobs && !s.jobs[id].delivered;
            match t.polls[|s.polls|]
            case None => waiting == {} && t.jobs == s.jobs
            case Some(id) => id in waiting && (forall other :: other in waiting ==> id <= other) && !Handed(s, id)
  {
    var t := DoNext(s);
    if t.polls[|s.polls|].None? {
      assert forall id :: id in s.jobs ==> id < |s.responses|;
    }
  }

  /** Nobody waits for ever: a requester that is still there and has no answer has its timer
      set, and the timer, when it fires first, sends the 504. */
  lemma WaitingHasATimer(s: Server, id: nat)
    requires Sound(s) && id < |s.responses|
    requires s.responses[id].received.None? && !s.responses[id].destroyed
    ensures Enabled(s, Timeout(id))
    ensures DoTimeout(s, id).responses[id].received == Some(GatewayTimeout)
  {
    assert AnswerHasPost(s, id);
  }

  /** Of several posts for one job only the first to end is taken: the others, and one that ends
      after the timeout, get a 400. */
  lemma LatePostIsRefused(s: Server, post: nat, body: Json)
    requires Sound(s) && Enabled(s, ResultEnd(post, Some(body)))
    ensures var id := s.posts[post].id;
            var t := DoResultEnd(s, post, Some(body));
            && (t.posts[post] == Refused(id) <==> s.responses[id].headersSent)
            && (t.posts[post] == Refused(id) ==> t == s.(posts := t.posts))
            && (t.posts[post] != Refused(id) && !s.responses[id].destroyed ==>
                  t.responses[id].received == Some(Answer(body)))
  {
  }

  // ---------------------------------------------------------------- a request can be answered

  lemma OneMoreStep(run: seq<Server>, actions: seq<Action>, action: Action)
    requires IsRun(run, actions) && Enabled(run[|actions|], action)
    ensures IsRun(run + [Do(run[|actions|], action)], actions + [action])
  {
    var longer, all := run + [Do(run[|actions|], action)], actions + [action];
    forall k | 0 <= k < |all|
      ensures Enabled(longer[k], all[k]) && longer[k + 1] == Do(longer[k], all[k])
    {
      assert k < |actions| ==> longer[k] == run[k] && longer[k + 1] == run[k + 1] && all[k] == actions[k];
    }
  }

  function Waiting(s: Server): set<nat> {
    set id | id in s.jobs && !s.jobs[id].delivered
  }

  lemma PollShrinks(s: Server, id: nat)
    requires Sound(s) && id in Waiting(s)
    ensures var t := DoNext(s);
            && Waiting(t) < Waiting(s) && t.responses == s.responses && t.requests == s.requests
            && t.posts == s.posts && id in t.jobs
  {
    PollTakesOldest(s);
    var oldest := OldestWaiting(s.jobs, 0, |s.responses|);
    assert oldest.Some? && oldest.value in Waiting(s) && oldest.value !in Waiting(DoNext(s));
  }

  /** Polls until the job is handed out. */
  lemma {:induction false} PollsReach(run: seq<Server>, actions: seq<Action>, id: nat)
    returns (run': seq<Server>, actions': seq<Action>)
    requires IsRun(run, actions) && id in run[|actions|].jobs
    ensures IsRun(run', actions') && actions <= actions'
    ensures forall k :: |actions| <= k < |actions'| ==> actions'[k] == Next
    ensures var s, t := run[|actions|], run'[|actions'|];
            && t.responses == s.responses && t.requests == s.requests && t.posts == s.posts
            && id in t.jobs && t.jobs[id].delivered
    decreases |Waiting(run[|actions|])|
  {
    var s := run[|actions|];
    if s.jobs[id].delivered {
      run', actions' := run, actions;
    } else {
      EveryRunIsSound(run, actions);
      assert id in Waiting(s);
      PollShrinks(s, id);
      Smaller(Waiting(DoNext(s)), Waiting(s));
      OneMoreStep(run, actions, Next);
      run', actions' := PollsReach(run + [DoNext(s)], actions + [Next], id);
    }
  }

  lemma Smaller(a: set<nat>, b: set<nat>)
    requires a < b
    ensures |a| < |b|
  {
    assert b == a + (b - a) && b - a != {};
  }

  lemma AnswerIsPosted(run: seq<Server>, actions: seq<Action>, id: nat, body: Json)
    returns (run': seq<Server>, actions': seq<Action>)
    requires IsRun(run, actions)
    requires var s := run[|actions|];
             Sound(s) && id in s.jobs && s.jobs[id].delivered && !s.responses[id].destroyed
    ensures IsRun(run', actions') && actions <= actions' && |actions'| == |actions| + 2
    ensures var s, t := run[|actions|], run'[|actions'|];
            && id < |t.responses| == |s.responses| && t.requests == s.requests
            && t.responses[id].received == Some(Answer(body)) && Handed(t, id)
  {
    var s := run[|actions|];
    var begin, end := ResultStart(id), ResultEnd(|s.posts|, Some(body));
    OneMoreStep(run, actions, begin);
    run', actions' := run + [Do(s, begin)], actions + [begin];
    var t := Do(s, begin);
    assert Handed(s, id);
    OneMoreStep(run', actions', end);
    run', actions' := run' + [Do(t, end)], actions' + [end];
  }

  /** After any run: a new request is handed out by polls alone, and what the browser then posts
      for it is what the requester gets. */
  lemma EveryRequestCanBeAnswered(run: seq<Server>, actions: seq<Action>, job: Json, body: Json)
    returns (run': seq<Server>, actions': seq<Action>)
    requires IsRun(run, actions)
    ensures IsRun(run', actions') && actions + [Request(job, false)] <= actions'
    ensures var id, t := |run[|actions|].responses|, run'[|actions'|];
            && (forall k :: |actions| < k < |actions'| - 2 ==> actions'[k] == Next)
            && id < |t.responses| == |t.requests| && t.requests[id] == job
            && t.responses[id].received == Some(Answer(body)) && Handed(t, id)
  {
    var s, request := run[|actions|], Request(job, false);
    var id := |s.responses|;
    EveryRunIsSound(run, actions);
    OneMoreStep(run, actions, request);
    run', actions' := PollsReach(run + [Do(s, request)], actions + [request], id);
    EveryRunIsSound(run', actions');
    run', actions' := AnswerIsPosted(run', actions', id, body);
  }

  // ---------------------------------------------------------------- the server

  /** createBridgeServer: each method is what a handler does between two suspensions. */
  class Bridge {
    var jobs: map<nat, Entry>
    var timers: set<nat>
    var responses: seq<Response>
    ghost var requests: seq<Json>
    ghost var polls: seq<Option<nat>>
    ghost var posts: seq<Post>

    ghost function State(): Server
      reads this
    {
      Server(jobs, timers, requests, responses, polls, posts, false)
    }

    constructor ()
      ensures State() == IDLE && Sound(State())
    {
      jobs, timers, responses, requests, polls, posts := map[], {}, [], [], [], [];
    }

    method Request(job: Json, gone: bool)
      requires Sound(State())
      modifies this
      ensures State() == Do(old(State()), Action.Request(job, gone)) && Sound(State())
    {
      Keeps(State(), Action.Request(job, gone));
      var id := |responses|;
      responses := responses + [Response(false, gone, None)];
      timers := timers + {id};
      jobs := jobs[id := Entry(job, false)];
      requests := requests + [job];
    }

    method Next() returns (pending: Option<(nat, Json)>)
      requires Sound(State())
      modifies this
      ensures State() == Do(old(State()), Action.Next) && Sound(State())
      ensures polls == old(polls) + [if pending.Some? then Some(pending.value.0) else None]
      ensures pending.Some? ==> pending.value.0 < |requests| && pending.value.1 == requests[pending.value.0]
    {
      Keeps(State(), Action.Next);
      var id := 0;
      while id < |responses| && !(id in jobs && !jobs[id].delivered)
        invariant id <= |responses|
        invariant OldestWaiting(jobs, 0, |responses|) == OldestWaiting(jobs, id, |responses|)
      {
        id := id + 1;
      }
      if id < |responses| {
        jobs := jobs[id := jobs[id].(delivered := true)];
        pending := Some((id, jobs[id].job));
        polls := polls + [Some(id)];
      } else {
        pending := None;
        polls := polls + [None];
      }
    }

    /** Up to the reading of the body. */
    method StartResult(id: nat) returns (reading: bool)
      requires Sound(State())
      modifies this`posts
      ensures State() == Do(old(State()), ResultStart(id)) && Sound(State())
      ensures posts == old(posts) + [if reading then Reading(id) else Ignored]
    {
      Keeps(State(), ResultStart(id));
      reading := id in jobs && jobs[id].delivered;
      posts := posts + [if reading then Reading(id) else Ignored];
    }

    /** From the body on. Writing to a response with its headers sent throws, and the poster gets
        a 400. */
    method EndResult(ghost post: nat, id: nat, body: Option<Json>) returns (taken: bool)
      requires Sound(State())
      requires post < |posts| && posts[post] == Reading(id)
      modifies this
      ensures State() == Do(old(State()), ResultEnd(post, body)) && Sound(State())
      ensures taken <==> posts[post].Taken?
    {
      Keeps(State(), ResultEnd(post, body));
      taken := false;
      if body.Some? {
        timers := timers - {id};
        jobs := jobs - {id};
        if !responses[id].headersSent {
          responses := responses[id := responses[id].Send(Answer(body.value))];
          taken := true;
        }
      }
      posts := posts[post := if taken then Taken(id, body.value) else Refused(id)];
    }

    /** The timer's callback: no headers were sent, so that writing them does not throw. */
    method Timeout(id: nat)
      requires Sound(State()) && id in timers
      modifies this
      ensures State() == Do(old(State()), Action.Timeout(id)) && Sound(State())
    {
      Keeps(State(), Action.Timeout(id));
      timers := timers - {id};
      jobs := jobs - {id};
      if !responses[id].destroyed {
        responses := responses[id := responses[id].Send(GatewayTimeout)];
      }
    }

    method Close(id: nat)
      requires Sound(State()) && id < |responses| && !responses[id].destroyed
      modifies this
      ensures State() == Do(old(State()), Action.Close(id)) && Sound(State())
    {
      Keeps(State(), Action.Close(id));
      responses := responses[id := responses[id].(destroyed := true)];
      timers := timers - {id};
      jobs := jobs - {id};
    }
  }

  lemma Keeps(s: Server, action: Action)
    requires Sound(s) && Enabled(s, action)
    ensures Sound(Do(s, action))
  {
    DoKeepsTable(s, action);
    DoKeepsOrder(s, action);
    DoKeepsAnswers(s, action);
  }
}
