/** One run of `main()` in `fix-missing/FixMissingAssignments.user.js`: the list walk over
    the list URL, the submissions walks of each chunk of assignment ids, and the PUT requests
    they issue.

    The network is an input (`Env`): the responses each walk receives, in request order, and
    whether a PUT is rejected (the script does not look at a PUT's status, so only a failed
    request rejects). The `Promise.all` fan-outs are run one after the other; every walk or
    write of a fan-out goes ahead (nothing cancels them) and the fan-out fails with the first
    failure in order. */
module FixMissingRun {
  import opened Js
  import opened Canvas
  import opened FixMissing

  /** A GET as `getAPI` reads it: status, `Link` header and JSON body, or a rejected request
      (network failure or a body that is not JSON) with the error's text. */
  datatype Response<T> = Response(status: nat, link: Option<string>, body: T) | NetworkError(text: string)

  /** Why a walk stopped before its last page. */
  datatype Fault =
    | HttpStatus(status: nat)
    | Rejected(text: string)
      /** `processAssignments` threw because an assignments page held a non-group. */
    | NotGroupsFault
      /** More requests than the environment supplies responses for. */
    | NoResponse

  /** How a walk (a promise chain) settled. */
  datatype Outcome = Done | Aborted(fault: Fault)

  /** Everything outside the script that a run depends on. */
  datatype Env = Env(
    cfg: Config,
    kind: ContextType,                                      // the page's context type
    contextId: Option<nat>,                                 // the item id in the path, if any
    listPages: seq<Response<Listing>>,                      // responses of the list walk
    batchPages: seq<nat> -> seq<Response<seq<Submission>>>, // responses of the walk of each id chunk
    putError: (nat, nat) -> Option<string>,                 // a PUT on (assignment, user) that fails
    cookie: string,                                         // `document.cookie`
    decode: string -> string)                               // `decodeURIComponent`

  /** `getCookie('_csrf_token')`, which `putAPI` puts into every request body; the cookie does
      not change during a run. */
  function Token(env: Env): string
  {
    GetCookie(env.cookie, "_csrf_token", env.decode)
  }

  /** `Promise.all` over the PUTs of one page: the first request that fails, in order. */
  function WritesSettle(env: Env, puts: seq<Put>): (o: Outcome)
    ensures o.Done? <==> forall k | 0 <= k < |puts| :: env.putError(puts[k].assignmentId, puts[k].userId).None?
    ensures o.Aborted? ==> o.fault.Rejected?
  {
    if |puts| == 0 then Done
    else match env.putError(puts[0].assignmentId, puts[0].userId)
      case Some(text) => Aborted(Rejected(text))
      case None =>
        var o := WritesSettle(env, puts[1..]);
        assert forall k | 1 <= k < |puts| :: puts[k] == puts[1..][k - 1];
        o
  }

  /** A response that ends a walk without being processed. */
  predicate Stops<T>(r: Response<T>)
  {
    r.NetworkError? || !IsOk(r.status)
  }

  // ---------------------------------------------------------------------------------------
  // The walks

  /** `getAPI(url, 'submissions')` from the `i`-th response on, `sent` being the PUTs issued
      so far: a non-ok status rejects with that status; an ok page has its submissions
      processed, and the walk follows the next link only once all its PUTs went through. */
  function BatchWalk(env: Env, pages: seq<Response<seq<Submission>>>, i: nat, sent: seq<Put>): (seq<Put>, Outcome)
    requires i <= |pages|
    decreases |pages| - i
  {
    if i == |pages| then (sent, Aborted(NoResponse))
    else match pages[i]
      case NetworkError(text) => (sent, Aborted(Rejected(text)))
      case Response(status, link, subs) =>
        if !IsOk(status) then (sent, Aborted(HttpStatus(status)))
        else
          var puts := PagePuts(env.cfg, subs, Token(env));
          var settled := WritesSettle(env, puts);
          if settled.Aborted? then (sent + puts, settled)
          else if NextLink(link).Some? then BatchWalk(env, pages, i + 1, sent + puts)
          else (sent + puts, Done)
  }

  /** `getSubmissions(assignmentIds)` from the `k`-th chunk on, `failed` being how the earlier
      chunks settled: every chunk's walk runs; the result is the first failure. */
  function ChunkWalk(env: Env, batches: seq<seq<nat>>, k: nat, sent: seq<Put>, failed: Outcome): (seq<Put>, Outcome)
    requires k <= |batches|
    decreases |batches| - k
  {
    if k == |batches| then (sent, failed)
    else
      var (sent1, o) := BatchWalk(env, env.batchPages(batches[k]), 0, sent);
      ChunkWalk(env, batches, k + 1, sent1, if failed.Aborted? then failed else o)
  }

  /** `getAPI(listUrl, 'assignments')` from the `i`-th of the list responses `pages` on. */
  function ListWalk(env: Env, pages: seq<Response<Listing>>, i: nat, sent: seq<Put>): (seq<Put>, Outcome)
    requires i <= |pages|
    decreases |pages| - i
  {
    if i == |pages| then (sent, Aborted(NoResponse))
    else match pages[i]
      case NetworkError(text) => (sent, Aborted(Rejected(text)))
      case Response(status, link, listing) =>
        if !IsOk(status) then (sent, Aborted(HttpStatus(status)))
        else match AssignmentIds(env.kind, env.contextId, listing)
          case NotGroups => (sent, Aborted(NotGroupsFault))
          case Ids(ids) =>
            var (sent1, o) := ChunkWalk(env, Batches(ids), 0, sent, Done);
            if o.Aborted? then (sent1, o)
            else if NextLink(link).Some? then ListWalk(env, pages, i + 1, sent1)
            else (sent1, Done)
  }

  // ---------------------------------------------------------------------------------------
  // What the requests carry

  /** From `sent` to `sent'` PUTs were only appended, and each new one writes the
      configuration's status with the page's CSRF token. */
  ghost predicate Grows(env: Env, sent: seq<Put>, sent': seq<Put>)
  {
    && sent <= sent'
    && forall k | |sent| <= k < |sent'| ::
         sent'[k].latePolicyStatus == ModeStatus(env.cfg) && sent'[k].token == Token(env)
  }

  lemma GrowsTransitive(env: Env, a: seq<Put>, b: seq<Put>, c: seq<Put>)
    requires Grows(env, a, b) && Grows(env, b, c)
    ensures Grows(env, a, c)
  {
    assert forall k | |a| <= k < |b| :: c[k] == b[k];
  }

  lemma PagePutsGrow(env: Env, sent: seq<Put>, subs: seq<Submission>)
    ensures Grows(env, sent, sent + PagePuts(env.cfg, subs, Token(env)))
  {
    var puts := PagePuts(env.cfg, subs, Token(env));
    assert forall k | |sent| <= k < |sent + puts| :: (sent + puts)[k] == puts[k - |sent|];
  }

  lemma {:induction false} BatchWalkGrows(env: Env, pages: seq<Response<seq<Submission>>>, i: nat, sent: seq<Put>)
    requires i <= |pages|
    ensures Grows(env, sent, BatchWalk(env, pages, i, sent).0)
    decreases |pages| - i
  {
    if i < |pages| && !Stops(pages[i]) {
      var subs := pages[i].body;
      var sent1 := sent + PagePuts(env.cfg, subs, Token(env));
      PagePutsGrow(env, sent, subs);
      if WritesSettle(env, sent1[|sent|..]).Done? && NextLink(pages[i].link).Some? {
        assert sent1[|sent|..] == PagePuts(env.cfg, subs, Token(env));
        BatchWalkGrows(env, pages, i + 1, sent1);
        GrowsTransitive(env, sent, sent1, BatchWalk(env, pages, i + 1, sent1).0);
      }
    }
  }

  lemma {:induction false} ChunkWalkGrows(env: Env, batches: seq<seq<nat>>, k: nat, sent: seq<Put>, failed: Outcome)
    requires k <= |batches|
    ensures Grows(env, sent, ChunkWalk(env, batches, k, sent, failed).0)
    decreases |batches| - k
  {
    if k == |batches| {
    } else {
      var (sent1, o) := BatchWalk(env, env.batchPages(batches[k]), 0, sent);
      BatchWalkGrows(env, env.batchPages(batches[k]), 0, sent);
      ChunkWalkGrows(env, batches, k + 1, sent1, if failed.Aborted? then failed else o);
      GrowsTransitive(env, sent, sent1, ChunkWalk(env, batches, k, sent, failed).0);
    }
  }

  lemma {:induction false} ListWalkGrows(env: Env, pages: seq<Response<Listing>>, i: nat, sent: seq<Put>)
    requires i <= |pages|
    ensures Grows(env, sent, ListWalk(env, pages, i, sent).0)
    decreases |pages| - i
  {
    if i < |pages| && !Stops(pages[i]) {
      var page := pages[i];
      match AssignmentIds(env.kind, env.contextId, page.body) {
        case NotGroups =>
        case Ids(ids) =>
          var (sent1, o) := ChunkWalk(env, Batches(ids), 0, sent, Done);
          ChunkWalkGrows(env, Batches(ids), 0, sent, Done);
          if o.Done? && NextLink(page.link).Some? {
            ListWalkGrows(env, pages, i + 1, sent1);
            GrowsTransitive(env, sent, sent1, ListWalk(env, pages, i + 1, sent1).0);
          }
      }
    }
  }

  /** Every PUT of a run writes the one status of its mode (`null` under `reset`, `'none'`
      otherwise) and carries the value of the last `_csrf_token` cookie. */
  lemma RunWritesModeStatus(env: Env)
    ensures forall p | p in ListWalk(env, env.listPages, 0, []).0 ::
      p.latePolicyStatus == ModeStatus(env.cfg) && p.token == Token(env)
  {
    ListWalkGrows(env, env.listPages, 0, []);
  }

  // ---------------------------------------------------------------------------------------
  // How a walk settles

  /** How `getAPI` rejects at the `j`-th response when it does not process it: with the
      request's error or the status, or `NoResponse` past the supplied responses. */
  function EndFault<T>(pages: seq<Response<T>>, j: nat): Fault
    requires j <= |pages| && (j == |pages| || Stops(pages[j]))
  {
    if j == |pages| then NoResponse
    else if pages[j].NetworkError? then Rejected(pages[j].text)
    else HttpStatus(pages[j].status)
  }

  /** An ok page after which `getAPI` requests the next one, `settle` saying how the processing
      of a page's body settles: the processing went through and the `Link` header has a next
      link. */
  predicate Continues<T>(r: Response<T>, settle: T -> Outcome)
  {
    !Stops(r) && settle(r.body).Done? && NextLink(r.link).Some?
  }

  /** The walk goes on from every response from the `i`-th up to (not including) the `j`-th. */
  predicate GoesOnBefore<T>(pages: seq<Response<T>>, i: nat, j: nat, settle: T -> Outcome)
    requires i <= j <= |pages|
    decreases j - i
  {
    i < j ==> Continues(pages[i], settle) && GoesOnBefore(pages, i + 1, j, settle)
  }

  /** How a `getAPI` walk from the `i`-th response on settles, page by page: rejected at a
      response it does not process, or past the supplied responses; on from a page it goes on
      from; and otherwise as the processing of that page settles (done when the page has no
      next link). */
  function WalkOutcome<T>(pages: seq<Response<T>>, i: nat, settle: T -> Outcome): Outcome
    requires i <= |pages|
    decreases |pages| - i
  {
    if i == |pages| || Stops(pages[i]) then Aborted(EndFault(pages, i))
    else if Continues(pages[i], settle) then WalkOutcome(pages, i + 1, settle)
    else settle(pages[i].body)
  }

  /** The bodies of the pages a `getAPI` walk processes from the `i`-th response on:
      consecutive ok pages, up to the first one after which the walk does not go on. */
  function Visited<T>(pages: seq<Response<T>>, i: nat, settle: T -> Outcome): (r: seq<T>)
    requires i <= |pages|
    ensures |r| <= |pages| - i
    ensures |r| > 0 ==> !Stops(pages[i + |r| - 1])
    decreases |pages| - i
  {
    if i == |pages| || Stops(pages[i]) then []
    else if Continues(pages[i], settle) then [pages[i].body] + Visited(pages, i + 1, settle)
    else [pages[i].body]
  }

  /** A walk that goes on from every page before the `j`-th and meets a failed request or a
      non-ok status there rejects with that request's error or that status; one that goes on
      from every page rejects with `NoResponse` past the last. */
  lemma {:induction false} WalkAbortsAt<T>(pages: seq<Response<T>>, i: nat, j: nat, settle: T -> Outcome)
    requires i <= j <= |pages| && (j == |pages| || Stops(pages[j])) && GoesOnBefore(pages, i, j, settle)
    ensures WalkOutcome(pages, i, settle) == Aborted(EndFault(pages, j))
    decreases j - i
  {
    if i < j {
      WalkAbortsAt(pages, i + 1, j, settle);
    }
  }

  /** A walk that goes on from every page before the `j`-th and processes that page without
      going on settles as the processing of that page does. */
  lemma {:induction false} WalkSettlesAt<T>(pages: seq<Response<T>>, i: nat, j: nat, settle: T -> Outcome)
    requires i <= j < |pages| && !Stops(pages[j]) && !Continues(pages[j], settle)
    requires GoesOnBefore(pages, i, j, settle)
    ensures WalkOutcome(pages, i, settle) == settle(pages[j].body)
    decreases j - i
  {
    if i < j {
      WalkSettlesAt(pages, i + 1, j, settle);
    }
  }

  // ---------------------------------------------------------------------------------------
  // The submissions walk

  /** How the PUTs of a submissions page settle (`Promise.all`). */
  function BatchSettle(env: Env): seq<Submission> -> Outcome
  {
    subs => WritesSettle(env, PagePuts(env.cfg, subs, Token(env)))
  }

  /** A submissions page after which the walk requests the next one: an ok page whose PUTs all
      went through and whose `Link` header has a next link. */
  predicate BatchContinues(env: Env, r: Response<seq<Submission>>)
  {
    !Stops(r) && WritesSettle(env, PagePuts(env.cfg, r.body, Token(env))).Done? && NextLink(r.link).Some?
  }

  /** The submissions walk goes on from a page exactly as a `getAPI` walk settling pages with
      `BatchSettle` does. */
  lemma BatchContinuesAsWalk(env: Env, r: Response<seq<Submission>>)
    ensures BatchContinues(env, r) <==> Continues(r, BatchSettle(env))
  {
  }

  /** One step of the pages a submissions walk processes, at an ok page. */
  lemma BatchVisitedStep(env: Env, pages: seq<Response<seq<Submission>>>, i: nat)
    requires i < |pages| && !Stops(pages[i])
    ensures BatchContinues(env, pages[i]) ==>
      Visited(pages, i, BatchSettle(env)) == [pages[i].body] + Visited(pages, i + 1, BatchSettle(env))
    ensures !BatchContinues(env, pages[i]) ==> Visited(pages, i, BatchSettle(env)) == [pages[i].body]
  {
    BatchContinuesAsWalk(env, pages[i]);
  }

  /** One step of `BatchWalk` at an ok page. */
  lemma BatchWalkStep(env: Env, pages: seq<Response<seq<Submission>>>, i: nat, sent: seq<Put>)
    requires i < |pages| && !Stops(pages[i])
    ensures BatchContinues(env, pages[i]) ==>
      BatchWalk(env, pages, i, sent) == BatchWalk(env, pages, i + 1, sent + PagePuts(env.cfg, pages[i].body, Token(env)))
    ensures !BatchContinues(env, pages[i]) ==>
      BatchWalk(env, pages, i, sent) ==
        (sent + PagePuts(env.cfg, pages[i].body, Token(env)), WritesSettle(env, PagePuts(env.cfg, pages[i].body, Token(env))))
  {
  }

  /** The PUTs of a page followed by more pages. */
  lemma PagePutsCons(cfg: Config, subs: seq<Submission>, rest: seq<seq<Submission>>, token: string)
    ensures PagePuts(cfg, Concat([subs] + rest), token) == PagePuts(cfg, subs, token) + PagePuts(cfg, Concat(rest), token)
    ensures PagePuts(cfg, Concat<Submission>([]), token) == []
  {
    ConcatCons(subs, rest);
    PagePutsAppend(cfg, subs, Concat(rest), token);
    assert Written(cfg, []) == [];
  }

  /** The PUTs of a submissions walk are those of its visited pages, in page order; a page the
      walk stops at without processing it (a non-ok status, a failed request) adds none. */
  lemma {:induction false} BatchWalkWritesVisited(env: Env, pages: seq<Response<seq<Submission>>>, i: nat, sent: seq<Put>)
    requires i <= |pages|
    ensures BatchWalk(env, pages, i, sent).0 == sent + PagePuts(env.cfg, Concat(Visited(pages, i, BatchSettle(env))), Token(env))
    decreases |pages| - i
  {
    if i == |pages| || Stops(pages[i]) {
      BatchWalkWritesStop(env, pages, i, sent);
    } else if BatchContinues(env, pages[i]) {
      BatchWalkWritesVisited(env, pages, i + 1, sent + PagePuts(env.cfg, pages[i].body, Token(env)));
      BatchWalkWritesOn(env, pages, i, sent);
    } else {
      BatchWalkWritesLast(env, pages, i, sent);
    }
  }

  lemma BatchWalkWritesStop(env: Env, pages: seq<Response<seq<Submission>>>, i: nat, sent: seq<Put>)
    requires i == |pages| || (i < |pages| && Stops(pages[i]))
    ensures BatchWalk(env, pages, i, sent).0 == sent + PagePuts(env.cfg, Concat(Visited(pages, i, BatchSettle(env))), Token(env))
  {
    PagePutsCons(env.cfg, [], [], Token(env));
    assert sent + [] == sent;
  }

  lemma BatchWalkWritesOn(env: Env, pages: seq<Response<seq<Submission>>>, i: nat, sent: seq<Put>)
    requires i < |pages| && BatchContinues(env, pages[i])
    requires var puts := PagePuts(env.cfg, pages[i].body, Token(env));
      BatchWalk(env, pages, i + 1, sent + puts).0 == sent + puts + PagePuts(env.cfg, Concat(Visited(pages, i + 1, BatchSettle(env))), Token(env))
    ensures BatchWalk(env, pages, i, sent).0 == sent + PagePuts(env.cfg, Concat(Visited(pages, i, BatchSettle(env))), Token(env))
  {
    var t := Token(env);
    var subs := pages[i].body;
    var puts := PagePuts(env.cfg, subs, t);
    var rest := Visited(pages, i + 1, BatchSettle(env));
    BatchVisitedStep(env, pages, i);
    BatchWalkStep(env, pages, i, sent);
    PagePutsCons(env.cfg, subs, rest, t);
    Reassociate(sent, puts, PagePuts(env.cfg, Concat(rest), t), sent + puts,
                PagePuts(env.cfg, Concat([subs] + rest), t), BatchWalk(env, pages, i + 1, sent + puts).0);
  }

  lemma BatchWalkWritesLast(env: Env, pages: seq<Response<seq<Submission>>>, i: nat, sent: seq<Put>)
    requires i < |pages| && !Stops(pages[i]) && !BatchContinues(env, pages[i])
    ensures BatchWalk(env, pages, i, sent).0 == sent + PagePuts(env.cfg, Concat(Visited(pages, i, BatchSettle(env))), Token(env))
  {
    var t := Token(env);
    var subs := pages[i].body;
    BatchVisitedStep(env, pages, i);
    BatchWalkStep(env, pages, i, sent);
    PagePutsCons(env.cfg, subs, [], t);
    assert [subs] + [] == [subs];
    assert PagePuts(env.cfg, subs, t) + [] == PagePuts(env.cfg, subs, t);
  }

  /** The PUTs issued once a submissions page has been processed. */
  function BatchSent(env: Env, r: Response<seq<Submission>>, sent: seq<Put>): seq<Put>
    requires r.Response?
  {
    sent + PagePuts(env.cfg, r.body, Token(env))
  }

  /** A `BatchWalk` at a response it does not process, or past the last, rejects there. */
  lemma BatchWalkStops(env: Env, pages: seq<Response<seq<Submission>>>, i: nat, sent: seq<Put>)
    requires i <= |pages| && (i == |pages| || Stops(pages[i]))
    ensures BatchWalk(env, pages, i, sent).1 == Aborted(EndFault(pages, i))
  {
  }

  /** `BatchWalk` settles as the `getAPI` walk over its responses does, whatever PUTs were
      issued before. */
  lemma {:induction false} BatchWalkSettles(env: Env, pages: seq<Response<seq<Submission>>>, i: nat, sent: seq<Put>)
    requires i <= |pages|
    ensures BatchWalk(env, pages, i, sent).1 == WalkOutcome(pages, i, BatchSettle(env))
    decreases |pages| - i
  {
    if i < |pages| && !Stops(pages[i]) {
      BatchWalkStep(env, pages, i, sent);
      BatchContinuesAsWalk(env, pages[i]);
      if BatchContinues(env, pages[i]) {
        BatchWalkSettles(env, pages, i + 1, BatchSent(env, pages[i], sent));
      }
    } else {
      BatchWalkStops(env, pages, i, sent);
    }
  }

  /** A submissions walk rejects at the first response it does not process: with that
      request's error or that status, or with `NoResponse` past the last response. */
  lemma BatchWalkAbortsAt(env: Env, pages: seq<Response<seq<Submission>>>, i: nat, j: nat, sent: seq<Put>)
    requires i <= j <= |pages| && (j == |pages| || Stops(pages[j])) && GoesOnBefore(pages, i, j, BatchSettle(env))
    ensures BatchWalk(env, pages, i, sent).1 == Aborted(EndFault(pages, j))
  {
    BatchWalkSettles(env, pages, i, sent);
    WalkAbortsAt(pages, i, j, BatchSettle(env));
  }

  /** A submissions walk that processes the `j`-th page without going on settles as that page's
      PUTs do: done when the page has no next link and all of them went through, and rejected
      with the first failed PUT's error otherwise. */
  lemma BatchWalkSettlesAt(env: Env, pages: seq<Response<seq<Submission>>>, i: nat, j: nat, sent: seq<Put>)
    requires i <= j < |pages| && !Stops(pages[j]) && !BatchContinues(env, pages[j])
    requires GoesOnBefore(pages, i, j, BatchSettle(env))
    ensures BatchWalk(env, pages, i, sent).1 == WritesSettle(env, PagePuts(env.cfg, pages[j].body, Token(env)))
  {
    BatchWalkSettles(env, pages, i, sent);
    BatchContinuesAsWalk(env, pages[j]);
    WalkSettlesAt(pages, i, j, BatchSettle(env));
  }

  /** How a submissions walk settles does not depend on the PUTs issued before it. */
  lemma {:induction false} BatchOutcomeOfAnySent(env: Env, pages: seq<Response<seq<Submission>>>, i: nat, a: seq<Put>, b: seq<Put>)
    requires i <= |pages|
    ensures BatchWalk(env, pages, i, a).1 == BatchWalk(env, pages, i, b).1
    decreases |pages| - i
  {
    if i < |pages| && !Stops(pages[i]) {
      BatchWalkStep(env, pages, i, a);
      BatchWalkStep(env, pages, i, b);
      if BatchContinues(env, pages[i]) {
        var puts := PagePuts(env.cfg, pages[i].body, Token(env));
        BatchOutcomeOfAnySent(env, pages, i + 1, a + puts, b + puts);
      }
    }
  }

  /** Nor does how the submissions walks of a list page settle together. */
  lemma {:induction false} ChunkOutcomeOfAnySent(env: Env, batches: seq<seq<nat>>, k: nat, a: seq<Put>, b: seq<Put>, failed: Outcome)
    requires k <= |batches|
    ensures ChunkWalk(env, batches, k, a, failed).1 == ChunkWalk(env, batches, k, b, failed).1
    decreases |batches| - k
  {
    if k < |batches| {
      var pages := env.batchPages(batches[k]);
      BatchOutcomeOfAnySent(env, pages, 0, a, b);
      var o := BatchWalk(env, pages, 0, a).1;
      ChunkOutcomeOfAnySent(env, batches, k + 1, BatchWalk(env, pages, 0, a).0, BatchWalk(env, pages, 0, b).0,
                            if failed.Aborted? then failed else o);
    }
  }

  /** The PUTs of the submissions walks of chunks `k` on, each walk on its own. */
  function ChunkPuts(env: Env, batches: seq<seq<nat>>, k: nat): seq<Put>
    requires k <= |batches|
    decreases |batches| - k
  {
    if k == |batches| then []
    else BatchWalk(env, env.batchPages(batches[k]), 0, []).0 + ChunkPuts(env, batches, k + 1)
  }

  /** One chunk's walk within `getSubmissions`. */
  lemma ChunkWalkStep(env: Env, batches: seq<seq<nat>>, k: nat, sent: seq<Put>, failed: Outcome)
    requires k < |batches|
    ensures var w := BatchWalk(env, env.batchPages(batches[k]), 0, sent);
      ChunkWalk(env, batches, k, sent, failed) == ChunkWalk(env, batches, k + 1, w.0, if failed.Aborted? then failed else w.1)
    ensures ChunkPuts(env, batches, k) == BatchWalk(env, env.batchPages(batches[k]), 0, []).0 + ChunkPuts(env, batches, k + 1)
  {
  }

  /** A submissions walk adds its own PUTs to those issued before. */
  lemma BatchWalkFrom(env: Env, pages: seq<Response<seq<Submission>>>, sent: seq<Put>)
    ensures BatchWalk(env, pages, 0, sent).0 == sent + BatchWalk(env, pages, 0, []).0
  {
    BatchWalkWritesVisited(env, pages, 0, sent);
    BatchWalkWritesVisited(env, pages, 0, []);
    assert [] + PagePuts(env.cfg, Concat(Visited(pages, 0, BatchSettle(env))), Token(env))
        == PagePuts(env.cfg, Concat(Visited(pages, 0, BatchSettle(env))), Token(env));
  }

  /** Every chunk's walk runs, whether or not an earlier one failed: the PUTs of the chunks'
      walks are those of each walk on its own, in chunk order. */
  lemma {:induction false} ChunkWalkWrites(env: Env, batches: seq<seq<nat>>, k: nat, sent: seq<Put>, failed: Outcome)
    requires k <= |batches|
    ensures ChunkWalk(env, batches, k, sent, failed).0 == sent + ChunkPuts(env, batches, k)
    decreases |batches| - k
  {
    if k == |batches| {
      assert sent + [] == sent;
    } else {
      var pages := env.batchPages(batches[k]);
      var w := BatchWalk(env, pages, 0, sent);
      ChunkWalkStep(env, batches, k, sent, failed);
      BatchWalkFrom(env, pages, sent);
      ChunkWalkWrites(env, batches, k + 1, w.0, if failed.Aborted? then failed else w.1);
      Reassociate(sent, BatchWalk(env, pages, 0, []).0, ChunkPuts(env, batches, k + 1), w.0,
                  ChunkPuts(env, batches, k), ChunkWalk(env, batches, k, sent, failed).0);
    }
  }

  /** How the processing of an assignments page settles: a non-group in a course rejects;
      otherwise the walks of its id chunks settle with the first failure among them. */
  function ListingOutcome(env: Env, listing: Listing): Outcome
  {
    match AssignmentIds(env.kind, env.contextId, listing)
    case NotGroups => Aborted(NotGroupsFault)
    case Ids(ids) => ChunkWalk(env, Batches(ids), 0, [], Done).1
  }

  /** `ListingOutcome` as the page processing of a `getAPI` walk. */
  function ListSettle(env: Env): Listing -> Outcome
  {
    listing => ListingOutcome(env, listing)
  }

  /** An assignments page after which the list walk requests the next one. */
  predicate ListContinues(env: Env, r: Response<Listing>)
  {
    !Stops(r) && ListingOutcome(env, r.body).Done? && NextLink(r.link).Some?
  }

  /** The list walk goes on from a page exactly as a `getAPI` walk settling pages with
      `ListSettle` does. */
  lemma ListContinuesAsWalk(env: Env, r: Response<Listing>)
    ensures ListContinues(env, r) <==> Continues(r, ListSettle(env))
  {
  }

  /** The PUTs issued once an assignments page has been processed. */
  function ListSent(env: Env, r: Response<Listing>, sent: seq<Put>): seq<Put>
    requires r.Response?
  {
    match AssignmentIds(env.kind, env.contextId, r.body)
    case NotGroups => sent
    case Ids(ids) => ChunkWalk(env, Batches(ids), 0, sent, Done).0
  }

  /** One step of `ListWalk` at an ok page. */
  lemma ListWalkStep(env: Env, pages: seq<Response<Listing>>, i: nat, sent: seq<Put>)
    requires i < |pages| && !Stops(pages[i])
    ensures ListContinues(env, pages[i]) ==>
      ListWalk(env, pages, i, sent) == ListWalk(env, pages, i + 1, ListSent(env, pages[i], sent))
    ensures !ListContinues(env, pages[i]) ==> ListWalk(env, pages, i, sent).1 == ListingOutcome(env, pages[i].body)
  {
    match AssignmentIds(env.kind, env.contextId, pages[i].body) {
      case NotGroups =>
      case Ids(ids) => ChunkOutcomeOfAnySent(env, Batches(ids), 0, sent, [], Done);
    }
  }

  /** A `ListWalk` at a response it does not process, or past the last, rejects there. */
  lemma ListWalkStops(env: Env, pages: seq<Response<Listing>>, i: nat, sent: seq<Put>)
    requires i <= |pages| && (i == |pages| || Stops(pages[i]))
    ensures ListWalk(env, pages, i, sent).1 == Aborted(EndFault(pages, i))
  {
  }
  /** The PUTs the processing of an assignments page issues: none for a non-group in a course,
      and otherwise those of its id chunks' walks. */
  function ListingPuts(env: Env, listing: Listing): seq<Put>
  {
    match AssignmentIds(env.kind, env.contextId, listing)
    case NotGroups => []
    case Ids(ids) => ChunkPuts(env, Batches(ids), 0)
  }

  /** The PUTs of processing assignments pages one after another. */
  function ListingsPuts(env: Env, listings: seq<Listing>): seq<Put>
    decreases |listings|
  {
    if listings == [] then [] else ListingPuts(env, listings[0]) + ListingsPuts(env, listings[1..])
  }

  /** Processing an assignments page adds its own PUTs to those issued before. */
  lemma ListSentWrites(env: Env, r: Response<Listing>, sent: seq<Put>)
    requires r.Response?
    ensures ListSent(env, r, sent) == sent + ListingPuts(env, r.body)
  {
    match AssignmentIds(env.kind, env.contextId, r.body) {
      case NotGroups => assert sent + [] == sent;
      case Ids(ids) => ChunkWalkWrites(env, Batches(ids), 0, sent, Done);
    }
  }

  /** The PUTs of a list walk are those of the assignments pages it processes, in page order; a
      page the walk stops at without processing it (a non-ok status, a failed request) adds none. */
  lemma {:induction false} ListWalkWritesVisited(env: Env, pages: seq<Response<Listing>>, i: nat, sent: seq<Put>)
    requires i <= |pages|
    ensures ListWalk(env, pages, i, sent).0 == sent + ListingsPuts(env, Visited(pages, i, ListSettle(env)))
    decreases |pages| - i
  {
    if i == |pages| || Stops(pages[i]) {
      ListWalkWritesStop(env, pages, i, sent);
    } else if ListContinues(env, pages[i]) {
      ListWalkWritesVisited(env, pages, i + 1, sent + ListingPuts(env, pages[i].body));
      ListWalkWritesOn(env, pages, i, sent);
    } else {
      ListWalkWritesLast(env, pages, i, sent);
    }
  }

  lemma ListWalkWritesStop(env: Env, pages: seq<Response<Listing>>, i: nat, sent: seq<Put>)
    requires i == |pages| || (i < |pages| && Stops(pages[i]))
    ensures ListWalk(env, pages, i, sent).0 == sent + ListingsPuts(env, Visited(pages, i, ListSettle(env)))
  {
    assert sent + [] == sent;
  }

  /** One step of the pages a list walk processes, at an ok page. */
  lemma ListVisitedStep(env: Env, pages: seq<Response<Listing>>, i: nat)
    requires i < |pages| && !Stops(pages[i])
    ensures ListContinues(env, pages[i]) ==>
      Visited(pages, i, ListSettle(env)) == [pages[i].body] + Visited(pages, i + 1, ListSettle(env))
    ensures !ListContinues(env, pages[i]) ==> Visited(pages, i, ListSettle(env)) == [pages[i].body]
  {
    ListContinuesAsWalk(env, pages[i]);
  }

  lemma ListWalkWritesOn(env: Env, pages: seq<Response<Listing>>, i: nat, sent: seq<Put>)
    requires i < |pages| && ListContinues(env, pages[i])
    requires var puts := ListingPuts(env, pages[i].body);
      ListWalk(env, pages, i + 1, sent + puts).0 == sent + puts + ListingsPuts(env, Visited(pages, i + 1, ListSettle(env)))
    ensures ListWalk(env, pages, i, sent).0 == sent + ListingsPuts(env, Visited(pages, i, ListSettle(env)))
  {
    var listing := pages[i].body;
    var puts := ListingPuts(env, listing);
    var rest := Visited(pages, i + 1, ListSettle(env));
    ListVisitedStep(env, pages, i);
    ListWalkStep(env, pages, i, sent);
    ListSentWrites(env, pages[i], sent);
    ListingsPutsCons(env, listing, rest);
    Reassociate(sent, puts, ListingsPuts(env, rest), sent + puts,
                ListingsPuts(env, [listing] + rest), ListWalk(env, pages, i + 1, sent + puts).0);
  }

  /** The PUTs of processing assignments pages, page by page. */
  lemma ListingsPutsCons(env: Env, listing: Listing, rest: seq<Listing>)
    ensures ListingsPuts(env, [listing] + rest) == ListingPuts(env, listing) + ListingsPuts(env, rest)
    ensures ListingsPuts(env, []) == []
  {
    assert ([listing] + rest)[0] == listing && ([listing] + rest)[1..] == rest;
  }

  /** A list walk that processes a page without going on issues that page's PUTs last. */
  lemma ListWalkLast(env: Env, pages: seq<Response<Listing>>, i: nat, sent: seq<Put>)
    requires i < |pages| && !Stops(pages[i]) && !ListContinues(env, pages[i])
    ensures ListWalk(env, pages, i, sent).0 == ListSent(env, pages[i], sent)
  {
    match AssignmentIds(env.kind, env.contextId, pages[i].body) {
      case NotGroups =>
      case Ids(ids) => ChunkOutcomeOfAnySent(env, Batches(ids), 0, sent, [], Done);
    }
  }

  lemma ListWalkWritesLast(env: Env, pages: seq<Response<Listing>>, i: nat, sent: seq<Put>)
    requires i < |pages| && !Stops(pages[i]) && !ListContinues(env, pages[i])
    ensures ListWalk(env, pages, i, sent).0 == sent + ListingsPuts(env, Visited(pages, i, ListSettle(env)))
  {
    var listing := pages[i].body;
    ListVisitedStep(env, pages, i);
    ListSentWrites(env, pages[i], sent);
    ListWalkLast(env, pages, i, sent);
    ListingsPutsCons(env, listing, []);
    assert [listing] + [] == [listing];
    assert ListingPuts(env, listing) + [] == ListingPuts(env, listing);
  }

  /** `ListWalk` settles as the `getAPI` walk over its responses does, whatever PUTs were
      issued before. */
  lemma {:induction false} ListWalkSettles(env: Env, pages: seq<Response<Listing>>, i: nat, sent: seq<Put>)
    requires i <= |pages|
    ensures ListWalk(env, pages, i, sent).1 == WalkOutcome(pages, i, ListSettle(env))
    decreases |pages| - i
  {
    if i < |pages| && !Stops(pages[i]) {
      ListWalkStep(env, pages, i, sent);
      ListContinuesAsWalk(env, pages[i]);
      if ListContinues(env, pages[i]) {
        ListWalkSettles(env, pages, i + 1, ListSent(env, pages[i], sent));
      }
    } else {
      ListWalkStops(env, pages, i, sent);
    }
  }

  /** A list walk rejects at the first response it does not process: with that request's
      error or that status, or with `NoResponse` past the last response. */
  lemma ListWalkAbortsAt(env: Env, pages: seq<Response<Listing>>, i: nat, j: nat, sent: seq<Put>)
    requires i <= j <= |pages| && (j == |pages| || Stops(pages[j])) && GoesOnBefore(pages, i, j, ListSettle(env))
    ensures ListWalk(env, pages, i, sent).1 == Aborted(EndFault(pages, j))
  {
    ListWalkSettles(env, pages, i, sent);
    WalkAbortsAt(pages, i, j, ListSettle(env));
  }

  /** A list walk that processes the `j`-th page without going on settles as the processing of
      that page does: rejected for a non-group in a course or with the first failure of its
      chunks' walks, and done when those all went through and the page has no next link. */
  lemma ListWalkSettlesAt(env: Env, pages: seq<Response<Listing>>, i: nat, j: nat, sent: seq<Put>)
    requires i <= j < |pages| && !Stops(pages[j]) && !ListContinues(env, pages[j])
    requires GoesOnBefore(pages, i, j, ListSettle(env))
    ensures ListWalk(env, pages, i, sent).1 == ListingOutcome(env, pages[j].body)
  {
    ListWalkSettles(env, pages, i, sent);
    ListContinuesAsWalk(env, pages[j]);
    WalkSettlesAt(pages, i, j, ListSettle(env));
  }

  /** A walk does not look past a response that stops it: two response sequences that agree
      up to and including that response give the same result. */
  lemma {:induction false} BatchWalkStopsAt(env: Env, pages: seq<Response<seq<Submission>>>,
                                            others: seq<Response<seq<Submission>>>, i: nat, j: nat, sent: seq<Put>)
    requires i <= j < |pages| && j < |others|
    requires pages[..j + 1] == others[..j + 1]
    requires Stops(pages[j])
    ensures BatchWalk(env, pages, i, sent) == BatchWalk(env, others, i, sent)
    decreases j - i, 1
  {
    assert pages[i] == pages[..j + 1][i] == others[..j + 1][i] == others[i];
    if i < j && !Stops(pages[i]) {
      BatchWalkStopsPast(env, pages, others, i, j, sent);
    }
  }

  /** The step of `BatchWalkStopsAt` past an ok page. */
  lemma {:induction false} BatchWalkStopsPast(env: Env, pages: seq<Response<seq<Submission>>>,
                                              others: seq<Response<seq<Submission>>>, i: nat, j: nat, sent: seq<Put>)
    requires i < j < |pages| && j < |others|
    requires pages[..j + 1] == others[..j + 1]
    requires Stops(pages[j]) && pages[i] == others[i] && !Stops(pages[i])
    ensures BatchWalk(env, pages, i, sent) == BatchWalk(env, others, i, sent)
    decreases j - i, 0
  {
    BatchWalkStep(env, pages, i, sent);
    BatchWalkStep(env, others, i, sent);
    BatchWalkStopsAt(env, pages, others, i + 1, j, BatchSent(env, pages[i], sent));
  }

  /** The same for the list walk: no list page after a non-ok or failed response is
      requested. */
  lemma {:induction false} ListWalkStopsAt(env: Env, pages: seq<Response<Listing>>, others: seq<Response<Listing>>,
                                           i: nat, j: nat, sent: seq<Put>)
    requires i <= j < |pages| && j < |others|
    requires pages[..j + 1] == others[..j + 1]
    requires Stops(pages[j])
    ensures ListWalk(env, pages, i, sent) == ListWalk(env, others, i, sent)
    decreases j - i
  {
    assert pages[i] == pages[..j + 1][i] == others[..j + 1][i] == others[i];
    if i < j && !Stops(pages[i]) {
      match AssignmentIds(env.kind, env.contextId, pages[i].body) {
        case NotGroups =>
        case Ids(ids) =>
          ListWalkStopsAt(env, pages, others, i + 1, j, ListSent(env, pages[i], sent));
      }
    }
  }

  // ---------------------------------------------------------------------------------------
  // The script's functions

  /** `getAPI(url, 'submissions')` for one chunk of assignment ids. */
  method WalkBatch(env: Env, ids: seq<nat>, sent: seq<Put>) returns (out: seq<Put>, outcome: Outcome)
    ensures (out, outcome) == BatchWalk(env, env.batchPages(ids), 0, sent)
  {
    var pages := env.batchPages(ids);
    ghost var goal := BatchWalk(env, pages, 0, sent);
    out := sent;
    var i := 0;
    while i < |pages|
      invariant i <= |pages|
      invariant BatchWalk(env, pages, i, out) == goal
      decreases |pages| - i
    {
      match pages[i] {
        case NetworkError(text) =>
          return out, Aborted(Rejected(text));
        case Response(status, link, subs) =>
          if !IsOk(status) {
            return out, Aborted(HttpStatus(status));
          }
          var nextUrl := NextLink(link);
          var puts := ProcessSubmissions(env.cfg, subs, Token(env));
          out := out + puts;
          var settled := WritesSettle(env, puts);
          if settled.Aborted? {
            return out, settled;
          }
          if nextUrl.None? {
            return out, Done;
          }
          i := i + 1;
      }
    }
    return out, Aborted(NoResponse);
  }

  /** `getSubmissions(assignmentIds)`: one submissions walk per chunk. */
  method GetSubmissions(env: Env, assignmentIds: seq<nat>, sent: seq<Put>) returns (out: seq<Put>, outcome: Outcome)
    ensures (out, outcome) == ChunkWalk(env, Batches(assignmentIds), 0, sent, Done)
  {
    var batches := GetBatches(assignmentIds);
    ghost var goal := ChunkWalk(env, batches, 0, sent, Done);
    out := sent;
    outcome := Done;
    for k := 0 to |batches|
      invariant ChunkWalk(env, batches, k, out, outcome) == goal
    {
      var o;
      out, o := WalkBatch(env, batches[k], out);
      if outcome.Done? {
        outcome := o;
      }
    }
  }

  /** `main()`: `getAPI(listUrl, 'assignments')`, whose failure is only logged. */
  method Run(env: Env) returns (sent: seq<Put>, outcome: Outcome)
    ensures (sent, outcome) == ListWalk(env, env.listPages, 0, [])
  {
    var pages := env.listPages;
    ghost var goal := ListWalk(env, pages, 0, []);
    sent := [];
    var i := 0;
    while i < |pages|
      invariant i <= |pages|
      invariant ListWalk(env, pages, i, sent) == goal
      decreases |pages| - i
    {
      match pages[i] {
        case NetworkError(text) =>
          return sent, Aborted(Rejected(text));
        case Response(status, link, listing) =>
          if !IsOk(status) {
            return sent, Aborted(HttpStatus(status));
          }
          var nextUrl := NextLink(link);
          var scan := ProcessAssignments(env.kind, env.contextId, listing);
          if scan.NotGroups? {
            return sent, Aborted(NotGroupsFault);
          }
          var o;
          sent, o := GetSubmissions(env, scan.ids, sent);
          if o.Aborted? {
            return sent, o;
          }
          if nextUrl.None? {
            return sent, Done;
          }
          i := i + 1;
      }
    }
    return sent, Aborted(NoResponse);
  }
}
