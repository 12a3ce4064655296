/** One run of `fix_late` in `fix-late/FixLateAssignments.user.js`: the list walk over the page's
    list endpoint, the submissions walk per item, the late-penalty writes and the run counters
    `totalUpdated` and `errors`.

    The network is an input (`Env`): the responses each walk receives, in request order, and
    the reply the server gives to a PUT on a submission. The script's `Promise.all` fan-outs
    are run one after the other; every walk of a fan-out runs to its own end (the script does
    not cancel them) and the fan-out fails with the first failure in order. */
module FixLateRun {
  import opened Js
  import opened Canvas
  import opened FixLate

  /** A GET as `getAPI` reads it: the JSON body and the `Link` header, or a rejected request
      (network failure or a body that is not JSON) with the error's `toString()`. */
  datatype Fetched<T> = Page(data: T, link: Option<string>) | Failed(text: string)

  /** Why a walk stopped before its last page. */
  datatype Fault =
    | Rejected(text: string)
      /** The page processing threw because an assignment-groups body held a non-group. */
    | NotGroupsFault
      /** More requests than the environment supplies responses for. */
    | NoResponse

  /** How a walk (a promise chain) settled. */
  datatype Outcome = Done | Aborted(fault: Fault)

  /** One entry of `errors`: a failed write (`Failed to update submission <id>: <cause>`) or the
      error that rejected the whole run. */
  datatype Failure = WriteFailed(submissionId: nat, cause: Cause) | RunFailed(fault: Fault)

  /** Everything outside the script that a run depends on. */
  datatype Env = Env(
    kind: ContextType,                                    // the page's context type
    single: bool,                                         // the page is a single item (`isSingleItem`)
    listPages: seq<Fetched<Listing>>,                     // responses of the list walk
    submissionPages: nat -> seq<Fetched<seq<Submission>>>, // responses of each assignment's submissions walk
    reply: (nat, nat) -> WriteReply,                      // reply to a PUT on (assignment, user)
    meta: Option<Option<string>>,                         // `<meta name="csrf-token">` and its content
    cookie: string,                                       // `document.cookie`
    decode: string -> string)                             // `decodeURIComponent`

  /** The token `putAPI` obtains from `getCsrfToken()`; the page does not change during a run. */
  function Token(env: Env): Option<string>
  {
    GetCsrfToken(env.meta, env.cookie, env.decode)
  }

  /** The script's module-level run state, plus the PUT requests the server has received. */
  datatype RunState = RunState(totalUpdated: nat, errors: seq<Failure>, sent: seq<Put>)

  /** The request `removeLatePenalty` sends: `late_policy_status: 'none'` on the submission's
      (assignment, user). */
  function LatePut(s: Submission, token: string): Put
  {
    Put(s.assignmentId, s.userId, Some("none"), token)
  }

  /** A reply that makes `putAPI` fulfil. */
  predicate Accepted(reply: WriteReply)
  {
    reply.Replied? && IsOk(reply.status)
  }

  // ---------------------------------------------------------------------------------------
  // removeLatePenalty and processSubmissions

  /** `removeLatePenalty(submission)`: one PUT (none without a CSRF token); a fulfilled PUT adds
      exactly 1 to `totalUpdated`, a rejected one appends exactly one error and leaves
      `totalUpdated` alone. The error names the submission and why `putAPI` rejected: the
      missing token, the non-2xx status, or the failed request's error. */
  function RemoveLatePenaltySpec(env: Env, st: RunState, s: Submission): (st': RunState)
    ensures Truthy(Token(env)) ==> st'.sent == st.sent + [LatePut(s, Token(env).value)]
    ensures !Truthy(Token(env)) ==> st'.sent == st.sent
    ensures Truthy(Token(env)) && Accepted(env.reply(s.assignmentId, s.userId)) ==>
      st'.totalUpdated == st.totalUpdated + 1 && st'.errors == st.errors
    ensures !(Truthy(Token(env)) && Accepted(env.reply(s.assignmentId, s.userId))) ==>
      st'.totalUpdated == st.totalUpdated && |st'.errors| == |st.errors| + 1 && st'.errors[..|st.errors|] == st.errors
      && st'.errors[|st.errors|].WriteFailed? && st'.errors[|st.errors|].submissionId == s.id
    ensures !Truthy(Token(env)) ==> st'.errors == st.errors + [WriteFailed(s.id, CsrfMissing)]
    ensures Truthy(Token(env)) && env.reply(s.assignmentId, s.userId).Replied? && !IsOk(env.reply(s.assignmentId, s.userId).status) ==>
      st'.errors == st.errors + [WriteFailed(s.id, HttpStatus(env.reply(s.assignmentId, s.userId).status))]
    ensures Truthy(Token(env)) && env.reply(s.assignmentId, s.userId).WriteRejected? ==>
      st'.errors == st.errors + [WriteFailed(s.id, Refused(env.reply(s.assignmentId, s.userId).text))]
  {
    var call := PutApi(Token(env), env.reply(s.assignmentId, s.userId));
    var sent := if call.sent then st.sent + [LatePut(s, Token(env).value)] else st.sent;
    match call.failure
    case None => RunState(st.totalUpdated + 1, st.errors, sent)
    case Some(cause) => RunState(st.totalUpdated, st.errors + [WriteFailed(s.id, cause)], sent)
  }

  /** `processSubmissions(submissions)`: `removeLatePenalty` on every late submission, in order. */
  function ProcessSubmissionsSpec(env: Env, st: RunState, subs: seq<Submission>): RunState
  {
    if |subs| == 0 then st
    else
      var st1 := ProcessSubmissionsSpec(env, st, subs[..|subs| - 1]);
      var s := subs[|subs| - 1];
      if s.late then RemoveLatePenaltySpec(env, st1, s) else st1
  }

  /** The late submissions of `subs`, in order (`submissions.filter(s => s.late)`). */
  function LateOnes(subs: seq<Submission>): (r: seq<Submission>)
    ensures |r| <= |subs|
    ensures forall s | s in r :: s.late && s in subs
  {
    if |subs| == 0 then []
    else
      var init := LateOnes(subs[..|subs| - 1]);
      var s := subs[|subs| - 1];
      assert forall x | x in subs[..|subs| - 1] :: x in subs;
      if s.late then init + [s] else init
  }

  /** Every late submission of `subs` is kept. */
  lemma {:induction false} LateOnesComplete(subs: seq<Submission>, s: Submission)
    requires s in subs && s.late
    ensures s in LateOnes(subs)
  {
    var n := |subs| - 1;
    if subs[n] != s {
      var init := subs[..n];
      assert subs == init + [subs[n]];
      assert s in init;
      LateOnesComplete(init, s);
    }
  }

  /** The filter keeps order and multiplicity: it distributes over concatenation, and keeps a
      single submission exactly when it is late. */
  lemma {:induction false} LateOnesAppend(a: seq<Submission>, b: seq<Submission>)
    ensures LateOnes(a + b) == LateOnes(a) + LateOnes(b)
    ensures |b| == 1 ==> LateOnes(b) == (if b[0].late then b else [])
  {
    if |b| == 0 {
      assert a + b == a;
    } else {
      var n := |b| - 1;
      assert (a + b)[..|a + b| - 1] == a + b[..n];
      assert (a + b)[|a + b| - 1] == b[n];
      LateOnesAppend(a, b[..n]);
      if |b| == 1 {
        assert b[..n] == [];
      }
    }
  }

  /** The PUTs for the late submissions of `subs`, in order. */
  function LatePuts(subs: seq<Submission>, token: string): (r: seq<Put>)
    ensures |r| == |LateOnes(subs)|
    ensures forall k :: 0 <= k < |r| ==> r[k] == LatePut(LateOnes(subs)[k], token)
  {
    if |subs| == 0 then []
    else
      var s := subs[|subs| - 1];
      if s.late then LatePuts(subs[..|subs| - 1], token) + [LatePut(s, token)]
      else LatePuts(subs[..|subs| - 1], token)
  }

  /** With a CSRF token, the requests `processSubmissions` sends are exactly one PUT of
      `late_policy_status: 'none'` per late submission, in input order. */
  lemma {:induction false} ProcessSubmissionsSends(env: Env, st: RunState, subs: seq<Submission>)
    requires Truthy(Token(env))
    ensures ProcessSubmissionsSpec(env, st, subs).sent == st.sent + LatePuts(subs, Token(env).value)
  {
    if |subs| > 0 {
      ProcessSubmissionsSends(env, st, subs[..|subs| - 1]);
    }
  }

  /** Without a CSRF token nothing is sent, nothing is counted as updated, and every late
      submission gets its own "CSRF token not found" error. */
  lemma {:induction false} ProcessSubmissionsWithoutToken(env: Env, st: RunState, subs: seq<Submission>)
    requires !Truthy(Token(env))
    ensures var st' := ProcessSubmissionsSpec(env, st, subs);
      st'.sent == st.sent && st'.totalUpdated == st.totalUpdated
      && |st'.errors| == |st.errors| + |LateOnes(subs)| && st'.errors[..|st.errors|] == st.errors
      && forall k :: 0 <= k < |LateOnes(subs)| ==> st'.errors[|st.errors| + k] == WriteFailed(LateOnes(subs)[k].id, CsrfMissing)
  {
    if |subs| > 0 {
      var init := subs[..|subs| - 1];
      ProcessSubmissionsWithoutToken(env, st, init);
      var st1 := ProcessSubmissionsSpec(env, st, init);
      assert st1.errors[..|st.errors|] == st.errors;
    }
  }

  /** Every late submission ends as exactly one of: an update or an error; submissions that
      are not late change nothing. */
  lemma {:induction false} ProcessSubmissionsConserves(env: Env, st: RunState, subs: seq<Submission>)
    ensures var st' := ProcessSubmissionsSpec(env, st, subs);
      st'.totalUpdated + |st'.errors| == st.totalUpdated + |st.errors| + |LateOnes(subs)|
      && st.errors <= st'.errors
  {
    if |subs| > 0 {
      ProcessSubmissionsConserves(env, st, subs[..|subs| - 1]);
    }
  }

  /** Processing two batches one after the other is processing their concatenation. */
  lemma {:induction false} ProcessSubmissionsAppend(env: Env, st: RunState, a: seq<Submission>, b: seq<Submission>)
    ensures ProcessSubmissionsSpec(env, st, a + b) ==
      ProcessSubmissionsSpec(env, ProcessSubmissionsSpec(env, st, a), b)
  {
    if |b| == 0 {
      assert a + b == a;
    } else {
      ProcessSubmissionsAppend(env, st, a, b[..|b| - 1]);
      assert (a + b)[..|a + b| - 1] == a + b[..|b| - 1];
    }
  }

  // ---------------------------------------------------------------------------------------
  // getAPI over the submission pages of one assignment

  /** `getAPI(url, 'submissions')` from the `i`-th response on: process each page fully, then
      follow its next link while it is truthy. */
  function SubmissionWalk(env: Env, st: RunState, pages: seq<Fetched<seq<Submission>>>, i: nat): (RunState, Outcome)
    requires i <= |pages|
    decreases |pages| - i
  {
    if i == |pages| then (st, Aborted(NoResponse))
    else match pages[i]
      case Failed(text) => (st, Aborted(Rejected(text)))
      case Page(subs, link) =>
        var st1 := ProcessSubmissionsSpec(env, st, subs);
        if Truthy(GetNextUrl(link)) then SubmissionWalk(env, st1, pages, i + 1) else (st1, Done)
  }

  /** A page whose next link is truthy: the walk requests the page after it. */
  predicate Follows<T>(f: Fetched<T>)
  {
    f.Page? && Truthy(GetNextUrl(f.link))
  }

  /** The bodies of the pages a walk processes from the `i`-th response on. */
  function Visited<T>(pages: seq<Fetched<T>>, i: nat): (r: seq<T>)
    requires i <= |pages|
    ensures |r| <= |pages| - i
    decreases |pages| - i
  {
    if i == |pages| || pages[i].Failed? then []
    else if Follows(pages[i]) then [pages[i].data] + Visited(pages, i + 1)
    else [pages[i].data]
  }

  /** The visited pages are consecutive responses from the `i`-th on. */
  lemma {:induction false} VisitedPages<T>(pages: seq<Fetched<T>>, i: nat)
    requires i <= |pages|
    ensures forall j :: i <= j < i + |Visited(pages, i)| ==>
      pages[j].Page? && pages[j].data == Visited(pages, i)[j - i]
    decreases |pages| - i
  {
    if i < |pages| && Follows(pages[i]) {
      VisitedPages(pages, i + 1);
      var r, rest := Visited(pages, i), Visited(pages, i + 1);
      assert r == [pages[i].data] + rest;
      forall j | i <= j < i + |r|
        ensures pages[j].Page? && pages[j].data == r[j - i]
      {
        if j > i {
          assert r[j - i] == rest[j - (i + 1)];
        }
      }
    }
  }

  /** Every visited page but the last has a truthy next link. */
  lemma {:induction false} VisitedFollows<T>(pages: seq<Fetched<T>>, i: nat)
    requires i <= |pages|
    ensures forall j :: i <= j < i + |Visited(pages, i)| - 1 ==> Follows(pages[j])
    decreases |pages| - i
  {
    if i < |pages| && Follows(pages[i]) {
      VisitedFollows(pages, i + 1);
      assert Visited(pages, i) == [pages[i].data] + Visited(pages, i + 1);
    }
  }

  /** The walk ends at a page without a truthy next link, at a failed response, or at the end
      of the responses. */
  lemma {:induction false} VisitedStops<T>(pages: seq<Fetched<T>>, i: nat)
    requires i <= |pages|
    ensures var n := |Visited(pages, i)|;
      (n > 0 && !Follows(pages[i + n - 1])) || i + n == |pages| || pages[i + n].Failed?
    decreases |pages| - i
  {
    if i < |pages| && pages[i].Page? {
      if Follows(pages[i]) {
        VisitedStops(pages, i + 1);
        assert |Visited(pages, i)| == 1 + |Visited(pages, i + 1)|;
      } else {
        assert |Visited(pages, i)| == 1;
      }
    }
  }

  /** The visited pages are the consecutive responses from the `i`-th on, up to the first one
      without a truthy next link; a failed response or the end of the responses stops the
      walk earlier. */
  lemma VisitedChain<T>(pages: seq<Fetched<T>>, i: nat)
    requires i <= |pages|
    ensures var r := Visited(pages, i);
      && (forall j :: i <= j < i + |r| ==> pages[j].Page? && pages[j].data == r[j - i])
      && (forall j :: i <= j < i + |r| - 1 ==> Follows(pages[j]))
      && ((|r| > 0 && !Follows(pages[i + |r| - 1])) || i + |r| == |pages| || pages[i + |r|].Failed?)
  {
    VisitedPages(pages, i);
    VisitedFollows(pages, i);
    VisitedStops(pages, i);
  }

  /** The submissions a walk processes are the concatenation of the visited pages, in page
      order. */
  lemma {:induction false} SubmissionWalkProcessesVisited(env: Env, st: RunState, pages: seq<Fetched<seq<Submission>>>, i: nat)
    requires i <= |pages|
    ensures SubmissionWalk(env, st, pages, i).0 == ProcessSubmissionsSpec(env, st, Concat(Visited(pages, i)))
    decreases |pages| - i
  {
    if i < |pages| && pages[i].Page? {
      var subs := pages[i].data;
      var st1 := ProcessSubmissionsSpec(env, st, subs);
      if Truthy(GetNextUrl(pages[i].link)) {
        SubmissionWalkProcessesVisited(env, st1, pages, i + 1);
        ConcatCons(subs, Visited(pages, i + 1));
        ProcessSubmissionsAppend(env, st, subs, Concat(Visited(pages, i + 1)));
      } else {
        ConcatCons(subs, []);
        assert subs + [] == subs;
      }
    }
  }
  /** Every response from the `i`-th up to (not including) the `j`-th is a page with a truthy
      next link. */
  predicate FollowsBefore<T>(pages: seq<Fetched<T>>, i: nat, j: nat)
    requires i <= j <= |pages|
    decreases j - i
  {
    i < j ==> Follows(pages[i]) && FollowsBefore(pages, i + 1, j)
  }

  /** Processing a page never rejects the walk (`processSubmissions` catches every write
      failure): a walk that follows every page before the `j`-th and meets a failed request
      there rejects with that request's error, and one that follows every page rejects for
      lack of a response past the last. */
  lemma {:induction false} SubmissionWalkAbortsAt(env: Env, st: RunState, pages: seq<Fetched<seq<Submission>>>, i: nat, j: nat)
    requires i <= j <= |pages| && (j == |pages| || pages[j].Failed?) && FollowsBefore(pages, i, j)
    ensures SubmissionWalk(env, st, pages, i).1 == Aborted(if j == |pages| then NoResponse else Rejected(pages[j].text))
    decreases j - i
  {
    if i < j {
      SubmissionWalkAbortsAt(env, ProcessSubmissionsSpec(env, st, pages[i].data), pages, i + 1, j);
    }
  }

  /** A walk that follows every page before the `j`-th and reaches there a page without a
      truthy next link is done, whatever its writes did. */
  lemma {:induction false} SubmissionWalkDoneAt(env: Env, st: RunState, pages: seq<Fetched<seq<Submission>>>, i: nat, j: nat)
    requires i <= j < |pages| && pages[j].Page? && !Follows(pages[j]) && FollowsBefore(pages, i, j)
    ensures SubmissionWalk(env, st, pages, i).1 == Done
    decreases j - i
  {
    if i < j {
      SubmissionWalkDoneAt(env, ProcessSubmissionsSpec(env, st, pages[i].data), pages, i + 1, j);
    }
  }


  // ---------------------------------------------------------------------------------------
  // getSubmissions and the list walk

  /** The submissions walk of one target, or nothing for a quiz without an assignment. */
  function TargetWalk(env: Env, st: RunState, t: Target): (RunState, Outcome)
  {
    match QueryId(t)
    case None => (st, Done)
    case Some(assignmentId) => SubmissionWalk(env, st, env.submissionPages(assignmentId), 0)
  }

  /** `getSubmissions(items)` from the `k`-th target on, `failed` being how the earlier ones
      settled: every target's walk runs; the result is the first failure. */
  function FanOut(env: Env, st: RunState, targets: seq<Target>, k: nat, failed: Outcome): (RunState, Outcome)
    requires k <= |targets|
    decreases |targets| - k
  {
    if k == |targets| then (st, failed)
    else
      var (st1, o) := TargetWalk(env, st, targets[k]);
      FanOut(env, st1, targets, k + 1, if failed.Aborted? then failed else o)
  }

  /** `processData(data, handler)` for a list page: `processSingleItem` on a single-item page,
      `processItems` otherwise. */
  function PageTargets(env: Env, listing: Listing): Scan
  {
    if env.single then Found(SingleItemTargets(listing, env.kind)) else ItemTargets(listing, env.kind)
  }

  /** `getAPI(listUrl, handler)` from the `i`-th list response on. */
  function ListWalk(env: Env, st: RunState, i: nat): (RunState, Outcome)
    requires i <= |env.listPages|
    decreases |env.listPages| - i
  {
    if i == |env.listPages| then (st, Aborted(NoResponse))
    else match env.listPages[i]
      case Failed(text) => (st, Aborted(Rejected(text)))
      case Page(listing, link) =>
        match PageTargets(env, listing)
        case NotGroups => (st, Aborted(NotGroupsFault))
        case Found(targets) =>
          var (st1, o) := FanOut(env, st, targets, 0, Done);
          if o.Aborted? then (st1, o)
          else if Truthy(GetNextUrl(link)) then ListWalk(env, st1, i + 1)
          else (st1, Done)
  }

  /** The list pages `ls`, already fetched, walked in order: each page's targets are fanned
      out, and the walk stops at a page of items rather than groups or at a failed fan-out. */
  function ListingsWalk(env: Env, st: RunState, ls: seq<Listing>): (RunState, Outcome)
    decreases |ls|
  {
    if |ls| == 0 then (st, Done)
    else match PageTargets(env, ls[0])
      case NotGroups => (st, Aborted(NotGroupsFault))
      case Found(targets) =>
        var (st1, o) := FanOut(env, st, targets, 0, Done);
        if o.Aborted? then (st1, o) else ListingsWalk(env, st1, ls[1..])
  }

  /** The list walk walks the targets of the visited list pages, in page order. */
  lemma {:induction false} ListWalkWalksVisited(env: Env, st: RunState, i: nat)
    requires i <= |env.listPages|
    ensures ListWalk(env, st, i).0 == ListingsWalk(env, st, Visited(env.listPages, i)).0
    decreases |env.listPages| - i
  {
    if i < |env.listPages| && env.listPages[i].Page? {
      var listing := env.listPages[i].data;
      match PageTargets(env, listing)
      case NotGroups =>
      case Found(targets) =>
        var (st1, o) := FanOut(env, st, targets, 0, Done);
        if !o.Aborted? {
          if Follows(env.listPages[i]) {
            ListWalkWalksVisited(env, st1, i + 1);
            assert Visited(env.listPages, i)[1..] == Visited(env.listPages, i + 1);
          } else {
            assert Visited(env.listPages, i)[1..] == [];
          }
        }
    }
  }

  /** `fix_late()`: reset `totalUpdated` and `errors`, walk the list, and record the error that
      rejected the walk, if any, as one more entry. */
  function RunSpec(env: Env, st: RunState): RunState
  {
    var (st1, o) := ListWalk(env, st.(totalUpdated := 0, errors := []), 0);
    if o.Aborted? then st1.(errors := st1.errors + [RunFailed(o.fault)]) else st1
  }

  // ---------------------------------------------------------------------------------------
  // Accounting: every request sent ends as exactly one update or one error

  /** How many of `puts` the server accepts. */
  function CountAccepted(env: Env, puts: seq<Put>): (n: nat)
    ensures n <= |puts|
  {
    if |puts| == 0 then 0
    else
      var p := puts[|puts| - 1];
      CountAccepted(env, puts[..|puts| - 1]) + if Accepted(env.reply(p.assignmentId, p.userId)) then 1 else 0
  }

  lemma {:induction false} CountAcceptedAppend(env: Env, a: seq<Put>, b: seq<Put>)
    ensures CountAccepted(env, a + b) == CountAccepted(env, a) + CountAccepted(env, b)
  {
    if |b| == 0 {
      assert a + b == a;
    } else {
      CountAcceptedAppend(env, a, b[..|b| - 1]);
      assert (a + b)[..|a + b| - 1] == a + b[..|b| - 1];
    }
  }

  /** From `st` to `st'` only write outcomes happened: requests and errors were only appended,
      `totalUpdated` grew by the number of accepted new requests, every new request is a
      `late_policy_status: 'none'` PUT carrying the token, every new error is a write failure,
      and with a token every rejected request left exactly one error. */
  ghost predicate Accounts(env: Env, st: RunState, st': RunState)
  {
    && st.sent <= st'.sent
    && st.errors <= st'.errors
    && st'.totalUpdated == st.totalUpdated + CountAccepted(env, st'.sent[|st.sent|..])
    && (forall k | |st.sent| <= k < |st'.sent| ::
          Truthy(Token(env)) && st'.sent[k].latePolicyStatus == Some("none") && st'.sent[k].token == Token(env).value)
    && (forall k | |st.errors| <= k < |st'.errors| :: st'.errors[k].WriteFailed?)
    && (Truthy(Token(env)) ==>
          |st'.errors| - |st.errors| == |st'.sent| - |st.sent| - CountAccepted(env, st'.sent[|st.sent|..]))
  }

  lemma AccountsReflexive(env: Env, st: RunState)
    ensures Accounts(env, st, st)
  {
    assert st.sent[|st.sent|..] == [];
  }

  lemma AccountsTransitive(env: Env, a: RunState, b: RunState, c: RunState)
    requires Accounts(env, a, b) && Accounts(env, b, c)
    ensures Accounts(env, a, c)
  {
    var x, y := b.sent[|a.sent|..], c.sent[|b.sent|..];
    assert c.sent[|a.sent|..] == x + y by {
      assert b.sent == c.sent[..|b.sent|];
    }
    CountAcceptedAppend(env, x, y);
    assert CountAccepted(env, c.sent[|a.sent|..]) == CountAccepted(env, x) + CountAccepted(env, y);
    assert forall k | |a.sent| <= k < |b.sent| :: c.sent[k] == b.sent[k];
    assert forall k | |a.errors| <= k < |b.errors| :: c.errors[k] == b.errors[k];
  }

  lemma RemoveLatePenaltyAccounts(env: Env, st: RunState, s: Submission)
    ensures Accounts(env, st, RemoveLatePenaltySpec(env, st, s))
  {
    var st' := RemoveLatePenaltySpec(env, st, s);
    if Truthy(Token(env)) {
      assert st'.sent[|st.sent|..] == [LatePut(s, Token(env).value)];
      assert CountAccepted(env, [LatePut(s, Token(env).value)]) == if Accepted(env.reply(s.assignmentId, s.userId)) then 1 else 0 by {
        assert [LatePut(s, Token(env).value)][..0] == [];
      }
    } else {
      assert st'.sent[|st.sent|..] == [];
    }
  }

  lemma {:induction false} ProcessSubmissionsAccounts(env: Env, st: RunState, subs: seq<Submission>)
    ensures Accounts(env, st, ProcessSubmissionsSpec(env, st, subs))
  {
    if |subs| == 0 {
      AccountsReflexive(env, st);
    } else {
      var st1 := ProcessSubmissionsSpec(env, st, subs[..|subs| - 1]);
      ProcessSubmissionsAccounts(env, st, subs[..|subs| - 1]);
      if subs[|subs| - 1].late {
        RemoveLatePenaltyAccounts(env, st1, subs[|subs| - 1]);
        AccountsTransitive(env, st, st1, ProcessSubmissionsSpec(env, st, subs));
      }
    }
  }

  lemma {:induction false} SubmissionWalkAccounts(env: Env, st: RunState, pages: seq<Fetched<seq<Submission>>>, i: nat)
    requires i <= |pages|
    ensures Accounts(env, st, SubmissionWalk(env, st, pages, i).0)
    decreases |pages| - i
  {
    if i == |pages| || pages[i].Failed? {
      AccountsReflexive(env, st);
    } else {
      var st1 := ProcessSubmissionsSpec(env, st, pages[i].data);
      ProcessSubmissionsAccounts(env, st, pages[i].data);
      if Truthy(GetNextUrl(pages[i].link)) {
        SubmissionWalkAccounts(env, st1, pages, i + 1);
        AccountsTransitive(env, st, st1, SubmissionWalk(env, st1, pages, i + 1).0);
      }
    }
  }

  lemma {:induction false} FanOutAccounts(env: Env, st: RunState, targets: seq<Target>, k: nat, failed: Outcome)
    requires k <= |targets|
    ensures Accounts(env, st, FanOut(env, st, targets, k, failed).0)
    decreases |targets| - k
  {
    if k == |targets| {
      AccountsReflexive(env, st);
    } else {
      var (st1, o) := TargetWalk(env, st, targets[k]);
      match QueryId(targets[k]) {
        case None => AccountsReflexive(env, st);
        case Some(id) => SubmissionWalkAccounts(env, st, env.submissionPages(id), 0);
      }
      FanOutAccounts(env, st1, targets, k + 1, if failed.Aborted? then failed else o);
      AccountsTransitive(env, st, st1, FanOut(env, st, targets, k, failed).0);
    }
  }

  lemma {:induction false} ListWalkAccounts(env: Env, st: RunState, i: nat)
    requires i <= |env.listPages|
    ensures Accounts(env, st, ListWalk(env, st, i).0)
    decreases |env.listPages| - i
  {
    if i == |env.listPages| || env.listPages[i].Failed? {
      AccountsReflexive(env, st);
    } else {
      var page := env.listPages[i];
      match PageTargets(env, page.data) {
        case NotGroups => AccountsReflexive(env, st);
        case Found(targets) =>
          var (st1, o) := FanOut(env, st, targets, 0, Done);
          FanOutAccounts(env, st, targets, 0, Done);
          if o.Done? && Truthy(GetNextUrl(page.link)) {
            ListWalkAccounts(env, st1, i + 1);
            AccountsTransitive(env, st, st1, ListWalk(env, st1, i + 1).0);
          }
      }
    }
  }

  /** What a whole run reports. `totalUpdated` starts again from 0 and ends as the number of
      PUTs of this run that the server accepted. The errors are the walk's write failures, in
      order, followed by one more exactly when the walk was rejected: `RunFailed` with the
      walk's fault. With a CSRF token every rejected PUT left exactly one error. Without a
      token no request is sent and nothing is reported as updated. */
  lemma RunTotals(env: Env, st: RunState)
    ensures st.sent <= RunSpec(env, st).sent
    ensures var post := RunSpec(env, st);
      var added := post.sent[|st.sent|..];
      && post.totalUpdated == CountAccepted(env, added)
      && (Truthy(Token(env)) ==>
            |added| - CountAccepted(env, added) <= |post.errors| <= |added| - CountAccepted(env, added) + 1)
      && (!Truthy(Token(env)) ==> added == [] && post.totalUpdated == 0)
      && (forall k | 0 <= k < |post.errors| - 1 :: post.errors[k].WriteFailed?)
      && (forall p | p in added :: p.latePolicyStatus == Some("none"))
    ensures var w := ListWalk(env, st.(totalUpdated := 0, errors := []), 0);
      var post := RunSpec(env, st);
      && post.errors[..|w.0.errors|] == w.0.errors
      && (forall k | 0 <= k < |w.0.errors| :: w.0.errors[k].WriteFailed?)
      && (w.1.Aborted? <==> |post.errors| == |w.0.errors| + 1)
      && (w.1.Done? ==> post.errors == w.0.errors)
      && (w.1.Aborted? ==> post.errors[|post.errors| - 1] == RunFailed(w.1.fault))
      && (Truthy(Token(env)) ==>
            var added := post.sent[|st.sent|..];
            |post.errors| == |added| - CountAccepted(env, added) + if w.1.Aborted? then 1 else 0)
  {
    var st0 := st.(totalUpdated := 0, errors := []);
    ListWalkAccounts(env, st0, 0);
    var st1 := ListWalk(env, st0, 0).0;
    assert st1.errors[0..] == st1.errors;
    var st' := RunSpec(env, st);
    assert st'.sent == st1.sent;
    if !Truthy(Token(env)) {
      assert st1.sent[|st.sent|..] == [];
    }
  }

  // ---------------------------------------------------------------------------------------
  // The script's state and its operations

  /** The script's module-level state `totalUpdated` and `errors`; `sent` is the server's view
      of the PUT requests it received. */
  class LateFixer {
    const env: Env
    var totalUpdated: nat
    var errors: seq<Failure>
    var sent: seq<Put>

    function State(): RunState
      reads this
    {
      RunState(totalUpdated, errors, sent)
    }

    /** The script as loaded: `let totalUpdated = 0; let errors = [];`. */
    constructor(env: Env)
      ensures this.env == env && State() == RunState(0, [], [])
    {
      this.env := env;
      totalUpdated := 0;
      errors := [];
      sent := [];
    }

    /** `removeLatePenalty(submission)`, with `putAPI` inlined. */
    method RemoveLatePenalty(s: Submission)
      modifies this
      ensures State() == RemoveLatePenaltySpec(env, old(State()), s)
    {
      var token := Token(env);
      var call := PutApi(token, env.reply(s.assignmentId, s.userId));
      if call.sent {
        sent := sent + [LatePut(s, token.value)];
      }
      match call.failure {
        case None => totalUpdated := totalUpdated + 1;
        case Some(cause) => errors := errors + [WriteFailed(s.id, cause)];
      }
    }

    /** `processSubmissions(submissions)`. */
    method ProcessSubmissions(subs: seq<Submission>)
      modifies this
      ensures State() == ProcessSubmissionsSpec(env, old(State()), subs)
    {
      ghost var st0 := State();
      for i := 0 to |subs|
        invariant State() == ProcessSubmissionsSpec(env, st0, subs[..i])
      {
        assert subs[..i + 1][..i] == subs[..i];
        if subs[i].late {
          RemoveLatePenalty(subs[i]);
        }
      }
      assert subs[..|subs|] == subs;
    }

    /** `getAssignmentSubmissions(assignmentId)`: the submissions walk of one assignment. */
    method WalkSubmissions(assignmentId: nat) returns (outcome: Outcome)
      modifies this
      ensures (State(), outcome) == SubmissionWalk(env, old(State()), env.submissionPages(assignmentId), 0)
    {
      var pages := env.submissionPages(assignmentId);
      ghost var goal := SubmissionWalk(env, State(), pages, 0);
      var i := 0;
      while i < |pages|
        invariant i <= |pages|
        invariant SubmissionWalk(env, State(), pages, i) == goal
        decreases |pages| - i
      {
        match pages[i] {
          case Failed(text) =>
            return Aborted(Rejected(text));
          case Page(subs, link) =>
            var nextUrl := GetNextUrl(link);
            ProcessSubmissions(subs);
            if !Truthy(nextUrl) {
              return Done;
            }
            i := i + 1;
        }
      }
      return Aborted(NoResponse);
    }

    /** `getSubmissions(items)`. */
    method GetSubmissions(targets: seq<Target>) returns (outcome: Outcome)
      modifies this
      ensures (State(), outcome) == FanOut(env, old(State()), targets, 0, Done)
    {
      ghost var goal := FanOut(env, State(), targets, 0, Done);
      outcome := Done;
      for k := 0 to |targets|
        invariant FanOut(env, State(), targets, k, outcome) == goal
      {
        var o := Done;
        var assignmentId := QueryId(targets[k]);
        if assignmentId.Some? {
          o := WalkSubmissions(assignmentId.value);
        }
        if outcome.Done? {
          outcome := o;
        }
      }
    }

    /** `getAPI(listUrl, isSingleItem ? 'single_item' : contextType)`. */
    method WalkList() returns (outcome: Outcome)
      modifies this
      ensures (State(), outcome) == ListWalk(env, old(State()), 0)
    {
      var pages := env.listPages;
      ghost var goal := ListWalk(env, State(), 0);
      var i := 0;
      while i < |pages|
        invariant i <= |pages|
        invariant ListWalk(env, State(), i) == goal
        decreases |pages| - i
      {
        match pages[i] {
          case Failed(text) =>
            return Aborted(Rejected(text));
          case Page(listing, link) =>
            var nextUrl := GetNextUrl(link);
            var scan: Scan;
            if env.single {
              scan := Found(SingleItemTargets(listing, env.kind));
            } else {
              scan := ProcessItems(listing, env.kind);
            }
            if scan.NotGroups? {
              return Aborted(NotGroupsFault);
            }
            var o := GetSubmissions(scan.targets);
            if o.Aborted? {
              return o;
            }
            if !Truthy(nextUrl) {
              return Done;
            }
            i := i + 1;
        }
      }
      return Aborted(NoResponse);
    }

    /** `fix_late()`: the whole run. */
    method FixLate()
      modifies this
      ensures State() == RunSpec(env, old(State()))
    {
      totalUpdated := 0;
      errors := [];
      var outcome := WalkList();
      if outcome.Aborted? {
        errors := errors + [RunFailed(outcome.fault)];
      }
    }
  }
}
