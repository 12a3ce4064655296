/** The deterministic parts of `fix-missing/FixMissingAssignments.user.js`: the `config`
    toggles, `getCookie`, the next-page regex of `getAPI`, the per-submission decision of
    `processSubmissions`, `checkAssignment` and `processAssignments`, the id chunking of
    `getSubmissions` and the choice of the list URL. */
module FixMissing {
  import opened Js
  import opened Canvas

  /** The `config` object; `debug` only switches console output and is left out. */
  datatype Config = Config(missing: bool, nullMissing: bool, zeroMissing: bool, late: bool, reset: bool)

  /** The values the script ships with. */
  const Defaults: Config := Config(missing := true, nullMissing := false, zeroMissing := true, late := false, reset := false)

  // ---------------------------------------------------------------------------------------
  // getCookie

  /** `entries.reduce((a, c) => name of c === name ? decodeURIComponent(value of c) : a, '')`. */
  function CookieFrom(entries: seq<string>, name: string, decode: string -> string): (r: string)
    ensures r != "" ==> exists k :: 0 <= k < |entries| && CookieName(entries[k]) == name
  {
    if |entries| == 0 then ""
    else
      var init := entries[..|entries| - 1];
      var a := CookieFrom(init, name, decode);
      var c := entries[|entries| - 1];
      assert forall k | 0 <= k < |init| :: init[k] == entries[k];
      if CookieName(c) == name then DecodedValue(c, decode) else a
  }

  /** `getCookie(name)` on `document.cookie`: a non-empty result means the cookie string holds
      an entry of that name, so it contains the name. */
  function GetCookie(cookie: string, name: string, decode: string -> string): (r: string)
    ensures r != "" ==> Includes(cookie, name)
  {
    var r := CookieFrom(Split(cookie, ';'), name, decode);
    if r != "" then NamedEntryOccurs(cookie, name); r else r
  }

  /** Entry `k` is the last entry of `entries` with that name. */
  predicate LastNamed(entries: seq<string>, name: string, k: nat)
  {
    k < |entries| && CookieName(entries[k]) == name
    && forall m | k < m < |entries| :: CookieName(entries[m]) != name
  }

  /** With no entry of that name, `getCookie` yields `''`. */
  lemma {:induction false} CookieFromUnnamed(entries: seq<string>, name: string, decode: string -> string)
    requires forall k | 0 <= k < |entries| :: CookieName(entries[k]) != name
    ensures CookieFrom(entries, name, decode) == ""
  {
    if |entries| > 0 {
      var init := entries[..|entries| - 1];
      assert forall k | 0 <= k < |init| :: init[k] == entries[k];
      CookieFromUnnamed(init, name, decode);
    }
  }

  /** `getCookie` yields the decoded value of the LAST entry with that name. */
  lemma {:induction false} CookieFromIsLastMatch(entries: seq<string>, name: string, decode: string -> string, k: nat)
    requires LastNamed(entries, name, k)
    ensures CookieFrom(entries, name, decode) == DecodedValue(entries[k], decode)
  {
    var n := |entries| - 1;
    var init := entries[..n];
    if k < n {
      assert init[k] == entries[k];
      assert forall m | k < m < n :: init[m] == entries[m];
      CookieFromIsLastMatch(init, name, decode, k);
      assert CookieName(entries[n]) != name;
      assert CookieFrom(entries, name, decode) == CookieFrom(init, name, decode);
    } else {
      assert CookieName(entries[n]) == name;
    }
  }

  // ---------------------------------------------------------------------------------------
  // The next-page regex of getAPI

  /** What follows the captured URL in `<([^>]+)>; rel="next"`. */
  const NextSuffix: string := ">; rel=\"next\""

  /** The regex matches at index `i`: a `<`, then a non-empty run without `>` that ends at the
      first `>` after it (`[^>]+` cannot cross a `>`), and `>; rel="next"` there. */
  predicate LinkAt(s: string, i: nat)
  {
    && i < |s|
    && s[i] == '<'
    && var j := FirstIndexFrom(s, '>', i + 1);
      j.Some? && j.value > i + 1 && OccursAt(s, NextSuffix, j.value)
  }

  /** The capture group of a match at `i`. */
  function CaptureAt(s: string, i: nat): (u: string)
    requires LinkAt(s, i)
    ensures |u| > 0 && '>' !in u
    ensures OccursAt(s, "<" + u + NextSuffix, i)
  {
    var j := FirstIndexFrom(s, '>', i + 1).value;
    assert s[i..i + |"<" + s[i + 1..j] + NextSuffix|] == [s[i]] + s[i + 1..j] + s[j..j + |NextSuffix|];
    s[i + 1..j]
  }

  /** The leftmost index at or after `i` where the regex matches. */
  function MatchFrom(s: string, i: nat): (r: Option<nat>)
    requires i <= |s|
    ensures r.Some? ==> i <= r.value < |s| && LinkAt(s, r.value)
    ensures r.Some? ==> forall k :: i <= k < r.value ==> !LinkAt(s, k)
    ensures r.None? ==> forall k :: i <= k < |s| ==> !LinkAt(s, k)
    decreases |s| - i
  {
    if i == |s| then None
    else if LinkAt(s, i) then Some(i)
    else MatchFrom(s, i + 1)
  }

  /** `linkRegex.exec(linkHeader)` and its first group: `null` (a missing header) never
      matches. */
  function NextLink(header: Option<string>): (r: Option<string>)
    ensures header.None? ==> r.None?
    ensures r.Some? ==> |r.value| > 0 && '>' !in r.value
    ensures r.Some? ==> exists i: nat :: (LinkAt(header.value, i) && r.value == CaptureAt(header.value, i)
      && forall k :: 0 <= k < i ==> !LinkAt(header.value, k))
    ensures header.Some? && r.None? ==> forall k :: 0 <= k < |header.value| ==> !LinkAt(header.value, k)
  {
    match header
    case None => None
    case Some(s) =>
      match MatchFrom(s, 0)
      case None => None
      case Some(i) => Some(CaptureAt(s, i))
  }

  /** A header that starts with `<url>; rel="next"` yields `url`, whatever follows. */
  lemma NextLinkOfLeadingLink(u: string, rest: string)
    requires |u| > 0 && '>' !in u
    ensures NextLink(Some("<" + u + NextSuffix + rest)) == Some(u)
  {
    var s := "<" + u + NextSuffix + rest;
    assert s[1..1 + |u|] == u;
    assert s[1 + |u|..1 + |u| + |NextSuffix|] == NextSuffix;
    assert forall k :: 1 <= k < 1 + |u| ==> s[k] == u[k - 1];
    assert s[1 + |u|] == '>';
    assert LinkAt(s, 0);
  }

  // ---------------------------------------------------------------------------------------
  // The decision of processSubmissions

  /** `hasScore`: `score !== 0` under `zero_missing`, or `score === null` under
      `null_missing`. */
  predicate HasScore(cfg: Config, score: Option<real>)
    ensures score == Some(0.0) ==> !HasScore(cfg, score)
    ensures score.None? ==> (HasScore(cfg, score) <==> cfg.zeroMissing || cfg.nullMissing)
    ensures score.Some? && score.value != 0.0 ==> (HasScore(cfg, score) <==> cfg.zeroMissing)
  {
    (cfg.zeroMissing && score != Some(0.0)) || (cfg.nullMissing && score.None?)
  }

  /** JavaScript's `a < b` on strings: code-unit by code-unit, a proper prefix first. */
  predicate LexLess(a: string, b: string)
  {
    if |a| == 0 then |b| > 0
    else if |b| == 0 then false
    else if a[0] != b[0] then a[0] < b[0]
    else LexLess(a[1..], b[1..])
  }

  /** The comparison orders every two different strings one way and only one way. */
  lemma {:induction false} LexLessTotal(a: string, b: string)
    ensures a != b <==> LexLess(a, b) || LexLess(b, a)
    ensures !(LexLess(a, b) && LexLess(b, a))
  {
    if |a| > 0 && |b| > 0 && a[0] == b[0] {
      LexLessTotal(a[1..], b[1..]);
      assert a == [a[0]] + a[1..] && b == [b[0]] + b[1..];
    }
  }

  /** `isLate`: both timestamps present and non-empty and the submission after the due date. */
  predicate LateByDates(s: Submission)
    ensures LateByDates(s) ==>
      && s.submittedAt.Some? && s.cachedDueDate.Some?
      && s.submittedAt.value != s.cachedDueDate.value
      && !LexLess(s.submittedAt.value, s.cachedDueDate.value)
  {
    if Truthy(s.cachedDueDate) && Truthy(s.submittedAt) then
      LexLessTotal(s.cachedDueDate.value, s.submittedAt.value);
      LexLess(s.cachedDueDate.value, s.submittedAt.value)
    else false
  }

  /** The value of `status` after one iteration: `false` (no write) or the
      `late_policy_status` to write, `null` being `None`. */
  datatype Decision = Skip | Write(status: Option<string>)

  /** The only status a configuration ever writes: `null` in reset mode, `'none'` otherwise. */
  function ModeStatus(cfg: Config): Option<string>
  {
    if cfg.reset then None else Some("none")
  }

  /** One iteration of the loop of `processSubmissions`. */
  function Decide(cfg: Config, s: Submission): (d: Decision)
    ensures d.Write? ==> !s.excused && d.status == ModeStatus(cfg)
  {
    if s.excused then Skip
    else if cfg.reset then
      if s.latePolicyStatus == Some("none") && ((cfg.missing && s.submittedAt.None?) || (cfg.late && LateByDates(s)))
      then Write(None) else Skip
    else if s.latePolicyStatus.None? && HasScore(cfg, s.score) && ((cfg.missing && !s.late) || (cfg.late && s.late))
    then Write(Some("none"))
    else Skip
  }

  /** Under the shipped configuration a submission is marked `'none'` exactly when it is not
      excused, not yet marked, not late and its score is not `0`. */
  lemma DefaultsDecision(s: Submission)
    ensures Decide(Defaults, s).Write? <==>
      !s.excused && s.latePolicyStatus.None? && s.score != Some(0.0) && !s.late
    ensures Decide(Defaults, s).Write? ==> Decide(Defaults, s).status == Some("none")
  {
  }

  /** In reset mode a write happens exactly for a non-excused submission marked `'none'` that
      is missing (under `missing`) or late by its dates (under `late`). */
  lemma ResetWritesExactly(cfg: Config, s: Submission)
    requires cfg.reset
    ensures Decide(cfg, s).Write? <==>
      !s.excused && s.latePolicyStatus == Some("none")
      && ((cfg.missing && s.submittedAt.None?) || (cfg.late && LateByDates(s)))
  {
  }

  /** In forward mode a write happens exactly for a non-excused, unmarked submission that
      has a score, and is not late (under `missing`) or late (under `late`). */
  lemma ForwardWritesExactly(cfg: Config, s: Submission)
    requires !cfg.reset
    ensures Decide(cfg, s).Write? <==>
      !s.excused && s.latePolicyStatus.None? && HasScore(cfg, s.score)
      && ((cfg.missing && !s.late) || (cfg.late && s.late))
  {
  }

  /** The submission as the server stores it after the decision is carried out. */
  function Apply(d: Decision, s: Submission): Submission
  {
    match d
    case Skip => s
    case Write(status) => s.(latePolicyStatus := status)
  }

  /** A second run with the same configuration writes nothing on a submission the first run
      wrote. */
  lemma DecideIdempotent(cfg: Config, s: Submission)
    ensures Decide(cfg, Apply(Decide(cfg, s), s)) == Skip
  {
  }

  /** Reset mode undoes what forward mode wrote on a missing submission: it writes `null`
      back, which restores the submission. */
  lemma ResetUndoesForward(cfg: Config, s: Submission)
    requires Decide(cfg, s) == Write(Some("none"))
    requires cfg.missing && s.submittedAt.None?
    ensures var marked := Apply(Decide(cfg, s), s);
      Decide(cfg.(reset := true), marked) == Write(None)
      && Apply(Decide(cfg.(reset := true), marked), marked) == s
  {
  }

  /** The submissions of a page that get a write, in input order. */
  function Written(cfg: Config, subs: seq<Submission>): (r: seq<Submission>)
    ensures |r| <= |subs|
    ensures forall s | s in r :: s in subs && !s.excused && Decide(cfg, s).Write?
  {
    if |subs| == 0 then []
    else
      var init := Written(cfg, subs[..|subs| - 1]);
      var s := subs[|subs| - 1];
      assert forall x | x in subs[..|subs| - 1] :: x in subs;
      if Decide(cfg, s).Write? then init + [s] else init
  }

  /** Every submission the decision writes is written. */
  lemma {:induction false} WrittenComplete(cfg: Config, subs: seq<Submission>, s: Submission)
    requires s in subs && Decide(cfg, s).Write?
    ensures s in Written(cfg, subs)
  {
    if s != subs[|subs| - 1] {
      assert s in subs[..|subs| - 1] by {
        var k :| 0 <= k < |subs| && subs[k] == s;
        assert subs[..|subs| - 1][k] == s;
      }
      WrittenComplete(cfg, subs[..|subs| - 1], s);
    }
  }

  /** Writing distributes over concatenation, and a single submission is written exactly when
      its decision is a write: `Written` keeps the order and multiplicity of its input. */
  lemma {:induction false} WrittenAppend(cfg: Config, a: seq<Submission>, b: seq<Submission>)
    ensures Written(cfg, a + b) == Written(cfg, a) + Written(cfg, b)
    ensures |b| == 1 ==> Written(cfg, b) == (if Decide(cfg, b[0]).Write? then b else [])
  {
    if |b| == 0 {
      assert a + b == a;
    } else {
      var n := |b| - 1;
      assert (a + b)[..|a + b| - 1] == a + b[..n];
      assert (a + b)[|a + b| - 1] == b[n];
      WrittenAppend(cfg, a, b[..n]);
      if |b| == 1 {
        assert b[..n] == [];
      }
    }
  }

  /** The non-excused submissions of a page, in order; `UnexcusedAppend` pins down which. */
  function Unexcused(subs: seq<Submission>): (r: seq<Submission>)
    ensures forall s | s in r :: !s.excused
  {
    if |subs| == 0 then []
    else
      var s := subs[|subs| - 1];
      if s.excused then Unexcused(subs[..|subs| - 1]) else Unexcused(subs[..|subs| - 1]) + [s]
  }

  /** `Unexcused` distributes over concatenation and keeps a single submission exactly when it
      is not excused, so it keeps exactly the unexcused submissions, in order. */
  lemma {:induction false} UnexcusedAppend(a: seq<Submission>, b: seq<Submission>)
    ensures Unexcused(a + b) == Unexcused(a) + Unexcused(b)
    ensures |b| == 1 ==> Unexcused(b) == (if b[0].excused then [] else b)
  {
    if |b| == 0 {
      assert a + b == a;
    } else {
      var n := |b| - 1;
      assert (a + b)[..|a + b| - 1] == a + b[..n];
      assert (a + b)[|a + b| - 1] == b[n];
      UnexcusedAppend(a, b[..n]);
      if |b| == 1 {
        assert b[..n] == [];
      }
    }
  }

  /** Excused submissions are invisible to `processSubmissions`: dropping them changes no
      write, whatever the configuration. */
  lemma {:induction false} ExcusedChangeNothing(cfg: Config, subs: seq<Submission>)
    ensures Written(cfg, Unexcused(subs)) == Written(cfg, subs)
  {
    if |subs| > 0 {
      var init := subs[..|subs| - 1];
      var s := subs[|subs| - 1];
      ExcusedChangeNothing(cfg, init);
      if !s.excused {
        assert (Unexcused(init) + [s])[..|Unexcused(init)|] == Unexcused(init);
      }
    }
  }

  /** The page as the server stores it after all its writes. */
  function Applied(cfg: Config, subs: seq<Submission>): (r: seq<Submission>)
    ensures |r| == |subs|
  {
    seq(|subs|, k requires 0 <= k < |subs| => Apply(Decide(cfg, subs[k]), subs[k]))
  }

  /** Running `processSubmissions` again on the updated page writes nothing. */
  lemma {:induction false} PageIdempotent(cfg: Config, subs: seq<Submission>)
    ensures Written(cfg, Applied(cfg, subs)) == []
  {
    if |subs| > 0 {
      var init := subs[..|subs| - 1];
      PageIdempotent(cfg, init);
      assert Applied(cfg, subs)[..|subs| - 1] == Applied(cfg, init);
      DecideIdempotent(cfg, subs[|subs| - 1]);
    }
  }

  /** The PUT for one written submission, its token being `getCookie('_csrf_token')`. */
  function SubmissionPut(cfg: Config, s: Submission, token: string): Put
  {
    Put(s.assignmentId, s.userId, ModeStatus(cfg), token)
  }

  /** The PUT requests `processSubmissions` issues for one page, in input order. */
  function PagePuts(cfg: Config, subs: seq<Submission>, token: string): (r: seq<Put>)
    ensures |r| == |Written(cfg, subs)|
    ensures forall k :: 0 <= k < |r| ==> r[k] == SubmissionPut(cfg, Written(cfg, subs)[k], token)
  {
    PutsOf(cfg, Written(cfg, subs), token)
  }

  /** One PUT per submission of `w`, in order. */
  function PutsOf(cfg: Config, w: seq<Submission>, token: string): (r: seq<Put>)
    ensures |r| == |w|
    ensures forall k :: 0 <= k < |r| ==> r[k] == SubmissionPut(cfg, w[k], token)
  {
    seq(|w|, k requires 0 <= k < |w| => SubmissionPut(cfg, w[k], token))
  }

  lemma PutsOfAppend(cfg: Config, x: seq<Submission>, y: seq<Submission>, token: string)
    ensures PutsOf(cfg, x + y, token) == PutsOf(cfg, x, token) + PutsOf(cfg, y, token)
  {
    var r, rx, ry := PutsOf(cfg, x + y, token), PutsOf(cfg, x, token), PutsOf(cfg, y, token);
    assert forall k | 0 <= k < |r| :: r[k] == (rx + ry)[k];
  }

  /** The PUTs of two runs of submissions one after the other are the PUTs of each, in turn. */
  lemma PagePutsAppend(cfg: Config, a: seq<Submission>, b: seq<Submission>, token: string)
    ensures PagePuts(cfg, a + b, token) == PagePuts(cfg, a, token) + PagePuts(cfg, b, token)
  {
    WrittenAppend(cfg, a, b);
    PutsOfAppend(cfg, Written(cfg, a), Written(cfg, b), token);
  }

  /** `processSubmissions(data)`: the loop that computes `status` and pushes one PUT per
      submission whose status is not `false`. */
  method ProcessSubmissions(cfg: Config, subs: seq<Submission>, token: string) returns (puts: seq<Put>)
    ensures puts == PagePuts(cfg, subs, token)
  {
    puts := [];
    for i := 0 to |subs|
      invariant puts == PagePuts(cfg, subs[..i], token)
    {
      var s := subs[i];
      assert subs[..i + 1][..i] == subs[..i];
      var status := Skip;
      if !s.excused {
        var hasScore := HasScore(cfg, s.score);
        if cfg.reset {
          if s.latePolicyStatus == Some("none") {
            var isMissing := s.submittedAt.None?;
            var isLate := LateByDates(s);
            if (cfg.missing && isMissing) || (cfg.late && isLate) {
              status := Write(None);
            }
          }
        } else if s.latePolicyStatus.None? && hasScore {
          if (cfg.missing && !s.late) || (cfg.late && s.late) {
            status := Write(Some("none"));
          }
        }
      }
      assert status == Decide(cfg, s);
      if status.Write? {
        puts := puts + [Put(s.assignmentId, s.userId, status.status, token)];
      }
    }
    assert subs[..|subs|] == subs;
  }

  // ---------------------------------------------------------------------------------------
  // checkAssignment and processAssignments

  /** Submission types whose assignments are never considered. */
  const ExcludedTypes: seq<string> := ["none", "not_graded", "on_paper", "wiki_page", "external_tool"]

  /** `checkAssignment(a)`: the assignment id to query, or `false` (`None`). `contextId` is
      the item id in the page's path, if any; `contextId == a.id` compares the digits with
      the number. */
  function CheckAssignment(kind: ContextType, contextId: Option<nat>, a: Item): (r: Option<nat>)
    ensures r.Some? ==> r.value != 0 && a.published
    ensures r.Some? ==> contextId.None? || contextId.value == a.id
    ensures r.Some? && kind == Assignments ==>
      r.value == a.id && Truthy(a.dueAt) && forall t | t in a.submissionTypes :: t !in ExcludedTypes
    ensures r.Some? && kind == Quizzes ==> a.assignmentId == r && Truthy(a.dueAt)
    ensures r.Some? && kind == DiscussionTopics ==>
      a.assignmentId == r && a.assignment.Some? && Truthy(a.assignment.value.dueAt)
  {
    if contextId.Some? && contextId.value != a.id then None
    else
      var assignmentId := if kind == Assignments then Some(a.id) else a.assignmentId;
      var dueAt :=
        match kind
        case Assignments => a.dueAt
        case Quizzes => a.dueAt
        case DiscussionTopics => if a.assignment.Some? then a.assignment.value.dueAt else None;
      var extra := kind != Assignments || !(exists t | t in a.submissionTypes :: t in ExcludedTypes);
      if a.published && Truthy(dueAt) && TruthyId(assignmentId) && extra then assignmentId else None
  }

  /** Conversely, an item that meets every condition yields its assignment id. */
  lemma CheckAssignmentAccepts(kind: ContextType, contextId: Option<nat>, a: Item)
    requires contextId.None? || contextId.value == a.id
    requires a.published
    requires kind == Assignments ==>
      a.id != 0 && Truthy(a.dueAt) && forall t | t in a.submissionTypes :: t !in ExcludedTypes
    requires kind == Quizzes ==> TruthyId(a.assignmentId) && Truthy(a.dueAt)
    requires kind == DiscussionTopics ==>
      TruthyId(a.assignmentId) && a.assignment.Some? && Truthy(a.assignment.value.dueAt)
    ensures CheckAssignment(kind, contextId, a) == if kind == Assignments then Some(a.id) else a.assignmentId
  {
  }

  /** The ids `checkAssignment` accepts from `items`, in order. */
  function AcceptedIds(kind: ContextType, contextId: Option<nat>, items: seq<Item>): (ids: seq<nat>)
    ensures |ids| <= |items|
    ensures forall k :: 0 <= k < |ids| ==>
      ids[k] != 0 && exists a | a in items :: CheckAssignment(kind, contextId, a) == Some(ids[k])
  {
    if |items| == 0 then []
    else
      var init := AcceptedIds(kind, contextId, items[..|items| - 1]);
      var a := items[|items| - 1];
      assert forall x | x in items[..|items| - 1] :: x in items;
      match CheckAssignment(kind, contextId, a)
      case Some(id) => init + [id]
      case None => init
  }

  /** The ids one item contributes. */
  function AcceptedOf(kind: ContextType, contextId: Option<nat>, a: Item): seq<nat>
  {
    match CheckAssignment(kind, contextId, a)
    case Some(id) => [id]
    case None => []
  }

  /** Accepting from one more item appends what that item contributes. */
  lemma AcceptedIdsSnoc(kind: ContextType, contextId: Option<nat>, items: seq<Item>, a: Item)
    ensures AcceptedIds(kind, contextId, items + [a]) == AcceptedIds(kind, contextId, items) + AcceptedOf(kind, contextId, a)
  {
    assert (items + [a])[..|items|] == items;
  }

  /** Accepting from two runs of items one after the other is accepting from both. */
  lemma {:induction false} AcceptedIdsAppend(kind: ContextType, contextId: Option<nat>, a: seq<Item>, b: seq<Item>)
    ensures AcceptedIds(kind, contextId, a + b) == AcceptedIds(kind, contextId, a) + AcceptedIds(kind, contextId, b)
  {
    if |b| == 0 {
      assert a + b == a;
    } else {
      var init, last := b[..|b| - 1], b[|b| - 1];
      AcceptedIdsAppend(kind, contextId, a, init);
      assert b == init + [last];
      assert a + b == (a + init) + [last];
      AcceptedIdsSnoc(kind, contextId, init, last);
      AcceptedIdsSnoc(kind, contextId, a + init, last);
      Reassociate(AcceptedIds(kind, contextId, a), AcceptedIds(kind, contextId, init), AcceptedOf(kind, contextId, last),
                  AcceptedIds(kind, contextId, a + init), AcceptedIds(kind, contextId, b), AcceptedIds(kind, contextId, a + b));
    }
  }

  /** Concatenation regroups, stated on names for its parts so that no other fact about them
      is unfolded. */
  lemma Reassociate<T>(x: seq<T>, y: seq<T>, t: seq<T>, xy: seq<T>, yt: seq<T>, xyt: seq<T>)
    requires xy == x + y && yt == y + t && xyt == xy + t
    ensures xyt == x + yt
  {
  }

  /** Every accepted item contributes its id. */
  lemma {:induction false} AcceptedIdsComplete(kind: ContextType, contextId: Option<nat>, items: seq<Item>, a: Item)
    requires a in items && CheckAssignment(kind, contextId, a).Some?
    ensures CheckAssignment(kind, contextId, a).value in AcceptedIds(kind, contextId, items)
  {
    if a != items[|items| - 1] {
      assert a in items[..|items| - 1] by {
        var k :| 0 <= k < |items| && items[k] == a;
        assert items[..|items| - 1][k] == a;
      }
      AcceptedIdsComplete(kind, contextId, items[..|items| - 1], a);
    }
  }

  /** The ids `processAssignments` collects, or the failure of reading a non-group as a group. */
  datatype IdScan = Ids(ids: seq<nat>) | NotGroups

  /** `processAssignments(data)`: a single object is checked on its own; on an assignments page
      the array holds groups, whose assignments are checked group by group; otherwise the
      array holds the items. A group is never published, so it yields no id, and a non-group
      on an assignments page throws. */
  function AssignmentIds(kind: ContextType, contextId: Option<nat>, listing: Listing): (r: IdScan)
    ensures r.NotGroups? <==> listing.Items? && kind == Assignments && |listing.items| > 0
  {
    match listing
    case Single(item) => Ids(AcceptedIds(kind, contextId, [item]))
    case Groups(groups) =>
      if kind == Assignments then Ids(AcceptedIds(kind, contextId, Concat(AssignmentsOf(groups))))
      else Ids([])
    case Items(items) =>
      if kind != Assignments then Ids(AcceptedIds(kind, contextId, items))
      else if |items| == 0 then Ids([])
      else NotGroups
  }

  /** `items.forEach(a => { id = checkAssignment(a); if (id) assignmentIds.push(id); })`. */
  method PushAccepted(assignmentIds: seq<nat>, kind: ContextType, contextId: Option<nat>, items: seq<Item>)
    returns (out: seq<nat>)
    ensures out == assignmentIds + AcceptedIds(kind, contextId, items)
  {
    out := assignmentIds;
    for i := 0 to |items|
      invariant out == assignmentIds + AcceptedIds(kind, contextId, items[..i])
    {
      assert items[..i + 1][..i] == items[..i];
      var id := CheckAssignment(kind, contextId, items[i]);
      if TruthyId(id) {
        out := out + [id.value];
      }
    }
    assert items[..|items|] == items;
  }

  /** `processAssignments(data)` up to the call of `getSubmissions`. */
  method ProcessAssignments(kind: ContextType, contextId: Option<nat>, listing: Listing) returns (scan: IdScan)
    ensures scan == AssignmentIds(kind, contextId, listing)
  {
    match listing {
      case Single(item) =>
        var ids := PushAccepted([], kind, contextId, [item]);
        return Ids(ids);
      case Groups(groups) =>
        var assignmentIds: seq<nat> := [];
        if kind == Assignments {
          var lists := AssignmentsOf(groups);
          for g := 0 to |groups|
            invariant assignmentIds == AcceptedIds(kind, contextId, Concat(lists[..g]))
          {
            assert lists[..g + 1] == lists[..g] + [groups[g].assignments];
            ConcatAppend(lists[..g], [groups[g].assignments]);
            assert Concat([groups[g].assignments]) == groups[g].assignments by {
              assert [groups[g].assignments][..0] == [];
            }
            AcceptedIdsAppend(kind, contextId, Concat(lists[..g]), groups[g].assignments);
            assignmentIds := PushAccepted(assignmentIds, kind, contextId, groups[g].assignments);
          }
          assert lists[..|groups|] == lists;
        }
        return Ids(assignmentIds);
      case Items(items) =>
        if kind == Assignments {
          if |items| > 0 {
            return NotGroups;
          }
          return Ids([]);
        }
        var ids := PushAccepted([], kind, contextId, items);
        return Ids(ids);
    }
  }

  // ---------------------------------------------------------------------------------------
  // The chunking of getSubmissions

  /** `m`: `Math.ceil(n / 4)`, replaced by 10 when that exceeds 10 or when `n <= 10`. */
  function ChunkSize(n: nat): (m: nat)
    ensures 1 <= m <= 10
  {
    var m := (n + 3) / 4;
    if m > 10 || n <= 10 then 10 else m
  }

  /** The slices `ids.slice(a, b)` from `a` on, each `m` long except a shorter last one. */
  function SlicesFrom(ids: seq<nat>, m: nat, a: nat): seq<seq<nat>>
    requires m >= 1 && a <= |ids|
    decreases |ids| - a
  {
    if a == |ids| then []
    else
      var b := if a + m > |ids| then |ids| else a + m;
      [ids[a..b]] + SlicesFrom(ids, m, b)
  }

  /** The id lists of the submissions requests `getSubmissions(ids)` issues, in order. */
  function Batches(ids: seq<nat>): seq<seq<nat>>
  {
    if |ids| == 0 then [] else SlicesFrom(ids, ChunkSize(|ids|), 0)
  }

  lemma {:induction false} SlicesFromCover(ids: seq<nat>, m: nat, a: nat)
    requires m >= 1 && a <= |ids|
    ensures Concat(SlicesFrom(ids, m, a)) == ids[a..]
    decreases |ids| - a
  {
    if a < |ids| {
      var b := if a + m > |ids| then |ids| else a + m;
      SlicesFromCover(ids, m, b);
      ConcatCons(ids[a..b], SlicesFrom(ids, m, b));
      assert ids[a..b] + ids[b..] == ids[a..];
    }
  }

  lemma {:induction false} SlicesFromSizes(ids: seq<nat>, m: nat, a: nat)
    requires m >= 1 && a <= |ids|
    ensures forall k :: 0 <= k < |SlicesFrom(ids, m, a)| ==> 1 <= |SlicesFrom(ids, m, a)[k]| <= m
    ensures forall k :: 0 <= k < |SlicesFrom(ids, m, a)| - 1 ==> |SlicesFrom(ids, m, a)[k]| == m
    decreases |ids| - a
  {
    if a < |ids| {
      var b := if a + m > |ids| then |ids| else a + m;
      SlicesFromSizes(ids, m, b);
      var rest := SlicesFrom(ids, m, b);
      assert forall k :: 0 <= k < |rest| ==> 1 <= |rest[k]| <= m;
      var r := SlicesFrom(ids, m, a);
      assert r == [ids[a..b]] + rest;
      assert |rest| > 0 ==> b < |ids| && b == a + m;
      forall k | 0 <= k < |r|
        ensures 1 <= |r[k]| <= m
        ensures k < |r| - 1 ==> |r[k]| == m
      {
        if k == 0 {
          assert r[0] == ids[a..b];
        } else {
          assert r[k] == rest[k - 1];
          assert 1 <= |rest[k - 1]| <= m;
          assert k - 1 < |rest| - 1 ==> |rest[k - 1]| == m;
        }
      }
    }
  }

  lemma {:induction false} SlicesFromCount(ids: seq<nat>, m: nat, a: nat)
    requires m >= 1 && a <= |ids|
    ensures var c := |SlicesFrom(ids, m, a)|;
      a < |ids| ==> (c - 1) * m < |ids| - a <= c * m
    decreases |ids| - a
  {
    if a < |ids| {
      var b := if a + m > |ids| then |ids| else a + m;
      SlicesFromCount(ids, m, b);
      var c := |SlicesFrom(ids, m, b)|;
      if b < |ids| {
        assert (c + 1) * m == c * m + m;
        assert (c + 1 - 1) * m == c * m;
      }
    }
  }

  /** `getSubmissions` cuts the ids into consecutive slices that cover every id once, in order:
      each holds 1 to 10 ids, all but the last exactly `m`, and there are `ceil(n / m)` of them
      (none for no ids). */
  lemma BatchesPartition(ids: seq<nat>)
    ensures var r := Batches(ids);
      var m := ChunkSize(|ids|);
      && Concat(r) == ids
      && (forall k :: 0 <= k < |r| ==> 1 <= |r[k]| <= m <= 10)
      && (forall k :: 0 <= k < |r| - 1 ==> |r[k]| == m)
      && (|ids| > 0 ==> (|r| - 1) * m < |ids| <= |r| * m)
      && (|ids| == 0 ==> r == [])
  {
    if |ids| > 0 {
      SlicesFromCover(ids, ChunkSize(|ids|), 0);
      SlicesFromSizes(ids, ChunkSize(|ids|), 0);
      SlicesFromCount(ids, ChunkSize(|ids|), 0);
      assert ids[0..] == ids;
    }
  }

  /** One turn of the chunking loop: the slice taken moves from the remaining work to the
      batches collected so far. */
  lemma SlicesFromStep(batches: seq<seq<nat>>, ids: seq<nat>, m: nat, a: nat)
    requires m >= 1 && a < |ids|
    ensures var b := if a + m > |ids| then |ids| else a + m;
      batches + SlicesFrom(ids, m, a) == (batches + [ids[a..b]]) + SlicesFrom(ids, m, b)
  {
  }

  /** The `while (a < n)` loop of `getSubmissions`, collecting the id list of each request. */
  method GetBatches(ids: seq<nat>) returns (batches: seq<seq<nat>>)
    ensures batches == Batches(ids)
  {
    batches := [];
    if |ids| > 0 {
      var n := |ids|;
      var m := (n + 3) / 4;
      if m > 10 || n <= 10 {
        m := 10;
      }
      assert m == ChunkSize(n);
      var a := 0;
      while a < n
        invariant 1 <= m && a <= n
        invariant batches + SlicesFrom(ids, m, a) == Batches(ids)
        decreases n - a
      {
        var b := if a + m > n then n else a + m;
        SlicesFromStep(batches, ids, m, a);
        batches := batches + [ids[a..b]];
        a := b;
      }
    }
  }

  // ---------------------------------------------------------------------------------------
  // The list URL

  /** The path segment of a context type. */
  function KindPath(kind: ContextType): string
  {
    match kind
    case Assignments => "assignments"
    case Quizzes => "quizzes"
    case DiscussionTopics => "discussion_topics"
  }

  /** `baseUrl`: `/api/v1/courses/${courseId}`. */
  function BaseUrl(courseId: string): string
  {
    "/api/v1/courses/" + courseId
  }

  /** The query strings of the three list endpoints. */
  const AssignmentsQuery: string :=
    "include[]=assignments&exclude_response_fields[]=rubric&exclude_response_fields[]=description&override_assignment_dates=false"
  const DiscussionTopicsQuery: string := "exclude_assignment_descriptions=true&plain_messages=true&per_page=30"
  const QuizzesQuery: string := "per_page=30"

  /** The endpoint the `switch` picks for each context type. */
  function EndpointPath(kind: ContextType): string
  {
    match kind
    case Assignments => "/assignment_groups" + "?" + AssignmentsQuery
    case DiscussionTopics => "/discussion_topics" + "?" + DiscussionTopicsQuery
    case Quizzes => "/quizzes" + "?" + QuizzesQuery
  }

  /** The single-item URL set when the path names an item. */
  function SingleItemUrl(courseId: string, kind: ContextType, contextId: nat): string
  {
    BaseUrl(courseId) + ItemPath(kind, NatToDecimal(contextId))
  }

  /** The top-level assignments to `listUrl`: the single-item URL first, then the `switch`,
      which covers every context type. */
  method SelectListUrl(courseId: string, kind: ContextType, contextId: Option<nat>) returns (listUrl: string)
    ensures listUrl == BaseUrl(courseId) + EndpointPath(kind)
    ensures contextId.Some? ==> listUrl != SingleItemUrl(courseId, kind, contextId.value)
  {
    listUrl := "";
    var baseUrl := BaseUrl(courseId);
    if contextId.Some? {
      listUrl := SingleItemUrl(courseId, kind, contextId.value);
    }
    match kind {
      case Assignments => listUrl := baseUrl + EndpointPath(Assignments);
      case DiscussionTopics => listUrl := baseUrl + EndpointPath(DiscussionTopics);
      case Quizzes => listUrl := baseUrl + EndpointPath(Quizzes);
    }
    if contextId.Some? {
      SingleItemUrlNeverChosen(courseId, kind, contextId.value);
    }
  }

  /** The single-item URL never survives: the endpoint differs from it right after the base
      and the type's path. */
  lemma SingleItemUrlNeverChosen(courseId: string, kind: ContextType, contextId: nat)
    ensures BaseUrl(courseId) + EndpointPath(kind) != SingleItemUrl(courseId, kind, contextId)
  {
    var base := BaseUrl(courseId);
    var digits := NatToDecimal(contextId);
    assert SingleItemUrl(courseId, kind, contextId) == base + ItemPath(kind, digits);
    EndpointIsNotItemPath(base, kind, digits);
  }

  /** The path of one item below the course, `/<type>/<id>`. */
  function ItemPath(kind: ContextType, digits: string): string
  {
    "/" + KindPath(kind) + "/" + digits
  }

  lemma EndpointIsNotItemPath(base: string, kind: ContextType, digits: string)
    ensures base + EndpointPath(kind) != base + ItemPath(kind, digits)
  {
    match kind {
      case Assignments => AssignmentGroupsIsNotItemPath(base, digits);
      case Quizzes => QuizzesIsNotItemPath(base, digits);
      case DiscussionTopics => DiscussionTopicsIsNotItemPath(base, digits);
    }
  }

  lemma AssignmentGroupsIsNotItemPath(base: string, digits: string)
    ensures base + EndpointPath(Assignments) != base + ItemPath(Assignments, digits)
  {
    var x, y := EndpointPath(Assignments), ItemPath(Assignments, digits);
    assert x[11] == '_';
    assert y[11] == 's';
    DifferAt(base, x, y, 11);
  }

  lemma QuizzesIsNotItemPath(base: string, digits: string)
    ensures base + EndpointPath(Quizzes) != base + ItemPath(Quizzes, digits)
  {
    var x, y := EndpointPath(Quizzes), ItemPath(Quizzes, digits);
    assert x[8] == '?';
    assert y[8] == '/';
    DifferAt(base, x, y, 8);
  }

  lemma DiscussionTopicsIsNotItemPath(base: string, digits: string)
    ensures base + EndpointPath(DiscussionTopics) != base + ItemPath(DiscussionTopics, digits)
  {
    var x, y := EndpointPath(DiscussionTopics), ItemPath(DiscussionTopics, digits);
    assert x[18] == '?';
    assert y[18] == '/';
    DifferAt(base, x, y, 18);
  }

  /** Two strings that differ at one position still differ after the same prefix. */
  lemma DifferAt(base: string, x: string, y: string, i: nat)
    requires i < |x| && i < |y| && x[i] != y[i]
    ensures base + x != base + y
  {
    assert (base + x)[|base| + i] == x[i];
    assert (base + y)[|base| + i] == y[i];
  }

}
