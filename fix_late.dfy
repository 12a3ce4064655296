/** The pure pieces of `fix-late/FixLateAssignments.user.js`: the `Link` header parser, the item
    filter, the flattening of list responses into items to process, the choice of the
    assignment whose submissions are fetched, the CSRF token lookup and the outcome of one
    PUT. The run that strings them together is in module FixLateRun. */
module FixLate {
  import opened Js
  import opened Canvas

  // ---------------------------------------------------------------------------------------
  // getNextUrl

  /** The relation a `Link` segment must contain to be the next page. */
  const NextRel: string := "rel=\"next\""

  /** `links.find(link => link.includes('rel="next"'))`, as an index. */
  function FindNext(links: seq<string>): (r: Option<nat>)
    ensures r.Some? ==> r.value < |links| && Includes(links[r.value], NextRel)
    ensures r.Some? ==> forall k :: 0 <= k < r.value ==> !Includes(links[k], NextRel)
    ensures r.None? ==> forall k :: 0 <= k < |links| ==> !Includes(links[k], NextRel)
  {
    if |links| == 0 then None
    else if Includes(links[0], NextRel) then Some(0)
    else match FindNext(links[1..])
      case Some(k) => Some(k + 1)
      case None => None
  }

  /** The characters at which a regular expression's `.` stops. */
  predicate IsLineTerminator(c: char)
  {
    c == '\n' || c == '\r' || c == '\U{2028}' || c == '\U{2029}'
  }

  /** The first index at or after `i` that holds a line terminator, or `|s|`. */
  function LineEnd(s: string, i: nat): (e: nat)
    requires i <= |s|
    ensures i <= e <= |s|
    ensures forall k :: i <= k < e ==> !IsLineTerminator(s[k])
    ensures e < |s| ==> IsLineTerminator(s[e])
    decreases |s| - i
  {
    if i == |s| || IsLineTerminator(s[i]) then i else LineEnd(s, i + 1)
  }

  /** The index of the last `c` in `s`. */
  function LastIndexOf(s: string, c: char): (r: Option<nat>)
    ensures r.Some? ==> r.value < |s| && s[r.value] == c
    ensures r.Some? ==> forall k :: r.value < k < |s| ==> s[k] != c
    ensures r.None? ==> forall k :: 0 <= k < |s| ==> s[k] != c
  {
    if |s| == 0 then None
    else if s[|s| - 1] == c then Some(|s| - 1)
    else LastIndexOf(s[..|s| - 1], c)
  }

  /** The capture of `/<(.*)>/` searched from index `i`: from the leftmost `<` that a `>`
      follows on the same line, the text up to the last such `>` (`.*` is greedy and does
      not cross a line terminator). */
  function AngleMatchFrom(s: string, i: nat): (r: Option<string>)
    requires i <= |s|
    ensures r.Some? ==> forall k :: 0 <= k < |r.value| ==> r.value[k] in s
    ensures r.Some? ==> forall k :: 0 <= k < |r.value| ==> !IsLineTerminator(r.value[k])
    decreases |s| - i
  {
    if i == |s| then None
    else if s[i] == '<' then
      var e := LineEnd(s, i + 1);
      match LastIndexOf(s[i + 1..e], '>')
      case Some(k) => Some(s[i + 1..i + 1 + k])
      case None => AngleMatchFrom(s, i + 1)
    else AngleMatchFrom(s, i + 1)
  }

  /** `segment.match(/<(.*)>/)`, the capture group or null. */
  function AngleMatch(segment: string): Option<string>
  {
    AngleMatchFrom(segment, 0)
  }

  /** Reference reading of a `Link` segment from index `i` on: the text between the first
      `<` at or after `i` and the last `>`, when that `>` comes after that `<`. */
  function SpanFrom(s: string, i: nat): Option<string>
    requires i <= |s|
  {
    match FirstIndexFrom(s, '<', i)
    case None => None
    case Some(f) =>
      match LastIndexOf(s, '>')
      case None => None
      case Some(l) => if f < l then Some(s[f + 1..l]) else None
  }

  /** The text between the first `<` and the last `>` of a segment. */
  function Span(segment: string): Option<string>
  {
    SpanFrom(segment, 0)
  }

  lemma LastIndexOfSuffix(s: string, c: char, j: nat)
    requires j <= |s|
    ensures LastIndexOf(s[j..], c).Some? ==>
      LastIndexOf(s, c) == Some(j + LastIndexOf(s[j..], c).value)
    ensures LastIndexOf(s[j..], c).None? ==>
      LastIndexOf(s, c).None? || LastIndexOf(s, c).value < j
  {
    var a, b := LastIndexOf(s[j..], c), LastIndexOf(s, c);
    if a.Some? {
      assert s[j + a.value] == c;
    }
  }

  /** On a line-terminator-free segment `/<(.*)>/` captures exactly the reference span. */
  lemma {:induction false} AngleMatchFromIsSpan(s: string, i: nat)
    requires i <= |s|
    requires forall k :: 0 <= k < |s| ==> !IsLineTerminator(s[k])
    ensures AngleMatchFrom(s, i) == SpanFrom(s, i)
    decreases |s| - i
  {
    if i < |s| {
      if s[i] == '<' {
        if LastIndexOf(s[i + 1..], '>').None? {
          AngleMatchFromIsSpan(s, i + 1);
        }
        AngleMatchAtOpen(s, i);
      } else {
        assert FirstIndexFrom(s, '<', i) == FirstIndexFrom(s, '<', i + 1);
        AngleMatchFromIsSpan(s, i + 1);
      }
    }
  }

  /** The step of `AngleMatchFromIsSpan` at a `<`: the greedy capture reaches the last `>`,
      and with no `>` after it neither reading finds anything. */
  lemma AngleMatchAtOpen(s: string, i: nat)
    requires i < |s| && s[i] == '<'
    requires forall k :: 0 <= k < |s| ==> !IsLineTerminator(s[k])
    requires LastIndexOf(s[i + 1..], '>').None? ==> AngleMatchFrom(s, i + 1) == SpanFrom(s, i + 1)
    ensures AngleMatchFrom(s, i) == SpanFrom(s, i)
  {
    assert FirstIndexFrom(s, '<', i) == Some(i);
    assert LineEnd(s, i + 1) == |s|;
    assert s[i + 1..|s|] == s[i + 1..];
    LastIndexOfSuffix(s, '>', i + 1);
    match LastIndexOf(s[i + 1..], '>')
    case Some(k) =>
      assert LastIndexOf(s, '>') == Some(i + 1 + k);
    case None =>
      var f := FirstIndexFrom(s, '<', i + 1);
      assert f.Some? ==> f.value > i;
  }

  /** `getNextUrl(linkHeader)`: null when the header is absent or empty or no comma-separated
      segment contains `rel="next"`; otherwise what `/<(.*)>/` captures in the first such
      segment, which never holds a comma. */
  function GetNextUrl(header: Option<string>): (r: Option<string>)
    ensures !Truthy(header) ==> r.None?
    ensures Truthy(header) && FindNext(Split(header.value, ',')).None? ==> r.None?
    ensures r.Some? ==> ',' !in r.value
  {
    if !Truthy(header) then None
    else
      var links := Split(header.value, ',');
      match FindNext(links)
      case None => None
      case Some(k) => AngleMatch(links[k])
  }

  /** A header without line terminators (HTTP header values cannot hold CR or LF) yields the
      span between the first `<` and the last `>` of its first segment containing
      `rel="next"`. */
  lemma GetNextUrlIsFirstSpan(header: string, k: nat)
    requires header != ""
    requires forall j :: 0 <= j < |header| ==> !IsLineTerminator(header[j])
    requires k < |Split(header, ',')| && Includes(Split(header, ',')[k], NextRel)
    requires forall j :: 0 <= j < k ==> !Includes(Split(header, ',')[j], NextRel)
    ensures GetNextUrl(Some(header)) == Span(Split(header, ',')[k])
  {
    var links := Split(header, ',');
    var f := FindNext(links);
    assert f == Some(k);
    SplitKeepsCharacters(header, ',', k);
    AngleMatchFromIsSpan(links[k], 0);
  }

  lemma {:induction false} SplitKeepsCharacters(s: string, sep: char, k: nat)
    requires k < |Split(s, sep)|
    ensures forall j :: 0 <= j < |Split(s, sep)[k]| ==> Split(s, sep)[k][j] in s
  {
    if |s| > 0 {
      var rest := Split(s[1..], sep);
      if s[0] == sep {
        if k > 0 {
          SplitKeepsCharacters(s[1..], sep, k - 1);
        }
      } else if k == 0 {
        SplitKeepsCharacters(s[1..], sep, 0);
        assert forall j :: 0 <= j < |rest[0]| ==> rest[0][j] in s[1..];
      } else {
        SplitKeepsCharacters(s[1..], sep, k);
      }
    }
  }

  // ---------------------------------------------------------------------------------------
  // checkItem, processItems, processSingleItem

  /** `checkItem(item)`: the item's id when it is published and has a due date, else null.
      The id itself may still be falsy (`0`), which the callers test again. */
  function CheckItem(item: Item): (r: Option<nat>)
    ensures r.Some? <==> item.published && Truthy(item.dueAt)
    ensures r.Some? ==> r.value == item.id
  {
    if item.published && Truthy(item.dueAt) then Some(item.id) else None
  }

  /** An item pushed for processing: `{id, type, data}`. */
  datatype Target = Target(id: nat, kind: ContextType, data: Item)

  /** `const id = checkItem(item); if (id) ...`: the item is pushed. */
  predicate Passes(item: Item)
  {
    CheckItem(item).Some? && CheckItem(item).value != 0
  }

  /** The items that pass, in order, as targets of the given kind. */
  function Eligible(items: seq<Item>, kind: ContextType): (ts: seq<Target>)
    ensures |ts| <= |items|
    ensures forall k :: 0 <= k < |ts| ==>
      ts[k].kind == kind && ts[k].id == ts[k].data.id && Passes(ts[k].data) && ts[k].data in items
  {
    if |items| == 0 then []
    else
      var init := Eligible(items[..|items| - 1], kind);
      var last := items[|items| - 1];
      assert forall x | x in items[..|items| - 1] :: x in items;
      if Passes(last) then init + [Target(last.id, kind, last)] else init
  }

  /** Filtering a concatenation is concatenating the filtered parts: eligible items keep
      their relative order. */
  lemma {:induction false} EligibleAppend(a: seq<Item>, b: seq<Item>, kind: ContextType)
    ensures Eligible(a + b, kind) == Eligible(a, kind) + Eligible(b, kind)
  {
    if |b| == 0 {
      assert a + b == a;
    } else {
      EligibleAppend(a, b[..|b| - 1], kind);
      assert (a + b)[..|a + b| - 1] == a + b[..|b| - 1];
    }
  }

  /** Every item that passes `checkItem` with a truthy id is emitted. */
  lemma {:induction false} EligibleComplete(items: seq<Item>, kind: ContextType, x: Item)
    requires x in items && Passes(x)
    ensures Target(x.id, kind, x) in Eligible(items, kind)
  {
    var n := |items|;
    if items[n - 1] != x {
      assert x in items[..n - 1] by {
        var k :| 0 <= k < n && items[k] == x;
        assert k < n - 1;
        assert items[..n - 1][k] == x;
      }
      EligibleComplete(items[..n - 1], kind, x);
    }
  }

  /** How `processItems` reads a list page. */
  datatype Scan =
    | Found(targets: seq<Target>)
      /** `group.assignments.forEach` on an element that is not a group throws a TypeError. */
    | NotGroups

  /** Reference definition of `processItems(data, type)`: the eligible assignments of all
      groups in group-then-assignment order for the assignments page, the eligible items of
      an array otherwise, and a non-array response read as a single item. */
  function ItemTargets(listing: Listing, kind: ContextType): (r: Scan)
    ensures r.NotGroups? <==> listing.Items? && kind == Assignments && |listing.items| > 0
    ensures r.Found? ==> forall t | t in r.targets :: t.kind == kind && t.id == t.data.id && Passes(t.data)
  {
    match listing
    case Groups(groups) =>
      if kind == Assignments then Found(Eligible(Concat(AssignmentsOf(groups)), Assignments))
      else Found([])   // a group is not published, so `checkItem` skips it
    case Items(items) =>
      if kind != Assignments then Found(Eligible(items, kind))
      else if |items| == 0 then Found([])
      else NotGroups
    case Single(item) => Found(Eligible([item], kind))
  }

  /** One `forEach` over an array of items: push every item that passes, in order. */
  method PushEligible(itemIds: seq<Target>, items: seq<Item>, kind: ContextType) returns (out: seq<Target>)
    ensures out == itemIds + Eligible(items, kind)
  {
    out := itemIds;
    for i := 0 to |items|
      invariant out == itemIds + Eligible(items[..i], kind)
    {
      var id := CheckItem(items[i]);
      assert items[..i + 1][..i] == items[..i];
      if id.Some? && id.value != 0 {
        out := out + [Target(id.value, kind, items[i])];
      }
    }
    assert items[..|items|] == items;
  }

  /** `processItems` as the script runs it: `forEach` loops pushing into `itemIds`, nested
      for the groups of the assignments page. */
  method ProcessItems(listing: Listing, kind: ContextType) returns (scan: Scan)
    ensures scan == ItemTargets(listing, kind)
  {
    var itemIds: seq<Target> := [];
    match listing {
      case Groups(groups) =>
        if kind == Assignments {
          ghost var lists := AssignmentsOf(groups);
          for g := 0 to |groups|
            invariant itemIds == Eligible(Concat(lists[..g]), Assignments)
          {
            EligibleAppend(Concat(lists[..g]), groups[g].assignments, Assignments);
            itemIds := PushEligible(itemIds, groups[g].assignments, Assignments);
            assert lists[..g + 1][..g] == lists[..g];
          }
          assert lists[..|groups|] == lists;
        }
        scan := Found(itemIds);
      case Items(items) =>
        if kind == Assignments && |items| > 0 {
          scan := NotGroups;
        } else {
          itemIds := PushEligible(itemIds, items, kind);
          scan := Found(itemIds);
        }
      case Single(item) =>
        itemIds := PushEligible(itemIds, [item], kind);
        scan := Found(itemIds);
    }
  }

  /** `processSingleItem(data)`: the one item of a single-item page, when it passes.
      An array body has no `published` field, so nothing passes. */
  function SingleItemTargets(listing: Listing, kind: ContextType): (ts: seq<Target>)
    ensures |ts| <= 1
    ensures forall t | t in ts :: listing.Single? && t == Target(listing.item.id, kind, listing.item)
    ensures listing.Single? && Passes(listing.item) ==> ts == [Target(listing.item.id, kind, listing.item)]
    ensures forall t | t in ts :: Passes(t.data)
    ensures ts != [] <==> listing.Single? && Passes(listing.item)
  {
    match listing
    case Single(item) => if Passes(item) then [Target(item.id, kind, item)] else []
    case _ => []
  }

  /** The assignment id whose submissions `getSubmissions` walks for a target: a quiz's
      `assignment_id`, or nothing (no request) for a quiz without one; the item's own id for
      assignments and discussion topics. */
  function QueryId(t: Target): (r: Option<nat>)
    ensures t.kind == Quizzes ==> (r.Some? <==> TruthyId(t.data.assignmentId))
    ensures t.kind == Quizzes && r.Some? ==> r.value == t.data.assignmentId.value
    ensures t.kind != Quizzes ==> r == Some(t.id)
  {
    if t.kind == Quizzes then
      if TruthyId(t.data.assignmentId) then Some(t.data.assignmentId.value) else None
    else Some(t.id)
  }

  // ---------------------------------------------------------------------------------------
  // getCsrfToken, putAPI, removeLatePenalty's error text

  /** The cookie that carries the anti-forgery token. */
  const CsrfCookie: string := "_csrf_token"

  /** The index of the first cookie entry named `name` at or after index `i`. */
  function FirstNamedFrom(entries: seq<string>, name: string, i: nat): (r: Option<nat>)
    requires i <= |entries|
    ensures r.Some? ==> i <= r.value < |entries| && CookieName(entries[r.value]) == name
    ensures r.Some? ==> forall k :: i <= k < r.value ==> CookieName(entries[k]) != name
    ensures r.None? ==> forall k :: i <= k < |entries| ==> CookieName(entries[k]) != name
    decreases |entries| - i
  {
    if i == |entries| then None
    else if CookieName(entries[i]) == name then Some(i)
    else FirstNamedFrom(entries, name, i + 1)
  }

  /** The index of the first cookie entry named `name` (the `for ... of` loop returns on it). */
  function FirstNamed(entries: seq<string>, name: string): (r: Option<nat>)
    ensures r.Some? ==> r.value < |entries| && CookieName(entries[r.value]) == name
    ensures r.Some? ==> forall k :: 0 <= k < r.value ==> CookieName(entries[k]) != name
    ensures r.None? ==> forall k :: 0 <= k < |entries| ==> CookieName(entries[k]) != name
  {
    FirstNamedFrom(entries, name, 0)
  }

  /** The decoded value of the FIRST of `entries` named `_csrf_token`, or null. */
  function CsrfFromEntries(entries: seq<string>, decode: string -> string): (r: Option<string>)
    ensures r.None? <==> forall k :: 0 <= k < |entries| ==> CookieName(entries[k]) != CsrfCookie
    ensures r.Some? ==> exists k :: (0 <= k < |entries| && CookieName(entries[k]) == CsrfCookie
      && (forall j :: 0 <= j < k ==> CookieName(entries[j]) != CsrfCookie)
      && r.value == DecodedValue(entries[k], decode))
  {
    match FirstNamed(entries, CsrfCookie)
    case Some(k) => Some(DecodedValue(entries[k], decode))
    case None => None
  }

  /** The cookie fallback of `getCsrfToken`: the entries of `document.cookie` are its pieces
      between `;`. */
  function CsrfFromCookies(cookie: string, decode: string -> string): (r: Option<string>)
    ensures r.None? <==> forall k :: 0 <= k < |Split(cookie, ';')| ==> CookieName(Split(cookie, ';')[k]) != CsrfCookie
    ensures r.Some? ==> Includes(cookie, CsrfCookie)
  {
    var r := CsrfFromEntries(Split(cookie, ';'), decode);
    if r.Some? then CsrfEntryOccurs(cookie, decode); r else r
  }

  /** A token found among the entries comes from an entry whose name occurs in the cookie. */
  lemma CsrfEntryOccurs(cookie: string, decode: string -> string)
    requires CsrfFromEntries(Split(cookie, ';'), decode).Some?
    ensures Includes(cookie, CsrfCookie)
  {
    var entries := Split(cookie, ';');
    var k :| 0 <= k < |entries| && CookieName(entries[k]) == CsrfCookie;
    NamedEntryOccurs(cookie, CsrfCookie);
  }

  /** `getCsrfToken()`: the `content` attribute of `<meta name="csrf-token">` when that element
      exists (`meta` is `Some(content)`, the content itself possibly null), the cookie
      fallback otherwise. */
  function GetCsrfToken(meta: Option<Option<string>>, cookie: string, decode: string -> string): (r: Option<string>)
    ensures meta.Some? ==> r == meta.value
    ensures meta.None? ==> r == CsrfFromCookies(cookie, decode)
  {
    if meta.Some? then meta.value else CsrfFromCookies(cookie, decode)
  }

  /** What the server does with a PUT: it answers with a status, or the request is rejected
      (network failure, or a body that is not JSON) with the error's `toString()`. */
  datatype WriteReply = Replied(status: nat) | WriteRejected(text: string)

  /** Why `putAPI` rejected. */
  datatype Cause = CsrfMissing | HttpStatus(status: nat) | Refused(text: string)

  /** One call of `putAPI`: whether a request went out, and the rejection if any. */
  datatype PutCall = PutCall(sent: bool, failure: Option<Cause>)

  /** `putAPI(url, data)`: without a truthy CSRF token it rejects at once and sends nothing;
      otherwise it sends the request and fulfils exactly when the status is 2xx. */
  function PutApi(token: Option<string>, reply: WriteReply): (r: PutCall)
    ensures r.sent <==> Truthy(token)
    ensures !r.sent ==> r.failure == Some(CsrfMissing)
    ensures r.sent ==> (r.failure.None? <==> reply.Replied? && IsOk(reply.status))
    ensures r.sent && reply.Replied? && !IsOk(reply.status) ==> r.failure == Some(HttpStatus(reply.status))
    ensures r.sent && reply.WriteRejected? ==> r.failure == Some(Refused(reply.text))
  {
    if !Truthy(token) then PutCall(false, Some(CsrfMissing))
    else match reply
      case Replied(status) => if IsOk(status) then PutCall(true, None) else PutCall(true, Some(HttpStatus(status)))
      case WriteRejected(text) => PutCall(true, Some(Refused(text)))
  }

  /** `toString()` of an `Error` begins with its name. */
  const ErrorPrefix: string := "Error: "

  const HttpErrorPrefix: string := ErrorPrefix + "HTTP error! status: "

  /** `e.toString()` of a rejection of `putAPI`: the two errors `putAPI` throws itself read
      `Error: ...`, a rejection from `fetch` or `res.json()` passes through as it is. */
  function CauseText(c: Cause): (t: string)
    ensures c.Refused? ==> t == c.text
    ensures !c.Refused? ==> |ErrorPrefix| <= |t| && t[..|ErrorPrefix|] == ErrorPrefix
  {
    match c
    case CsrfMissing => ErrorPrefix + "CSRF token not found"
    case HttpStatus(status) => HttpErrorPrefix + NatToDecimal(status)
    case Refused(text) => text
  }

  /** Reads the status back from an `HTTP error!` text: the digits after its prefix. */
  function StatusOfText(t: string): Option<nat>
  {
    var p := |HttpErrorPrefix|;
    if p <= |t| && t[..p] == HttpErrorPrefix && AllDigits(t[p..]) then Some(DecimalValue(t[p..])) else None
  }

  /** The text of an HTTP failure names its status, and the missing-token text names none. */
  lemma CauseTextNamesStatus(status: nat)
    ensures StatusOfText(CauseText(HttpStatus(status))) == Some(status)
    ensures StatusOfText(CauseText(CsrfMissing)).None?
  {
    var t := CauseText(HttpStatus(status));
    var p := |HttpErrorPrefix|;
    assert t[..p] == HttpErrorPrefix;
    assert t[p..] == NatToDecimal(status);
    DecimalRoundTrip(status);
    var m := CauseText(CsrfMissing);
    assert |m| < p || m[|ErrorPrefix|] != HttpErrorPrefix[|ErrorPrefix|];
  }

  const WriteFailurePrefix: string := "Failed to update submission "

  /** The entry `removeLatePenalty` pushes onto `errors` for a failed write. */
  function WriteFailureText(submissionId: nat, c: Cause): (s: string)
    ensures |WriteFailurePrefix| < |s| && s[..|WriteFailurePrefix|] == WriteFailurePrefix
    ensures s[|WriteFailurePrefix|] in "0123456789"
  {
    WriteFailurePrefix + NatToDecimal(submissionId) + ": " + CauseText(c)
  }

  /** Reads back the submission a write-failure entry names: the digits between the prefix
      and the first `:` after it. */
  function WriteFailureSubmission(s: string): Option<nat>
  {
    var p := |WriteFailurePrefix|;
    if |s| < p || s[..p] != WriteFailurePrefix then None
    else match FirstIndexFrom(s, ':', p)
      case None => None
      case Some(colon) => if AllDigits(s[p..colon]) then Some(DecimalValue(s[p..colon])) else None
  }

  /** The submission a write-failure entry names can be read back from it. */
  lemma WriteFailureNamesSubmission(submissionId: nat, c: Cause)
    ensures WriteFailureSubmission(WriteFailureText(submissionId, c)) == Some(submissionId)
  {
    var digits := NatToDecimal(submissionId);
    DigitsBeforeColon(WriteFailurePrefix, digits, CauseText(c));
    DecimalRoundTrip(submissionId);
  }

  /** In `p + digits + ": " + t`, the first `:` after `p` ends the digits. */
  lemma DigitsBeforeColon(p: string, digits: string, t: string)
    requires AllDigits(digits)
    ensures (p + digits + ": " + t)[..|p|] == p
    ensures FirstIndexFrom(p + digits + ": " + t, ':', |p|) == Some(|p| + |digits|)
    ensures (p + digits + ": " + t)[|p|..|p| + |digits|] == digits
  {
    var head := p + digits;
    var s := head + ": " + t;
    var n := |p| + |digits|;
    assert s[n] == ':' by {
      assert s == head + (": " + t);
    }
    assert s[..n] == head;
    assert s[|p|..n] == head[|p|..];
    assert s[..|p|] == head[..|p|];
    assert forall k :: |p| <= k < n ==> s[k] == digits[k - |p|];
  }


}
