/** The records of the learning-management system's REST API that the userscripts read and
    write, reduced to the fields they use. JSON decoding is not modelled: a response body
    arrives already as one of these values. */
module Canvas {
  import opened Js

  /** The kind of page the script runs on (`/courses/:id/<kind>`), which decides the list
      endpoint and how its records are read. */
  datatype ContextType = Assignments | Quizzes | DiscussionTopics

  /** The assignment a graded discussion topic carries under `assignment`; only its due date
      is read. */
  datatype LinkedAssignment = LinkedAssignment(dueAt: Option<string>)

  /** An assignment, quiz or discussion topic. `id == 0` stands for a falsy id,
      `assignmentId` is the link a quiz or discussion topic has to its assignment,
      `assignment` is present only on discussion topics that are graded. */
  datatype Item = Item(
    id: nat,
    published: bool,
    dueAt: Option<string>,
    assignmentId: Option<nat>,
    submissionTypes: seq<string>,
    assignment: Option<LinkedAssignment>)

  /** An assignment group as `assignment_groups?include[]=assignments` returns it. */
  datatype Group = Group(assignments: seq<Item>)

  /** The body of a list response: an array of assignment groups, an array of items, or a
      single object (the single-item endpoints). */
  datatype Listing = Groups(groups: seq<Group>) | Items(items: seq<Item>) | Single(item: Item)

  /** A submission of one student to one assignment. Timestamps are ISO-8601 strings,
      `null` is `None`; `latePolicyStatus` is `late_policy_status` (`'none'`, `'late'`,
      `'missing'`, ... or `null`). */
  datatype Submission = Submission(
    id: nat,
    assignmentId: nat,
    userId: nat,
    late: bool,
    excused: bool,
    score: Option<real>,
    submittedAt: Option<string>,
    latePolicyStatus: Option<string>,
    cachedDueDate: Option<string>)

  /** A PUT to `/api/v1/courses/:course/assignments/:assignmentId/submissions/:userId` with body
      `{submission: {late_policy_status: latePolicyStatus}}`, authenticated by `token`
      (sent as the `X-CSRF-Token` header by one script and as the `authenticity_token` body
      field by the other). */
  datatype Put = Put(assignmentId: nat, userId: nat, latePolicyStatus: Option<string>, token: string)

  /** The assignments of each group, in group order (`data.forEach(group =>
      group.assignments.forEach(...))` visits them in this order). */
  function AssignmentsOf(groups: seq<Group>): (r: seq<seq<Item>>)
    ensures |r| == |groups|
    ensures forall k :: 0 <= k < |groups| ==> r[k] == groups[k].assignments
  {
    seq(|groups|, k requires 0 <= k < |groups| => groups[k].assignments)
  }

  /** 2xx: what `Response.ok` reports. */
  predicate IsOk(status: nat)
  {
    200 <= status <= 299
  }
}
