/** The request and approval state machine of backend/models/Enrollment.php.
    It exists twice in the source with the same rules: a student asks to
    join a course (`enrollment_requests` and `course_enrollments`) and a
    teacher asks to join a school (`teacher_school_requests` and
    `teacher_schools`). One class models both; its kind selects the
    messages. */
module Approval {
  import opened Common

  datatype Kind = Enrolment | Affiliation

  datatype ReqStatus = Pending | Approved | Rejected

  /** A request row: `requester` is the student or teacher, `target` the
      course or school, `approver` the course's teacher (enrolment requests
      only), `createdAt` the creation timestamp. */
  datatype Request = Request(
    id: nat,
    requester: nat,
    target: nat,
    approver: Option<nat>,
    status: ReqStatus,
    createdAt: int)

  type Requests = map<nat, Request>

  /** A membership row: (student, course) or (teacher, school). */
  type Member = (nat, nat)

  function PairOf(r: Request): Member
  {
    (r.requester, r.target)
  }

  function AlreadyMember(kind: Kind): string
  {
    match kind
    case Enrolment => "Student already enrolled in this course"
    case Affiliation => "Teacher already in this school"
  }

  function AlreadyPending(kind: Kind): string
  {
    match kind
    case Enrolment => "Enrollment request already pending"
    case Affiliation => "Request already pending"
  }

  function NotFound(kind: Kind): string
  {
    match kind
    case Enrolment => "Enrollment request not found"
    case Affiliation => "Request not found"
  }

  const AlreadyProcessed: string := "Request already processed"

  /** The `COUNT(*) ... AND status = 'pending'` test. */
  predicate HasPending(requests: Requests, requester: nat, target: nat)
  {
    exists k :: k in requests && requests[k].requester == requester
      && requests[k].target == target && requests[k].status == Pending
  }

  /** The facts the two tables keep: rows are stored under their ids, an
      approved request's pair is a member, a pending request's pair is not,
      and no pair has two pending requests. */
  ghost predicate Consistent(requests: Requests, members: set<Member>)
  {
    (forall k :: k in requests ==> requests[k].id == k)
    && (forall k :: k in requests && requests[k].status == Approved ==> PairOf(requests[k]) in members)
    && (forall k :: k in requests && requests[k].status == Pending ==> PairOf(requests[k]) !in members)
    && (forall j, k :: j in requests && k in requests && j != k
          && requests[j].status == Pending && requests[k].status == Pending
          ==> PairOf(requests[j]) != PairOf(requests[k]))
  }

  /** Adding a pending request for a pair that is neither a member nor
      pending keeps the tables consistent. */
  lemma SubmitKeepsConsistent(requests: Requests, members: set<Member>, req: Request)
    requires Consistent(requests, members)
    requires req.id !in requests && req.status == Pending
    requires PairOf(req) !in members && !HasPending(requests, req.requester, req.target)
    ensures Consistent(requests[req.id := req], members)
  {
    var after := requests[req.id := req];
    forall j, k | j in after && k in after && j != k
      && after[j].status == Pending && after[k].status == Pending
      ensures PairOf(after[j]) != PairOf(after[k])
    {
      if j == req.id {
        assert !(requests[k].requester == req.requester && requests[k].target == req.target);
      } else if k == req.id {
        assert !(requests[j].requester == req.requester && requests[j].target == req.target);
      }
    }
  }

  /** Approving a pending request and adding its pair keeps the tables
      consistent. */
  lemma ApproveKeepsConsistent(requests: Requests, members: set<Member>, id: nat)
    requires Consistent(requests, members)
    requires id in requests && requests[id].status == Pending
    ensures Consistent(requests[id := requests[id].(status := Approved)], members + {PairOf(requests[id])})
  {
    var after := requests[id := requests[id].(status := Approved)];
    forall k | k in after && after[k].status == Pending
      ensures PairOf(after[k]) !in members + {PairOf(requests[id])}
    {
      assert k != id;
    }
  }

  /** Rejecting any request keeps the tables consistent. */
  lemma RejectKeepsConsistent(requests: Requests, members: set<Member>, id: nat)
    requires Consistent(requests, members)
    requires id in requests
    ensures Consistent(requests[id := requests[id].(status := Rejected)], members)
  {
  }

  /** Newest first (`ORDER BY created_at DESC`). */
  ghost predicate NewestFirst(s: seq<Request>)
  {
    forall i, j :: 0 <= i < j < |s| ==> s[i].createdAt >= s[j].createdAt
  }

  ghost predicate DistinctIds(s: seq<Request>)
  {
    forall i, j :: 0 <= i < j < |s| ==> s[i].id != s[j].id
  }

  /** Whose pending requests a list shows: the ones a teacher must decide
      (`getPendingRequestsForTeacher`), the ones sent to a school
      (`getPendingTeacherRequestsForSchool`), or a teacher's own
      (`getTeacherPendingRequests`). */
  datatype Party = ForApprover(approver: nat) | ForTarget(target: nat) | ForRequester(requester: nat)

  predicate Concerns(party: Party, r: Request)
  {
    match party
    case ForApprover(a) => r.approver == Some(a)
    case ForTarget(t) => r.target == t
    case ForRequester(q) => r.requester == q
  }

  class Workflow {
    const kind: Kind
    var requests: Requests
    var members: set<Member>
    /** The id the next request receives. */
    var nextId: nat

    ghost predicate Valid()
      reads this
    {
      1 <= nextId && (forall k :: k in requests ==> 1 <= k < nextId)
      && Consistent(requests, members)
    }

    constructor (kind: Kind)
      ensures Valid() && this.kind == kind && requests == map[] && members == {} && nextId == 1
    {
      this.kind := kind;
      requests := map[];
      members := {};
      nextId := 1;
    }

    /** `getEnrollmentRequestById` / `getTeacherSchoolRequestById`. */
    function Find(id: Option<nat>): (r: Option<Request>)
      reads this
      ensures r.Some? <==> id.Some? && id.value in requests
      ensures r.Some? ==> r.value == requests[id.value]
    {
      if id.Some? && id.value in requests then Some(requests[id.value]) else None
    }

    /** `createEnrollmentRequest` / `createTeacherSchoolRequest`: refused when
        the pair is already a member, then when a request for it is already
        pending; otherwise one pending request is added and its id
        returned. Requests approved or rejected earlier do not block. */
    method Submit(requester: nat, target: nat, approver: Option<nat>, now: int) returns (r: Result<nat, string>)
      requires Valid()
      modifies this
      ensures Valid() && members == old(members)
      ensures (requester, target) in old(members) ==>
        r == Err(AlreadyMember(kind)) && requests == old(requests) && nextId == old(nextId)
      ensures (requester, target) !in old(members) && HasPending(old(requests), requester, target) ==>
        r == Err(AlreadyPending(kind)) && requests == old(requests) && nextId == old(nextId)
      ensures (requester, target) !in old(members) && !HasPending(old(requests), requester, target) ==>
        r == Ok(old(nextId)) && nextId == old(nextId) + 1
        && requests == old(requests)[old(nextId) := Request(old(nextId), requester, target, approver, Pending, now)]
    {
      if (requester, target) in members {
        return Err(AlreadyMember(kind));
      }
      if HasPending(requests, requester, target) {
        return Err(AlreadyPending(kind));
      }
      var req := Request(nextId, requester, target, approver, Pending, now);
      SubmitKeepsConsistent(requests, members, req);
      requests := requests[nextId := req];
      r := Ok(nextId);
      nextId := nextId + 1;
    }

    /** `approveEnrollmentRequest` / `approveTeacherSchoolRequest`: an unknown
        or no longer pending request is refused before anything is written;
        otherwise, in one transaction, the request becomes approved and its
        pair becomes a member. */
    method Approve(id: nat) returns (r: Result<(), string>)
      requires Valid()
      modifies this
      ensures Valid() && nextId == old(nextId)
      ensures id !in old(requests) ==>
        r == Err(NotFound(kind)) && requests == old(requests) && members == old(members)
      ensures id in old(requests) && old(requests)[id].status != Pending ==>
        r == Err(AlreadyProcessed) && requests == old(requests) && members == old(members)
      ensures id in old(requests) && old(requests)[id].status == Pending ==>
        r == Ok(()) && requests == old(requests)[id := old(requests)[id].(status := Approved)]
        && members == old(members) + {PairOf(old(requests)[id])}
    {
      var request := Find(Some(id));
      if request.None? {
        return Err(NotFound(kind));
      }
      if request.value.status != Pending {
        return Err(AlreadyProcessed);
      }
      ApproveKeepsConsistent(requests, members, id);
      requests := requests[id := request.value.(status := Approved)];
      members := members + {PairOf(request.value)};
      r := Ok(());
    }

    /** `rejectEnrollmentRequest` / `rejectTeacherSchoolRequest`: sets the
        status to rejected whatever it was; memberships are untouched and an
        unknown id changes nothing. */
    method Reject(id: nat)
      requires Valid()
      modifies this
      ensures Valid() && nextId == old(nextId) && members == old(members)
      ensures requests == if id in old(requests) then old(requests)[id := old(requests)[id].(status := Rejected)]
        else old(requests)
    {
      if id in requests {
        RejectKeepsConsistent(requests, members, id);
        requests := requests[id := requests[id].(status := Rejected)];
      }
    }

    /** The pending requests concerning `party`, newest first, each once. */
    method PendingList(party: Party) returns (r: seq<Request>)
      requires Valid()
      ensures forall x :: x in r <==> x in requests.Values && x.status == Pending && Concerns(party, x)
      ensures NewestFirst(r) && DistinctIds(r)
    {
      r := [];
      var todo := requests.Keys;
      while todo != {}
        invariant todo <= requests.Keys
        invariant NewestFirst(r) && DistinctIds(r)
        invariant forall i :: 0 <= i < |r| ==>
          r[i].id in requests && r[i].id !in todo && requests[r[i].id] == r[i]
          && r[i].status == Pending && Concerns(party, r[i])
        invariant forall k ::
          k in requests && k !in todo && requests[k].status == Pending && Concerns(party, requests[k])
          ==> requests[k] in r
        decreases |todo|
      {
        var k :| k in todo;
        var x := requests[k];
        if x.status == Pending && Concerns(party, x) {
          var p;
          ghost var before := r;
          r, p := InsertNewestFirst(r, x);
          InsertedAt(before, x, p);
        }
        todo := todo - {k};
      }
      forall x | x in requests.Values && x.status == Pending && Concerns(party, x)
        ensures x in r
      {
        var k :| k in requests && requests[k] == x;
      }
    }
  }

  /** Places `x` after every request at least as new. */
  method InsertNewestFirst(s: seq<Request>, x: Request) returns (r: seq<Request>, p: nat)
    requires NewestFirst(s)
    ensures p <= |s| && r == s[..p] + [x] + s[p..]
    ensures NewestFirst(r)
  {
    p := 0;
    while p < |s| && s[p].createdAt >= x.createdAt
      invariant p <= |s|
      invariant forall i :: 0 <= i < p ==> s[i].createdAt >= x.createdAt
    {
      p := p + 1;
    }
    r := s[..p] + [x] + s[p..];
  }

  /** Inserting at one position adds exactly that request, and keeps the ids
      distinct when its id was not listed. */
  lemma InsertedAt(s: seq<Request>, x: Request, p: nat)
    requires p <= |s|
    ensures forall y :: y in s[..p] + [x] + s[p..] <==> y in s || y == x
    ensures DistinctIds(s) && (forall i :: 0 <= i < |s| ==> s[i].id != x.id) ==>
      DistinctIds(s[..p] + [x] + s[p..])
  {
    assert s == s[..p] + s[p..];
  }

  /** Rejecting an approved request flips its status but keeps the
      membership it created. */
  lemma RejectAfterApproval(requests: Requests, members: set<Member>, id: nat)
    requires Consistent(requests, members)
    requires id in requests && requests[id].status == Approved
    ensures var after := requests[id := requests[id].(status := Rejected)];
      after[id].status == Rejected && PairOf(after[id]) in members
  {
  }
}
