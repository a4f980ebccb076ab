/** The five request endpoints: backend/api/enrollments/request.php and
    approve.php (a student asks to join a course, the course's teacher
    approves), and backend/api/teacher_requests/request.php, approve.php and
    reject.php (a teacher asks to join a school, the school's admin decides).
    As for the lesson endpoints, each guard sequence is a function to the
    refusal it produces and each endpoint is a method proved to refuse
    exactly as that function says, to change the request tables only as
    `Approval.Workflow` does, and to emit its notification only after the
    model call succeeded. An exception thrown by the model is caught by the
    endpoint and becomes a 500 reply carrying its message. */
module RequestApi {
  import opened Common
  import opened Helpers
  import opened Approval
  import LessonApi

  const RequestIdRequired: string := "Request ID is required"

  /** The exception `createEnrollmentRequest` / `createTeacherSchoolRequest`
      throws, if any: the pair is already a member, or already has a
      pending request. */
  function SubmitError(kind: Kind, requests: Requests, members: set<Member>, requester: nat, target: nat): (r: Option<string>)
    ensures r.None? <==> (requester, target) !in members && !HasPending(requests, requester, target)
    ensures r.Some? ==> r.value == AlreadyMember(kind) || r.value == AlreadyPending(kind)
  {
    if (requester, target) in members then Some(AlreadyMember(kind))
    else if HasPending(requests, requester, target) then Some(AlreadyPending(kind))
    else None
  }

  /** The id `$input['request_id']` selects, if present and an id. */
  function RequestId(body: Payload): Option<nat>
  {
    if "request_id" in body then AsId(body["request_id"]) else None
  }

  // ---------------------------------------------------------------------
  // enrollments/request.php

  const EnrolFields: seq<string> := ["course_id"]

  /** The course `getById($input['course_id'])` looks up. */
  function RequestedCourse(body: Payload): Option<nat>
  {
    AsId(Arg(body, "course_id"))
  }

  /** Students only, a non-blank course id, an existing course. */
  function EnrolRequestRefusal(dir: Directory, caller: Caller, body: Payload): (r: Option<Refusal>)
    ensures r.None? <==> (caller.role == Student && "course_id" in body && !IsBlank(body["course_id"])
      && RequestedCourse(body).Some? && RequestedCourse(body).value in dir.courseTeacher)
    ensures r.Some? && caller.role == Student && "course_id" in body && !IsBlank(body["course_id"]) ==>
      r.value == Refusal(404, LessonApi.CourseNotFound, [])
  {
    RequiredErrorsEmpty(body, EnrolFields);
    if caller.role != Student then Some(Refusal(403, Forbidden, []))
    else if RequiredErrors(body, EnrolFields) != [] then
      Some(Refusal(400, "Validation failed", RequiredErrors(body, EnrolFields)))
    else if RequestedCourse(body).None? || RequestedCourse(body).value !in dir.courseTeacher then
      Some(Refusal(404, LessonApi.CourseNotFound, []))
    else None
  }

  /** The endpoint: the request is made for the calling student, with the
      course's teacher as its approver; the teacher is told only when the
      request was created. */
  method RequestEnrolment(enrolments: Workflow, dir: Directory, caller: Caller, body: Payload, now: int)
    returns (reply: Reply<nat>, notices: seq<Notice>)
    requires enrolments.Valid() && enrolments.kind == Enrolment
    modifies enrolments
    ensures enrolments.Valid() && enrolments.members == old(enrolments.members)
    ensures EnrolRequestRefusal(dir, caller, body).Some? ==>
      reply == Refused(EnrolRequestRefusal(dir, caller, body).value) && notices == []
      && enrolments.requests == old(enrolments.requests) && enrolments.nextId == old(enrolments.nextId)
    ensures EnrolRequestRefusal(dir, caller, body).None? ==>
      var course := RequestedCourse(body).value;
      var err := SubmitError(Enrolment, old(enrolments.requests), old(enrolments.members), caller.id, course);
      (err.Some? ==> (reply == Fail(500, "Failed to create enrollment request: " + err.value) && notices == []
        && enrolments.requests == old(enrolments.requests) && enrolments.nextId == old(enrolments.nextId)))
      && (err.None? ==> (
        var id := old(enrolments.nextId);
        reply == Reply(201, "Enrollment request sent successfully", [], Some(id))
        && notices == [EnrollmentRequested(dir.courseTeacher[course], id)]
        && enrolments.requests == old(enrolments.requests)[id :=
          Request(id, caller.id, course, Some(dir.courseTeacher[course]), Pending, now)]))
  {
    if caller.role != Student {
      return Refused(Refusal(403, Forbidden, [])), [];
    }
    var errors := ValidateRequiredFields(body, EnrolFields);
    if errors != [] {
      return Refused(Refusal(400, "Validation failed", errors)), [];
    }
    var course := RequestedCourse(body);
    if course.None? || course.value !in dir.courseTeacher {
      return Refused(Refusal(404, LessonApi.CourseNotFound, [])), [];
    }
    var teacher := dir.courseTeacher[course.value];
    var id := enrolments.Submit(caller.id, course.value, Some(teacher), now);
    if id.Err? {
      return Fail(500, "Failed to create enrollment request: " + id.error), [];
    }
    notices := [EnrollmentRequested(teacher, id.value)];
    reply := Reply(201, "Enrollment request sent successfully", [], Some(id.value));
  }

  // ---------------------------------------------------------------------
  // enrollments/approve.php

  /** `getEnrollmentRequestById`: the row, provided its course still exists
      (the query joins `courses`). */
  function FindEnrolment(requests: Requests, dir: Directory, body: Payload): (r: Option<Request>)
    ensures r.Some? <==> (RequestId(body).Some? && RequestId(body).value in requests
      && requests[RequestId(body).value].target in dir.courseTeacher)
    ensures r.Some? ==> r.value == requests[RequestId(body).value]
  {
    var id := RequestId(body);
    if id.Some? && id.value in requests && requests[id.value].target in dir.courseTeacher then
      Some(requests[id.value])
    else None
  }

  /** Teachers only, a request id, an existing request, and only the
      request's own teacher. */
  function EnrolApproveRefusal(requests: Requests, dir: Directory, caller: Caller, body: Payload): (r: Option<Refusal>)
    ensures r.None? <==> (caller.role == Teacher && FindEnrolment(requests, dir, body).Some?
      && FindEnrolment(requests, dir, body).value.approver == Some(caller.id))
  {
    if caller.role != Teacher then Some(Refusal(403, Forbidden, []))
    else if "request_id" !in body then Some(Refusal(400, RequestIdRequired, []))
    else if FindEnrolment(requests, dir, body).None? then Some(Refusal(404, "Enrollment request not found", []))
    else if FindEnrolment(requests, dir, body).value.approver != Some(caller.id) then
      Some(Refusal(403, Forbidden, []))
    else None
  }

  /** The endpoint: a request that passes the guards is approved by the
      model, which refuses one no longer pending; the student is told only
      after the approval. */
  method ApproveEnrolment(enrolments: Workflow, dir: Directory, caller: Caller, body: Payload)
    returns (reply: Reply<()>, notices: seq<Notice>)
    requires enrolments.Valid() && enrolments.kind == Enrolment
    modifies enrolments
    ensures enrolments.Valid() && enrolments.nextId == old(enrolments.nextId)
    ensures EnrolApproveRefusal(old(enrolments.requests), dir, caller, body).Some? ==>
      reply == Refused(EnrolApproveRefusal(old(enrolments.requests), dir, caller, body).value) && notices == []
      && enrolments.requests == old(enrolments.requests) && enrolments.members == old(enrolments.members)
    ensures EnrolApproveRefusal(old(enrolments.requests), dir, caller, body).None? ==>
      var req := FindEnrolment(old(enrolments.requests), dir, body).value;
      (req.status != Pending ==> (reply == Fail(500, "Failed to approve enrollment request: " + AlreadyProcessed)
        && notices == []
        && enrolments.requests == old(enrolments.requests) && enrolments.members == old(enrolments.members)))
      && (req.status == Pending ==> (reply == Reply(200, "Enrollment request approved successfully", [], None)
        && notices == [EnrollmentApproved(req.requester, req.target)]
        && enrolments.requests == old(enrolments.requests)[req.id := req.(status := Approved)]
        && enrolments.members == old(enrolments.members) + {(req.requester, req.target)}))
  {
    if caller.role != Teacher {
      return Refused(Refusal(403, Forbidden, [])), [];
    }
    if "request_id" !in body {
      return Refused(Refusal(400, RequestIdRequired, [])), [];
    }
    var request := FindEnrolment(enrolments.requests, dir, body);
    if request.None? {
      return Refused(Refusal(404, "Enrollment request not found", [])), [];
    }
    if request.value.approver != Some(caller.id) {
      return Refused(Refusal(403, Forbidden, [])), [];
    }
    var done := enrolments.Approve(RequestId(body).value);
    if done.Err? {
      return Fail(500, "Failed to approve enrollment request: " + done.error), [];
    }
    notices := [EnrollmentApproved(request.value.requester, request.value.target)];
    reply := Reply(200, "Enrollment request approved successfully", [], None);
  }

  // ---------------------------------------------------------------------
  // teacher_requests/request.php

  const SchoolFields: seq<string> := ["school_id"]

  /** The school `getById($input['school_id'])` looks up. */
  function RequestedSchool(body: Payload): Option<nat>
  {
    AsId(Arg(body, "school_id"))
  }

  /** Teachers only, a non-blank school id, an existing school. */
  function SchoolRequestRefusal(dir: Directory, caller: Caller, body: Payload): (r: Option<Refusal>)
    ensures r.None? <==> (caller.role == Teacher && "school_id" in body && !IsBlank(body["school_id"])
      && RequestedSchool(body).Some? && RequestedSchool(body).value in dir.schoolAdmin)
    ensures r.Some? && caller.role == Teacher && "school_id" in body && !IsBlank(body["school_id"]) ==>
      r.value == Refusal(404, "School not found", [])
  {
    RequiredErrorsEmpty(body, SchoolFields);
    if caller.role != Teacher then Some(Refusal(403, Forbidden, []))
    else if RequiredErrors(body, SchoolFields) != [] then
      Some(Refusal(400, "Validation failed", RequiredErrors(body, SchoolFields)))
    else if RequestedSchool(body).None? || RequestedSchool(body).value !in dir.schoolAdmin then
      Some(Refusal(404, "School not found", []))
    else None
  }

  /** The endpoint: the request is always made for the calling teacher and
      has no approver of its own (the school's admin decides); the admin is
      told only when the request was created. */
  method RequestSchool(affiliations: Workflow, dir: Directory, caller: Caller, body: Payload, now: int)
    returns (reply: Reply<nat>, notices: seq<Notice>)
    requires affiliations.Valid() && affiliations.kind == Affiliation
    modifies affiliations
    ensures affiliations.Valid() && affiliations.members == old(affiliations.members)
    ensures SchoolRequestRefusal(dir, caller, body).Some? ==>
      reply == Refused(SchoolRequestRefusal(dir, caller, body).value) && notices == []
      && affiliations.requests == old(affiliations.requests) && affiliations.nextId == old(affiliations.nextId)
    ensures SchoolRequestRefusal(dir, caller, body).None? ==>
      var school := RequestedSchool(body).value;
      var err := SubmitError(Affiliation, old(affiliations.requests), old(affiliations.members), caller.id, school);
      (err.Some? ==> (reply == Fail(500, "Failed to create teacher-school request: " + err.value) && notices == []
        && affiliations.requests == old(affiliations.requests) && affiliations.nextId == old(affiliations.nextId)))
      && (err.None? ==> (
        var id := old(affiliations.nextId);
        reply == Reply(201, "Request sent to school successfully", [], Some(id))
        && notices == [SchoolRequested(dir.schoolAdmin[school], id)]
        && affiliations.requests == old(affiliations.requests)[id := Request(id, caller.id, school, None, Pending, now)]))
  {
    if caller.role != Teacher {
      return Refused(Refusal(403, Forbidden, [])), [];
    }
    var errors := ValidateRequiredFields(body, SchoolFields);
    if errors != [] {
      return Refused(Refusal(400, "Validation failed", errors)), [];
    }
    var school := RequestedSchool(body);
    if school.None? || school.value !in dir.schoolAdmin {
      return Refused(Refusal(404, "School not found", [])), [];
    }
    var id := affiliations.Submit(caller.id, school.value, None, now);
    if id.Err? {
      return Fail(500, "Failed to create teacher-school request: " + id.error), [];
    }
    notices := [SchoolRequested(dir.schoolAdmin[school.value], id.value)];
    reply := Reply(201, "Request sent to school successfully", [], Some(id.value));
  }

  // ---------------------------------------------------------------------
  // teacher_requests/approve.php and reject.php

  /** `getTeacherSchoolRequestById`: the row, provided its school still
      exists (the query joins `schools` for `admin_id`). */
  function FindAffiliation(requests: Requests, dir: Directory, body: Payload): (r: Option<Request>)
    ensures r.Some? <==> (RequestId(body).Some? && RequestId(body).value in requests
      && requests[RequestId(body).value].target in dir.schoolAdmin)
    ensures r.Some? ==> r.value == requests[RequestId(body).value]
  {
    var id := RequestId(body);
    if id.Some? && id.value in requests && requests[id.value].target in dir.schoolAdmin then
      Some(requests[id.value])
    else None
  }

  /** Admins only, a request id, an existing request, and only the admin of
      the requested school; approve.php and reject.php share it. */
  function SchoolDecisionRefusal(requests: Requests, dir: Directory, caller: Caller, body: Payload): (r: Option<Refusal>)
    ensures r.None? <==> (caller.role == Admin && FindAffiliation(requests, dir, body).Some?
      && dir.schoolAdmin[FindAffiliation(requests, dir, body).value.target] == caller.id)
  {
    if caller.role != Admin then Some(Refusal(403, Forbidden, []))
    else if "request_id" !in body then Some(Refusal(400, RequestIdRequired, []))
    else if FindAffiliation(requests, dir, body).None? then Some(Refusal(404, "Teacher-school request not found", []))
    else if dir.schoolAdmin[FindAffiliation(requests, dir, body).value.target] != caller.id then
      Some(Refusal(403, Forbidden, []))
    else None
  }

  /** approve.php: the model refuses a request no longer pending; the
      teacher is told only after the approval. */
  method ApproveSchool(affiliations: Workflow, dir: Directory, caller: Caller, body: Payload)
    returns (reply: Reply<()>, notices: seq<Notice>)
    requires affiliations.Valid() && affiliations.kind == Affiliation
    modifies affiliations
    ensures affiliations.Valid() && affiliations.nextId == old(affiliations.nextId)
    ensures SchoolDecisionRefusal(old(affiliations.requests), dir, caller, body).Some? ==>
      reply == Refused(SchoolDecisionRefusal(old(affiliations.requests), dir, caller, body).value) && notices == []
      && affiliations.requests == old(affiliations.requests) && affiliations.members == old(affiliations.members)
    ensures SchoolDecisionRefusal(old(affiliations.requests), dir, caller, body).None? ==>
      var req := FindAffiliation(old(affiliations.requests), dir, body).value;
      (req.status != Pending ==> (reply == Fail(500, "Failed to approve teacher request: " + AlreadyProcessed)
        && notices == []
        && affiliations.requests == old(affiliations.requests) && affiliations.members == old(affiliations.members)))
      && (req.status == Pending ==> (reply == Reply(200, "Teacher request approved successfully", [], None)
        && notices == [SchoolApproved(req.requester, req.target)]
        && affiliations.requests == old(affiliations.requests)[req.id := req.(status := Approved)]
        && affiliations.members == old(affiliations.members) + {(req.requester, req.target)}))
  {
    if caller.role != Admin {
      return Refused(Refusal(403, Forbidden, [])), [];
    }
    if "request_id" !in body {
      return Refused(Refusal(400, RequestIdRequired, [])), [];
    }
    var request := FindAffiliation(affiliations.requests, dir, body);
    if request.None? {
      return Refused(Refusal(404, "Teacher-school request not found", [])), [];
    }
    if dir.schoolAdmin[request.value.target] != caller.id {
      return Refused(Refusal(403, Forbidden, [])), [];
    }
    var done := affiliations.Approve(RequestId(body).value);
    if done.Err? {
      return Fail(500, "Failed to approve teacher request: " + done.error), [];
    }
    notices := [SchoolApproved(request.value.requester, request.value.target)];
    reply := Reply(200, "Teacher request approved successfully", [], None);
  }

  /** reject.php: the request becomes rejected whatever its status, no
      membership changes and no one is told. */
  method RejectSchool(affiliations: Workflow, dir: Directory, caller: Caller, body: Payload)
    returns (reply: Reply<()>)
    requires affiliations.Valid() && affiliations.kind == Affiliation
    modifies affiliations
    ensures affiliations.Valid() && affiliations.nextId == old(affiliations.nextId)
    ensures affiliations.members == old(affiliations.members)
    ensures SchoolDecisionRefusal(old(affiliations.requests), dir, caller, body).Some? ==>
      reply == Refused(SchoolDecisionRefusal(old(affiliations.requests), dir, caller, body).value)
      && affiliations.requests == old(affiliations.requests)
    ensures SchoolDecisionRefusal(old(affiliations.requests), dir, caller, body).None? ==>
      var req := FindAffiliation(old(affiliations.requests), dir, body).value;
      reply == Reply(200, "Teacher request rejected successfully", [], None)
      && affiliations.requests == old(affiliations.requests)[req.id := req.(status := Rejected)]
  {
    if caller.role != Admin {
      return Refused(Refusal(403, Forbidden, []));
    }
    if "request_id" !in body {
      return Refused(Refusal(400, RequestIdRequired, []));
    }
    var request := FindAffiliation(affiliations.requests, dir, body);
    if request.None? {
      return Refused(Refusal(404, "Teacher-school request not found", []));
    }
    if dir.schoolAdmin[request.value.target] != caller.id {
      return Refused(Refusal(403, Forbidden, []));
    }
    affiliations.Reject(RequestId(body).value);
    reply := Reply(200, "Teacher request rejected successfully", [], None);
  }

  // ---------------------------------------------------------------------
  // Properties across endpoints

  /** The decision guards never look at a request's status: a caller who
      may not decide is refused the same way whether the request is
      pending, approved or rejected. */
  lemma DecisionIgnoresStatus(requests: Requests, dir: Directory, caller: Caller, body: Payload, s: ReqStatus)
    requires RequestId(body).Some? && RequestId(body).value in requests
    ensures var after := requests[RequestId(body).value := requests[RequestId(body).value].(status := s)];
      EnrolApproveRefusal(after, dir, caller, body) == EnrolApproveRefusal(requests, dir, caller, body)
      && SchoolDecisionRefusal(after, dir, caller, body) == SchoolDecisionRefusal(requests, dir, caller, body)
  {
  }

  /** A request just created by enrollments/request.php passes every guard
      of enrollments/approve.php for the course's teacher, so that teacher's
      approval goes through. */
  lemma SubmittedEnrolmentApprovable(enrolments: Requests, members: set<Member>, dir: Directory,
                                     caller: Caller, body: Payload, id: nat, now: int)
    requires EnrolRequestRefusal(dir, caller, body).None?
    requires SubmitError(Enrolment, enrolments, members, caller.id, RequestedCourse(body).value).None?
    ensures var course := RequestedCourse(body).value;
      var teacher := Caller(dir.courseTeacher[course], Teacher);
      var after := enrolments[id := Request(id, caller.id, course, Some(teacher.id), Pending, now)];
      var approve := map["request_id" := Int(id)];
      EnrolApproveRefusal(after, dir, teacher, approve).None?
      && FindEnrolment(after, dir, approve).value.status == Pending
  {
    var course := RequestedCourse(body).value;
    var approve := map["request_id" := Int(id)];
    assert RequestId(approve) == Some(id);
  }

  /** Once enrollments/approve.php has approved a request, the student
      passes the enrolment check of lessons/create.php for that course. */
  lemma ApprovedStudentEnrolled(members: set<Member>, req: Request, body: Payload)
    requires "course_id" in body && "student_id" in body
    requires body["course_id"] == Int(req.target) && body["student_id"] == Int(req.requester)
    ensures LessonApi.Enrolled(members + {PairOf(req)}, body)
  {
  }

  /** A teacher's school request, once approved by the school's admin, makes
      the teacher a member of that school, and the same admin's later reject
      leaves that membership in place. */
  lemma ApprovalSurvivesReject(requests: Requests, members: set<Member>, id: nat)
    requires Consistent(requests, members)
    requires id in requests && requests[id].status == Pending
    ensures var approved := requests[id := requests[id].(status := Approved)];
      var rejected := approved[id := approved[id].(status := Rejected)];
      Consistent(rejected, members + {PairOf(requests[id])})
      && PairOf(requests[id]) in members + {PairOf(requests[id])}
      && rejected[id].status == Rejected
  {
    ApproveKeepsConsistent(requests, members, id);
    var approved := requests[id := requests[id].(status := Approved)];
    RejectKeepsConsistent(approved, members + {PairOf(requests[id])}, id);
  }
}
