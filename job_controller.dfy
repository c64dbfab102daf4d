/**
 * The job handlers: `postJob`, `getAllJobs`, `getJobById` and `getAdminJobs`.
 *
 * The job collection is an in-memory table in insertion order; each job carries the
 * `createdAt` time the database stamped on it, which the listings sort by.
 */
module JobController {
  import opened Wrappers
  import opened Collections
  import opened Text
  import opened Http

  /**
   * A stored job. `salary` and `position` keep the submitted text (their conversion with
   * `Number` is not modelled); `company` is the company id and `createdBy` the poster's user id.
   */
  datatype Job = Job(
    id: nat,
    title: string,
    description: string,
    requirements: seq<string>,
    salary: string,
    experienceLevel: nat,
    location: string,
    jobType: string,
    position: string,
    company: string,
    createdBy: nat,
    createdAt: int)

  datatype PostJobRequest = PostJobRequest(
    title: Option<string>,
    description: Option<string>,
    requirements: Option<string>,
    salary: Option<string>,
    location: Option<string>,
    jobType: Option<string>,
    experience: Option<string>,
    position: Option<string>,
    companyId: Option<string>)

  const MsgJobFields := "All fields are required"
  const MsgBadExperience := "Invalid experience level. Use 'Entry-Level', 'Mid-Level', or 'Senior-Level'"
  const MsgJobCreated := "New job created successfully"
  const MsgJobsNotFound := "Jobs not found"
  const MsgJobNotFound := "Job not found"

  predicate AllGiven(req: PostJobRequest)
  {
    Given(req.title) && Given(req.description) && Given(req.requirements) && Given(req.salary) &&
    Given(req.location) && Given(req.jobType) && Given(req.experience) && Given(req.position) &&
    Given(req.companyId)
  }

  // ---------------------------------------------------------------- experience levels

  /** The lookup in `experienceLevelMap`: the three labels and their levels 1, 2 and 3. */
  function ExperienceLevel(experience: string): (r: Option<nat>)
    ensures r.Some? <==> experience == "Entry-Level" || experience == "Mid-Level" || experience == "Senior-Level"
    ensures r.Some? ==> 1 <= r.value <= 3
    ensures r == Some(1) <==> experience == "Entry-Level"
    ensures r == Some(2) <==> experience == "Mid-Level"
    ensures r == Some(3) <==> experience == "Senior-Level"
  {
    if experience == "Entry-Level" then Some(1)
    else if experience == "Mid-Level" then Some(2)
    else if experience == "Senior-Level" then Some(3)
    else None
  }

  /** The label of a level: the inverse of ExperienceLevel. */
  function ExperienceLabel(level: nat): Option<string>
  {
    if level == 1 then Some("Entry-Level")
    else if level == 2 then Some("Mid-Level")
    else if level == 3 then Some("Senior-Level")
    else None
  }

  /** A known label maps to a level that maps back to it, and every level 1-3 comes from its label: the map is one-to-one. */
  lemma ExperienceRoundTrip(experience: string, level: nat)
    ensures ExperienceLevel(experience).Some? ==> ExperienceLabel(ExperienceLevel(experience).value) == Some(experience)
    ensures 1 <= level <= 3 ==> ExperienceLevel(ExperienceLabel(level).value) == Some(level)
  {
  }

  // ---------------------------------------------------------------- postJob

  /**
   * The reply to `postJob` by the user `userId` and the table after it, given the id and the
   * creation time the database gives a new document.
   */
  function PostJobOutcome(jobs: seq<Job>, req: PostJobRequest, userId: nat, id: nat, now: int)
    : (o: (Reply<Job>, seq<Job>))
    ensures o.0.status == CREATED || o.0.status == BAD_REQUEST
    ensures o.0.status == CREATED <==> AllGiven(req) && ExperienceLevel(req.experience.value).Some?
    ensures o.0.status == BAD_REQUEST ==> o.1 == jobs && !o.0.success && o.0.payload.None?
    ensures !AllGiven(req) ==> o.0.message == MsgJobFields
    ensures AllGiven(req) && ExperienceLevel(req.experience.value).None? ==> o.0.message == MsgBadExperience
    ensures o.0.status == CREATED ==>
      o.0.success && o.0.message == MsgJobCreated &&
      o.0.payload.Some? && o.1 == jobs + [o.0.payload.value] &&
      var j := o.0.payload.value;
      j.id == id && j.createdAt == now && j.createdBy == userId &&
      j.company == req.companyId.value && j.title == req.title.value &&
      j.description == req.description.value &&
      j.requirements == Split(req.requirements.value, ',') &&
      j.salary == req.salary.value && j.location == req.location.value &&
      j.jobType == req.jobType.value && j.position == req.position.value &&
      ExperienceLabel(j.experienceLevel) == req.experience
  {
    if !AllGiven(req) then
      (Failure(BAD_REQUEST, MsgJobFields), jobs)
    else
      match ExperienceLevel(req.experience.value)
      case None => (Failure(BAD_REQUEST, MsgBadExperience), jobs)
      case Some(level) =>
        var job := Job(id, req.title.value, req.description.value, Split(req.requirements.value, ','),
                       req.salary.value, level, req.location.value, req.jobType.value, req.position.value,
                       req.companyId.value, userId, now);
        (Reply(CREATED, true, MsgJobCreated, None, Some(job), None), jobs + [job])
  }

  /** Each requirement is a comma-free piece, and there is one more of them than there are commas. */
  lemma RequirementsAreCommaPieces(jobs: seq<Job>, req: PostJobRequest, userId: nat, id: nat, now: int)
    requires PostJobOutcome(jobs, req, userId, id, now).0.status == CREATED
    ensures var j := PostJobOutcome(jobs, req, userId, id, now).0.payload.value;
      |j.requirements| == Count(req.requirements.value, ',') + 1 &&
      Join(j.requirements, ',') == req.requirements.value &&
      forall k :: 0 <= k < |j.requirements| ==> ',' !in j.requirements[k]
  {
    JoinSplit(req.requirements.value, ',');
  }

  // ---------------------------------------------------------------- listings

  /** Newest first: `sort({ createdAt: -1 })`. */
  predicate NewestFirst(s: seq<Job>)
  {
    forall i, j :: 0 <= i < j < |s| ==> s[i].createdAt >= s[j].createdAt
  }

  /** The head of a list newest first is at least as new as every job in it. */
  lemma HeadIsNewest(s: seq<Job>)
    requires NewestFirst(s) && s != []
    ensures forall y :: y in s ==> y.createdAt <= s[0].createdAt
  {
    forall y | y in s ensures y.createdAt <= s[0].createdAt {
      var m :| 0 <= m < |s| && s[m] == y;
    }
  }

  /** `x` placed into a list already newest first. */
  function Insert(x: Job, s: seq<Job>): (r: seq<Job>)
    requires NewestFirst(s)
    ensures NewestFirst(r)
    ensures multiset(r) == multiset(s) + multiset{x}
    ensures forall y :: y in r <==> y in s || y == x
  {
    if s == [] then [x]
    else if x.createdAt >= s[0].createdAt then
      HeadIsNewest(s);
      [x] + s
    else
      var rest := Insert(x, s[1..]);
      assert s == [s[0]] + s[1..];
      HeadIsNewest(s);
      assert forall y :: y in rest ==> y.createdAt <= s[0].createdAt;
      [s[0]] + rest
  }

  /** The jobs of `s` ordered newest first (an insertion sort). */
  function SortNewestFirst(s: seq<Job>): (r: seq<Job>)
    ensures NewestFirst(r)
    ensures multiset(r) == multiset(s)
    ensures forall y :: y in r <==> y in s
  {
    if s == [] then []
    else
      assert s == [s[0]] + s[1..];
      Insert(s[0], SortNewestFirst(s[1..]))
  }

  /** The keyword `getAllJobs` searches for: `req.query.keyword || ""`. */
  function Keyword(query: Option<string>): (k: string)
    ensures k == "" <==> query.None? || query.value == ""
    ensures k != "" ==> query == Some(k)
  {
    if Given(query) then query.value else ""
  }

  /** The `$or` of the two case-insensitive matches, on the title and on the description. */
  predicate Matches(j: Job, keyword: string)
  {
    IncludesIgnoringCase(j.title, keyword) || IncludesIgnoringCase(j.description, keyword)
  }

  /** The query of `getAllJobs` as a filter. */
  function MatchesKeyword(keyword: string): Job -> bool
  {
    (j: Job) => Matches(j, keyword)
  }

  /** The filter `{ created_by: adminId }`. */
  function CreatedBy(adminId: nat): Job -> bool
  {
    (j: Job) => j.createdBy == adminId
  }

  /** A listing: the jobs satisfying `p`, newest first, or 404 when there are none. */
  function Listing(jobs: seq<Job>, p: Job -> bool): (r: Reply<seq<Job>>)
    ensures r.status == OK || r.status == NOT_FOUND
    ensures r.status == NOT_FOUND <==> forall j :: j in jobs ==> !p(j)
    ensures r.status == NOT_FOUND ==> r == Failure(NOT_FOUND, MsgJobsNotFound)
    ensures r.status == OK ==>
      r.success && r.payload.Some? && r.payload.value != [] &&
      NewestFirst(r.payload.value) &&
      multiset(r.payload.value) == multiset(Filter(jobs, p)) &&
      forall j :: j in r.payload.value <==> j in jobs && p(j)
  {
    var found := SortNewestFirst(Filter(jobs, p));
    if found == [] then Failure(NOT_FOUND, MsgJobsNotFound)
    else
      assert found[0] in found;
      Reply(OK, true, "", None, Some(found), None)
  }

  /** `getAllJobs`: the jobs whose title or description contains the keyword, ignoring case. */
  function GetAllJobs(jobs: seq<Job>, query: Option<string>): (r: Reply<seq<Job>>)
    ensures r.status == OK || r.status == NOT_FOUND
    ensures r.status == NOT_FOUND <==> forall j :: j in jobs ==> !Matches(j, Keyword(query))
    ensures r.status == NOT_FOUND ==> r == Failure(NOT_FOUND, MsgJobsNotFound)
    ensures r.status == OK ==>
      r.success && r.payload.Some? && NewestFirst(r.payload.value) &&
      multiset(r.payload.value) == multiset(Filter(jobs, MatchesKeyword(Keyword(query)))) &&
      forall j :: j in r.payload.value <==> j in jobs && Matches(j, Keyword(query))
  {
    Listing(jobs, MatchesKeyword(Keyword(query)))
  }

  /** `getAdminJobs`: the jobs the admin `adminId` created. */
  function GetAdminJobs(jobs: seq<Job>, adminId: nat): (r: Reply<seq<Job>>)
    ensures r.status == OK || r.status == NOT_FOUND
    ensures r.status == NOT_FOUND <==> forall j :: j in jobs ==> j.createdBy != adminId
    ensures r.status == NOT_FOUND ==> r == Failure(NOT_FOUND, MsgJobsNotFound)
    ensures r.status == OK ==>
      r.success && r.payload.Some? && NewestFirst(r.payload.value) &&
      multiset(r.payload.value) == multiset(Filter(jobs, CreatedBy(adminId))) &&
      forall j :: j in r.payload.value <==> j in jobs && j.createdBy == adminId
  {
    Listing(jobs, CreatedBy(adminId))
  }

  /** The lookup `findById(id)`. */
  function HasJobId(id: nat): Job -> bool
  {
    (j: Job) => j.id == id
  }

  /** `getJobById`: the job with that id, or 404. */
  function GetJobById(jobs: seq<Job>, id: nat): (r: Reply<Job>)
    ensures r.status == OK || r.status == NOT_FOUND
    ensures r.status == NOT_FOUND <==> forall j :: j in jobs ==> j.id != id
    ensures r.status == NOT_FOUND ==> r == Failure(NOT_FOUND, MsgJobNotFound)
    ensures r.status == OK ==> r.success && r.payload.Some? && r.payload.value in jobs && r.payload.value.id == id
  {
    match FindFirst(jobs, HasJobId(id))
    case None => Failure(NOT_FOUND, MsgJobNotFound)
    case Some(j) => Reply(OK, true, "", None, Some(j), None)
  }

  /** Without a keyword, or with an empty one, every job is listed. */
  lemma NoKeywordListsEverything(jobs: seq<Job>, query: Option<string>)
    requires jobs != [] && Keyword(query) == ""
    ensures var r := GetAllJobs(jobs, query);
      r.status == OK && multiset(r.payload.value) == multiset(jobs)
  {
    forall j | j in jobs ensures MatchesKeyword("")(j) {
      EmptyIncludedEverywhere(j.title);
    }
    FilterAll(jobs, MatchesKeyword(""));
  }

  /** A job appended after jobs with other ids is what `getJobById` finds for its id. */
  lemma AppendedFoundById(jobs: seq<Job>, job: Job)
    requires forall j :: j in jobs ==> j.id != job.id
    ensures GetJobById(jobs + [job], job.id) == Reply(OK, true, "", None, Some(job), None)
  {
    FirstIndexAppend(jobs, job, HasJobId(job.id));
  }

  /** A job appended to the table is listed among its creator's jobs. */
  lemma AppendedListedForCreator(jobs: seq<Job>, job: Job)
    ensures var r := GetAdminJobs(jobs + [job], job.createdBy);
      r.status == OK && job in r.payload.value
  {
    assert job in jobs + [job];
  }

  /** A job appended to the table is found by searching for its title. */
  lemma AppendedFoundByTitle(jobs: seq<Job>, job: Job)
    ensures var r := GetAllJobs(jobs + [job], Some(job.title));
      r.status == OK && job in r.payload.value
  {
    var t := Lower(job.title);
    assert OccursAt(t, t, 0);
    assert job in jobs + [job];
  }

  /** A job just posted is found by its id, is among its poster's jobs, and is found by searching for its title. */
  lemma PostThenFind(jobs: seq<Job>, req: PostJobRequest, userId: nat, id: nat, now: int)
    requires forall j :: j in jobs ==> j.id != id
    requires PostJobOutcome(jobs, req, userId, id, now).0.status == CREATED
    ensures var o := PostJobOutcome(jobs, req, userId, id, now);
      GetJobById(o.1, id) == Reply(OK, true, "", None, o.0.payload, None)
    ensures var o := PostJobOutcome(jobs, req, userId, id, now);
      o.0.payload.value in GetAdminJobs(o.1, userId).payload.value &&
      o.0.payload.value in GetAllJobs(o.1, req.title).payload.value
  {
    var job := PostJobOutcome(jobs, req, userId, id, now).0.payload.value;
    AppendedFoundById(jobs, job);
    AppendedListedForCreator(jobs, job);
    AppendedFoundByTitle(jobs, job);
  }

  // ---------------------------------------------------------------- the job collection

  /** Ids increase along the table and stay below the next one to hand out. */
  ghost predicate IdsBelow(jobs: seq<Job>, nextId: nat)
  {
    (forall i, j :: 0 <= i < j < |jobs| ==> jobs[i].id < jobs[j].id) &&
    (forall i :: 0 <= i < |jobs| ==> jobs[i].id < nextId)
  }

  /** No job in the table has the next id yet. */
  lemma IdsBelowFresh(jobs: seq<Job>, nextId: nat)
    requires IdsBelow(jobs, nextId)
    ensures forall j :: j in jobs ==> j.id != nextId
  {
  }

  /** Appending a job with the next id, and advancing it, keeps the ids in order. */
  lemma AppendKeepsIds(jobs: seq<Job>, nextId: nat, j: Job)
    requires IdsBelow(jobs, nextId) && j.id == nextId
    ensures IdsBelow(jobs + [j], nextId + 1)
  {
  }

  /** The job collection: its documents in insertion order, and the next id to hand out. */
  class JobStore {
    var jobs: seq<Job>
    var nextId: nat

    /** Ids increase along the table and stay below the next one handed out. */
    ghost predicate Valid()
      reads this
    {
      IdsBelow(jobs, nextId)
    }

    constructor ()
      ensures Valid() && jobs == [] && nextId == 0
    {
      jobs := [];
      nextId := 0;
    }

    /** `postJob` by the user `userId` at time `now`: inserts the job (`Job.create`) when every check passes. */
    method PostJob(req: PostJobRequest, userId: nat, now: int) returns (reply: Reply<Job>)
      requires Valid()
      modifies this
      ensures Valid()
      ensures (reply, jobs) == PostJobOutcome(old(jobs), req, userId, old(nextId), now)
      ensures nextId == if reply.status == CREATED then old(nextId) + 1 else old(nextId)
      // The posted job is the one `getJobById` finds under its id.
      ensures reply.status == CREATED ==>
        reply.payload.Some? && GetJobById(jobs, reply.payload.value.id) == Reply(OK, true, "", None, reply.payload, None)
    {
      if !AllGiven(req) {
        return Failure(BAD_REQUEST, MsgJobFields);
      }
      var experienceLevel := ExperienceLevel(req.experience.value);
      if experienceLevel.None? {
        return Failure(BAD_REQUEST, MsgBadExperience);
      }
      var job := Job(nextId, req.title.value, req.description.value, Split(req.requirements.value, ','),
                     req.salary.value, experienceLevel.value, req.location.value, req.jobType.value,
                     req.position.value, req.companyId.value, userId, now);
      AppendKeepsIds(jobs, nextId, job);
      IdsBelowFresh(jobs, nextId);
      AppendedFoundById(jobs, job);
      jobs := jobs + [job];
      nextId := nextId + 1;
      reply := Reply(CREATED, true, MsgJobCreated, None, Some(job), None);
    }
  }
}
