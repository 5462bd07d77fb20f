/** The command server: a registry of enrolled agents and a list of jobs,
    with the protocol rules of its HTTP handlers. Each handler is one
    atomic step on the server's state; what the handler would write to the
    response is its status and the values returned beside it. */
module ServerApp {
  import opened Common

  datatype Agent = Agent(
    agentId: string,
    hostname: string,
    os: string,
    arch: string,
    enrolled: string,
    lastSeen: string,
    token: string)

  datatype Job = Job(
    jobId: string,
    agentId: string,
    jobType: string,
    args: map<string, string>,
    createdAt: string,
    claimedAt: string,
    doneAt: string,
    status: string)

  const Queued: string := "queued"
  const Claimed: string := "claimed"
  const Done: string := "done"
  const DefaultJobType: string := "triage"
  const DefaultUploadName: string := "case.tar.gz"

  /** The HTTP status a handler answers with. */
  datatype Status =
    | OK                  // 200
    | NoContent           // 204
    | BadRequest          // 400
    | Unauthorized        // 401
    | NotFound            // 404
    | MethodNotAllowed    // 405
    | InternalServerError // 500

  /** What a handler reads from a request besides its body: the verb, the
      URL path, the query parameters and the headers. */
  datatype Request = Request(
    verb: string,
    path: string,
    query: map<string, string>,
    headers: map<string, string>)

  /** A query parameter or header; absent ones read as empty. */
  function Param(m: map<string, string>, key: string): string {
    if key in m then m[key] else ""
  }

  /** The decoded body of an enrollment. */
  datatype EnrollBody = EnrollBody(hostname: string, os: string, arch: string)

  /** The decoded body of an enqueue request. */
  datatype EnqueueBody = EnqueueBody(agentId: string, jobType: string, args: map<string, string>)

  /** One step of reading a multipart upload: the next part, with its form
      name, its file name and whether storing it would succeed, or a read
      error. The end of the sequence is the end of the body. */
  datatype PartEvent = Part(formName: string, fileName: string, stored: bool) | ReadError

  // ---------------------------------------------------------------------
  // Protocol rules on values
  // ---------------------------------------------------------------------

  /** The pre-shared-key gate: open when no key is configured, otherwise
      the presented key must equal the configured one. */
  predicate PskAccepted(psk: string, presented: string) {
    psk == "" || presented == psk
  }

  /** An agent authenticates with a non-empty id it was enrolled under and
      the token it was given. */
  predicate Authentic(agents: map<string, Agent>, agentId: string, token: string) {
    agentId != "" && token != "" && agentId in agents && agents[agentId].token == token
  }

  predicate QueuedFor(j: Job, agentId: string) {
    j.agentId == agentId && j.status == Queued
  }

  /** Job `i` is the first one queued for `agentId`. */
  predicate FirstQueuedAt(jobs: seq<Job>, agentId: string, i: int) {
    0 <= i < |jobs| && QueuedFor(jobs[i], agentId)
    && forall j :: 0 <= j < i ==> !QueuedFor(jobs[j], agentId)
  }

  /** The position of the first job queued for `agentId`, if any. */
  function FirstQueued(jobs: seq<Job>, agentId: string): (k: Option<nat>)
    ensures k.Some? ==> FirstQueuedAt(jobs, agentId, k.value)
    ensures k.None? ==> forall i :: 0 <= i < |jobs| ==> !QueuedFor(jobs[i], agentId)
  {
    if jobs == [] then None
    else if QueuedFor(jobs[0], agentId) then Some(0)
    else match FirstQueued(jobs[1..], agentId)
      case None => None
      case Some(k) => Some(k + 1)
  }

  /** Job `i` is the first one carrying `jobId`. */
  predicate FirstWithIdAt(jobs: seq<Job>, jobId: string, i: int) {
    0 <= i < |jobs| && jobs[i].jobId == jobId
    && forall j :: 0 <= j < i ==> jobs[j].jobId != jobId
  }

  /** The position of the first job carrying `jobId`, if any. */
  function FirstWithId(jobs: seq<Job>, jobId: string): (k: Option<nat>)
    ensures k.Some? ==> FirstWithIdAt(jobs, jobId, k.value)
    ensures k.None? ==> forall i :: 0 <= i < |jobs| ==> jobs[i].jobId != jobId
  {
    if jobs == [] then None
    else if jobs[0].jobId == jobId then Some(0)
    else match FirstWithId(jobs[1..], jobId)
      case None => None
      case Some(k) => Some(k + 1)
  }

  /** The job list after `agentId` claims its next job at time `now`. */
  function ClaimNext(jobs: seq<Job>, agentId: string, now: string): (r: seq<Job>)
    ensures |r| == |jobs|
  {
    match FirstQueued(jobs, agentId)
    case None => jobs
    case Some(k) => jobs[k := jobs[k].(status := Claimed, claimedAt := now)]
  }

  /** Exactly the first job queued for the agent becomes claimed, and every
      other job stays as it was; with nothing queued for the agent the
      list is unchanged. */
  lemma ClaimNextSpec(jobs: seq<Job>, agentId: string, now: string)
    ensures var r := ClaimNext(jobs, agentId, now);
      (forall i :: 0 <= i < |jobs| ==>
         r[i] == if FirstQueuedAt(jobs, agentId, i) then jobs[i].(status := Claimed, claimedAt := now) else jobs[i])
      && (r == jobs <==> forall i :: 0 <= i < |jobs| ==> !QueuedFor(jobs[i], agentId))
  {
    var r := ClaimNext(jobs, agentId, now);
    match FirstQueued(jobs, agentId)
    case None =>
    case Some(k) =>
      assert r[k] != jobs[k];
  }

  /** The job list after the results of `jobId` arrive at time `now`. */
  function Complete(jobs: seq<Job>, jobId: string, now: string): (r: seq<Job>)
    ensures |r| == |jobs|
  {
    match FirstWithId(jobs, jobId)
    case None => jobs
    case Some(k) => jobs[k := jobs[k].(status := Done, doneAt := now)]
  }

  /** Exactly the first job carrying the id becomes done, whoever owns it
      and whatever its status was, and every other job stays as it was. */
  lemma CompleteSpec(jobs: seq<Job>, jobId: string, now: string)
    ensures var r := Complete(jobs, jobId, now);
      forall i :: 0 <= i < |jobs| ==>
        r[i] == if FirstWithIdAt(jobs, jobId, i) then jobs[i].(status := Done, doneAt := now) else jobs[i]
  {
  }

  /** A later job list keeps every earlier job in its place with its id
      and owner; a job that has left the queue never returns to it, a
      claimed job stays claimed or becomes done, and a done job stays
      done. */
  predicate Progressed(before: seq<Job>, after: seq<Job>) {
    |before| <= |after|
    && forall i :: 0 <= i < |before| ==>
      after[i].jobId == before[i].jobId && after[i].agentId == before[i].agentId
      && (after[i].status == Queued ==> after[i] == before[i])
      && (before[i].status == Claimed ==> after[i].status == Claimed || after[i].status == Done)
      && (before[i].status == Done ==> after[i].status == Done)
  }

  /** Enqueueing, claiming and completing all make progress, and progress
      composes. */
  lemma ProgressOfOperations(jobs: seq<Job>, j: Job, agentId: string, jobId: string, now: string)
    ensures Progressed(jobs, jobs + [j])
    ensures Progressed(jobs, ClaimNext(jobs, agentId, now))
    ensures Progressed(jobs, Complete(jobs, jobId, now))
  {
    ClaimNextSpec(jobs, agentId, now);
    CompleteSpec(jobs, jobId, now);
  }

  lemma ProgressTransitive(a: seq<Job>, b: seq<Job>, c: seq<Job>)
    requires Progressed(a, b) && Progressed(b, c)
    ensures Progressed(a, c)
  {
  }

  /** A job that was claimed or done is never claimed again, by any agent,
      however the list has progressed since. */
  lemma NeverClaimedTwice(before: seq<Job>, later: seq<Job>, i: int, agentId: string, now: string)
    requires Progressed(before, later)
    requires 0 <= i < |before| && before[i].status != Queued
    ensures ClaimNext(later, agentId, now)[i] == later[i]
  {
    ClaimNextSpec(later, agentId, now);
  }

  /** A claim by one agent never touches a job owned by another. */
  lemma ClaimLeavesOthersJobs(jobs: seq<Job>, agentId: string, now: string, i: int)
    requires 0 <= i < |jobs| && jobs[i].agentId != agentId
    ensures ClaimNext(jobs, agentId, now)[i] == jobs[i]
  {
    ClaimNextSpec(jobs, agentId, now);
  }

  /** Which job the first-with-id search finds depends on the ids alone. */
  lemma {:induction false} FirstWithIdOnIds(a: seq<Job>, b: seq<Job>, jobId: string)
    requires |a| == |b|
    requires forall i :: 0 <= i < |a| ==> a[i].jobId == b[i].jobId
    ensures FirstWithId(a, jobId) == FirstWithId(b, jobId)
  {
    if a != [] && a[0].jobId != jobId {
      FirstWithIdOnIds(a[1..], b[1..], jobId);
    }
  }

  /** Uploading the results of a job twice has the effect of the second
      upload alone: the job stays done, with the later completion time. */
  lemma CompleteTwice(jobs: seq<Job>, jobId: string, t1: string, t2: string)
    ensures Complete(Complete(jobs, jobId, t1), jobId, t2) == Complete(jobs, jobId, t2)
  {
    var once := Complete(jobs, jobId, t1);
    CompleteSpec(jobs, jobId, t1);
    FirstWithIdOnIds(jobs, once, jobId);
    match FirstWithId(jobs, jobId)
    case None =>
    case Some(k) =>
      assert FirstWithIdAt(once, jobId, k);
  }

  // ---------------------------------------------------------------------
  // Upload paths
  // ---------------------------------------------------------------------

  /** The segments of the part of a results URL path between its outer
      slashes, and the job id in the third of four of them. */
  function ResultsJobId(path: string): (r: Option<string>)
    ensures r.Some? ==> HasSuffix(path, "/results") && '/' !in r.value
    ensures !HasSuffix(path, "/results") ==> r.None?
  {
    if !HasSuffix(path, "/results") then None
    else
      var inner := Trim(path, IsSlash);
      var parts := Split(inner, '/');
      SplitSpec(inner, '/');
      if |parts| != 4 then None else Some(parts[2])
  }

  /** The URL path an agent uploads to names the job it uploads for. */
  lemma ResultsPathOfJob(jobId: string)
    requires '/' !in jobId
    ensures ResultsJobId("/v1/jobs/" + jobId + "/results") == Some(jobId)
  {
    var path := "/v1/jobs/" + jobId + "/results";
    var inner := "v1/jobs/" + jobId + "/results";
    assert HasSuffix(path, "/results") by {
      assert path[|path| - 8..] == "/results";
    }
    assert Trim(path, IsSlash) == inner by {
      assert path == "/" + inner;
      assert TrimLeft(path, IsSlash) == TrimLeft(inner, IsSlash);
      assert TrimLeft(inner, IsSlash) == inner;
      assert TrimRight(inner, IsSlash) == inner;
    }
    SplitResultsPath(jobId);
  }

  lemma ResultsPathPieces(jobId: string)
    ensures Join(["v1", "jobs", jobId, "results"], '/') == "v1/jobs/" + jobId + "/results"
    ensures '/' !in jobId ==> forall i :: 0 <= i < 4 ==> '/' !in ["v1", "jobs", jobId, "results"][i]
  {
    var ps := ["v1", "jobs", jobId, "results"];
    assert ps[1..][1..][1..] == ["results"];
    assert Join(ps[1..][1..], '/') == jobId + "/" + "results";
    assert Join(ps[1..], '/') == "jobs" + "/" + (jobId + "/" + "results");
    assert Join(ps, '/') == "v1" + "/" + ("jobs" + "/" + (jobId + "/" + "results"));
  }

  lemma SplitResultsPath(jobId: string)
    requires '/' !in jobId
    ensures Split("v1/jobs/" + jobId + "/results", '/') == ["v1", "jobs", jobId, "results"]
  {
    ResultsPathPieces(jobId);
    SplitJoin(["v1", "jobs", jobId, "results"], '/');
  }

  /** The name an upload is stored under: the base name of the file name
      the agent sent, "case.tar.gz" when it sent none. */
  function StoredName(fileName: string): (n: string)
    ensures n != ""
    ensures fileName == "" ==> n == DefaultUploadName
    ensures fileName != "" && '/' !in fileName ==> n == fileName
  {
    var name := if fileName == "" then DefaultUploadName else fileName;
    BaseOfPlainName(DefaultUploadName);
    BaseOfPlainName(fileName);
    Base(name)
  }

  /** Where the upload for `jobId` is stored: `<dataDir>/uploads/<jobId>/`
      followed by the stored name. */
  function UploadPath(dataDir: string, jobId: string, fileName: string): (p: string)
    ensures p != ""
    ensures dataDir != "" && jobId != "" ==> p == dataDir + "/uploads/" + jobId + "/" + StoredName(fileName)
  {
    var name := StoredName(fileName);
    assert dataDir + "/" + "uploads" + "/" + jobId + "/" + name == dataDir + "/uploads/" + jobId + "/" + name;
    JoinPath(JoinPath(JoinPath(dataDir, "uploads"), jobId), name)
  }

  /** Whether a multipart step ends the part loop: a read error, or a
      part of the "file" form field. */
  predicate EndsPartLoop(e: PartEvent) {
    e.ReadError? || e.formName == "file"
  }

  /** The position of the first step that ends the part loop, if any. */
  function FirstFilePart(parts: seq<PartEvent>): (k: Option<nat>)
    ensures k.Some? ==> (k.value < |parts| && EndsPartLoop(parts[k.value])
      && forall i :: 0 <= i < k.value ==> !EndsPartLoop(parts[i]))
    ensures k.None? ==> forall i :: 0 <= i < |parts| ==> !EndsPartLoop(parts[i])
  {
    if parts == [] then None
    else if EndsPartLoop(parts[0]) then Some(0)
    else match FirstFilePart(parts[1..])
      case None => None
      case Some(k) => Some(k + 1)
  }

  /** What the part loop of an upload ends with: the status and the path
      the upload was stored at ("" when nothing was stored). No "file"
      part is a bad request, a read error before it is one too, and a
      "file" part that cannot be stored is a server error. */
  function PartLoopOutcome(parts: seq<PartEvent>, dataDir: string, jobId: string): (o: (Status, string))
    ensures o.0 == OK <==> o.1 != ""
    ensures o.0 == OK || o.0 == BadRequest || o.0 == InternalServerError
  {
    match FirstFilePart(parts)
    case None => (BadRequest, "")
    case Some(k) =>
      match parts[k]
      case ReadError => (BadRequest, "")
      case Part(_, fileName, stored) =>
        if stored then (OK, UploadPath(dataDir, jobId, fileName)) else (InternalServerError, "")
  }

  /** An upload is accepted only when some "file" part, ahead of any read
      error, was stored, and the returned path is where that part went. */
  lemma AcceptedUploadStoredFilePart(parts: seq<PartEvent>, dataDir: string, jobId: string)
    ensures var o := PartLoopOutcome(parts, dataDir, jobId);
      o.0 == OK <==> exists k :: FirstFilePart(parts) == Some(k) && parts[k].Part? && parts[k].stored
    ensures var o := PartLoopOutcome(parts, dataDir, jobId);
      o.0 == OK ==> exists k :: (0 <= k < |parts| && parts[k].Part? && parts[k].formName == "file" && parts[k].stored
        && o.1 == UploadPath(dataDir, jobId, parts[k].fileName)
        && forall i :: 0 <= i < k ==> parts[i].Part?)
  {
  }

  /** The part loop of an upload: reads parts until the end, a read error
      or the first "file" part, and stores that one. */
  method ReadUpload(parts: seq<PartEvent>, dataDir: string, jobId: string) returns (st: Status, saved: string)
    ensures (st, saved) == PartLoopOutcome(parts, dataDir, jobId)
  {
    saved := "";
    var i := 0;
    while i < |parts|
      invariant 0 <= i <= |parts|
      invariant forall k :: 0 <= k < i ==> !EndsPartLoop(parts[k])
    {
      if parts[i].ReadError? {
        return BadRequest, saved;
      }
      if parts[i].formName == "file" {
        if !parts[i].stored {
          return InternalServerError, saved;
        }
        saved := UploadPath(dataDir, jobId, parts[i].fileName);
        break;
      }
      i := i + 1;
    }
    if saved == "" {
      return BadRequest, saved;
    }
    st := OK;
  }

  /** Go's `subtle.ConstantTimeCompare(x, y) == 1`: the lengths are
      compared first, then every position is inspected, whatever the
      earlier positions held. */
  method ConstantTimeEqual(x: string, y: string) returns (eq: bool)
    ensures eq <==> x == y
  {
    if |x| != |y| {
      return false;
    }
    var differ := false;
    var i := 0;
    while i < |x|
      invariant 0 <= i <= |x|
      invariant differ <==> exists k :: 0 <= k < i && x[k] != y[k]
    {
      differ := differ || x[i] != y[i];
      i := i + 1;
    }
    eq := !differ;
    if eq {
      assert forall k :: 0 <= k < |x| ==> x[k] == y[k];
    }
  }

  // ---------------------------------------------------------------------
  // The server
  // ---------------------------------------------------------------------

  class Server {
    const dataDir: string
    const psk: string
    var agents: map<string, Agent>
    var jobs: seq<Job>
    /** What `agents.json` and `jobs.json` under the data directory last
        received from this server. */
    ghost var diskAgents: map<string, Agent>
    ghost var diskJobs: seq<Job>

    /** The files on disk hold the current state (there are no files
        without a data directory). */
    ghost predicate Persisted()
      reads this
    {
      dataDir != "" ==> diskAgents == agents && diskJobs == jobs
    }

    constructor (dataDir: string, psk: string)
      ensures this.dataDir == dataDir && this.psk == psk
      ensures agents == map[] && jobs == []
    {
      this.dataDir := dataDir;
      this.psk := psk;
      agents := map[];
      jobs := [];
    }

    /** Writes both state files, unless there is no data directory. */
    method Persist()
      modifies this`diskAgents, this`diskJobs
      ensures Persisted()
      ensures dataDir == "" ==> diskAgents == old(diskAgents) && diskJobs == old(diskJobs)
    {
      if dataDir != "" {
        diskAgents := agents;
        diskJobs := jobs;
      }
    }

    /** Reads the state files at start-up; each argument is the decoded
        content of one file, `None` when it cannot be read. Decoded agents
        are merged over the registry, decoded jobs replace the list. */
    method LoadFromDisk(agentsFile: Option<map<string, Agent>>, jobsFile: Option<seq<Job>>)
      returns (err: Option<string>)
      modifies this`agents, this`jobs
      ensures dataDir == "" ==> err == Some("data dir is required") && agents == old(agents) && jobs == old(jobs)
      ensures dataDir != "" ==> (err.None?
        && agents == (if agentsFile.Some? then old(agents) + agentsFile.value else old(agents))
        && jobs == (if jobsFile.Some? then jobsFile.value else old(jobs)))
    {
      if dataDir == "" {
        return Some("data dir is required");
      }
      if agentsFile.Some? {
        agents := agents + agentsFile.value;
      }
      if jobsFile.Some? {
        jobs := jobsFile.value;
      }
      err := None;
    }

    /** The pre-shared-key gate on the `X-PSK` header. */
    method RequirePsk(r: Request) returns (ok: bool)
      ensures ok <==> PskAccepted(psk, Param(r.headers, "X-PSK"))
    {
      if psk == "" {
        return true;
      }
      ok := ConstantTimeEqual(Param(r.headers, "X-PSK"), psk);
    }

    /** Authenticates the agent named by the `agent_id` and `token` query
        parameters; on success only that agent's last-seen time changes
        and the state is written out, otherwise nothing changes. */
    method AuthenticateAgent(r: Request, now: string) returns (a: Agent, ok: bool)
      modifies this`agents, this`diskAgents, this`diskJobs
      ensures ok <==> Authentic(old(agents), Param(r.query, "agent_id"), Param(r.query, "token"))
      ensures ok ==> var id := Param(r.query, "agent_id");
        agents == old(agents)[id := old(agents)[id].(lastSeen := now)] && a == agents[id] && Persisted()
      ensures !ok ==> agents == old(agents) && diskAgents == old(diskAgents) && diskJobs == old(diskJobs)
    {
      var id := Param(r.query, "agent_id");
      var token := Param(r.query, "token");
      a := Agent("", "", "", "", "", "", "");
      if id == "" || token == "" || id !in agents {
        return a, false;
      }
      var same := ConstantTimeEqual(token, agents[id].token);
      if !same {
        return a, false;
      }
      a := agents[id].(lastSeen := now);
      agents := agents[id := a];
      Persist();
      ok := true;
    }

    /** `POST /v1/enroll`: registers a new agent under the fresh id
        `newAgentId` with the fresh token `newToken`, which then
        authenticate it. */
    method HandleEnroll(r: Request, body: Option<EnrollBody>, newAgentId: string, newToken: string, now: string)
      returns (st: Status, agentId: string, token: string)
      requires newAgentId != "" && newToken != "" && newAgentId !in agents
      modifies this`agents, this`diskAgents, this`diskJobs
      ensures r.verb != "POST" ==> st == MethodNotAllowed
      ensures r.verb == "POST" && !PskAccepted(psk, Param(r.headers, "X-PSK")) ==> st == Unauthorized
      ensures r.verb == "POST" && PskAccepted(psk, Param(r.headers, "X-PSK")) && body.None? ==> st == BadRequest
      ensures r.verb == "POST" && PskAccepted(psk, Param(r.headers, "X-PSK")) && body.Some? ==> st == OK
      ensures st != OK ==> unchanged(this) && agentId == "" && token == ""
      ensures st == OK ==> (r.verb == "POST" && PskAccepted(psk, Param(r.headers, "X-PSK")) && body.Some?
        && agentId == newAgentId && token == newToken
        && agents == old(agents)[newAgentId := Agent(newAgentId, body.value.hostname, body.value.os,
                                                   body.value.arch, now, now, newToken)]
        && Authentic(agents, agentId, token) && Persisted())
    {
      agentId, token := "", "";
      if r.verb != "POST" {
        return MethodNotAllowed, agentId, token;
      }
      var pskOk := RequirePsk(r);
      if !pskOk {
        return Unauthorized, agentId, token;
      }
      if body.None? {
        return BadRequest, agentId, token;
      }
      var b := body.value;
      agents := agents[newAgentId := Agent(newAgentId, b.hostname, b.os, b.arch, now, now, newToken)];
      Persist();
      st, agentId, token := OK, newAgentId, newToken;
    }

    /** `POST /v1/jobs`: appends one queued job under the fresh id
        `newJobId` for the named agent, which need not be enrolled; the
        job type defaults to "triage". Other verbs are refused. */
    method HandleJobs(r: Request, body: Option<EnqueueBody>, newJobId: string, now: string)
      returns (st: Status, job: Option<Job>)
      requires newJobId != "" && forall i :: 0 <= i < |jobs| ==> jobs[i].jobId != newJobId
      modifies this`jobs, this`diskAgents, this`diskJobs
      ensures r.verb != "POST" ==> st == MethodNotAllowed
      ensures r.verb == "POST" && !PskAccepted(psk, Param(r.headers, "X-PSK")) ==> st == Unauthorized
      ensures (r.verb == "POST" && PskAccepted(psk, Param(r.headers, "X-PSK"))
        && (body.None? || body.value.agentId == "")) ==> st == BadRequest
      ensures (r.verb == "POST" && PskAccepted(psk, Param(r.headers, "X-PSK"))
        && body.Some? && body.value.agentId != "") ==> st == OK
      ensures st != OK ==> unchanged(this) && job.None?
      ensures st == OK ==> (r.verb == "POST" && PskAccepted(psk, Param(r.headers, "X-PSK"))
        && body.Some? && body.value.agentId != ""
        && job == Some(Job(newJobId, body.value.agentId,
                           if body.value.jobType == "" then DefaultJobType else body.value.jobType,
                           body.value.args, now, "", "", Queued))
        && jobs == old(jobs) + [job.value] && Persisted())
    {
      job := None;
      if r.verb != "POST" {
        return MethodNotAllowed, job;
      }
      var pskOk := RequirePsk(r);
      if !pskOk {
        return Unauthorized, job;
      }
      if body.None? || body.value.agentId == "" {
        return BadRequest, job;
      }
      var b := body.value;
      var jobType := if b.jobType == "" then DefaultJobType else b.jobType;
      var j := Job(newJobId, b.agentId, jobType, b.args, now, "", "", Queued);
      jobs := jobs + [j];
      Persist();
      st, job := OK, Some(j);
    }

    /** `GET /v1/jobs/next`: an authenticated agent claims the first job
        queued for it (200 with the job), or learns there is none (204). */
    method HandleJobsNext(r: Request, now: string) returns (st: Status, job: Option<Job>)
      modifies this`agents, this`jobs, this`diskAgents, this`diskJobs
      ensures r.verb != "GET" ==> st == MethodNotAllowed && unchanged(this)
      ensures var id, token := Param(r.query, "agent_id"), Param(r.query, "token");
        r.verb == "GET" && !Authentic(old(agents), id, token) ==> st == Unauthorized && unchanged(this)
      ensures var id, token := Param(r.query, "agent_id"), Param(r.query, "token");
        r.verb == "GET" && Authentic(old(agents), id, token) ==>
          agents == old(agents)[id := old(agents)[id].(lastSeen := now)]
          && jobs == ClaimNext(old(jobs), id, now) && Persisted()
          && match FirstQueued(old(jobs), id)
             case Some(k) => st == OK && job == Some(jobs[k])
             case None => st == NoContent && job.None?
      ensures st != OK ==> job.None?
    {
      job := None;
      if r.verb != "GET" {
        return MethodNotAllowed, job;
      }
      var _, ok := AuthenticateAgent(r, now);
      if !ok {
        return Unauthorized, job;
      }
      var id := Param(r.query, "agent_id");
      var js := jobs;
      var i := 0;
      while i < |js|
        invariant 0 <= i <= |js|
        invariant forall k :: 0 <= k < i ==> !QueuedFor(js[k], id)
      {
        if js[i].agentId == id && js[i].status == Queued {
          break;
        }
        i := i + 1;
      }
      if i == |js| {
        return NoContent, job;
      }
      assert FirstQueuedAt(js, id, i);
      jobs := js[i := js[i].(status := Claimed, claimedAt := now)];
      Persist();
      st, job := OK, Some(jobs[i]);
    }

    /** Marks the first job with `jobId` done at time `now`. */
    method MarkDone(jobId: string, now: string)
      modifies this`jobs
      ensures jobs == Complete(old(jobs), jobId, now)
    {
      var js := jobs;
      var j := 0;
      while j < |js|
        invariant 0 <= j <= |js|
        invariant forall k :: 0 <= k < j ==> js[k].jobId != jobId
      {
        if js[j].jobId == jobId {
          break;
        }
        j := j + 1;
      }
      if j < |js| {
        assert FirstWithIdAt(js, jobId, j);
        jobs := js[j := js[j].(status := Done, doneAt := now)];
      }
    }

    /** The part of an upload after authentication: the part loop, then
        the completion of the job when a file was stored, then the write
        of the state. */
    method StoreUpload(jobId: string, parts: Option<seq<PartEvent>>, now: string) returns (st: Status, saved: string)
      modifies this`jobs, this`diskAgents, this`diskJobs
      ensures parts.None? ==> (st == BadRequest && saved == "" && jobs == old(jobs)
        && diskAgents == old(diskAgents) && diskJobs == old(diskJobs))
      ensures parts.Some? ==> (st, saved) == PartLoopOutcome(parts.value, dataDir, jobId)
      ensures jobs == if st == OK then Complete(old(jobs), jobId, now) else old(jobs)
      ensures old(Persisted()) ==> Persisted()
    {
      if parts.None? {
        return BadRequest, "";
      }
      st, saved := ReadUpload(parts.value, dataDir, jobId);
      if st != OK {
        return;
      }
      MarkDone(jobId, now);
      Persist();
    }

    /** `POST /v1/jobs/<job id>/results`: an authenticated agent uploads
        a "file" part; the first job with that id becomes done, without
        regard to its owner or status, and the stored path is returned. */
    method HandleJobResults(r: Request, parts: Option<seq<PartEvent>>, now: string)
      returns (st: Status, saved: string)
      modifies this`agents, this`jobs, this`diskAgents, this`diskJobs
      ensures st == OK <==> saved != ""
      ensures if r.verb != "POST" then st == MethodNotAllowed && unchanged(this)
        else if ResultsJobId(r.path).None? then st == NotFound && unchanged(this)
        else
          var id, token, jobId := Param(r.query, "agent_id"), Param(r.query, "token"), ResultsJobId(r.path).value;
          if !Authentic(old(agents), id, token) then st == Unauthorized && unchanged(this)
          else
            agents == old(agents)[id := old(agents)[id].(lastSeen := now)] && Persisted()
            && (if parts.None? then st == BadRequest else (st, saved) == PartLoopOutcome(parts.value, dataDir, jobId))
            && jobs == (if st == OK then Complete(old(jobs), jobId, now) else old(jobs))
    {
      saved := "";
      if r.verb != "POST" {
        return MethodNotAllowed, saved;
      }
      var target := ResultsJobId(r.path);
      if target.None? {
        return NotFound, saved;
      }
      var _, ok := AuthenticateAgent(r, now);
      if !ok {
        return Unauthorized, saved;
      }
      st, saved := StoreUpload(target.value, parts, now);
    }
  }
}
