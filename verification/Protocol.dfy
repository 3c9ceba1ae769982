/** internal/protocol/client.go: which jobs are accepted, and the retrying upload loops. */
module Protocol {
  import opened Wire
  import opened Sets

  const SUPPORTED: set<string> := {
    "anthropic", "asana", "bamboohr", "canva", "cloudflare", "dockerhub", "figma", "gcp", "github", "google",
    "linear", "notion", "npmjs", "openai", "slack", "tailscale", "twingate", "vercel", "zoom"}

  /** What time.Parse makes of the lease expiry text. */
  datatype Expiry = Absent | Malformed | ZeroInstant | Instant

  /** A polled job; the three identifier patterns are represented by whether they match. */
  datatype Job = Job(
    kind: string, isJobID: bool, isTestID: bool, isLeaseToken: bool, claimGeneration: int, reviewRunID: int,
    platforms: seq<string>, pendingPlatforms: seq<string>, platform: string, expiry: Expiry)

  function Elements(s: seq<string>): set<string> { set x | x in s }

  ghost predicate Distinct(s: seq<string>) {
    forall i, j | 0 <= i < j < |s| :: s[i] != s[j]
  }

  ghost predicate PlatformList(platforms: seq<string>, supported: set<string>) {
    platforms != [] && Elements(platforms) <= supported && Distinct(platforms)
  }

  lemma {:induction false} DistinctCount(s: seq<string>)
    requires Distinct(s)
    ensures |Elements(s)| == |s|
  {
    if s != [] {
      var last := |s| - 1;
      DistinctCount(s[..last]);
      assert s == s[..last] + [s[last]];
      assert Elements(s) == Elements(s[..last]) + {s[last]};
    }
  }

  /** The size test against the whole allowlist never decides anything by itself. */
  lemma PlatformListFits(platforms: seq<string>, supported: set<string>)
    requires PlatformList(platforms, supported)
    ensures |platforms| <= |supported|
  {
    DistinctCount(platforms);
    SubsetSize(Elements(platforms), supported);
  }

  method ValidPlatformList(platforms: seq<string>, supported: set<string>) returns (unique: set<string>, ok: bool)
    ensures ok <==> PlatformList(platforms, supported)
    ensures ok ==> unique == Elements(platforms)
  {
    if |platforms| == 0 || |platforms| > |supported| {
      if PlatformList(platforms, supported) {
        PlatformListFits(platforms, supported);
      }
      return {}, false;
    }
    unique := {};
    for i := 0 to |platforms|
      invariant unique == Elements(platforms[..i])
      invariant unique <= supported && Distinct(platforms[..i])
    {
      assert platforms[..i + 1] == platforms[..i] + [platforms[i]];
      if platforms[i] !in supported {
        assert platforms[i] in Elements(platforms);
        return {}, false;
      }
      if platforms[i] in unique {
        return {}, false;
      }
      unique := unique + {platforms[i]};
    }
    assert platforms[..|platforms|] == platforms;
    ok := true;
  }

  ghost predicate AcceptedTest(job: Job) {
    && job.isLeaseToken && job.claimGeneration > 0
    && job.kind == "integration_test" && job.isTestID && job.platform in SUPPORTED
    && job.reviewRunID == 0 && job.platforms == [] && job.pendingPlatforms == [] && job.expiry == Instant
  }

  ghost predicate AcceptedReview(job: Job) {
    && job.isLeaseToken && job.claimGeneration > 0
    && job.kind in {"", "review"} && job.isJobID && job.reviewRunID > 0 && job.platform == ""
    && job.expiry != Malformed
    && PlatformList(job.platforms, SUPPORTED) && PlatformList(job.pendingPlatforms, SUPPORTED)
    && Elements(job.pendingPlatforms) <= Elements(job.platforms)
  }

  /** What is accepted, field by field: a test of one platform, or a review with pending platforms among its own. */
  lemma AcceptedMeans(job: Job)
    ensures AcceptedTest(job) <==>
        && job.isLeaseToken && job.claimGeneration >= 1 && job.kind == "integration_test" && job.isTestID
        && job.platform in SUPPORTED && job.expiry == Instant
        && job.reviewRunID == 0 && job.platforms == [] && job.pendingPlatforms == []
    ensures AcceptedReview(job) <==>
        && job.isLeaseToken && job.claimGeneration >= 1 && (job.kind == "" || job.kind == "review") && job.isJobID
        && job.reviewRunID >= 1 && job.platform == "" && job.expiry != Malformed
        && (forall platform | platform in job.platforms :: platform in SUPPORTED)
        && (forall i, j | 0 <= i < j < |job.platforms| :: job.platforms[i] != job.platforms[j])
        && (forall i, j | 0 <= i < j < |job.pendingPlatforms| :: job.pendingPlatforms[i] != job.pendingPlatforms[j])
        && job.pendingPlatforms != []
        && forall platform | platform in job.pendingPlatforms :: platform in job.platforms
  {
    ListMeans(job.platforms, SUPPORTED);
    ListMeans(job.pendingPlatforms, SUPPORTED);
    assert forall platform :: platform in Elements(job.platforms) <==> platform in job.platforms;
    if job.pendingPlatforms != [] {
      assert job.pendingPlatforms[0] in job.pendingPlatforms;
    }
    assert forall platform | platform in job.pendingPlatforms :: platform in Elements(job.pendingPlatforms);
  }

  lemma ListMeans(platforms: seq<string>, supported: set<string>)
    ensures PlatformList(platforms, supported) <==>
        && platforms != [] && (forall platform | platform in platforms :: platform in supported)
        && forall i, j | 0 <= i < j < |platforms| :: platforms[i] != platforms[j]
  {
    assert forall platform :: platform in Elements(platforms) <==> platform in platforms;
  }

  /** validJob. The pending list of a review is never empty and is drawn from the requested list. */
  method ValidJob(job: Job) returns (ok: bool)
    ensures ok <==> AcceptedTest(job) || AcceptedReview(job)
  {
    if !job.isLeaseToken || job.claimGeneration <= 0 {
      return false;
    }
    if job.kind == "integration_test" {
      if !job.isTestID {
        return false;
      }
      if job.platform !in SUPPORTED {
        return false;
      }
      if job.reviewRunID != 0 || |job.platforms| != 0 || |job.pendingPlatforms| != 0 {
        return false;
      }
      return job.expiry != Absent && job.expiry != Malformed && job.expiry != ZeroInstant;
    }
    if job.kind != "" && job.kind != "review" {
      return false;
    }
    if !job.isJobID || job.reviewRunID <= 0 || job.platform != "" {
      return false;
    }
    if job.expiry != Absent && job.expiry == Malformed {
      return false;
    }
    var platforms, listed := ValidPlatformList(job.platforms, SUPPORTED);
    if !listed {
      return false;
    }
    var pending, pendingListed := ValidPlatformList(job.pendingPlatforms, SUPPORTED);
    if pendingListed {
      DistinctCount(job.pendingPlatforms);
      DistinctCount(job.platforms);
      if pending <= platforms {
        SubsetSize(pending, platforms);
      }
    }
    if !pendingListed || |pending| > |platforms| {
      return false;
    }
    var rest := pending;
    while rest != {}
      invariant rest <= pending && pending - rest <= platforms
      decreases |rest|
    {
      var platform :| platform in rest;
      if platform !in platforms {
        return false;
      }
      rest := rest - {platform};
    }
    assert pending - rest == pending;
    ok := true;
  }

  datatype Result = Result(
    platform: string, members: seq<Member>, error: Option<string>,
    deployKeys: seq<DeployKey>, coverage: Option<Coverage>)

  /** An upload body: the result under the lease and claim generation of its job. */
  datatype Body = Body(result: Result, job: Job)

  datatype Reply = TransportError | Status(code: int)

  datatype Request<+B> = Request(body: B, reply: Reply)

  const ATTEMPTS := 3

  predicate Retryable(reply: Reply) {
    reply.TransportError? || reply.code in {408, 425, 429} || reply.code >= 500
  }

  /**
   What a finished call of a retry loop can have sent: at most three requests, all with one body,
   each but the last answered by something retryable, and the last answered 200 exactly when the
   call returned nil.
  */
  ghost predicate UploadTrace<B>(log: seq<Request<B>>, body: B, ok: bool) {
    && |log| <= ATTEMPTS
    && (forall i | 0 <= i < |log| :: log[i].body == body)
    && (forall i | 0 <= i < |log| - 1 :: Retryable(log[i].reply))
    && (ok <==> log != [] && log[|log| - 1].reply == Status(200))
  }

  /** A call that was answered but not with 200 ends after a refusal that no retry helps, or after three requests. */
  ghost predicate Exhausted<B>(log: seq<Request<B>>) {
    log != [] && (Refused(log[|log| - 1].reply) || |log| == 3)
  }

  /** Any status but 200, 408, 425, 429 and those from 500 on. */
  predicate Refused(reply: Reply) {
    reply.Status? && reply.code < 500 && reply.code !in [200, 408, 425, 429]
  }

  /** A transport error, 408, 425, 429 or anything from 500 on was answered, and another request followed. */
  ghost predicate Retried<B>(log: seq<Request<B>>) {
    forall i | 0 <= i < |log| - 1 ::
      match log[i].reply case TransportError => true case Status(code) => code in [408, 425, 429] || code >= 500
  }

  /** Attempt k is the one that is answered 200, and the loop gets that far. */
  ghost predicate DeliveredAt(replies: nat -> Reply, contextDone: nat -> bool, k: nat) {
    && k < ATTEMPTS && replies(k) == Status(200)
    && forall i | 0 <= i < k :: Retryable(replies(i)) && !contextDone(i)
  }

  /** Delivery by answers: 200 after at most two others, each of which asks for another attempt. */
  lemma DeliveredMeans(replies: nat -> Reply, contextDone: nat -> bool, k: nat)
    ensures DeliveredAt(replies, contextDone, k) <==>
        && k < 3 && replies(k) == Status(200)
        && forall i | 0 <= i < k ::
          && !contextDone(i)
          && match replies(i) case TransportError => true case Status(code) => code in [408, 425, 429] || code >= 500
  {
  }

  /** One more answer after answers that were all retryable. */
  lemma AnswerTrace<B>(log: seq<Request<B>>, body: B, reply: Reply)
    requires |log| < ATTEMPTS && forall i | 0 <= i < |log| :: log[i].body == body && Retryable(log[i].reply)
    ensures var longer := log + [Request(body, reply)];
      && Retried(longer) && UploadTrace(longer, body, reply == Status(200))
      && (reply != Status(200) && (!Retryable(reply) || |longer| == ATTEMPTS) ==> Exhausted(longer))
      && (forall i | 0 <= i < |longer| :: longer[i].body == body && (Retryable(reply) ==> Retryable(longer[i].reply)))
  {
  }

  datatype UploadError = InvalidRequest | EncodeFailed | TooLarge | Rejected(reply: Reply) | ContextDone

  /** The retry loop shared word for word by Upload and UploadIntegrationTest. */
  method SendWithRetries<B>(body: B, replies: nat -> Reply, contextDone: nat -> bool)
    returns (failure: Option<UploadError>, log: seq<Request<B>>)
    ensures UploadTrace(log, body, failure.None?)
    ensures forall i | 0 <= i < |log| :: log[i].reply == replies(i)
    ensures failure.None? <==> exists k :: DeliveredAt(replies, contextDone, k)
    ensures failure == Some(ContextDone) ==> 0 < |log| < ATTEMPTS && contextDone(|log| - 1)
    ensures Retried(log) && (failure.Some? && failure != Some(ContextDone) ==> Exhausted(log))
  {
    log := [];
    for attempt := 0 to ATTEMPTS
      invariant |log| == attempt
      invariant forall i | 0 <= i < attempt ::
          log[i] == Request(body, replies(i)) && Retryable(replies(i)) && !contextDone(i)
      invariant attempt < ATTEMPTS
    {
      var reply := replies(attempt);
      log := log + [Request(body, reply)];
      if reply == Status(200) {
        assert DeliveredAt(replies, contextDone, attempt);
        return None, log;
      }
      if !Retryable(reply) || attempt == ATTEMPTS - 1 {
        return Some(Rejected(reply)), log;
      }
      if contextDone(attempt) {
        return Some(ContextDone), log;
      }
    }
    assert false;
  }

  const MAX_UPLOAD := 32 * 0x10_0000
  const MAX_TEST_RESULT := 16 * 0x400

  /** Client.Upload; `size` is the length of the encoded body, absent when encoding fails. */
  method Upload(job: Job, result: Result, size: Option<nat>, replies: nat -> Reply, contextDone: nat -> bool)
    returns (failure: Option<UploadError>, log: seq<Request<Body>>)
    ensures UploadTrace(log, Body(result, job), failure.None?)
    ensures failure.None? <==>
        size.Some? && size.value <= 33_554_432 && exists k :: DeliveredAt(replies, contextDone, k)
    ensures size == None || size.value > 33_554_432 ==> log == []
    ensures Retried(log) && (log != [] && failure.Some? && failure != Some(ContextDone) ==> Exhausted(log))
  {
    if size.None? {
      return Some(EncodeFailed), [];
    }
    if size.value > MAX_UPLOAD {
      return Some(TooLarge), [];
    }
    failure, log := SendWithRetries(Body(result, job), replies, contextDone);
  }

  datatype TestBody = TestBody(job: Job, ok: bool, errorCode: string)

  const TEST_ERROR_CODES: set<string> := {
    "credentials_rejected", "permission_denied", "invalid_configuration", "rate_limited",
    "vendor_unavailable", "timed_out", "unexpected_response"}

  /** Client.UploadIntegrationTest: nothing is sent for a job or an outcome that is not well formed. */
  method UploadIntegrationTest(
      job: Job, ok: bool, errorCode: string, size: Option<nat>, replies: nat -> Reply, contextDone: nat -> bool)
    returns (failure: Option<UploadError>, log: seq<Request<TestBody>>)
    ensures UploadTrace(log, TestBody(job, ok, errorCode), failure.None?)
    ensures log != [] ==> AcceptedTest(job) && (if ok then errorCode == "" else errorCode in TEST_ERROR_CODES)
    ensures failure.None? <==>
        && AcceptedTest(job) && (if ok then errorCode == "" else errorCode in TEST_ERROR_CODES)
        && size.Some? && size.value <= 16_384 && exists k :: DeliveredAt(replies, contextDone, k)
  {
    var valid := ValidJob(job);
    if job.kind != "integration_test" || !valid {
      return Some(InvalidRequest), [];
    }
    if ok && errorCode != "" {
      return Some(InvalidRequest), [];
    }
    if !ok && errorCode !in TEST_ERROR_CODES {
      return Some(InvalidRequest), [];
    }
    if size.None? || size.value > MAX_TEST_RESULT {
      return Some(EncodeFailed), [];
    }
    failure, log := SendWithRetries(TestBody(job, ok, errorCode), replies, contextDone);
  }
}
