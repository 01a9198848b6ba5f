/**
 * The readiness checks of the pipeline-server test: whether the pipeline API
 * service has endpoints yet, and how one poll of a pipeline run is classified
 * while waiting for the run to finish.
 */
module PipelineServer {
  import opened Optional
  import opened Readiness
  import TestConstants
  import JavaFormat

  // ---------------------------------------------------------------------------
  // Endpoints of the pipeline API service (waitForEndpoints)
  // ---------------------------------------------------------------------------

  datatype Address = Address(ip: string)
  datatype Subset = Subset(addresses: seq<Address>)
  datatype Endpoints = Endpoints(subsets: seq<Subset>)

  /** What `endpoints.get()` does: returns an object or null, or throws a client error with an HTTP code. */
  datatype EndpointsFetch = Fetched(endpoints: Option<Endpoints>) | ClientError(code: int)

  const NotFound: int := 404

  /** The endpoints wait polls every GLOBAL_POLL_INTERVAL_SHORT ms for at most GLOBAL_TIMEOUT ms. */
  const EndpointsPollInterval: nat := TestConstants.GlobalPollIntervalShort
  const EndpointsTimeout: nat := TestConstants.GlobalTimeout

  /**
   * The check given to the endpoints wait. A missing object or an empty
   * subset list is "not yet"; otherwise the loop over the subsets returns on
   * its first iteration, so only the first subset is ever looked at. A 404 is
   * absorbed as "not yet"; any other client error is rethrown.
   */
  function EndpointsCheck(fetch: EndpointsFetch): (r: Readiness)
    ensures r.Fatal? <==> fetch.ClientError? && fetch.code != NotFound
  {
    match fetch
    case ClientError(code) => if code == NotFound then NotYet else Fatal(ClientFailure(code))
    case Fetched(None) => NotYet
    case Fetched(Some(e)) =>
      if |e.subsets| == 0 then NotYet
      else FromBool(|e.subsets[0].addresses| > 0)
  }

  /** The usual meaning of "endpoints populated": some subset has an address. */
  predicate Populated(e: Endpoints) {
    exists i :: 0 <= i < |e.subsets| && |e.subsets[i].addresses| > 0
  }

  lemma EndpointsAbsentNotReady()
    ensures EndpointsCheck(Fetched(None)) == NotYet
  {
  }

  lemma EndpointsNoSubsetsNotReady(e: Endpoints)
    requires e.subsets == []
    ensures EndpointsCheck(Fetched(Some(e))) == NotYet
    ensures !Populated(e)
  {
  }

  /** With at least one subset, the first one alone decides; later subsets never matter. */
  lemma EndpointsFirstSubsetDecides(first: Subset, rest: seq<Subset>, other: seq<Subset>)
    ensures EndpointsCheck(Fetched(Some(Endpoints([first] + rest)))) == (if first.addresses != [] then Ready else NotYet)
    ensures EndpointsCheck(Fetched(Some(Endpoints([first] + rest)))) == EndpointsCheck(Fetched(Some(Endpoints([first] + other))))
  {
  }

  /** A 404 is absorbed as "not yet"; every other code is rethrown with that same code. */
  lemma EndpointsClientErrors(code: int)
    ensures code == NotFound ==> EndpointsCheck(ClientError(code)) == NotYet
    ensures code != NotFound ==> EndpointsCheck(ClientError(code)) == Fatal(ClientFailure(code))
  {
  }

  /** "Ready" is only ever reported for an object that really is populated. */
  lemma EndpointsReadyIsPopulated(fetch: EndpointsFetch)
    ensures EndpointsCheck(fetch) == Ready <==>
      fetch.Fetched? && fetch.endpoints.Some? && Populated(fetch.endpoints.value)
      && fetch.endpoints.value.subsets[0].addresses != []
  {
  }

  /** The converse fails: an address in a later subset alone is never noticed. */
  lemma EndpointsIgnoresLaterSubsets()
    ensures var e := Endpoints([Subset([]), Subset([Address("10.0.0.1")])]);
      Populated(e) && EndpointsCheck(Fetched(Some(e))) == NotYet
  {
    var e := Endpoints([Subset([]), Subset([Address("10.0.0.1")])]);
    assert |e.subsets[1].addresses| > 0;
  }

  // ---------------------------------------------------------------------------
  // Pipeline runs as the pipeline REST API returns them
  // ---------------------------------------------------------------------------

  datatype PipelineSpec = PipelineSpec(pipelineId: Option<string>, pipelineName: Option<string>)

  /** A run; every field is null unless the JSON carried it. */
  datatype PipelineRun = PipelineRun(
    id: Option<string>,
    name: Option<string>,
    pipelineSpec: Option<PipelineSpec>,
    createdAt: Option<string>,
    scheduledAt: Option<string>,
    finishedAt: Option<string>,
    status: Option<string>,
    error: Option<string>)

  /**
   * The reply body: a run detail whose `run` may be null, the JSON literal
   * `null` (the mapper returns a null detail), or text the mapper rejects.
   */
  datatype Body = RunDetail(run: Option<PipelineRun>) | NullDetail | Unparsable

  /** One request to the run endpoint: a reply, or an exception thrown by `send`. */
  datatype Exchange = Reply(statusCode: int, body: Body) | SendIoException | SendInterrupted

  const HttpOk: int := 200
  const StatusFailed: string := "Failed"
  const StatusSucceeded: string := "Succeeded"

  /** The run wait polls every 5000 ms for at most 10 * 60 * 1000 ms. */
  const RunPollInterval: nat := 5000
  const RunTimeout: nat := 10 * 60 * 1000

  /** The message of the AssertionError thrown for a failed run. */
  function RunFailedMessage(run: PipelineRun): string
    requires run.status == Some(StatusFailed)
  {
    "Pipeline run failed: " + StatusFailed + JavaText(run.error)
  }

  /** True when this exchange makes the poll overwrite the stored run: past the 200 check, parsed, and not a null detail. */
  predicate StoresRun(ex: Exchange) {
    ex.Reply? && ex.statusCode == HttpOk && ex.body.RunDetail?
  }

  /** The stored run after one poll: the parsed run (null included) or, if the poll threw earlier, unchanged. */
  function RunAfterPoll(ex: Exchange, current: Option<PipelineRun>): (next: Option<PipelineRun>)
    ensures StoresRun(ex) ==> next == ex.body.run
    ensures !StoresRun(ex) ==> next == current
  {
    if StoresRun(ex) then ex.body.run else current
  }

  /**
   * The verdict of one poll of the run wait. `send` failures, a status code
   * other than 200, an unparsable body, a null detail, a null run or null status, and the
   * status "Failed" all throw; "Succeeded" returns true; any other status
   * returns false and the wait polls again.
   */
  function RunVerdict(ex: Exchange): (r: Readiness)
    ensures r == Ready ==> StoresRun(ex) && ex.body.run.Some? && ex.body.run.value.status == Some(StatusSucceeded)
    ensures r == NotYet ==> StoresRun(ex) && ex.body.run.Some? && ex.body.run.value.status.Some?
  {
    match ex
    case SendIoException => Fatal(IoFailure)
    case SendInterrupted => Fatal(Interrupted)
    case Reply(code, body) =>
      if code != HttpOk then Fatal(UnexpectedHttpStatus(code))
      else
        match body
        case Unparsable => Fatal(JsonFailure)
        case NullDetail => Fatal(NullDereference)
        case RunDetail(None) => Fatal(NullDereference)
        case RunDetail(Some(run)) =>
          match run.status
          case None => Fatal(NullDereference)
          case Some(s) =>
            if s == StatusFailed then Fatal(RunFailed(RunFailedMessage(run)))
            else FromBool(s == StatusSucceeded)
  }

  /** "Failed" throws, "Succeeded" returns true, any other status returns false (poll again). */
  lemma RunStatusClassification(run: PipelineRun, s: string)
    requires run.status == Some(s)
    ensures var v := RunVerdict(Reply(HttpOk, RunDetail(Some(run))));
      && (s == StatusFailed ==> v == Fatal(RunFailed("Pipeline run failed: Failed" + JavaText(run.error))))
      && (s == StatusSucceeded ==> v == Ready)
      && (s != StatusFailed && s != StatusSucceeded ==> v == NotYet)
  {
    assert "Pipeline run failed: " + StatusFailed == "Pipeline run failed: Failed";
  }

  /** A reply other than 200 is fatal, never a retry, whatever its body. */
  lemma NonOkReplyIsFatal(code: int, body: Body)
    requires code != HttpOk
    ensures RunVerdict(Reply(code, body)) == Fatal(UnexpectedHttpStatus(code))
  {
  }

  /** Transport, interrupt and JSON failures are fatal too. */
  lemma ExceptionsAreFatal()
    ensures RunVerdict(SendIoException) == Fatal(IoFailure)
    ensures RunVerdict(SendInterrupted) == Fatal(Interrupted)
    ensures RunVerdict(Reply(HttpOk, Unparsable)) == Fatal(JsonFailure)
    ensures RunVerdict(Reply(HttpOk, NullDetail)) == Fatal(NullDereference)
    ensures RunVerdict(Reply(HttpOk, RunDetail(None))) == Fatal(NullDereference)
  {
  }

  // ---------------------------------------------------------------------------
  // The run wait (waitForPipelineRun)
  // ---------------------------------------------------------------------------

  /** How the run wait ends: the stored run is returned, an exception escapes, or the deadline passes. */
  datatype RunWait = Returned(run: Option<PipelineRun>) | Raised(reason: Failure) | TimedOut

  /**
   * The outcome of the run wait when the polls made before the deadline see
   * `polls` in order and the stored run starts as `current`.
   */
  function RunWaitOutcome(polls: seq<Exchange>, current: Option<PipelineRun>): (r: RunWait)
    ensures r.Returned? ==> r.run.Some? && r.run.value.status == Some(StatusSucceeded)
    ensures polls == [] ==> r == TimedOut
    decreases |polls|
  {
    if polls == [] then TimedOut
    else
      var next := RunAfterPoll(polls[0], current);
      match RunVerdict(polls[0])
      case Ready => Returned(next)
      case Fatal(f) => Raised(f)
      case NotYet => RunWaitOutcome(polls[1..], next)
  }

  /**
   * `waitForPipelineRun`: the stored run (an AtomicReference, first null) is
   * overwritten by every poll that gets past the 200 check and parses a
   * non-null detail, and its final value is returned once a poll returns true.
   */
  method WaitForPipelineRun(polls: seq<Exchange>) returns (outcome: RunWait)
    ensures outcome == RunWaitOutcome(polls, None)
  {
    var run: Option<PipelineRun> := None;
    var i := 0;
    while i < |polls|
      invariant 0 <= i <= |polls|
      invariant RunWaitOutcome(polls[i..], run) == RunWaitOutcome(polls, None)
    {
      var ex := polls[i];
      assert polls[i..][0] == ex && polls[i..][1..] == polls[i + 1..];
      run := RunAfterPoll(ex, run);
      var verdict := RunVerdict(ex);
      match verdict {
        case Ready =>
          return Returned(run);
        case Fatal(f) =>
          return Raised(f);
        case NotYet =>
      }
      i := i + 1;
    }
    return TimedOut;
  }

  /** True when every poll before index `k` said "not yet". */
  predicate AllNotYetBefore(polls: seq<Exchange>, k: int)
    requires 0 <= k <= |polls|
  {
    forall j :: 0 <= j < k ==> RunVerdict(polls[j]) == NotYet
  }

  /**
   * The first poll that does not say "not yet" decides the wait: true returns
   * the run that poll parsed, an exception escapes unchanged.
   */
  lemma {:induction false} RunWaitFirstDecisive(polls: seq<Exchange>, current: Option<PipelineRun>, k: int)
    requires 0 <= k < |polls| && AllNotYetBefore(polls, k)
    requires RunVerdict(polls[k]) != NotYet
    ensures RunVerdict(polls[k]) == Ready ==> RunWaitOutcome(polls, current) == Returned(polls[k].body.run)
    ensures RunVerdict(polls[k]).Fatal? ==> RunWaitOutcome(polls, current) == Raised(RunVerdict(polls[k]).reason)
    decreases k
  {
    if k > 0 {
      RunWaitFirstDecisive(polls[1..], RunAfterPoll(polls[0], current), k - 1);
    }
  }

  /** The wait times out exactly when every poll said "not yet". */
  lemma {:induction false} RunWaitTimesOut(polls: seq<Exchange>, current: Option<PipelineRun>)
    ensures RunWaitOutcome(polls, current) == TimedOut <==> AllNotYetBefore(polls, |polls|)
    decreases |polls|
  {
    if polls != [] {
      RunWaitTimesOut(polls[1..], RunAfterPoll(polls[0], current));
      if RunVerdict(polls[0]) == NotYet {
        assert AllNotYetBefore(polls, |polls|) <==> AllNotYetBefore(polls[1..], |polls| - 1) by {
          forall j | 0 <= j < |polls| - 1 ensures polls[1..][j] == polls[j + 1] { }
        }
      }
    }
  }

  /** A run the wait returns is the run of its last poll, and its status is "Succeeded". */
  lemma {:induction false} RunWaitReturnsSucceededRun(polls: seq<Exchange>, current: Option<PipelineRun>)
    requires RunWaitOutcome(polls, current).Returned?
    ensures var r := RunWaitOutcome(polls, current).run;
      r.Some? && r.value.status == Some(StatusSucceeded)
      && exists k :: 0 <= k < |polls| && polls[k] == Reply(HttpOk, RunDetail(r)) && AllNotYetBefore(polls, k)
    decreases |polls|
  {
    var next := RunAfterPoll(polls[0], current);
    if RunVerdict(polls[0]) == NotYet {
      RunWaitReturnsSucceededRun(polls[1..], next);
      var r := RunWaitOutcome(polls, current).run;
      var k :| 0 <= k < |polls[1..]| && polls[1..][k] == Reply(HttpOk, RunDetail(r)) && AllNotYetBefore(polls[1..], k);
      assert polls[k + 1] == Reply(HttpOk, RunDetail(r));
      assert AllNotYetBefore(polls, k + 1) by {
        forall j | 0 < j < k + 1 ensures RunVerdict(polls[j]) == NotYet {
          assert polls[j] == polls[1..][j - 1];
        }
      }
    } else {
      assert polls[0] == Reply(HttpOk, RunDetail(next));
    }
  }

  /** The run wait keeps to the suite's short poll interval and global timeout: 120 polls. */
  lemma RunWaitTiming()
    ensures RunPollInterval == TestConstants.GlobalPollIntervalShort == EndpointsPollInterval
    ensures RunTimeout == TestConstants.GlobalTimeout == EndpointsTimeout
    ensures TestConstants.PollsWithin(RunTimeout, RunPollInterval) == 120
  {
  }

  // ---------------------------------------------------------------------------
  // Submitting a run (runPipeline)
  // ---------------------------------------------------------------------------

  const ImmediateMode: string := "Immediate"

  /**
   * The run body `runPipeline` posts. The mode must be "Immediate"; the body
   * carries the run's name and the pipeline id, every other field null.
   */
  function RunPipelineRequest(basename: string, pipelineId: string, mode: string): (r: Result<PipelineRun, Failure>)
    ensures r.Err? <==> mode != ImmediateMode
    ensures r.Err? ==> r.error == ModeRejected(mode)
    ensures r.Ok? ==> (r.value.name == Some(basename)
      && r.value.pipelineSpec.Some? && r.value.pipelineSpec.value.pipelineId == Some(pipelineId))
  {
    if mode != ImmediateMode then Err(ModeRejected(mode))
    else Ok(PipelineRun(None, Some(basename), Some(PipelineSpec(Some(pipelineId), None)), None, None, None, None, None))
  }

  /** The submitted body sets nothing the server fills in: no id, times, status or error. */
  lemma RunRequestLeavesServerFieldsNull(basename: string, pipelineId: string)
    ensures var r := RunPipelineRequest(basename, pipelineId, ImmediateMode);
      r.Ok? && r.value.id.None? && r.value.status.None? && r.value.error.None?
      && r.value.createdAt.None? && r.value.scheduledAt.None? && r.value.finishedAt.None?
      && r.value.pipelineSpec.value.pipelineName.None?
  {
  }
}
