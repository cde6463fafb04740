/** Downloading one range with retries: the executor's loop and the lambdas of a single-range download.
    Two byte counters, two start-over flags and the target must agree for a resumed request to continue
    where the target stands. */
module RangeResume {
  import opened Common

  const TWO_TO_THE_64: nat := 0x1_0000_0000_0000_0000

  /** What is downloaded and where it goes. No offset means the whole blob; length 0 means up to the end.
      Responses tell the length of their body or they do not. A checksum is identified with the bytes it was
      computed from, so it has no collisions. */
  datatype Config = Config(
    blob: seq<byte>, offset: Option<nat>, length: nat, targetOffset: nat,
    canSeek: bool, lengthKnown: bool, checksum: bool) {

    function Low(): nat { if offset.Some? then offset.value else 0 }

    function High(): nat { if length == 0 || Low() + length > |blob| then |blob| else Low() + length }

    ghost predicate Valid() { Low() <= |blob| && length < TWO_TO_THE_64 && |blob| < TWO_TO_THE_64 }

    /** The bytes asked for. */
    function Wanted(): seq<byte>
      requires Valid()
    {
      blob[Low()..High()]
    }
  }

  /** The fields of the executor, of the download info and of the target that a retry depends on. */
  datatype State = State(
    hashing: bool,              // m_is_hashing_started
    restart: bool,              // m_should_restart_hash_provider
    downloaded: nat,            // m_total_downloaded
    hashed: seq<byte>,          // what the hash provider was given
    kept: nat,                  // m_total_written_to_destination_stream
    populated: bool,            // m_are_properties_populated
    md5: Option<seq<byte>>,     // m_response_md5
    reset: bool,                // m_reset_target
    locked: Option<Location>,   // the location the command is locked to
    target: seq<byte>,
    position: nat)

  function Init(c: Config, target: seq<byte>): State
    requires c.targetOffset <= |target|
  {
    State(false, false, 0, [], 0, false, None, false, None, target, c.targetOffset)
  }

  /** What happens to one request. */
  datatype Response =
    | NoResponse
    | ErrorStatus(body: seq<byte>, interrupted: bool)
    | Success(location: Location, header: Option<seq<byte>>, received: nat, interrupted: bool)

  /** The response, and what the retry policy and the target say after a failure. */
  datatype Outcome = Outcome(response: Response, retry: bool, open: bool)

  datatype Result = Succeeded(s: State) | Failed | Retrying(s: State)

  /** The request of an attempt: where it starts and how long it may be, 0 for no limit. */
  datatype Request = Request(offset: Option<nat>, length: nat) | Invalid

  /** A length without an offset is refused, and so is a rest of length 0. */
  function BuildRequest(c: Config, kept: nat): Request {
    if kept == 0 then if c.offset.None? && c.length > 0 then Invalid else Request(c.offset, c.length)
    else if c.length == 0 then Request(Some(c.Low() + kept), 0)
    else
      var rest := (c.length - kept) % TWO_TO_THE_64;
      if rest == 0 then Invalid else Request(Some(c.Low() + kept), rest)
  }

  /** The bytes a successful response to the request carries. */
  function Body(c: Config, r: Request): seq<byte>
    requires r.Request?
  {
    var low := if r.offset.Some? then r.offset.value else 0;
    var high := if r.length == 0 || low + r.length > |c.blob| then |c.blob| else low + r.length;
    if low <= high then c.blob[low..high] else []
  }

  /** A fresh hash provider, for a first attempt and after every failure. */
  function StartHashing(s: State): State {
    var s1 := if !s.hashing then s.(hashed := [], downloaded := 0, hashing := true, restart := false) else s;
    if s1.restart then s1.(hashed := [], restart := false) else s1
  }

  /** Write through the hashing stream to the target. */
  function Receive(c: Config, s: State, data: seq<byte>): State
    requires s.position <= |s.target|
  {
    s.(hashed := if c.checksum then s.hashed + data else s.hashed,
       target := Overwrite(s.target, s.position, data),
       position := s.position + |data|)
  }

  /** m_recover_request, after `written` bytes of this attempt reached the target. */
  function Recover(c: Config, s: State, written: nat, open: bool): (r: Result)
    ensures r.Retrying? ==> r.s.restart && r.s.md5 == s.md5 && r.s.populated == s.populated && r.s.locked == s.locked
  {
    var s1 := s.(restart := true, downloaded := s.downloaded + written);
    if s1.reset && s1.downloaded > 0 && !c.canSeek then Failed
    else if !open then Failed
    else if s1.reset then
      Retrying(s1.(kept := 0, reset := false, position := if s1.downloaded > 0 then c.targetOffset else s1.position))
    else Retrying(s1.(kept := s1.downloaded))
  }

  function AfterFailure(c: Config, s: State, written: nat, o: Outcome): (r: Result)
    ensures r.Retrying? ==> r.s.restart && r.s.md5 == s.md5 && r.s.populated == s.populated && r.s.locked == s.locked
    ensures !r.Succeeded?
  {
    if o.retry then Recover(c, s, written, o.open) else Failed
  }

  /** Preprocess: remember the headers of the first response and stay at its location. */
  function Populate(s: State, location: Location, header: Option<seq<byte>>): State {
    if s.populated then s else s.(md5 := header, locked := Some(location), populated := true)
  }

  /** How much of the body of a successful response arrives. */
  function Received(o: Outcome, all: seq<byte>): (n: nat)
    requires o.response.Success?
    ensures n <= |all|
  {
    if o.response.received < |all| then o.response.received else |all|
  }

  /** The transfer broke off, or the body turned out shorter than it was said to be. */
  predicate Short(c: Config, o: Outcome, all: seq<byte>)
    requires o.response.Success?
  {
    o.response.interrupted || (c.lengthKnown && o.response.received < |all|)
  }

  /** The state after a successful status and as much of the body as arrived, and whether the operation succeeded:
      the body must not be short and, if its checksum is known, match it. */
  function AfterBody(c: Config, s: State, o: Outcome, all: seq<byte>): (State, bool)
    requires s.position <= |s.target| && o.response.Success?
  {
    var s1 := Receive(c, Populate(s, o.response.location, o.response.header), all[..Received(o, all)]);
    if Short(c, o, all) then (s1, false)
    else
      var s2 := s1.(hashing := false, reset := true, populated := false, locked := None);
      (s2, !(s2.md5.Some? && c.checksum && s2.md5.value != s2.hashed))
  }

  /** The state after an error status and its body. Only a body that was read to its end
      makes the executor hash from the start again. */
  function AfterError(c: Config, s: State, body: seq<byte>, interrupted: bool): State
    requires s.position <= |s.target|
  {
    var s1 := Receive(c, s, body).(reset := true, populated := false, locked := None);
    if interrupted then s1 else s1.(hashing := false)
  }

  /** One turn of the executor's loop. */
  function Attempt(c: Config, s: State, o: Outcome): Result
    requires s.position <= |s.target|
  {
    var request := BuildRequest(c, s.kept);
    if request.Invalid? then Failed else
    var s1 := StartHashing(s);
    match o.response
    case NoResponse => AfterFailure(c, s1, 0, o)
    case ErrorStatus(body, interrupted) =>
      AfterFailure(c, AfterError(c, s1, body, interrupted), |body|, o)
    case Success(location, header, received, interrupted) =>
      var all := Body(c, request);
      var (s2, ok) := AfterBody(c, s1, o, all);
      if ok then Succeeded(s2) else AfterFailure(c, s2, |all[..Received(o, all)]|, o)
  }

  // ---------- what holds when an attempt starts ----------

  /** The target stands right after the first n bytes asked for, with everything before them untouched. */
  ghost predicate Stands(c: Config, s: State, before: seq<byte>, n: nat) {
    && |before| == c.targetOffset && c.Low() + n <= |c.blob|
    && s.position == c.targetOffset + n <= |s.target|
    && s.target[..s.position] == before + c.blob[c.Low()..c.Low() + n]
  }

  /** The counters agree: the target stands right after the kept bytes, and the executor,
      if it is hashing, counts the same ones. */
  ghost predicate Agree(c: Config, s: State, before: seq<byte>) {
    && c.Valid() && c.Low() + s.kept <= c.High() && Stands(c, s, before, s.kept)
    && !s.reset
    && (if s.hashing then s.downloaded == s.kept else s.kept == 0)
    && (s.populated <==> s.locked.Some?)
    && (s.kept > 0 ==> s.populated)
  }

  lemma InitAgrees(c: Config, target: seq<byte>)
    requires c.Valid() && c.targetOffset <= |target|
    ensures Agree(c, Init(c, target), target[..c.targetOffset])
  {}

  /** The request of an attempt asks for what is missing, from where the target stands. */
  lemma RequestContinues(c: Config, kept: nat)
    requires c.Valid() && c.Low() + kept <= c.High()
    ensures var r := BuildRequest(c, kept);
      && (r.Invalid? <==> c.length > 0 && (kept == c.length || (kept == 0 && c.offset.None?)))
      && (r.Request? ==> Body(c, r) == c.blob[c.Low() + kept..c.High()])
  {}

  lemma Extend(t: seq<byte>, r: seq<byte>, position: nat, data: seq<byte>)
    requires position <= |t| && position + |data| <= |r|
    requires r[..position] == t[..position] && r[position..position + |data|] == data
    ensures r[..position + |data|] == t[..position] + data
  {}

  lemma Shrink(t: seq<byte>, r: seq<byte>, position: nat, n: nat)
    requires n <= position <= |t| && position <= |r| && r[..position] == t[..position]
    ensures r[..n] == t[..n]
  {
    assert r[..n] == r[..position][..n] && t[..n] == t[..position][..n];
  }

  /** Receiving the next k bytes moves the target k bytes on. */
  lemma ReceiveStands(c: Config, s: State, before: seq<byte>, n: nat, data: seq<byte>)
    requires Stands(c, s, before, n) && c.Low() + n + |data| <= |c.blob|
    requires data == c.blob[c.Low() + n..c.Low() + n + |data|]
    ensures Stands(c, Receive(c, s, data), before, n + |data|)
  {
    hide Overwrite, Config.Low;
    var r := Receive(c, s, data);
    Extend(s.target, r.target, s.position, data);
    JoinSlices(c.blob, c.Low(), n, data);
    Regroup(before, c.blob[c.Low()..c.Low() + n], data);
  }

  lemma JoinSlices(blob: seq<byte>, low: nat, n: nat, data: seq<byte>)
    requires low + n + |data| <= |blob| && data == blob[low + n..low + n + |data|]
    ensures blob[low..low + n] + data == blob[low..low + n + |data|]
  {}

  lemma Regroup(a: seq<byte>, b: seq<byte>, c: seq<byte>)
    ensures (a + b) + c == a + (b + c)
  {}

  /** Whatever is received, going back to the start position undoes it. */
  lemma SeekBackStands(c: Config, s: State, before: seq<byte>, n: nat, data: seq<byte>)
    requires Stands(c, s, before, n)
    ensures Stands(c, Receive(c, s, data).(position := c.targetOffset), before, 0)
  {
    hide Overwrite;
    var r := Receive(c, s, data);
    Shrink(s.target, r.target, s.position, c.targetOffset);
    assert s.target[..s.position][..c.targetOffset] == s.target[..c.targetOffset];
  }

  /** The guard of the branch that fails: an error response whose body breaks off, with bytes on the target. */
  predicate Spoils(s: State, o: Outcome) {
    o.response.ErrorStatus? && o.response.interrupted && s.kept + |o.response.body| > 0
  }

  lemma NoResponseAgrees(c: Config, s: State, before: seq<byte>, o: Outcome)
    requires Agree(c, s, before) && o.response.NoResponse? && Attempt(c, s, o).Retrying?
    ensures Agree(c, Attempt(c, s, o).s, before)
  {}

  lemma ErrorStatusAgrees(c: Config, s: State, before: seq<byte>, o: Outcome)
    requires Agree(c, s, before) && o.response.ErrorStatus? && Attempt(c, s, o).Retrying?
    ensures Agree(c, Attempt(c, s, o).s, before) <==> !Spoils(s, o)
  {
    hide Overwrite;
    SeekBackStands(c, StartHashing(s), before, s.kept, o.response.body);
  }

  lemma HashingStarted(c: Config, s: State, before: seq<byte>)
    requires Agree(c, s, before)
    ensures s.position <= |s.target|
    ensures var s1 := StartHashing(s);
      && s1.hashing && s1.downloaded == s.kept && !s1.reset && (s1.populated <==> s1.locked.Some?)
      && s1.populated == s.populated && s1.md5 == s.md5
      && c.Valid() && c.Low() + s.kept <= c.High() && Stands(c, s1, before, s.kept)
        && s1.position == c.targetOffset + s.kept
  {}

  /** A body that broke off is kept. */
  lemma KeptAgrees(c: Config, s: State, before: seq<byte>, n: nat, written: nat, o: Outcome)
    requires c.Valid() && c.Low() + n + written <= c.High() && Stands(c, s, before, n + written)
    requires s.hashing && s.downloaded == n && !s.reset && s.populated && s.locked.Some?
    requires AfterFailure(c, s, written, o).Retrying?
    ensures Agree(c, AfterFailure(c, s, written, o).s, before)
  {
    hide Config.Low, Config.High;
  }

  /** A body that was complete but did not match its checksum is dropped. */
  lemma DroppedAgrees(c: Config, s: State, before: seq<byte>, written: nat, o: Outcome)
    requires c.Valid() && Stands(c, s.(position := c.targetOffset), before, 0)
    requires !s.hashing && s.reset && !s.populated && s.locked.None?
    requires s.downloaded + written == 0 ==> s.position == c.targetOffset
    requires AfterFailure(c, s, written, o).Retrying?
    ensures Agree(c, AfterFailure(c, s, written, o).s, before)
  {}

  lemma AfterBodyState(c: Config, s: State, before: seq<byte>, n: nat, o: Outcome, all: seq<byte>)
    requires o.response.Success? && Stands(c, s, before, n) && (s.populated <==> s.locked.Some?)
    requires c.Valid() && c.Low() + n <= c.High() && all == c.blob[c.Low() + n..c.High()]
    ensures var s2 := AfterBody(c, s, o, all).0;
      && s2.downloaded == s.downloaded
      && c.Low() + n + Received(o, all) <= c.High() && Stands(c, s2, before, n + Received(o, all))
      && if Short(c, o, all) then
           && s2.hashing == s.hashing && s2.reset == s.reset && s2.populated && s2.locked.Some?
         else
           && !s2.hashing && s2.reset && !s2.populated && s2.locked.None?
           && Stands(c, s2.(position := c.targetOffset), before, 0) && s2.position == s.position + Received(o, all)
  {
    hide Overwrite, Config.Low, Config.High;
    var populated := Populate(s, o.response.location, o.response.header);
    ReceivePart(c, populated, before, n, all, all[..Received(o, all)]);
    SeekBackStands(c, populated, before, n, all[..Received(o, all)]);
  }

  lemma AttemptBody(c: Config, s: State, o: Outcome)
    requires s.position <= |s.target| && o.response.Success? && Attempt(c, s, o).Retrying?
    ensures BuildRequest(c, s.kept).Request?
    ensures var all := Body(c, BuildRequest(c, s.kept));
      Attempt(c, s, o) == AfterFailure(c, AfterBody(c, StartHashing(s), o, all).0, Received(o, all), o)
  {
    hide AfterBody, AfterFailure, StartHashing, Body, BuildRequest;
  }

  lemma BodyAgrees(c: Config, s: State, before: seq<byte>, o: Outcome)
    requires Agree(c, s, before) && o.response.Success? && Attempt(c, s, o).Retrying?
    ensures Agree(c, Attempt(c, s, o).s, before)
  {
    hide Body, BuildRequest, Config.Low, Config.High, AfterFailure, StartHashing, Stands, Agree, Attempt, AfterBody,
         Config.Valid, Received;
    HashingStarted(c, s, before);
    AttemptBody(c, s, o);
    RequestContinues(c, s.kept);
    var all := Body(c, BuildRequest(c, s.kept));
    var s1 := StartHashing(s);
    AfterBodyState(c, s1, before, s.kept, o, all);
    var s2 := AfterBody(c, s1, o, all).0;
    if Short(c, o, all) {
      KeptAgrees(c, s2, before, s.kept, Received(o, all), o);
    } else {
      DroppedAgrees(c, s2, before, Received(o, all), o);
    }
  }

  lemma ReceivePart(c: Config, s: State, before: seq<byte>, n: nat, all: seq<byte>, part: seq<byte>)
    requires c.Valid() && c.Low() + n <= c.High() && Stands(c, s, before, n)
    requires all == c.blob[c.Low() + n..c.High()] && part <= all
    ensures c.Low() + n + |part| <= c.High() && Stands(c, Receive(c, s, part), before, n + |part|)
  {
    hide Overwrite;
    assert part == c.blob[c.Low() + n..c.Low() + n + |part|];
    ReceiveStands(c, s, before, n, part);
  }

  /** After a failed attempt that is retried the counters agree again exactly when the attempt did not spoil them. */
  lemma RetryAgrees(c: Config, s: State, before: seq<byte>, o: Outcome)
    requires Agree(c, s, before) && Attempt(c, s, o).Retrying?
    ensures Agree(c, Attempt(c, s, o).s, before) <==> !Spoils(s, o)
  {
    hide Agree, Attempt;
    match o.response
    case NoResponse => NoResponseAgrees(c, s, before, o);
    case ErrorStatus(_, _) => ErrorStatusAgrees(c, s, before, o);
    case Success(_, _, _, _) => BodyAgrees(c, s, before, o);
  }

  /** The target holds exactly the bytes asked for, and before them what it held before. */
  predicate Exact(c: Config, s: State, before: seq<byte>)
    requires c.Valid()
  {
    s.position == c.targetOffset + |c.Wanted()| <= |s.target| && s.target[..s.position] == before + c.Wanted()
  }

  /** A body that ended early and was not said to be longer. */
  predicate Truncated(c: Config, s: State, o: Outcome) {
    var request := BuildRequest(c, s.kept);
    o.response.Success? && request.Request? && !c.lengthKnown && o.response.received < |Body(c, request)|
  }

  /** A successful attempt leaves exactly the bytes asked for in the window of the target, and all before it untouched,
      if and only if its body did not end early unnoticed. */
  lemma SuccessIsExact(c: Config, s: State, before: seq<byte>, o: Outcome)
    requires Agree(c, s, before) && Attempt(c, s, o).Succeeded?
    ensures Exact(c, Attempt(c, s, o).s, before) <==> !Truncated(c, s, o)
  {
    hide Agree, Attempt, StartHashing, Body, BuildRequest, AfterBody, Stands, Exact, Config.Low;
    HashingStarted(c, s, before);
    RequestContinues(c, s.kept);
    AttemptSucceeds(c, s, o);
    var all := Body(c, BuildRequest(c, s.kept));
    AfterBodyState(c, StartHashing(s), before, s.kept, o, all);
    StandsAtEnd(c, Attempt(c, s, o).s, before, s.kept + Received(o, all));
  }

  lemma AttemptSucceeds(c: Config, s: State, o: Outcome)
    requires s.position <= |s.target| && Attempt(c, s, o).Succeeded?
    ensures o.response.Success? && BuildRequest(c, s.kept).Request?
    ensures var all := Body(c, BuildRequest(c, s.kept));
      !Short(c, o, all) && Attempt(c, s, o).s == AfterBody(c, StartHashing(s), o, all).0
  {
    hide AfterFailure, StartHashing, Body, BuildRequest, Receive, Populate;
  }

  lemma StandsAtEnd(c: Config, s: State, before: seq<byte>, n: nat)
    requires c.Valid() && Stands(c, s, before, n) && c.Low() + n <= c.High()
    ensures Exact(c, s, before) <==> c.Low() + n == c.High()
  {}

  // ---------- whole runs ----------

  /** The executor's loop over what happens to its requests; with none left it is still retrying. */
  function Execute(c: Config, s: State, outcomes: seq<Outcome>): Result
    requires s.position <= |s.target|
    decreases |outcomes|
  {
    if outcomes == [] then Retrying(s)
    else
      var r := Attempt(c, s, outcomes[0]);
      if r.Retrying? && r.s.position <= |r.s.target| then Execute(c, r.s, outcomes[1..]) else r
  }

  /** Every attempt of the run starts with counters that agree. */
  ghost predicate AlwaysAgree(c: Config, s: State, before: seq<byte>, outcomes: seq<Outcome>)
    decreases |outcomes|
  {
    && Agree(c, s, before)
    && (outcomes != [] && Attempt(c, s, outcomes[0]).Retrying? ==>
          AlwaysAgree(c, Attempt(c, s, outcomes[0]).s, before, outcomes[1..]))
  }

  /** No attempt that is retried takes the branch that spoils the counters. */
  ghost predicate NeverSpoils(c: Config, s: State, outcomes: seq<Outcome>)
    requires s.position <= |s.target|
    decreases |outcomes|
  {
    outcomes != [] && Attempt(c, s, outcomes[0]).Retrying? ==>
      var s' := Attempt(c, s, outcomes[0]).s;
      !Spoils(s, outcomes[0]) && (s'.position <= |s'.target| ==> NeverSpoils(c, s', outcomes[1..]))
  }

  /** Exactly when resuming is sound: the counters agree at the start of every attempt of a run
      if and only if no error response with a broken body is retried while bytes are on the target. */
  lemma {:induction false} AgreeIff(c: Config, s: State, before: seq<byte>, outcomes: seq<Outcome>)
    requires Agree(c, s, before)
    ensures AlwaysAgree(c, s, before, outcomes) <==> NeverSpoils(c, s, outcomes)
    decreases |outcomes|
  {
    hide Attempt, Spoils;
    assert s.position <= |s.target|;
    if outcomes != [] && Attempt(c, s, outcomes[0]).Retrying? {
      RetryAgrees(c, s, before, outcomes[0]);
      if !Spoils(s, outcomes[0]) {
        AgreeIff(c, Attempt(c, s, outcomes[0]).s, before, outcomes[1..]);
      }
    }
  }

  /** A run that never spoils the counters and succeeds has put exactly the bytes asked for into the target,
      after any number of failures, error bodies and restarts, where lengths of bodies are known. */
  lemma {:induction false} ExecuteIsExact(c: Config, s: State, before: seq<byte>, outcomes: seq<Outcome>)
    requires Agree(c, s, before) && NeverSpoils(c, s, outcomes) && Execute(c, s, outcomes).Succeeded?
    requires c.lengthKnown
    ensures Exact(c, Execute(c, s, outcomes).s, before)
    decreases |outcomes|
  {
    hide Attempt, Spoils, Exact;
    assert s.position <= |s.target|;
    if Attempt(c, s, outcomes[0]).Retrying? {
      RetryAgrees(c, s, before, outcomes[0]);
      ExecuteIsExact(c, Attempt(c, s, outcomes[0]).s, before, outcomes[1..]);
    } else {
      SuccessIsExact(c, s, before, outcomes[0]);
    }
  }

  /** The same for a new download: nothing but the way attempts end is assumed. */
  lemma DownloadIsExact(c: Config, target: seq<byte>, outcomes: seq<Outcome>)
    requires c.Valid() && c.targetOffset <= |target| && c.lengthKnown
    requires NeverSpoils(c, Init(c, target), outcomes) && Execute(c, Init(c, target), outcomes).Succeeded?
    ensures Exact(c, Execute(c, Init(c, target), outcomes).s, target[..c.targetOffset])
  {
    InitAgrees(c, target);
    ExecuteIsExact(c, Init(c, target), target[..c.targetOffset], outcomes);
  }

  /** And for a new download the counters agree all along exactly if it never spoils them. */
  lemma DownloadAgreesIff(c: Config, target: seq<byte>, outcomes: seq<Outcome>)
    requires c.Valid() && c.targetOffset <= |target|
    ensures AlwaysAgree(c, Init(c, target), target[..c.targetOffset], outcomes)
      <==> NeverSpoils(c, Init(c, target), outcomes)
  {
    InitAgrees(c, target);
    AgreeIff(c, Init(c, target), target[..c.targetOffset], outcomes);
  }

  const EXAMPLE := Config([1, 2, 3], None, 0, 0, true, true, true)
  const SPOILED := State(true, true, 1, [9], 0, false, None, false, None, [9], 0)
  const ASTRAY := State(true, true, 2, [1], 2, true, None, false, Some(Primary), [1], 1)

  lemma SpoilingAttempt()
    ensures Attempt(EXAMPLE, Init(EXAMPLE, []), Outcome(ErrorStatus([9], true), true, true)) == Retrying(SPOILED)
  {
    assert [] + [9] == [9] && Overwrite([], 0, [9]) == [9];
  }

  lemma StrayingAttempt()
    ensures Attempt(EXAMPLE, SPOILED, Outcome(Success(Primary, None, 1, true), true, true)) == Retrying(ASTRAY)
  {
    var all: seq<byte> := [1, 2, 3];
    assert Body(EXAMPLE, BuildRequest(EXAMPLE, 0)) == all && all[..1] == [1];
    assert [] + all[..1] == all[..1] && Overwrite([9], 0, all[..1]) == [1];
  }

  lemma WrongSuccess()
    ensures Attempt(EXAMPLE, ASTRAY, Outcome(Success(Primary, None, 3, false), true, true))
         == Succeeded(State(false, false, 2, [3], 2, false, None, true, None, [1, 3], 2))
  {
    var all: seq<byte> := [3];
    assert Body(EXAMPLE, BuildRequest(EXAMPLE, 2)) == all && all[..1] == all;
    assert [] + all == all && Overwrite([1], 1, all) == [1, 3];
  }

  /** And this is what the spoiling branch can do: an error body of one byte breaks off, the retry brings one byte and
      breaks off, and the next retry skips a byte of the blob and reports success. */
  lemma SpoiledRunReportsSuccess()
    ensures var outcomes := [
        Outcome(ErrorStatus([9], true), true, true),
        Outcome(Success(Primary, None, 1, true), true, true),
        Outcome(Success(Primary, None, 3, false), true, true)];
      var r := Execute(EXAMPLE, Init(EXAMPLE, []), outcomes);
      r.Succeeded? && r.s.target == [1, 3] && EXAMPLE.Wanted() == [1, 2, 3]
  {
    hide Attempt;
    var o0 := Outcome(ErrorStatus([9], true), true, true);
    var o1 := Outcome(Success(Primary, None, 1, true), true, true);
    var o2 := Outcome(Success(Primary, None, 3, false), true, true);
    SpoilingAttempt();
    StrayingAttempt();
    WrongSuccess();
    assert [o0, o1, o2][1..] == [o1, o2] && [o1, o2][1..] == [o2];
    assert Execute(EXAMPLE, ASTRAY, [o2]) == Attempt(EXAMPLE, ASTRAY, o2);
    assert Execute(EXAMPLE, SPOILED, [o1, o2]) == Execute(EXAMPLE, ASTRAY, [o2]);
  }

  // ---------- what is left behind the window ----------

  /** An error response whose body reaches past the window of the bytes asked for. */
  predicate Overlong(c: Config, s: State, o: Outcome)
    requires c.Valid()
  {
    o.response.ErrorStatus? && |c.Wanted()| < s.kept + |o.response.body|
  }

  /** No attempt that is retried was answered with such an error. */
  ghost predicate NeverOverlong(c: Config, s: State, outcomes: seq<Outcome>)
    requires c.Valid() && s.position <= |s.target|
    decreases |outcomes|
  {
    outcomes != [] && Attempt(c, s, outcomes[0]).Retrying? ==>
      var s' := Attempt(c, s, outcomes[0]).s;
      !Overlong(c, s, outcomes[0]) && (s'.position <= |s'.target| ==> NeverOverlong(c, s', outcomes[1..]))
  }

  /** The end of the window in the target. */
  function WindowEnd(c: Config): nat
    requires c.Valid()
  {
    c.targetOffset + |c.Wanted()|
  }

  lemma FailureKeepsTarget(c: Config, s: State, written: nat, o: Outcome)
    requires AfterFailure(c, s, written, o).Retrying?
    ensures AfterFailure(c, s, written, o).s.target == s.target
  {}

  /** A target is never cut, and of the attempts that are retried only an overlong error extends it past the window. */
  lemma RetryExtends(c: Config, s: State, before: seq<byte>, o: Outcome)
    requires Agree(c, s, before) && Attempt(c, s, o).Retrying?
    ensures |Attempt(c, s, o).s.target| <= WindowEnd(c) <==> |s.target| <= WindowEnd(c) && !Overlong(c, s, o)
  {
    hide Overwrite, Body, BuildRequest, Stands, AfterFailure, AfterBody, StartHashing;
    HashingStarted(c, s, before);
    StartKeepsTarget(s);
    var s1 := StartHashing(s);
    match o.response
    case NoResponse => FailureKeepsTarget(c, s1, 0, o);
    case ErrorStatus(body, interrupted) =>
      FailureKeepsTarget(c, AfterError(c, s1, body, interrupted), |body|, o);
    case Success(_, _, _, _) => BodyExtends(c, s, before, o);
  }

  lemma StartKeepsTarget(s: State)
    ensures StartHashing(s).target == s.target
  {}

  lemma BodyExtends(c: Config, s: State, before: seq<byte>, o: Outcome)
    requires Agree(c, s, before) && Attempt(c, s, o).Retrying? && o.response.Success?
    ensures |Attempt(c, s, o).s.target| <= WindowEnd(c) <==> |s.target| <= WindowEnd(c)
  {
    hide Overwrite, Body, BuildRequest, Stands, AfterFailure, Attempt, StartHashing;
    HashingStarted(c, s, before);
    StartKeepsTarget(s);
    AttemptBody(c, s, o);
    RequestContinues(c, s.kept);
    var s1, all := StartHashing(s), Body(c, BuildRequest(c, s.kept));
    FailureKeepsTarget(c, AfterBody(c, s1, o, all).0, Received(o, all), o);
    hide Agree;
  }

  lemma SuccessExtends(c: Config, s: State, before: seq<byte>, o: Outcome)
    requires Agree(c, s, before) && Attempt(c, s, o).Succeeded?
    ensures |Attempt(c, s, o).s.target| <= WindowEnd(c) <==> |s.target| <= WindowEnd(c)
  {
    hide Overwrite, Body, BuildRequest, Stands;
    HashingStarted(c, s, before);
    AttemptSucceeds(c, s, o);
    RequestContinues(c, s.kept);
    hide Agree;
  }

  /** A run that succeeds without spoiling the counters leaves the bytes asked for and nothing behind them, exactly if
      there was nothing behind them before and no error that was retried reached past the window. */
  lemma {:induction false} NothingBehindIff(c: Config, s: State, before: seq<byte>, outcomes: seq<Outcome>)
    requires Agree(c, s, before) && NeverSpoils(c, s, outcomes) && Execute(c, s, outcomes).Succeeded?
    requires c.lengthKnown
    ensures Execute(c, s, outcomes).s.target == before + c.Wanted()
      <==> |s.target| <= WindowEnd(c) && NeverOverlong(c, s, outcomes)
    decreases |outcomes|
  {
    hide Attempt, Spoils, Overlong, Config.Wanted;
    assert s.position <= |s.target| && |before| == c.targetOffset;
    var o := outcomes[0];
    if Attempt(c, s, o).Retrying? {
      RetryAgrees(c, s, before, o);
      RetryExtends(c, s, before, o);
      NothingBehindIff(c, Attempt(c, s, o).s, before, outcomes[1..]);
    } else {
      SuccessIsExact(c, s, before, o);
      SuccessExtends(c, s, before, o);
      hide Agree;
      var t := Attempt(c, s, o).s.target;
      assert t == before + c.Wanted() <==> |t| <= WindowEnd(c) by { WholeIff(c, Attempt(c, s, o).s, before); }
    }
  }

  lemma WholeIff(c: Config, s: State, before: seq<byte>)
    requires c.Valid() && |before| == c.targetOffset && Exact(c, s, before)
    ensures s.target == before + c.Wanted() <==> |s.target| <= WindowEnd(c)
  {
    hide Config.Wanted;
    assert |s.target| == s.position ==> s.target[..s.position] == s.target;
  }

  /** A download into a new buffer, as a parallel download gives each of its chunks, fills it with exactly the bytes
      asked for if and only if no error that was retried was longer than what was missing and kept. */
  lemma BufferIsExactIff(c: Config, outcomes: seq<Outcome>)
    requires c.Valid() && c.targetOffset == 0 && c.lengthKnown
    requires NeverSpoils(c, Init(c, []), outcomes) && Execute(c, Init(c, []), outcomes).Succeeded?
    ensures Execute(c, Init(c, []), outcomes).s.target == c.Wanted() <==> NeverOverlong(c, Init(c, []), outcomes)
  {
    hide NeverSpoils, Execute, NeverOverlong;
    InitAgrees(c, []);
    NothingBehindIff(c, Init(c, []), [], outcomes);
    assert [] + c.Wanted() == c.Wanted();
  }

  const SOUGHT_BACK := State(false, true, 4, [9, 9, 9, 9], 0, false, None, false, None, [9, 9, 9, 9], 0)

  lemma OverlongAttempt()
    ensures Attempt(EXAMPLE, Init(EXAMPLE, []), Outcome(ErrorStatus([9, 9, 9, 9], false), true, true))
         == Retrying(SOUGHT_BACK)
  {
    var body: seq<byte> := [9, 9, 9, 9];
    assert [] + body == body && Overwrite([], 0, body) == body;
  }

  lemma WholeAttempt()
    ensures Attempt(EXAMPLE, SOUGHT_BACK, Outcome(Success(Primary, None, 3, false), true, true))
         == Succeeded(State(false, false, 0, [1, 2, 3], 0, false, None, true, None, [1, 2, 3, 9], 3))
  {
    var all: seq<byte> := [1, 2, 3];
    assert Body(EXAMPLE, BuildRequest(EXAMPLE, 0)) == all && all[..3] == all;
    assert [] + all == all && Overwrite([9, 9, 9, 9], 0, all) == [1, 2, 3, 9];
  }

  /** A concrete such run: after an error of four bytes, read to its end, three bytes are downloaded without a fault,
      and the last byte of the error stays behind them. */
  lemma ErrorLeavesTail()
    ensures var outcomes := [
        Outcome(ErrorStatus([9, 9, 9, 9], false), true, true),
        Outcome(Success(Primary, None, 3, false), true, true)];
      var r := Execute(EXAMPLE, Init(EXAMPLE, []), outcomes);
      r.Succeeded? && r.s.target == [1, 2, 3, 9] && EXAMPLE.Wanted() == [1, 2, 3]
  {
    hide Attempt;
    var o0 := Outcome(ErrorStatus([9, 9, 9, 9], false), true, true);
    var o1 := Outcome(Success(Primary, None, 3, false), true, true);
    OverlongAttempt();
    WholeAttempt();
    assert [o0, o1][1..] == [o1];
    assert Execute(EXAMPLE, SOUGHT_BACK, [o1]) == Attempt(EXAMPLE, SOUGHT_BACK, o1);
  }

  // ---------- checksums and the location lock ----------

  /** A request can be met if it starts within the blob and its last position, computed in 64 bits, is not before its
      first. */
  predicate Satisfiable(c: Config, r: Request)
    requires r.Request?
  {
    r.offset.None?
    || (r.offset.value < |c.blob| && (r.length == 0 || r.offset.value + r.length <= TWO_TO_THE_64))
  }

  /** The server answers a request that cannot be met with an error status, and its responses carry the checksum of the
      body they were asked for, or none; a resumed one that of the rest. */
  ghost predicate TrueAnswer(c: Config, s: State, o: Outcome) {
    var request := BuildRequest(c, s.kept);
    o.response.Success? && request.Request? ==>
      && Satisfiable(c, request)
      && (o.response.header.Some? ==> o.response.header.value == Body(c, request))
  }

  /** The saved checksum, if there is one, is that of the whole range. */
  ghost predicate SavedHeaderFits(c: Config, s: State)
    requires c.Valid()
  {
    s.populated && s.md5.Some? ==> s.md5.value == c.Wanted()
  }

  /** Headers of later responses are not saved, so the saved checksum stays that of the whole range although
      each resumed response brings another one. */
  lemma SavedHeaderStays(c: Config, s: State, before: seq<byte>, o: Outcome)
    requires Agree(c, s, before) && SavedHeaderFits(c, s) && TrueAnswer(c, s, o) && Attempt(c, s, o).Retrying?
    ensures SavedHeaderFits(c, Attempt(c, s, o).s)
  {
    hide Body, BuildRequest, AfterFailure, Overwrite, Stands, StartHashing;
    RequestContinues(c, s.kept);
    HashingStarted(c, s, before);
    assert s.kept > 0 ==> s.populated;
    hide Agree, Config.Valid, Config.Low, Config.High;
  }

  /** What an attempt hashes: only its own bytes, since every retry starts a new hash. */
  lemma HashOfAttempt(c: Config, s: State, o: Outcome)
    requires s.position <= |s.target| && (s.hashing ==> s.restart) && c.checksum && Attempt(c, s, o).Succeeded?
    ensures BuildRequest(c, s.kept).Request? && o.response.Success?
    ensures var all := Body(c, BuildRequest(c, s.kept)); Attempt(c, s, o).s.hashed == all[..Received(o, all)]
  {
    hide Overwrite, Body, BuildRequest;
    var all := Body(c, BuildRequest(c, s.kept));
    assert [] + all[..Received(o, all)] == all[..Received(o, all)];
  }

  /** A retried executor is always told to hash anew. */
  lemma RetryRestartsHash(c: Config, s: State, o: Outcome)
    requires s.position <= |s.target| && Attempt(c, s, o).Retrying?
    ensures Attempt(c, s, o).s.restart
  {
    hide AfterBody, AfterError, AfterFailure, StartHashing, Body, BuildRequest;
  }

  /** A success that was checked against a saved checksum was not resumed, and it is exact even where the lengths of
      bodies are not known. */
  lemma CheckedSuccessIsWhole(c: Config, s: State, before: seq<byte>, o: Outcome)
    requires Agree(c, s, before) && SavedHeaderFits(c, s) && TrueAnswer(c, s, o)
    requires (s.hashing ==> s.restart) && c.checksum
    requires Attempt(c, s, o).Succeeded? && Attempt(c, s, o).s.md5.Some?
    ensures s.kept == 0 && Exact(c, Attempt(c, s, o).s, before)
  {
    HashOfAttempt(c, s, o);
    CheckedHeader(c, s, o);
    RequestContinues(c, s.kept);
    SuccessIsExact(c, s, before, o);
    hide Attempt, Body, BuildRequest, Exact;
  }

  /** The checksum a success was checked against is the saved one, or that of its own header if none was saved. */
  lemma CheckedHeader(c: Config, s: State, o: Outcome)
    requires s.position <= |s.target| && c.checksum && Attempt(c, s, o).Succeeded? && Attempt(c, s, o).s.md5.Some?
    ensures var r := Attempt(c, s, o).s;
      && r.md5.value == r.hashed && o.response.Success?
      && r.md5 == if s.populated then s.md5 else o.response.header
  {
    hide Overwrite, Body, BuildRequest, AfterFailure, AfterError;
  }

  /** While bytes are kept the command stays locked to the location they came from. */
  lemma LockStays(c: Config, s: State, before: seq<byte>, o: Outcome)
    requires Agree(c, s, before) && Attempt(c, s, o).Retrying?
    ensures var s' := Attempt(c, s, o).s;
      && (s.kept > 0 ==> s.locked.Some?)
      && (s.kept > 0 && s'.kept > 0 ==> s'.locked == s.locked)
      && (s.kept == 0 && s'.kept > 0 && !s.populated ==> o.response.Success? && s'.locked == Some(o.response.location))
  {
    hide Overwrite, Body, BuildRequest;
  }

  // ---------- checked runs ----------

  /** Every answer of the run is true. */
  ghost predicate TrueAnswers(c: Config, s: State, outcomes: seq<Outcome>)
    requires s.position <= |s.target|
    decreases |outcomes|
  {
    outcomes != [] ==>
      && TrueAnswer(c, s, outcomes[0])
      && var r := Attempt(c, s, outcomes[0]);
         r.Retrying? && r.s.position <= |r.s.target| ==> TrueAnswers(c, r.s, outcomes[1..])
  }

  /** The state in which the last attempt of the run starts. */
  function LastStart(c: Config, s: State, outcomes: seq<Outcome>): State
    requires s.position <= |s.target|
    decreases |outcomes|
  {
    if outcomes == [] then s
    else
      var r := Attempt(c, s, outcomes[0]);
      if r.Retrying? && r.s.position <= |r.s.target| then LastStart(c, r.s, outcomes[1..]) else s
  }

  /** The run succeeded and its last body was compared with a checksum. */
  predicate Checked(c: Config, s: State, outcomes: seq<Outcome>)
    requires s.position <= |s.target|
  {
    var r := Execute(c, s, outcomes);
    c.checksum && r.Succeeded? && r.s.md5.Some?
  }

  lemma {:induction false} CheckedRunIsWhole(c: Config, s: State, before: seq<byte>, outcomes: seq<Outcome>)
    requires Agree(c, s, before) && SavedHeaderFits(c, s) && (s.hashing ==> s.restart)
    requires NeverSpoils(c, s, outcomes) && TrueAnswers(c, s, outcomes) && Checked(c, s, outcomes)
    ensures LastStart(c, s, outcomes).kept == 0 && Exact(c, Execute(c, s, outcomes).s, before)
    decreases |outcomes|
  {
    hide Attempt, Spoils, Exact, TrueAnswer, SavedHeaderFits;
    assert s.position <= |s.target|;
    var o := outcomes[0];
    if Attempt(c, s, o).Retrying? {
      RetryAgrees(c, s, before, o);
      SavedHeaderStays(c, s, before, o);
      RetryRestartsHash(c, s, o);
      CheckedRunIsWhole(c, Attempt(c, s, o).s, before, outcomes[1..]);
    } else {
      CheckedSuccessIsWhole(c, s, before, o);
    }
  }

  /** A new download that never spoils its counters and whose success was checked got the whole range in its last
      attempt: a resumed success is never a checked one. */
  lemma CheckedDownloadIsWhole(c: Config, target: seq<byte>, outcomes: seq<Outcome>)
    requires c.Valid() && c.targetOffset <= |target|
    requires NeverSpoils(c, Init(c, target), outcomes) && TrueAnswers(c, Init(c, target), outcomes)
    requires Checked(c, Init(c, target), outcomes)
    ensures LastStart(c, Init(c, target), outcomes).kept == 0
    ensures Exact(c, Execute(c, Init(c, target), outcomes).s, target[..c.targetOffset])
  {
    InitAgrees(c, target);
    CheckedRunIsWhole(c, Init(c, target), target[..c.targetOffset], outcomes);
  }

  // ---------- which downloads can go wrong ----------

  /** Every checked success of the download, over all its runs, downloaded the whole range in one attempt. */
  ghost predicate ChecksAreWhole(c: Config, target: seq<byte>)
    requires c.targetOffset <= |target|
  {
    forall outcomes ::
      TrueAnswers(c, Init(c, target), outcomes) && Checked(c, Init(c, target), outcomes)
      ==> LastStart(c, Init(c, target), outcomes).kept == 0
  }

  /** Every success of the download, over all its runs, is exact. */
  ghost predicate SuccessesAreExact(c: Config, target: seq<byte>)
    requires c.Valid() && c.targetOffset <= |target|
  {
    forall outcomes ::
      TrueAnswers(c, Init(c, target), outcomes) && Execute(c, Init(c, target), outcomes).Succeeded?
      ==> Exact(c, Execute(c, Init(c, target), outcomes).s, target[..c.targetOffset])
  }

  /** On a target that cannot seek, an attempt that would spoil the counters is not retried. */
  lemma {:induction false} CannotSpoil(c: Config, s: State, before: seq<byte>, outcomes: seq<Outcome>)
    requires Agree(c, s, before) && !c.canSeek
    ensures NeverSpoils(c, s, outcomes)
    decreases |outcomes|
  {
    hide Agree, Attempt;
    assert s.position <= |s.target| by { HashingStarted(c, s, before); }
    if outcomes != [] && Attempt(c, s, outcomes[0]).Retrying? {
      SpoilingIsNotRetried(c, s, before, outcomes[0]);
      RetryAgrees(c, s, before, outcomes[0]);
      CannotSpoil(c, Attempt(c, s, outcomes[0]).s, before, outcomes[1..]);
    }
  }

  lemma SpoilingIsNotRetried(c: Config, s: State, before: seq<byte>, o: Outcome)
    requires Agree(c, s, before) && !c.canSeek && Attempt(c, s, o).Retrying?
    ensures !Spoils(s, o)
  {
    HashingStarted(c, s, before);
    hide Overwrite, Body, BuildRequest, StartHashing, Stands;
  }

  /** Where an executor stands that counts b bytes which are not on the target. */
  predicate Astray(c: Config, s: State, kept: nat, b: nat) {
    && s.hashing && s.restart && s.downloaded == b && s.kept == kept && !s.populated && !s.reset
    && s.position == c.targetOffset <= |s.target|
  }

  /** The broken error body, which has to be sought back, is counted all the same. */
  lemma BrokenError(c: Config, target: seq<byte>, body: seq<byte>)
    requires c.canSeek && c.targetOffset <= |target| && body != [] && BuildRequest(c, 0).Request?
    ensures var r := Attempt(c, Init(c, target), Outcome(ErrorStatus(body, true), true, true));
      r.Retrying? && Astray(c, r.s, 0, |body|)
  {
    hide Overwrite, Body;
  }

  /** After a request without a response the counted bytes are taken to be on the target. */
  lemma Resumes(c: Config, s: State, b: nat)
    requires Astray(c, s, 0, b) && BuildRequest(c, 0).Request?
    ensures var r := Attempt(c, s, Outcome(NoResponse, true, true)); r.Retrying? && Astray(c, r.s, b, b)
  {
    hide Overwrite, Body;
  }

  /** The rest is then downloaded, matches its own checksum, and passes for the whole. */
  lemma PassesForWhole(c: Config, s: State, b: nat, o: Outcome)
    requires Astray(c, s, b, b) && BuildRequest(c, b).Request?
    requires var all := Body(c, BuildRequest(c, b)); o.response == Success(Primary, Some(all), |all|, false)
    ensures var r := Attempt(c, s, o);
      r.Succeeded? && r.s.md5.Some? && r.s.position == c.targetOffset + |Body(c, BuildRequest(c, b))|
  {
    hide Overwrite, Body, BuildRequest;
    var all := Body(c, BuildRequest(c, b));
    assert all[..Received(o, all)] == all && [] + all == all;
  }

  /** The request for the whole range is one that a server can meet, as far as its numbers go. */
  predicate Askable(c: Config) { c.length == 0 || (c.offset.Some? && c.offset.value + c.length <= TWO_TO_THE_64) }

  /** A request that resumes one byte too far. */
  lemma ByteMissed(c: Config)
    requires c.Valid() && |c.Wanted()| >= 2 && Askable(c)
    ensures BuildRequest(c, 0).Request? && BuildRequest(c, 1).Request? && Satisfiable(c, BuildRequest(c, 1))
    ensures |Body(c, BuildRequest(c, 1))| < |c.Wanted()|
  {}

  /** The run that goes wrong, for every range of two bytes or more and a target that can seek: an error body breaks
      off, the next request gets no response, and the one after it resumes behind a byte that never came. Its success
      is checked, against the checksum of the rest, and the byte is missing. */
  lemma WrongRun(c: Config, target: seq<byte>) returns (outcomes: seq<Outcome>)
    requires c.Valid() && c.targetOffset <= |target| && c.canSeek && |c.Wanted()| >= 2 && Askable(c)
    ensures var s := Init(c, target);
      && TrueAnswers(c, s, outcomes) && Execute(c, s, outcomes).Succeeded? && LastStart(c, s, outcomes).kept > 0
      && Execute(c, s, outcomes).s.md5.Some?
      && !Exact(c, Execute(c, s, outcomes).s, target[..c.targetOffset])
  {
    hide Attempt, Body, BuildRequest, Config.Wanted;
    var b := 1;
    var body: seq<byte> := [9];
    ByteMissed(c);
    var all := Body(c, BuildRequest(c, b));
    var o0 := Outcome(ErrorStatus(body, true), true, true);
    var o1 := Outcome(NoResponse, true, true);
    var o2 := Outcome(Success(Primary, Some(all), |all|, false), true, true);
    outcomes := [o0, o1, o2];
    var s0 := Init(c, target);
    BrokenError(c, target, body);
    var s1 := Attempt(c, s0, o0).s;
    Resumes(c, s1, b);
    var s2 := Attempt(c, s1, o1).s;
    PassesForWhole(c, s2, b, o2);
    assert outcomes[1..] == [o1, o2] && [o1, o2][1..] == [o2];
    assert TrueAnswers(c, s2, [o2]) && Execute(c, s2, [o2]) == Attempt(c, s2, o2) && LastStart(c, s2, [o2]) == s2;
    assert TrueAnswers(c, s1, [o1, o2]) && LastStart(c, s1, [o1, o2]) == s2;
    assert Execute(c, s1, [o1, o2]) == Execute(c, s2, [o2]);
    assert TrueAnswers(c, s0, outcomes) && LastStart(c, s0, outcomes) == s2;
    assert Execute(c, s0, outcomes) == Execute(c, s1, [o1, o2]);
  }

  /** What every attempt finds, spoiled or not: the bytes before the start position untouched, and the target at its
      start position unless bytes are counted. */
  predicate Tidy(c: Config, s: State, before: seq<byte>) {
    && !s.reset && c.targetOffset <= s.position <= |s.target| && s.target[..c.targetOffset] == before
    && (!s.hashing || s.downloaded == 0 || s.kept == 0 ==> s.position == c.targetOffset)
  }

  lemma ReceiveTidy(c: Config, s: State, before: seq<byte>, data: seq<byte>)
    requires c.targetOffset <= s.position <= |s.target| && s.target[..c.targetOffset] == before
    ensures var r := Receive(c, s, data);
      c.targetOffset <= r.position <= |r.target| && r.target[..c.targetOffset] == before
  {
    hide Overwrite;
    var r := Receive(c, s, data);
    Shrink(s.target, r.target, s.position, c.targetOffset);
  }

  /** A failed attempt is followed by a seek back, if anything was counted, or keeps what was counted. */
  lemma RecoverTidy(c: Config, s: State, before: seq<byte>, written: nat, o: Outcome)
    requires c.targetOffset <= s.position <= |s.target| && s.target[..c.targetOffset] == before
    requires s.downloaded + written == 0 ==> s.position == c.targetOffset
    requires s.reset || s.hashing
    ensures var r := AfterFailure(c, s, written, o); r.Retrying? ==> Tidy(c, r.s, before)
  {}

  lemma StartTidy(c: Config, s: State, before: seq<byte>)
    requires Tidy(c, s, before)
    ensures var s1 := StartHashing(s);
      && s1.target == s.target && s1.position == s.position && s1.kept == s.kept && s1.hashing && !s1.reset
      && (s1.downloaded == 0 ==> s1.position == c.targetOffset)
  {}

  lemma ErrorTidy(c: Config, s: State, before: seq<byte>, o: Outcome)
    requires Tidy(c, s, before) && o.response.ErrorStatus?
    ensures var r := Attempt(c, s, o); r.Retrying? ==> Tidy(c, r.s, before)
  {
    hide Overwrite, AfterFailure, StartHashing, BuildRequest, Tidy;
    StartTidy(c, s, before);
    TidyTarget(c, s, before);
    var s1, body := StartHashing(s), o.response.body;
    ReceiveTidy(c, s1, before, body);
    RecoverTidy(c, AfterError(c, s1, body, o.response.interrupted), before, |body|, o);
  }

  lemma BodyTidy(c: Config, s: State, before: seq<byte>, o: Outcome)
    requires Tidy(c, s, before) && o.response.Success?
    ensures var r := Attempt(c, s, o); r.Retrying? ==> Tidy(c, r.s, before)
  {
    hide Overwrite, AfterFailure, StartHashing, BuildRequest, Body, Tidy;
    StartTidy(c, s, before);
    TidyTarget(c, s, before);
    if Attempt(c, s, o).Retrying? {
      AttemptBody(c, s, o);
      var s1, all := StartHashing(s), Body(c, BuildRequest(c, s.kept));
      ReceiveTidy(c, Populate(s1, o.response.location, o.response.header), before, all[..Received(o, all)]);
      RecoverTidy(c, AfterBody(c, s1, o, all).0, before, Received(o, all), o);
    }
  }

  lemma TidyTarget(c: Config, s: State, before: seq<byte>)
    requires Tidy(c, s, before)
    ensures c.targetOffset <= s.position <= |s.target| && s.target[..c.targetOffset] == before
  {}

  lemma AttemptTidy(c: Config, s: State, before: seq<byte>, o: Outcome)
    requires Tidy(c, s, before)
    ensures var r := Attempt(c, s, o); r.Retrying? ==> Tidy(c, r.s, before)
  {
    match o.response
    case NoResponse =>
      hide AfterFailure, StartHashing, Tidy;
      StartTidy(c, s, before);
      TidyTarget(c, s, before);
      RecoverTidy(c, StartHashing(s), before, 0, o);
    case ErrorStatus(_, _) => ErrorTidy(c, s, before, o);
    case Success(_, _, _, _) => BodyTidy(c, s, before, o);
  }

  /** For a range of at most one byte, or one that cannot be asked for, no resumed request can be met. */
  lemma NothingToResume(c: Config, kept: nat)
    requires c.Valid() && kept > 0 && BuildRequest(c, kept).Request? && (|c.Wanted()| < 2 || !Askable(c))
    requires c.length > 0 ==> c.offset.Some?
    ensures !Satisfiable(c, BuildRequest(c, kept))
  {
    if c.length > 0 {
      var d := c.length - kept;
      var q := d / TWO_TO_THE_64;
      assert d == TWO_TO_THE_64 * q + d % TWO_TO_THE_64;
    }
  }

  /** A success that starts at the beginning puts the whole range where it belongs, if its body is not cut. */
  lemma UnresumedIsExact(c: Config, s: State, before: seq<byte>, o: Outcome)
    requires c.Valid() && Tidy(c, s, before) && s.kept == 0 && Attempt(c, s, o).Succeeded?
    requires c.lengthKnown || c.Wanted() == []
    ensures Exact(c, Attempt(c, s, o).s, before)
  {
    hide Overwrite, StartHashing, Body, BuildRequest, Config.Wanted;
    StartTidy(c, s, before);
    AttemptSucceeds(c, s, o);
    FirstRequest(c);
    var s1, all := StartHashing(s), Body(c, BuildRequest(c, 0));
    assert all[..Received(o, all)] == all;
    Extend(s1.target, Receive(c, s1, all).target, s1.position, all);
  }

  lemma FirstRequest(c: Config)
    requires c.Valid()
    ensures BuildRequest(c, 0).Request? ==> Body(c, BuildRequest(c, 0)) == c.Wanted()
  {}

  /** Runs that can only succeed without resuming. */
  lemma {:induction false} NeverResumes(c: Config, s: State, before: seq<byte>, outcomes: seq<Outcome>)
    requires c.Valid() && Tidy(c, s, before) && (|c.Wanted()| < 2 || !Askable(c)) && (c.length > 0 ==> c.offset.Some?)
    requires TrueAnswers(c, s, outcomes) && Execute(c, s, outcomes).Succeeded?
    ensures LastStart(c, s, outcomes).kept == 0
    ensures c.lengthKnown || c.Wanted() == [] ==> Exact(c, Execute(c, s, outcomes).s, before)
    ensures Askable(c)
    decreases |outcomes|
  {
    hide Attempt, Exact, Config.Wanted, Askable, Satisfiable;
    var o := outcomes[0];
    AttemptTidy(c, s, before, o);
    if Attempt(c, s, o).Retrying? {
      NeverResumes(c, Attempt(c, s, o).s, before, outcomes[1..]);
    } else {
      AttemptSucceeds(c, s, o);
      if s.kept > 0 {
        NothingToResume(c, s.kept);
        assert false;
      }
      FirstIsAskable(c);
      if c.lengthKnown || c.Wanted() == [] {
        UnresumedIsExact(c, s, before, o);
      }
    }
  }

  lemma FirstIsAskable(c: Config)
    requires BuildRequest(c, 0).Request? && Satisfiable(c, BuildRequest(c, 0))
    ensures Askable(c)
  {}

  /** A length without an offset is never asked for at all. */
  lemma NeverAsked(c: Config, target: seq<byte>, outcomes: seq<Outcome>)
    requires c.targetOffset <= |target| && c.length > 0 && c.offset.None?
    ensures !Execute(c, Init(c, target), outcomes).Succeeded?
  {
    hide Body, AfterFailure, AfterError, AfterBody, StartHashing;
  }

  /** Where nothing can be resumed, or nothing asked for, every success is un-resumed. */
  lemma SmallRange(c: Config, target: seq<byte>, outcomes: seq<Outcome>)
    requires c.Valid() && c.targetOffset <= |target| && (|c.Wanted()| < 2 || !Askable(c))
    requires TrueAnswers(c, Init(c, target), outcomes) && Execute(c, Init(c, target), outcomes).Succeeded?
    ensures Askable(c) && LastStart(c, Init(c, target), outcomes).kept == 0
    ensures c.lengthKnown || c.Wanted() == [] ==>
      Exact(c, Execute(c, Init(c, target), outcomes).s, target[..c.targetOffset])
  {
    if c.length > 0 && c.offset.None? {
      NeverAsked(c, target, outcomes);
    } else {
      hide Exact, Execute, LastStart, TrueAnswers, Config.Wanted, Askable;
      NeverResumes(c, Init(c, target), target[..c.targetOffset], outcomes);
    }
  }

  /** Exactly when a checked success is always an un-resumed attempt, over all runs: the target cannot seek, so that a
      spoiled attempt is not retried, or nothing is checked, or there is nothing to resume. */
  lemma ChecksAreWholeIff(c: Config, target: seq<byte>)
    requires c.Valid() && c.targetOffset <= |target|
    ensures ChecksAreWhole(c, target) <==> !c.canSeek || !c.checksum || |c.Wanted()| < 2 || !Askable(c)
  {
    hide Execute, LastStart, TrueAnswers, Config.Wanted, Askable, NeverSpoils;
    var s := Init(c, target);
    if !c.canSeek || |c.Wanted()| < 2 || !Askable(c) {
      forall outcomes | TrueAnswers(c, s, outcomes) && Checked(c, s, outcomes)
        ensures LastStart(c, s, outcomes).kept == 0
      {
        if !c.canSeek {
          InitAgrees(c, target);
          CannotSpoil(c, s, target[..c.targetOffset], outcomes);
          CheckedDownloadIsWhole(c, target, outcomes);
        } else {
          SmallRange(c, target, outcomes);
        }
      }
    } else if c.checksum {
      var outcomes := WrongRun(c, target);
      assert Checked(c, s, outcomes);
    }
  }

  /** Where lengths are not known, an empty body passes for any. */
  lemma EmptyBodyPasses(c: Config, target: seq<byte>, o: Outcome)
    requires c.Valid() && c.targetOffset <= |target| && !c.lengthKnown && Askable(c) && c.Wanted() != []
    requires o == Outcome(Success(Primary, None, 0, false), true, true)
    ensures var r := Attempt(c, Init(c, target), o);
      r.Succeeded? && r.s.position == c.targetOffset && TrueAnswer(c, Init(c, target), o)
  {
    hide Overwrite, Body;
  }

  /** Exactly when every success is exact, over all runs: there is nothing to download or it cannot be asked for, or
      bodies come with their length and either the target cannot seek or there is nothing to resume. */
  lemma SuccessesAreExactIff(c: Config, target: seq<byte>)
    requires c.Valid() && c.targetOffset <= |target|
    ensures SuccessesAreExact(c, target) <==>
      c.Wanted() == [] || !Askable(c) || (c.lengthKnown && (!c.canSeek || |c.Wanted()| < 2))
  {
    hide Attempt, Exact, Config.Wanted, Askable, NeverSpoils;
    var s, before := Init(c, target), target[..c.targetOffset];
    if c.Wanted() == [] || !Askable(c) || (c.lengthKnown && (!c.canSeek || |c.Wanted()| < 2)) {
      forall outcomes | TrueAnswers(c, s, outcomes) && Execute(c, s, outcomes).Succeeded?
        ensures Exact(c, Execute(c, s, outcomes).s, before)
      {
        hide Execute, TrueAnswers;
        if |c.Wanted()| < 2 || !Askable(c) {
          SmallRange(c, target, outcomes);
        } else {
          InitAgrees(c, target);
          CannotSpoil(c, s, before, outcomes);
          DownloadIsExact(c, target, outcomes);
        }
      }
    } else if !c.lengthKnown {
      var o := Outcome(Success(Primary, None, 0, false), true, true);
      EmptyBodyPasses(c, target, o);
      ShortIsNotExact(c, Attempt(c, s, o).s, before);
      assert TrueAnswers(c, s, [o]) && Execute(c, s, [o]) == Attempt(c, s, o);
    } else {
      var outcomes := WrongRun(c, target);
    }
  }

  lemma ShortIsNotExact(c: Config, s: State, before: seq<byte>)
    requires c.Valid() && s.position == c.targetOffset && c.Wanted() != []
    ensures !Exact(c, s, before)
  {}

  /** A concrete such run: after an error body of one byte that broke off and a request without a response, bytes 1 and
      2 of three are downloaded, match the checksum of these two, and are taken for the whole. */
  lemma CheckedRunReportsSuccess()
    ensures var outcomes := [
        Outcome(ErrorStatus([9], true), true, true),
        Outcome(NoResponse, true, true),
        Outcome(Success(Primary, Some([2, 3]), 2, false), true, true)];
      var s := Init(EXAMPLE, []);
      && TrueAnswers(EXAMPLE, s, outcomes) && Checked(EXAMPLE, s, outcomes) && LastStart(EXAMPLE, s, outcomes).kept == 1
      && Execute(EXAMPLE, s, outcomes).s.target == [2, 3] && EXAMPLE.Wanted() == [1, 2, 3]
  {
    hide Attempt;
    var o0 := Outcome(ErrorStatus([9], true), true, true);
    var o1 := Outcome(NoResponse, true, true);
    var o2 := Outcome(Success(Primary, Some([2, 3]), 2, false), true, true);
    SpoilingAttempt();
    CountingAttempt();
    CheckedAttempt();
    assert [o0, o1, o2][1..] == [o1, o2] && [o1, o2][1..] == [o2];
    assert Execute(EXAMPLE, COUNTED, [o2]) == Attempt(EXAMPLE, COUNTED, o2);
    assert Execute(EXAMPLE, SPOILED, [o1, o2]) == Execute(EXAMPLE, COUNTED, [o2]);
    assert LastStart(EXAMPLE, COUNTED, [o2]) == COUNTED && LastStart(EXAMPLE, SPOILED, [o1, o2]) == COUNTED;
    assert TrueAnswer(EXAMPLE, COUNTED, o2) && TrueAnswers(EXAMPLE, COUNTED, [o2]);
    assert TrueAnswers(EXAMPLE, SPOILED, [o1, o2]);
  }

  const COUNTED := State(true, true, 1, [], 1, false, None, false, None, [9], 0)

  lemma CountingAttempt()
    ensures Attempt(EXAMPLE, SPOILED, Outcome(NoResponse, true, true)) == Retrying(COUNTED)
  {}

  lemma CheckedAttempt()
    ensures Body(EXAMPLE, BuildRequest(EXAMPLE, 1)) == [2, 3]
    ensures Attempt(EXAMPLE, COUNTED, Outcome(Success(Primary, Some([2, 3]), 2, false), true, true))
         == Succeeded(State(false, false, 1, [2, 3], 1, false, Some([2, 3]), true, None, [2, 3], 2))
  {
    var all: seq<byte> := [2, 3];
    assert Body(EXAMPLE, BuildRequest(EXAMPLE, 1)) == all && all[..2] == all;
    assert [] + all == all && Overwrite([9], 0, all) == [2, 3];
  }

  // ---------- when a run succeeds ----------

  /** What a resumed download needs to know: the bytes it has, and the checksum or its absence that the first of their
      responses told. */
  datatype Progress = Progress(kept: nat, saved: Option<Option<seq<byte>>>)

  /** Something is left to ask for, and no length without an offset. */
  predicate CanAsk(c: Config, p: Progress) {
    c.length == 0 || (p.kept < c.length && (p.kept > 0 || c.offset.Some?))
  }

  /** Of the missing bytes, those that a successful response brings. */
  function Arriving(c: Config, p: Progress, o: Outcome): seq<byte>
    requires c.Valid() && p.kept <= |c.Wanted()| && o.response.Success?
  {
    var missing := c.Wanted()[p.kept..];
    if o.response.received < |missing| then missing[..o.response.received] else missing
  }

  /** The transfer breaks off, or fewer bytes come than the response announced. */
  predicate BreaksOff(c: Config, p: Progress, o: Outcome)
    requires c.Valid() && p.kept <= |c.Wanted()| && o.response.Success?
  {
    o.response.interrupted || (c.lengthKnown && o.response.received < |c.Wanted()| - p.kept)
  }

  /** The checksum that a success is compared with: that of the first response whose bytes were kept. */
  function Told(p: Progress, o: Outcome): Option<seq<byte>>
    requires o.response.Success?
  {
    if p.saved.Some? then p.saved.value else o.response.header
  }

  /** The request is answered with its whole body, which matches the checksum it is compared with, if there is one. */
  predicate Served(c: Config, p: Progress, o: Outcome)
    requires c.Valid() && p.kept <= |c.Wanted()|
  {
    && o.response.Success? && !BreaksOff(c, p, o)
    && (c.checksum && Told(p, o).Some? ==> Told(p, o).value == Arriving(c, p, o))
  }

  /** A failed attempt that leaves bytes on the target which are of no use. */
  predicate Litters(c: Config, p: Progress, o: Outcome)
    requires c.Valid() && p.kept <= |c.Wanted()|
  {
    match o.response
    case NoResponse => false
    case ErrorStatus(body, _) => p.kept + |body| > 0
    case Success(_, _, _, _) => !BreaksOff(c, p, o) && p.kept + |Arriving(c, p, o)| > 0
  }

  /** A failed attempt is followed by another one if the policy says so, the target is still open, and bytes that are of
      no use can be sought back over. */
  predicate GoesOn(c: Config, p: Progress, o: Outcome)
    requires c.Valid() && p.kept <= |c.Wanted()|
  {
    o.retry && o.open && (Litters(c, p, o) ==> c.canSeek)
  }

  /** A transfer that breaks off keeps its bytes, a request without a response changes nothing, and everything else
      starts over. */
  function Next(c: Config, p: Progress, o: Outcome): (p': Progress)
    requires c.Valid() && p.kept <= |c.Wanted()|
    ensures p'.kept <= |c.Wanted()|
  {
    match o.response
    case NoResponse => p
    case ErrorStatus(_, _) => Progress(0, None)
    case Success(_, _, _, _) =>
      if BreaksOff(c, p, o) then Progress(p.kept + |Arriving(c, p, o)|, Some(Told(p, o))) else Progress(0, None)
  }

  /** How a download ends, or that it is still under way. */
  datatype Verdict = Complete | GivenUp | UnderWay

  function Outlook(c: Config, p: Progress, outcomes: seq<Outcome>): Verdict
    requires c.Valid() && p.kept <= |c.Wanted()|
    decreases |outcomes|
  {
    if outcomes == [] then UnderWay
    else if !CanAsk(c, p) then GivenUp
    else if Served(c, p, outcomes[0]) then Complete
    else if !GoesOn(c, p, outcomes[0]) then GivenUp
    else Outlook(c, Next(c, p, outcomes[0]), outcomes[1..])
  }

  /** No error response that is retried breaks off with bytes on the target. */
  ghost predicate ErrorsAreRead(c: Config, p: Progress, outcomes: seq<Outcome>)
    requires c.Valid() && p.kept <= |c.Wanted()|
    decreases |outcomes|
  {
    outcomes != [] && GoesOn(c, p, outcomes[0]) ==>
      && !(outcomes[0].response.ErrorStatus? && outcomes[0].response.interrupted && Litters(c, p, outcomes[0]))
      && ErrorsAreRead(c, Next(c, p, outcomes[0]), outcomes[1..])
  }

  /** The executor's state stands for the progress. */
  ghost predicate StandsFor(s: State, p: Progress) {
    && s.kept == p.kept && (s.hashing ==> s.restart)
    && p.saved == if s.populated then Some(s.md5) else None
  }

  lemma MissingIsBody(c: Config, p: Progress)
    requires c.Valid() && p.kept <= |c.Wanted()|
    ensures BuildRequest(c, p.kept).Request? <==> CanAsk(c, p)
    ensures BuildRequest(c, p.kept).Request? ==> Body(c, BuildRequest(c, p.kept)) == c.Wanted()[p.kept..]
  {
    RequestContinues(c, p.kept);
    assert c.Wanted()[p.kept..] == c.blob[c.Low() + p.kept..c.High()];
  }

  lemma StartTells(c: Config, s: State, before: seq<byte>, p: Progress)
    requires Agree(c, s, before) && StandsFor(s, p)
    ensures var s1 := StartHashing(s);
      && s.position <= |s.target| && s1.position <= |s1.target| && s1.hashed == [] && s1.downloaded == s.kept
      && s1.hashing && !s1.reset && p.saved == if s1.populated then Some(s1.md5) else None
  {
    hide Stands;
    HashingStarted(c, s, before);
  }

  lemma NoSuccessIs(c: Config, s: State, o: Outcome)
    requires s.position <= |s.target| && BuildRequest(c, s.kept).Request?
    requires StartHashing(s).position <= |StartHashing(s).target|
    ensures o.response.NoResponse? ==> Attempt(c, s, o) == AfterFailure(c, StartHashing(s), 0, o)
    ensures o.response.ErrorStatus? ==>
      var s2 := AfterError(c, StartHashing(s), o.response.body, o.response.interrupted);
      Attempt(c, s, o) == AfterFailure(c, s2, |o.response.body|, o)
  {
    hide AfterError, AfterFailure, StartHashing, BuildRequest;
  }

  /** What a retry makes of a request without a response, and of an error. */
  lemma NoResponseTells(c: Config, s: State, p: Progress, o: Outcome)
    requires c.Valid() && p.kept <= |c.Wanted()| && o.response.NoResponse?
    requires s.downloaded == p.kept && !s.reset && p.saved == if s.populated then Some(s.md5) else None
    ensures var r := AfterFailure(c, s, 0, o);
      if GoesOn(c, p, o) then r.Retrying? && StandsFor(r.s, Next(c, p, o)) else r.Failed?
  {
    hide Config.Wanted, Config.Valid;
  }

  lemma ErrorTells(c: Config, s: State, p: Progress, o: Outcome)
    requires c.Valid() && p.kept <= |c.Wanted()| && o.response.ErrorStatus?
    requires s.downloaded == p.kept && s.position <= |s.target|
    ensures var r := AfterFailure(c, AfterError(c, s, o.response.body, o.response.interrupted), |o.response.body|, o);
      if GoesOn(c, p, o) then r.Retrying? && StandsFor(r.s, Next(c, p, o)) else r.Failed?
  {
    hide Config.Wanted, Config.Valid, Overwrite;
  }

  lemma NoSuccessFollows(c: Config, s: State, before: seq<byte>, p: Progress, o: Outcome)
    requires Agree(c, s, before) && StandsFor(s, p) && CanAsk(c, p) && !o.response.Success?
    ensures p.kept <= |c.Wanted()|
    ensures var r := Attempt(c, s, o);
      if GoesOn(c, p, o) then r.Retrying? && StandsFor(r.s, Next(c, p, o)) else r.Failed?
  {
    MissingIsBody(c, p);
    StartTells(c, s, before, p);
    assert c.Valid() && p.kept == s.kept && p.kept <= |c.Wanted()|;
    hide *;
    NoSuccessIs(c, s, o);
    if o.response.NoResponse? {
      NoResponseTells(c, StartHashing(s), p, o);
    } else {
      ErrorTells(c, StartHashing(s), p, o);
    }
  }

  lemma SuccessIs(c: Config, s: State, o: Outcome)
    requires s.position <= |s.target| && o.response.Success? && BuildRequest(c, s.kept).Request?
    ensures var all := Body(c, BuildRequest(c, s.kept)); var (s2, ok) := AfterBody(c, StartHashing(s), o, all);
      Attempt(c, s, o) == if ok then Succeeded(s2) else AfterFailure(c, s2, Received(o, all), o)
  {
    hide AfterBody, AfterFailure, StartHashing, Body, BuildRequest;
  }

  /** What a body does to the fields that a retry depends on. */
  lemma BodyTells(c: Config, s: State, p: Progress, o: Outcome, all: seq<byte>)
    requires s.position <= |s.target| && o.response.Success? && s.hashed == []
    requires c.Valid() && p.kept <= |c.Wanted()| && all == c.Wanted()[p.kept..]
    requires p.saved == if s.populated then Some(s.md5) else None
    ensures all[..Received(o, all)] == Arriving(c, p, o)
    ensures var (s2, ok) := AfterBody(c, s, o, all);
      && (ok <==> Served(c, p, o)) && s2.downloaded == s.downloaded
      && (BreaksOff(c, p, o) ==>
            s2.hashing == s.hashing && s2.reset == s.reset && s2.populated && Some(s2.md5) == Some(Told(p, o)))
      && (!BreaksOff(c, p, o) ==> !s2.hashing && s2.reset && !s2.populated)
  {
    hide Overwrite, Config.Wanted;
    assert [] + all[..Received(o, all)] == all[..Received(o, all)];
    assert all[..|all|] == all;
  }

  /** What the retry makes of that. */
  lemma FailureTells(c: Config, s: State, p: Progress, o: Outcome, written: nat)
    requires c.Valid() && p.kept <= |c.Wanted()| && o.response.Success?
    requires s.downloaded == p.kept && written == |Arriving(c, p, o)|
    requires BreaksOff(c, p, o) ==> !s.reset && s.populated && s.md5 == Told(p, o)
    requires !BreaksOff(c, p, o) ==> s.reset && !s.populated
    ensures var r := AfterFailure(c, s, written, o);
      if GoesOn(c, p, o) then r.Retrying? && StandsFor(r.s, Next(c, p, o)) else r.Failed?
  {
    hide BreaksOff, Arriving, Told, Config.Wanted, Config.Valid;
  }

  lemma SuccessFollows(c: Config, s: State, before: seq<byte>, p: Progress, o: Outcome)
    requires Agree(c, s, before) && StandsFor(s, p) && CanAsk(c, p) && o.response.Success?
    ensures p.kept <= |c.Wanted()|
    ensures var r := Attempt(c, s, o);
      if Served(c, p, o) then r.Succeeded?
      else if GoesOn(c, p, o) then r.Retrying? && StandsFor(r.s, Next(c, p, o))
      else r.Failed?
  {
    MissingIsBody(c, p);
    StartTells(c, s, before, p);
    SuccessIs(c, s, o);
    var s1, all := StartHashing(s), Body(c, BuildRequest(c, s.kept));
    hide Agree, Body, BuildRequest, StartHashing, Config.Wanted, Attempt;
    BodyTells(c, s1, p, o, all);
    hide *;
    var (s2, ok) := AfterBody(c, s1, o, all);
    if !ok {
      FailureTells(c, s2, p, o, Received(o, all));
    }
  }

  /** One attempt does to the executor what it does to the progress. */
  lemma AttemptFollows(c: Config, s: State, before: seq<byte>, p: Progress, o: Outcome)
    requires Agree(c, s, before) && StandsFor(s, p)
    ensures p.kept <= |c.Wanted()|
    ensures var r := Attempt(c, s, o);
      if !CanAsk(c, p) then r.Failed?
      else if Served(c, p, o) then r.Succeeded?
      else if GoesOn(c, p, o) then r.Retrying? && StandsFor(r.s, Next(c, p, o))
      else r.Failed?
  {
    if !CanAsk(c, p) {
      MissingIsBody(c, p);
    } else if o.response.Success? {
      SuccessFollows(c, s, before, p, o);
    } else {
      NoSuccessFollows(c, s, before, p, o);
    }
  }

  lemma {:induction false} RunFollows(c: Config, s: State, before: seq<byte>, p: Progress, outcomes: seq<Outcome>)
    requires Agree(c, s, before) && StandsFor(s, p)
    ensures p.kept <= |c.Wanted()|
    ensures ErrorsAreRead(c, p, outcomes) ==>
      match Execute(c, s, outcomes)
      case Succeeded(_) => Outlook(c, p, outcomes) == Complete
      case Failed => Outlook(c, p, outcomes) == GivenUp
      case Retrying(_) => Outlook(c, p, outcomes) == UnderWay
    decreases |outcomes|
  {
    hide Attempt, StandsFor, Agree, Served, GoesOn, Next, CanAsk, Config.Wanted;
    assert c.Valid() && s.position <= |s.target| && p.kept <= |c.Wanted()| by {
      HashingStarted(c, s, before);
      if outcomes == [] {
        AttemptFollows(c, s, before, p, Outcome(NoResponse, false, false));
      } else {
        AttemptFollows(c, s, before, p, outcomes[0]);
      }
    }
    if outcomes != [] && ErrorsAreRead(c, p, outcomes) {
      var o := outcomes[0];
      AttemptFollows(c, s, before, p, o);
      if Attempt(c, s, o).Retrying? {
        SpoilingLitters(c, s, p, o);
        RetryAgrees(c, s, before, o);
        HashingStarted(c, Attempt(c, s, o).s, before);
        RunFollows(c, Attempt(c, s, o).s, before, Next(c, p, o), outcomes[1..]);
      }
    }
  }

  lemma SpoilingLitters(c: Config, s: State, p: Progress, o: Outcome)
    requires c.Valid() && p.kept <= |c.Wanted()| && StandsFor(s, p)
    ensures Spoils(s, o) ==> o.response.ErrorStatus? && o.response.interrupted && Litters(c, p, o)
  {}

  /** A new download succeeds, is given up or goes on exactly as its progress tells: it fails only where nothing can be
      asked for, the policy or the target does not allow a retry, or useless bytes cannot be sought back over. */
  lemma DownloadEndsIff(c: Config, target: seq<byte>, outcomes: seq<Outcome>)
    requires c.Valid() && c.targetOffset <= |target| && ErrorsAreRead(c, Progress(0, None), outcomes)
    ensures var r, outlook := Execute(c, Init(c, target), outcomes), Outlook(c, Progress(0, None), outcomes);
      (r.Succeeded? <==> outlook == Complete) && (r.Failed? <==> outlook == GivenUp)
  {
    hide Execute, Outlook, ErrorsAreRead;
    InitAgrees(c, target);
    RunFollows(c, Init(c, target), target[..c.targetOffset], Progress(0, None), outcomes);
  }

  /** How many bytes the first n responses of a run bring at most. */
  function Brought(outcomes: seq<Outcome>, n: nat): nat
    requires n <= |outcomes|
  {
    if n == 0 then 0
    else
      var r := outcomes[n - 1].response;
      Brought(outcomes, n - 1) + if r.Success? then r.received else 0
  }

  lemma {:induction false} BroughtFirst(outcomes: seq<Outcome>, n: nat)
    requires 0 < n <= |outcomes|
    ensures var r := outcomes[0].response;
      Brought(outcomes, n) == (if r.Success? then r.received else 0) + Brought(outcomes[1..], n - 1)
  {
    if n > 1 {
      BroughtFirst(outcomes, n - 1);
    }
  }

  /** The progress after the first n attempts. */
  function After(c: Config, p: Progress, outcomes: seq<Outcome>, n: nat): (p': Progress)
    requires c.Valid() && p.kept <= |c.Wanted()| && n <= |outcomes|
    ensures p'.kept <= |c.Wanted()|
    decreases n
  {
    if n == 0 then p else After(c, Next(c, p, outcomes[0]), outcomes[1..], n - 1)
  }

  /** An attempt that may be repeated: it gets no response, or an error that is read to its end and can be sought back
      over, or a body that breaks off and is not compared with a checksum. */
  predicate Lossy(c: Config, o: Outcome) {
    && o.retry && o.open
    && match o.response
       case NoResponse => true
       case ErrorStatus(_, interrupted) => !interrupted && c.canSeek
       case Success(_, header, _, interrupted) => interrupted && (header.None? || !c.checksum)
  }

  lemma {:induction false} LossesAreMadeUp(c: Config, p: Progress, outcomes: seq<Outcome>, n: nat)
    requires c.Valid() && |outcomes| == n + 1 && (c.length > 0 ==> c.offset.Some?)
    requires p.kept + Brought(outcomes, n) < |c.Wanted()| && forall k :: 0 <= k < n ==> Lossy(c, outcomes[k])
    requires p.saved == None || p.saved == Some(None) || !c.checksum
    requires var last := outcomes[n].response;
      && last.Success? && !last.interrupted && last.received >= |c.Wanted()|
      && (last.header.Some? ==> last.header.value == c.Wanted()[After(c, p, outcomes, n).kept..])
    ensures Outlook(c, p, outcomes) == Complete && ErrorsAreRead(c, p, outcomes)
    decreases n
  {
    hide Config.Wanted;
    assert |c.Wanted()| > 0 ==> c.length == 0 || |c.Wanted()| <= c.length by { WantedFits(c); }
    if n > 0 {
      BroughtFirst(outcomes, n);
      var o := outcomes[0];
      assert Lossy(c, o);
      LossesAreMadeUp(c, Next(c, p, o), outcomes[1..], n - 1);
    }
  }

  lemma WantedFits(c: Config)
    requires c.Valid()
    ensures c.length == 0 || |c.Wanted()| <= c.length
  {}

  /** However often the connection is lost or an error is answered, as long as bytes are missing: the first response
      that comes whole, with a true checksum or none, completes the download. */
  lemma DownloadMakesUpLosses(c: Config, target: seq<byte>, outcomes: seq<Outcome>, n: nat)
    requires c.Valid() && c.targetOffset <= |target| && |outcomes| == n + 1 && (c.length > 0 ==> c.offset.Some?)
    requires Brought(outcomes, n) < |c.Wanted()| && forall k :: 0 <= k < n ==> Lossy(c, outcomes[k])
    requires var last := outcomes[n].response;
      && last.Success? && !last.interrupted && last.received >= |c.Wanted()|
      && (last.header.Some? ==> last.header.value == c.Wanted()[After(c, Progress(0, None), outcomes, n).kept..])
    ensures Execute(c, Init(c, target), outcomes).Succeeded?
  {
    hide Execute, Outlook, ErrorsAreRead, Lossy, Config.Wanted, After;
    LossesAreMadeUp(c, Progress(0, None), outcomes, n);
    DownloadEndsIff(c, target, outcomes);
  }

  /** On a target that cannot seek a resumed download that knows the checksum of the whole range never completes:
      the rest it downloads does not have that checksum, and what is on the target cannot be sought back over. */
  lemma {:induction false} RestNeverMatches(c: Config, p: Progress, outcomes: seq<Outcome>)
    requires c.Valid() && c.checksum && !c.canSeek
    requires 0 < p.kept <= |c.Wanted()| && p.saved == Some(Some(c.Wanted()))
    ensures Outlook(c, p, outcomes) != Complete && ErrorsAreRead(c, p, outcomes)
    decreases |outcomes|
  {
    hide Config.Wanted;
    if outcomes != [] && GoesOn(c, p, outcomes[0]) {
      RestNeverMatches(c, Next(c, p, outcomes[0]), outcomes[1..]);
    }
  }

  /** So one checked transfer that breaks off is the end of such a download, whatever is answered later. */
  lemma CheckedLossIsFatal(c: Config, target: seq<byte>, o: Outcome, outcomes: seq<Outcome>)
    requires c.Valid() && c.targetOffset <= |target| && c.checksum && !c.canSeek
    requires o.response.Success? && o.response.interrupted && 0 < o.response.received
    requires o.response.header == Some(c.Wanted()) && c.Wanted() != []
    ensures !Execute(c, Init(c, target), [o] + outcomes).Succeeded?
  {
    hide Config.Wanted, Execute;
    var p, all := Progress(0, None), [o] + outcomes;
    assert all[1..] == outcomes;
    assert c.Wanted()[0..] == c.Wanted();
    if GoesOn(c, p, o) {
      RestNeverMatches(c, Next(c, p, o), outcomes);
    }
    DownloadEndsIff(c, target, all);
  }

  // ---------- the objects themselves ----------

  /** The executor, its command's lambdas and their shared download info, updating their fields in place. */
  class RangeDownload {
    const c: Config
    // executor_impl
    var isHashingStarted: bool
    var shouldRestartHashProvider: bool
    var totalDownloaded: nat
    var hashProvider: seq<byte>
    // the response stream of the current attempt
    var totalWritten: nat
    // blob_download_info
    var totalWrittenToDestinationStream: nat
    var arePropertiesPopulated: bool
    var responseMd5: Option<seq<byte>>
    var resetTarget: bool
    // storage_command
    var lockedLocation: Option<Location>
    // the destination stream
    var target: seq<byte>
    var position: nat

    ghost function View(): State
      reads this
    {
      State(isHashingStarted, shouldRestartHashProvider, totalDownloaded, hashProvider, totalWrittenToDestinationStream,
            arePropertiesPopulated, responseMd5, resetTarget, lockedLocation, target, position)
    }

    ghost predicate Valid()
      reads this
    {
      position <= |target|
    }

    constructor (c: Config, target: seq<byte>)
      requires c.targetOffset <= |target|
      ensures Valid() && View() == Init(c, target) && this.c == c
    {
      this.c := c;
      isHashingStarted, shouldRestartHashProvider, totalDownloaded := false, false, 0;
      hashProvider, totalWritten := [], 0;
      totalWrittenToDestinationStream, arePropertiesPopulated, responseMd5, resetTarget := 0, false, None, false;
      lockedLocation, this.target, position := None, target, c.targetOffset;
    }

    method StartHash()
      requires Valid()
      modifies this`hashProvider, this`totalDownloaded, this`isHashingStarted, this`shouldRestartHashProvider,
        this`totalWritten
      ensures Valid() && View() == StartHashing(old(View())) && totalWritten == 0
    {
      if !isHashingStarted {
        hashProvider, totalDownloaded, isHashingStarted, shouldRestartHashProvider := [], 0, true, false;
      }
      if shouldRestartHashProvider {
        hashProvider, shouldRestartHashProvider := [], false;
      }
      totalWritten := 0;
    }

    /** The HTTP client writes to the hash wrapper around the destination stream. */
    method PutN(data: seq<byte>)
      requires Valid()
      modifies this`hashProvider, this`totalWritten, this`target, this`position
      ensures Valid() && View() == Receive(c, old(View()), data) && totalWritten == old(totalWritten) + |data|
    {
      target := Overwrite(target, position, data);
      position := position + |data|;
      if c.checksum {
        hashProvider := hashProvider + data;
      }
      totalWritten := totalWritten + |data|;
    }

    method RecoverRequest(total: nat, open: bool) returns (recovered: bool)
      requires Valid() && total == totalDownloaded && c.targetOffset <= |target|
      modifies this`totalWrittenToDestinationStream, this`resetTarget, this`position
      ensures Valid()
      ensures recovered <==> !(old(resetTarget) && total > 0 && !c.canSeek) && open
      ensures recovered ==> View() == (if old(resetTarget)
        then old(View()).(kept := 0, reset := false, position := if total > 0 then c.targetOffset else old(position))
        else old(View()).(kept := total))
    {
      if resetTarget {
        totalWrittenToDestinationStream := 0;
        if total > 0 {
          if !c.canSeek {
            return false;
          }
          position := c.targetOffset;
        }
        resetTarget := false;
      } else {
        totalWrittenToDestinationStream := total;
      }
      return open;
    }

    /** The part of the loop that handles an exception. */
    method HandleFailure(o: Outcome) returns (again: bool)
      requires Valid() && c.targetOffset <= |target|
      modifies this`shouldRestartHashProvider, this`totalDownloaded,
        this`totalWrittenToDestinationStream, this`resetTarget, this`position
      ensures Valid()
      ensures again ==> AfterFailure(c, old(View()), old(totalWritten), o) == Retrying(View())
      ensures !again ==> AfterFailure(c, old(View()), old(totalWritten), o) == Failed
    {
      if !o.retry {
        return false;
      }
      shouldRestartHashProvider := true;
      totalDownloaded := totalDownloaded + totalWritten;
      again := RecoverRequest(totalDownloaded, o.open);
    }

    /** preprocess_response on an error status, and its body. */
    method ReceiveError(body: seq<byte>, interrupted: bool)
      requires Valid() && totalWritten == 0
      modifies this
      ensures Valid() && |target| >= |old(target)|
      ensures View() == AfterError(c, old(View()), body, interrupted) && totalWritten == |body|
    {
      PutN(body);
      resetTarget, arePropertiesPopulated, lockedLocation := true, false, None;
      if !interrupted {
        isHashingStarted := false;
      }
    }

    /** preprocess_response on a successful status, the body, and the evaluation of the complete ones. */
    method ReceiveSuccess(o: Outcome, all: seq<byte>) returns (ok: bool)
      requires Valid() && o.response.Success? && totalWritten == 0
      modifies this
      ensures Valid() && |target| >= |old(target)|
      ensures var (s', ok') := AfterBody(c, old(View()), o, all);
        View() == s' && ok == ok' && totalWritten == |all[..Received(o, all)]|
    {
      if !arePropertiesPopulated {
        responseMd5, lockedLocation, arePropertiesPopulated := o.response.header, Some(o.response.location), true;
      }
      PutN(all[..Received(o, all)]);
      ok := false;
      if !Short(c, o, all) {
        isHashingStarted := false;
        resetTarget, arePropertiesPopulated, lockedLocation := true, false, None;
        ok := !(responseMd5.Some? && c.checksum && responseMd5.value != hashProvider);
      }
    }

    /** One turn of the loop: build, send, look at the headers, receive the body, evaluate. */
    method SendRequest(o: Outcome) returns (r: Ending)
      requires Valid() && c.targetOffset <= |target|
      modifies this
      ensures Valid() && c.targetOffset <= |target|
      ensures Attempt(c, old(View()), o)
        == (if r == Again then Retrying(View()) else if r == Ok then Succeeded(View()) else Failed)
    {
      hide Body, BuildRequest, AfterBody, AfterError, AfterFailure, StartHashing;
      var request := BuildRequest(c, totalWrittenToDestinationStream);
      if request.Invalid? {
        return Error;
      }
      StartHash();
      match o.response {
        case NoResponse =>
        case ErrorStatus(body, interrupted) =>
          ReceiveError(body, interrupted);
        case Success(_, _, _, _) =>
          var ok := ReceiveSuccess(o, Body(c, request));
          if ok {
            return Ok;
          }
      }
      var again := HandleFailure(o);
      r := if again then Again else Error;
    }

    /** The do-while loop, over what happens to its requests. */
    method ExecuteAsync(outcomes: seq<Outcome>) returns (r: Ending)
      requires Valid() && c.targetOffset <= |target|
      modifies this
      ensures Execute(c, old(View()), outcomes) ==
        (if r == Again then Retrying(View()) else if r == Ok then Succeeded(View()) else Failed)
      ensures
        r == Ok && c.lengthKnown
        && NeverSpoils(c, old(View()), outcomes) && Agree(c, old(View()), old(target)[..c.targetOffset])
        ==> Exact(c, View(), old(target)[..c.targetOffset])
    {
      hide Attempt, Agree, Exact;
      ghost var start := View();
      var i := 0;
      r := Again;
      while r == Again && i < |outcomes|
        invariant Valid() && c.targetOffset <= |target| && i <= |outcomes|
        invariant Execute(c, start, outcomes) ==
          (if r == Again then Execute(c, View(), outcomes[i..]) else if r == Ok then Succeeded(View()) else Failed)
        decreases |outcomes| - i, r == Again
      {
        ghost var rest := outcomes[i..];
        assert rest[0] == outcomes[i] && rest[1..] == outcomes[i + 1..];
        r := SendRequest(outcomes[i]);
        i := i + 1;
      }
      if r == Ok && c.lengthKnown && NeverSpoils(c, start, outcomes)
        && Agree(c, start, start.target[..c.targetOffset])
      {
        ExecuteIsExact(c, start, start.target[..c.targetOffset], outcomes);
      }
    }
  }

  datatype Ending = Again | Ok | Error
}