/** The linear and exponential retry policies and the part of the executor that obeys them:
    how often a request is made, where, and how long after the previous one. */
module RetryPolicy {
  import opened Common

  datatype Mode = PrimaryOnly | SecondaryOnly | PrimaryThenSecondary | SecondaryThenPrimary

  // Points in time are counted in ticks of 100 ns, intervals in milliseconds.
  const TICKS_PER_MS := 10_000
  const TICKS_PER_SECOND := 10_000_000
  const MIN_EXPONENTIAL_INTERVAL := 3_000
  const MAX_EXPONENTIAL_INTERVAL := 120_000

  /** When the last request to either location ended, as far as the policy knows. */
  datatype Records = Records(primary: Option<int>, secondary: Option<int>) {
    function At(l: Location): Option<int> { if l.Primary? then primary else secondary }
    function Note(l: Location, end: int): Records {
      if l.Primary? then this.(primary := Some(end)) else this.(secondary := Some(end))
    }
  }

  /** What the policy is told about a failed request. */
  datatype Context = Context(count: nat, location: Location, end: int, status: nat, next: Location, mode: Mode)

  datatype RetryInfo = DoNotRetry | DoRetry(target: Location, mode: Mode, interval: int)

  predicate SecondaryNotFound(x: Context) { x.status == 404 && x.location.Secondary? }

  /** 3xx and 4xx are final except 408 and a 404 from the secondary; so are 501 and 505. */
  predicate Final(x: Context) {
    (300 <= x.status < 500 && x.status != 408 && !SecondaryNotFound(x)) || x.status == 501 || x.status == 505
  }

  function Decide(x: Context, maxAttempts: int): RetryInfo {
    if x.count >= maxAttempts || Final(x) then DoNotRetry
    else if SecondaryNotFound(x) && !x.mode.SecondaryOnly? then DoRetry(Primary, PrimaryOnly, 3_000)
    else DoRetry(x.next, x.mode, 3_000)
  }

  /** The interval left of `backoff` when the last request there ended at `last` and it is `now`:
      the difference of two times is a whole number of seconds. */
  function Aligned(last: Option<int>, now: int, backoff: int): int {
    if last.None? then 0
    else
      var since := WholeSeconds(now - last.value);
      if backoff - 1_000 * since < 0 then 0 else backoff - 1_000 * since
  }

  /** Division of the source: towards zero. */
  function WholeSeconds(ticks: int): int {
    if ticks < 0 then -((-ticks) / TICKS_PER_SECOND) else ticks / TICKS_PER_SECOND
  }

  const INT64_MIN: int := -0x8000_0000_0000_0000
  const INT64_MAX: int := 0x7FFF_FFFF_FFFF_FFFF

  function Milliseconds(count: nat, random: real): real { (Pow2(count) - 1) as real * random * 1000.0 }

  /** The increment of a backoff as a whole number of milliseconds. What does not fit is converted to the least number,
      which the policy recognizes by its sign. */
  function Increment(count: nat, random: real): int
    requires random >= 0.0
  {
    var ms := Milliseconds(count, random).Floor;
    if ms > INT64_MAX then INT64_MIN else ms
  }

  /** The backoff of the exponential policy, with the factor it drew. */
  function ExponentialBackoff(count: nat, random: real): (b: int)
    requires random >= 0.0
    ensures 3_000 <= b <= 120_000
    ensures count == 0 ==> b == 3_000
  {
    GrowsWithCount(0, count, random);
    var increment := Increment(count, random);
    var interval := if increment < 0 then MAX_EXPONENTIAL_INTERVAL else MIN_EXPONENTIAL_INTERVAL + increment;
    if interval < MAX_EXPONENTIAL_INTERVAL then interval else MAX_EXPONENTIAL_INTERVAL
  }

  lemma {:induction false} Pow2Grows(m: nat, n: nat)
    requires m <= n
    ensures Pow2(m) <= Pow2(n)
  {
    if m < n {
      Pow2Grows(m, n - 1);
    }
  }

  lemma GrowsWithCount(m: nat, n: nat, random: real)
    requires m <= n && random >= 0.0
    ensures 0.0 <= Milliseconds(m, random) <= Milliseconds(n, random)
  {
    Pow2Grows(m, n);
    ProductsGrow((Pow2(m) - 1) as real, (Pow2(n) - 1) as real, random);
  }

  lemma ProductsGrow(a: real, b: real, random: real)
    requires 0.0 <= a <= b && random >= 0.0
    ensures 0.0 <= a * random <= b * random
  {}

  /** What the backoff is: three seconds and (2^count - 1) times the drawn number of seconds, but no more than two
      minutes, also where the source's number of milliseconds does not fit into 64 bits. */
  lemma BackoffIs(count: nat, random: real)
    requires random >= 0.0
    ensures var ms := (Pow2(count) - 1) as real * random * 1000.0;
      ExponentialBackoff(count, random) == if ms >= 117_000.0 then 120_000 else 3_000 + ms.Floor
  {
    GrowsWithCount(0, count, random);
  }

  /** It does not shrink from retry to retry, conversions that do not fit included. */
  lemma BackoffGrows(m: nat, n: nat, random: real)
    requires m <= n && random >= 0.0
    ensures ExponentialBackoff(m, random) <= ExponentialBackoff(n, random)
  {
    hide Milliseconds;
    GrowsWithCount(m, n, random);
  }

  /** basic_common_retry_policy and its two descendants. */
  class CommonRetryPolicy {
    const maxAttempts: int
    var lastPrimaryAttempt: Option<int>
    var lastSecondaryAttempt: Option<int>

    function View(): Records
      reads this
    {
      Records(lastPrimaryAttempt, lastSecondaryAttempt)
    }

    constructor (maxAttempts: int)
      ensures this.maxAttempts == maxAttempts && View() == Records(None, None)
    {
      this.maxAttempts, lastPrimaryAttempt, lastSecondaryAttempt := maxAttempts, None, None;
    }

    method EvaluateCommon(x: Context) returns (info: RetryInfo)
      modifies this
      ensures info == Decide(x, maxAttempts)
      ensures View() == if x.count >= maxAttempts then old(View()) else old(View()).Note(x.location, x.end)
    {
      if x.count >= maxAttempts {
        return DoNotRetry;
      }
      match x.location {
        case Primary => lastPrimaryAttempt := Some(x.end);
        case Secondary => lastSecondaryAttempt := Some(x.end);
      }
      var secondaryNotFound := x.status == 404 && x.location == Secondary;
      if 300 <= x.status && x.status < 500 && x.status != 408 && !secondaryNotFound {
        return DoNotRetry;
      }
      if x.status == 501 || x.status == 505 {
        return DoNotRetry;
      }
      info := DoRetry(x.next, x.mode, 3_000);
      if secondaryNotFound && x.mode != SecondaryOnly {
        info := info.(mode := PrimaryOnly);
        info := info.(target := Primary);
      }
    }

    method AlignRetryInterval(info: RetryInfo, now: int) returns (aligned: RetryInfo)
      requires info.DoRetry?
      ensures aligned == info.(interval := Aligned(View().At(info.target), now, info.interval))
    {
      var lastAttempt := match info.target case Primary => lastPrimaryAttempt case Secondary => lastSecondaryAttempt;
      if lastAttempt.Some? {
        var sinceLastAttempt := WholeSeconds(now - lastAttempt.value);
        var left := info.interval - 1_000 * sinceLastAttempt;
        aligned := info.(interval := if left < 0 then 0 else left);
      } else {
        aligned := info.(interval := 0);
      }
    }

    /** What the two policies share: the backoff is aligned once it is known that there is a retry. */
    method Evaluate(x: Context, backoff: int, now: int) returns (info: RetryInfo)
      modifies this
      ensures info == EvaluateAll(old(View()), x, maxAttempts, backoff, now).0
      ensures View() == EvaluateAll(old(View()), x, maxAttempts, backoff, now).1
    {
      info := EvaluateCommon(x);
      if info.DoRetry? {
        info := info.(interval := backoff);
        info := AlignRetryInterval(info, now);
      }
    }

    /** evaluate of the linear policy, whose backoff is a number of seconds. */
    method EvaluateLinear(x: Context, seconds: int, now: int) returns (info: RetryInfo)
      modifies this
      ensures info == EvaluateAll(old(View()), x, maxAttempts, 1_000 * seconds, now).0
      ensures View() == EvaluateAll(old(View()), x, maxAttempts, 1_000 * seconds, now).1
    {
      info := Evaluate(x, 1_000 * seconds, now);
    }

    /** evaluate of the exponential policy, with the factor it draws. */
    method EvaluateExponential(x: Context, random: real, now: int) returns (info: RetryInfo)
      requires random >= 0.0
      modifies this
      ensures info == EvaluateAll(old(View()), x, maxAttempts, ExponentialBackoff(x.count, random), now).0
      ensures View() == EvaluateAll(old(View()), x, maxAttempts, ExponentialBackoff(x.count, random), now).1
    {
      info := Evaluate(x, ExponentialBackoff(x.count, random), now);
    }
  }

  function EvaluateAll(r: Records, x: Context, maxAttempts: int, backoff: int, now: int): (RetryInfo, Records) {
    var r' := if x.count >= maxAttempts then r else r.Note(x.location, x.end);
    match Decide(x, maxAttempts)
    case DoNotRetry => (DoNotRetry, r')
    case DoRetry(target, mode, _) => (DoRetry(target, mode, Aligned(r'.At(target), now, backoff)), r')
  }

  // ---------- the executor's side ----------

  datatype Request = Request(location: Location, start: int, end: int, status: nat)

  /** What may happen between two requests: the policy draws a backoff and is asked at `now`;
      the command may be locked to a location by then. */
  datatype Turn = Turn(backoff: int, now: int, lock: Option<Location>)

  /** The executor about to send its request number count + 1. */
  datatype Executor = Executor(mode: Mode, location: Location, count: nat, records: Records)

  function FirstLocation(mode: Mode): Location {
    if mode.PrimaryOnly? || mode.PrimaryThenSecondary? then Primary else Secondary
  }

  function NextLocation(mode: Mode, current: Location): Location {
    match mode
    case PrimaryOnly => Primary
    case SecondaryOnly => Secondary
    case _ => if current.Primary? then Secondary else Primary
  }

  /** validate_location_mode: a locked command overrides the location, or cannot be sent at all. */
  function Validate(e: Executor, lock: Option<Location>): Option<Executor> {
    match lock
    case None => Some(e)
    case Some(Primary) => if e.mode.SecondaryOnly? then None else Some(e.(mode := PrimaryOnly, location := Primary))
    case Some(Secondary) => if e.mode.PrimaryOnly? then None else Some(e.(mode := SecondaryOnly, location := Secondary))
  }

  function Ask(e: Executor, r: Request, maxAttempts: int, t: Turn): (RetryInfo, Records) {
    EvaluateAll(e.records, Context(e.count, r.location, r.end, r.status, NextLocation(e.mode, e.location), e.mode),
                maxAttempts, t.backoff, t.now)
  }

  /** The executor after the failed request r and the turn t, or None when it gives up. */
  function Retry(e: Executor, r: Request, maxAttempts: int, t: Turn): Option<Executor> {
    var (info, records) := Ask(e, r, maxAttempts, t);
    if info.DoNotRetry? then None
    else Validate(Executor(info.mode, info.target, e.count + 1, records), t.lock)
  }

  /** The executor when it sends request i of a run. */
  function At(e: Executor, maxAttempts: int, requests: seq<Request>, turns: seq<Turn>, i: nat): Option<Executor>
    requires i <= |turns| && i <= |requests|
  {
    if i == 0 then Some(e)
    else
      var before := At(e, maxAttempts, requests, turns, i - 1);
      if before.None? then None else Retry(before.value, requests[i - 1], maxAttempts, turns[i - 1])
  }

  /** An operation: its location mode, the location its command is limited to from the beginning, if any, and the
      attempts of its policy. */
  datatype Operation = Operation(mode: Mode, limit: Option<Location>, maxAttempts: int) {

    /** The executor about to send the first request, or None where the mode contradicts the command. */
    function First(): Option<Executor> {
      Validate(Executor(mode, FirstLocation(mode), 0, Records(None, None)), limit)
    }

    function Start(): Executor
      requires First().Some?
    {
      First().value
    }
  }

  /** A run: requests[i] is sent and fails, and turns[i] leads to requests[i + 1], which waits for the interval the
      policy returned. */
  ghost predicate Run(o: Operation, requests: seq<Request>, turns: seq<Turn>) {
    && o.First().Some? && |turns| + 1 == |requests|
    && (forall i :: 0 <= i < |requests| ==>
          && At(o.Start(), o.maxAttempts, requests, turns, i).Some?
          && requests[i].location == At(o.Start(), o.maxAttempts, requests, turns, i).value.location
          && requests[i].start <= requests[i].end)
    && (forall i :: 0 <= i < |turns| ==>
          requests[i].end <= turns[i].now && Waits(o.Start(), o.maxAttempts, requests, turns, i))
  }

  /** What the policy answers in turn i. */
  function Answer(e: Executor, maxAttempts: int, requests: seq<Request>, turns: seq<Turn>, i: nat): RetryInfo
    requires i < |turns| && i < |requests| && At(e, maxAttempts, requests, turns, i).Some?
  {
    Ask(At(e, maxAttempts, requests, turns, i).value, requests[i], maxAttempts, turns[i]).0
  }

  ghost predicate Waits(e: Executor, maxAttempts: int, requests: seq<Request>, turns: seq<Turn>, i: nat)
    requires i < |turns| && i + 1 < |requests|
  {
    && At(e, maxAttempts, requests, turns, i).Some?
    && Answer(e, maxAttempts, requests, turns, i).DoRetry?
    && requests[i + 1].start >= turns[i].now + TICKS_PER_MS * Answer(e, maxAttempts, requests, turns, i).interval
  }

  /** Where the executor stands after the last request of the run failed. */
  function Last(o: Operation, requests: seq<Request>, turns: seq<Turn>): Executor
    requires o.First().Some? && |turns| < |requests|
    requires At(o.Start(), o.maxAttempts, requests, turns, |turns|).Some?
  {
    At(o.Start(), o.maxAttempts, requests, turns, |turns|).value
  }

  /** At most one request more than the policy's attempts. */
  lemma RequestsAreBounded(o: Operation, requests: seq<Request>, turns: seq<Turn>)
    requires Run(o, requests, turns)
    ensures |requests| <= (if o.maxAttempts > 0 then o.maxAttempts else 0) + 1
  {
    var e, last := o.Start(), |requests| - 1;
    CountsRequests(e, o.maxAttempts, requests, turns, last);
    if last > 0 {
      assert Waits(e, o.maxAttempts, requests, turns, last - 1);
      CountsRequests(e, o.maxAttempts, requests, turns, last - 1);
    }
  }

  lemma {:induction false} CountsRequests(e: Executor, maxAttempts: int, requests: seq<Request>, turns: seq<Turn>,
                                          i: nat)
    requires i <= |turns| && i <= |requests| && At(e, maxAttempts, requests, turns, i).Some?
    ensures At(e, maxAttempts, requests, turns, i).value.count == e.count + i
  {
    if i > 0 {
      CountsRequests(e, maxAttempts, requests, turns, i - 1);
    }
  }

  // ---------- which failures are followed by another request, and where it goes ----------

  /** A command that is locked to one location cannot be sent in the mode that only knows the other one. */
  predicate Contradicts(mode: Mode, lock: Option<Location>) {
    (mode == SecondaryOnly && lock == Some(Primary)) || (mode == PrimaryOnly && lock == Some(Secondary))
  }

  predicate NotFoundAtSecondary(r: Request) { r.status == 404 && r.location == Secondary }

  lemma RetryIff(e: Executor, r: Request, maxAttempts: int, t: Turn)
    ensures var mode := if NotFoundAtSecondary(r) && e.mode != SecondaryOnly then PrimaryOnly else e.mode;
      Retry(e, r, maxAttempts, t).Some? <==>
        && e.count < maxAttempts
        && (r.status < 300 || r.status == 408 || NotFoundAtSecondary(r)
            || (500 <= r.status && r.status != 501 && r.status != 505))
        && !Contradicts(mode, t.lock)
  {}

  /** The executor at request i depends on what came before it only. */
  lemma {:induction false} AtPrefix(e: Executor, maxAttempts: int, requests: seq<Request>, turns: seq<Turn>, q: Request,
                                    t: Turn, i: nat)
    requires i <= |turns| && i <= |requests|
    ensures At(e, maxAttempts, requests + [q], turns + [t], i) == At(e, maxAttempts, requests, turns, i)
  {
    hide Retry;
    if i > 0 {
      AtPrefix(e, maxAttempts, requests, turns, q, t, i - 1);
    }
  }

  /** A failed run goes on exactly if attempts are left, the status is one that is retried, and the location mode
      does not contradict the lock of the command. */
  lemma FollowedIff(o: Operation, requests: seq<Request>, turns: seq<Turn>, t: Turn)
    requires Run(o, requests, turns) && requests[|turns|].end <= t.now
    ensures At(o.Start(), o.maxAttempts, requests, turns, |turns|).Some?
    ensures var r, mode := requests[|turns|], Last(o, requests, turns).mode;
      (exists q :: Run(o, requests + [q], turns + [t])) <==>
        && |requests| <= o.maxAttempts
        && (r.status < 300 || r.status == 408 || NotFoundAtSecondary(r)
            || (500 <= r.status && r.status != 501 && r.status != 505))
        && !Contradicts(if NotFoundAtSecondary(r) && mode != SecondaryOnly then PrimaryOnly else mode, t.lock)
  {
    var n, e, r := |turns|, o.Start(), requests[|turns|];
    CountsRequests(e, o.maxAttempts, requests, turns, n);
    StartsFresh(o);
    var last := Last(o, requests, turns);
    RetryIff(last, r, o.maxAttempts, t);
    if Retry(last, r, o.maxAttempts, t).Some? {
      var q := NextRequest(o, requests, turns, t);
    }
    if q :| Run(o, requests + [q], turns + [t]) {
      hide Retry, Waits;
      AtPrefix(e, o.maxAttempts, requests, turns, q, t, n);
      assert At(e, o.maxAttempts, requests + [q], turns + [t], n + 1).Some?;
    }
  }

  lemma AtAppended(e: Executor, maxAttempts: int, requests: seq<Request>, turns: seq<Turn>, q: Request, t: Turn)
    requires |turns| + 1 == |requests|
    ensures forall i :: 0 <= i < |requests| ==>
      At(e, maxAttempts, requests + [q], turns + [t], i) == At(e, maxAttempts, requests, turns, i)
  {
    forall i | 0 <= i < |requests|
      ensures At(e, maxAttempts, requests + [q], turns + [t], i) == At(e, maxAttempts, requests, turns, i)
    {
      AtPrefix(e, maxAttempts, requests, turns, q, t, i);
    }
  }

  /** Request i goes where the executor stands. */
  ghost predicate Sends(e: Executor, maxAttempts: int, requests: seq<Request>, turns: seq<Turn>, i: nat)
    requires i <= |turns| && i < |requests|
  {
    && At(e, maxAttempts, requests, turns, i).Some?
    && requests[i].location == At(e, maxAttempts, requests, turns, i).value.location
    && requests[i].start <= requests[i].end
  }

  ghost predicate Leads(e: Executor, maxAttempts: int, requests: seq<Request>, turns: seq<Turn>, i: nat)
    requires i < |turns| && i + 1 < |requests|
  {
    requests[i].end <= turns[i].now && Waits(e, maxAttempts, requests, turns, i)
  }

  /** What a run consists of, request by request. */
  lemma RunParts(o: Operation, requests: seq<Request>, turns: seq<Turn>)
    requires o.First().Some? && |turns| + 1 == |requests|
    requires forall i :: 0 <= i < |requests| ==> Sends(o.Start(), o.maxAttempts, requests, turns, i)
    requires forall i :: 0 <= i < |turns| ==> Leads(o.Start(), o.maxAttempts, requests, turns, i)
    ensures Run(o, requests, turns)
  {
    hide At, Waits, Operation.Start, Operation.First;
    forall i | 0 <= i < |requests|
      ensures At(o.Start(), o.maxAttempts, requests, turns, i).Some? && requests[i].start <= requests[i].end
        && requests[i].location == At(o.Start(), o.maxAttempts, requests, turns, i).value.location
    {
      assert Sends(o.Start(), o.maxAttempts, requests, turns, i);
    }
    forall i | 0 <= i < |turns|
      ensures requests[i].end <= turns[i].now && Waits(o.Start(), o.maxAttempts, requests, turns, i)
    {
      assert Leads(o.Start(), o.maxAttempts, requests, turns, i);
    }
  }

  lemma PartOfRun(o: Operation, requests: seq<Request>, turns: seq<Turn>, i: nat)
    requires Run(o, requests, turns) && i < |requests|
    ensures |requests| == |turns| + 1 && o.First().Some? && Sends(o.Start(), o.maxAttempts, requests, turns, i)
    ensures i < |turns| ==> Leads(o.Start(), o.maxAttempts, requests, turns, i)
  {
    hide At, Waits, Operation.Start, Operation.First;
  }

  lemma SendsStill(e: Executor, maxAttempts: int, requests: seq<Request>, turns: seq<Turn>, q: Request, t: Turn, i: nat)
    requires i < |requests| && i <= |turns| && Sends(e, maxAttempts, requests, turns, i)
    requires At(e, maxAttempts, requests + [q], turns + [t], i) == At(e, maxAttempts, requests, turns, i)
    ensures Sends(e, maxAttempts, requests + [q], turns + [t], i)
  {
    hide At;
  }

  lemma LeadsStill(e: Executor, maxAttempts: int, requests: seq<Request>, turns: seq<Turn>, q: Request, t: Turn, i: nat)
    requires i < |turns| && i + 1 < |requests| && Leads(e, maxAttempts, requests, turns, i)
    requires At(e, maxAttempts, requests + [q], turns + [t], i) == At(e, maxAttempts, requests, turns, i)
    ensures Leads(e, maxAttempts, requests + [q], turns + [t], i)
  {
    hide At, Ask;
  }

  lemma RunCounts(o: Operation, requests: seq<Request>, turns: seq<Turn>)
    requires Run(o, requests, turns)
    ensures |requests| == |turns| + 1 && o.First().Some?
  {}

  /** A run grows by a request that its executor sends. */
  lemma RunGrows(o: Operation, requests: seq<Request>, turns: seq<Turn>, q: Request, t: Turn)
    requires Run(o, requests, turns)
    requires Sends(o.Start(), o.maxAttempts, requests + [q], turns + [t], |requests|)
    requires Leads(o.Start(), o.maxAttempts, requests + [q], turns + [t], |turns|)
    ensures Run(o, requests + [q], turns + [t])
  {
    hide At, Operation.Start, Operation.First, Waits, Sends, Leads;
    var e, requests', turns' := o.Start(), requests + [q], turns + [t];
    AtAppended(e, o.maxAttempts, requests, turns, q, t);
    RunCounts(o, requests, turns);
    hide Run;
    forall i | 0 <= i < |requests'| ensures Sends(e, o.maxAttempts, requests', turns', i) {
      if i < |requests| {
        PartOfRun(o, requests, turns, i);
        SendsStill(e, o.maxAttempts, requests, turns, q, t, i);
      }
    }
    forall i | 0 <= i < |turns'| ensures Leads(e, o.maxAttempts, requests', turns', i) {
      if i < |turns| {
        PartOfRun(o, requests, turns, i);
        LeadsStill(e, o.maxAttempts, requests, turns, q, t, i);
      }
    }
    RunParts(o, requests', turns');
  }

  lemma NextSends(e: Executor, last: Executor, maxAttempts: int, requests: seq<Request>, turns: seq<Turn>, q: Request,
                  t: Turn)
    requires |requests| == |turns| + 1 && At(e, maxAttempts, requests, turns, |turns|) == Some(last)
    requires Retry(last, requests[|turns|], maxAttempts, t).Some? && requests[|turns|].end <= t.now
    requires q.location == Retry(last, requests[|turns|], maxAttempts, t).value.location && q.start <= q.end
    requires q.start == t.now + TICKS_PER_MS * Ask(last, requests[|turns|], maxAttempts, t).0.interval
    ensures Sends(e, maxAttempts, requests + [q], turns + [t], |requests|)
    ensures Leads(e, maxAttempts, requests + [q], turns + [t], |turns|)
  {
    var n := |turns|;
    AtPrefix(e, maxAttempts, requests, turns, q, t, n);
    AskedForRetry(last, requests[n], maxAttempts, t);
    assert (requests + [q])[n] == requests[n] && (turns + [t])[n] == t;
    hide Retry, Ask;
  }

  /** The next request may start as soon as the policy's interval is over. */
  lemma NextRequest(o: Operation, requests: seq<Request>, turns: seq<Turn>, t: Turn) returns (q: Request)
    requires Run(o, requests, turns) && requests[|turns|].end <= t.now
    requires Retry(Last(o, requests, turns), requests[|turns|], o.maxAttempts, t).Some?
    ensures Run(o, requests + [q], turns + [t])
  {
    RunCounts(o, requests, turns);
    var last := Last(o, requests, turns);
    hide *;
    var next := Retry(last, requests[|turns|], o.maxAttempts, t).value;
    var start := t.now + TICKS_PER_MS * Ask(last, requests[|turns|], o.maxAttempts, t).0.interval;
    q := Request(next.location, start, start, 200);
    NextSends(o.Start(), last, o.maxAttempts, requests, turns, q, t);
    RunGrows(o, requests, turns, q, t);
  }

  lemma AskedForRetry(e: Executor, r: Request, maxAttempts: int, t: Turn)
    requires Retry(e, r, maxAttempts, t).Some?
    ensures Ask(e, r, maxAttempts, t).0.DoRetry?
  {}

  /** One request goes where the lock says, and else where the location mode says; only after a 404 from the secondary
      does an operation that knows both locations go to the primary for good. */
  lemma NextGoes(e: Executor, r: Request, maxAttempts: int, t: Turn)
    requires Retry(e, r, maxAttempts, t).Some?
    ensures var e', back := Retry(e, r, maxAttempts, t).value, NotFoundAtSecondary(r) && e.mode != SecondaryOnly;
      && (t.lock.Some? ==> e'.location == t.lock.value)
      && (t.lock.None? && (back || e.mode == PrimaryOnly) ==> e'.location == Primary)
      && (t.lock.None? && e.mode == SecondaryOnly ==> e'.location == Secondary)
      && (t.lock.None? && !back && e.mode != PrimaryOnly && e.mode != SecondaryOnly ==> e'.location != e.location)
      && (t.lock.None? ==> e'.mode == if back then PrimaryOnly else e.mode)
      && (back ==> e'.mode == PrimaryOnly && e'.location == Primary)
      && (e.mode == PrimaryOnly ==> e'.mode == PrimaryOnly && e'.location == Primary)
  {}

  /** After a 404 from the secondary every later request goes to the primary, except in secondary-only mode. */
  lemma {:induction false} PrimaryAfterNotFound(o: Operation, requests: seq<Request>, turns: seq<Turn>, i: nat, j: nat)
    requires Run(o, requests, turns) && i < j < |requests| && NotFoundAtSecondary(requests[i])
    requires At(o.Start(), o.maxAttempts, requests, turns, i).Some?
      && At(o.Start(), o.maxAttempts, requests, turns, i).value.mode != SecondaryOnly
    ensures requests[j].location == Primary
    ensures At(o.Start(), o.maxAttempts, requests, turns, j).Some?
      && At(o.Start(), o.maxAttempts, requests, turns, j).value.mode == PrimaryOnly
    decreases j
  {
    hide Retry, Waits;
    if i < j - 1 {
      PrimaryAfterNotFound(o, requests, turns, i, j - 1);
    }
    assert At(o.Start(), o.maxAttempts, requests, turns, j).Some?;
    NextGoes(At(o.Start(), o.maxAttempts, requests, turns, j - 1).value, requests[j - 1], o.maxAttempts, turns[j - 1]);
  }

  /** Before request i the secondary answered 404. */
  predicate NotFoundBefore(requests: seq<Request>, i: nat)
    requires i <= |requests|
  {
    exists j :: 0 <= j < i && NotFoundAtSecondary(requests[j])
  }

  /** Where request i of an operation that is never locked goes: a mode that knows both locations starts at the
      first one and takes turns, until the secondary answers 404. */
  function Expected(mode: Mode, requests: seq<Request>, i: nat): Location
    requires i <= |requests|
  {
    match mode
    case PrimaryOnly => Primary
    case SecondaryOnly => Secondary
    case _ =>
      if NotFoundBefore(requests, i) then Primary
      else if (i % 2 == 0) == (mode == PrimaryThenSecondary) then Primary else Secondary
  }

  function ExpectedMode(mode: Mode, requests: seq<Request>, i: nat): Mode
    requires i <= |requests|
  {
    if mode != SecondaryOnly && NotFoundBefore(requests, i) then PrimaryOnly else mode
  }

  lemma NotFoundNext(requests: seq<Request>, i: nat)
    requires i < |requests|
    ensures NotFoundBefore(requests, i + 1) <==> NotFoundBefore(requests, i) || NotFoundAtSecondary(requests[i])
    ensures !NotFoundBefore(requests, 0)
  {
    hide NotFoundAtSecondary;
  }

  lemma ExpectedNext(mode: Mode, requests: seq<Request>, i: nat, e: Executor, maxAttempts: int, t: Turn)
    requires i < |requests| && t.lock.None? && Retry(e, requests[i], maxAttempts, t).Some?
    requires requests[i].location == e.location == Expected(mode, requests, i)
    requires e.mode == ExpectedMode(mode, requests, i)
    ensures Retry(e, requests[i], maxAttempts, t).value.location == Expected(mode, requests, i + 1)
    ensures Retry(e, requests[i], maxAttempts, t).value.mode == ExpectedMode(mode, requests, i + 1)
  {
    NextGoes(e, requests[i], maxAttempts, t);
    NotFoundNext(requests, i);
    hide Retry, NotFoundBefore;
  }

  lemma {:induction false} GoesWhereExpected(o: Operation, requests: seq<Request>, turns: seq<Turn>, i: nat)
    requires Run(o, requests, turns) && i < |requests|
    requires o.limit.None? && forall j :: 0 <= j < |turns| ==> turns[j].lock.None?
    ensures requests[i].location == Expected(o.mode, requests, i)
    ensures At(o.Start(), o.maxAttempts, requests, turns, i).Some?
    ensures At(o.Start(), o.maxAttempts, requests, turns, i).value.location == requests[i].location
    ensures At(o.Start(), o.maxAttempts, requests, turns, i).value.mode == ExpectedMode(o.mode, requests, i)
  {
    hide Retry, Waits;
    assert At(o.Start(), o.maxAttempts, requests, turns, i).Some?;
    if i > 0 {
      hide Expected, ExpectedMode;
      GoesWhereExpected(o, requests, turns, i - 1);
      ExpectedNext(o.mode, requests, i - 1, At(o.Start(), o.maxAttempts, requests, turns, i - 1).value, o.maxAttempts,
        turns[i - 1]);
    }
  }

  /** A command that is limited to one location is sent there and nowhere else, or not at all. */
  lemma LimitedGoes(o: Operation, requests: seq<Request>, turns: seq<Turn>, i: nat)
    requires Run(o, requests, turns) && i < |requests|
    requires o.limit.Some? && forall j :: 0 <= j < |turns| ==> turns[j].lock == o.limit
    ensures requests[i].location == o.limit.value && !Contradicts(o.mode, o.limit)
  {
    hide Retry, Waits;
    assert At(o.Start(), o.maxAttempts, requests, turns, i).Some?;
    if i > 0 {
      NextGoes(At(o.Start(), o.maxAttempts, requests, turns, i - 1).value, requests[i - 1], o.maxAttempts,
        turns[i - 1]);
    }
  }

  /** Exactly a command that contradicts the mode is never sent. */
  lemma NeverSentIff(o: Operation)
    ensures (exists requests, turns :: Run(o, requests, turns)) <==> !Contradicts(o.mode, o.limit)
  {
    if !Contradicts(o.mode, o.limit) {
      var r := Request(o.Start().location, 0, 0, 200);
      assert At(o.Start(), o.maxAttempts, [r], [], 0).Some?;
      assert Run(o, [r], []);
    }
  }

  // ---------- spacing ----------

  /** The start of a retry that waited what the policy computed from a record `last` when it was asked at `now`. */
  function Earliest(last: Option<int>, now: int, backoff: int): int {
    now + TICKS_PER_MS * Aligned(last, now, backoff)
  }

  /** Rounding the elapsed time down to seconds never shortens the wait below the backoff. */
  lemma AlignedWaits(last: int, now: int, backoff: int)
    requires last <= now
    ensures Earliest(Some(last), now, backoff) >= last + TICKS_PER_MS * backoff
  {
    var s := WholeSeconds(now - last);
    assert TICKS_PER_SECOND * s <= now - last;
  }

  /** And it never lengthens it by a second or more. */
  lemma AlignedHurries(last: int, now: int, backoff: int)
    requires last <= now
    ensures Earliest(None, now, backoff) == now
    ensures Earliest(Some(last), now, backoff) == now
      || Earliest(Some(last), now, backoff) < last + 10_000 * backoff + 10_000_000
  {
    var s := WholeSeconds(now - last);
    assert now - last < TICKS_PER_SECOND * s + TICKS_PER_SECOND;
  }

  /** The end of the last of the first i requests that went to l, if any did. */
  function LastEnd(requests: seq<Request>, i: nat, l: Location): Option<int>
    requires i <= |requests|
  {
    if i == 0 then None
    else if requests[i - 1].location == l then Some(requests[i - 1].end)
    else LastEnd(requests, i - 1, l)
  }

  lemma AskNotes(e: Executor, r: Request, maxAttempts: int, t: Turn)
    ensures Ask(e, r, maxAttempts, t).0.DoRetry? ==>
      && Ask(e, r, maxAttempts, t).0.interval >= 0
      && Ask(e, r, maxAttempts, t).1 == e.records.Note(r.location, r.end)
    ensures Retry(e, r, maxAttempts, t).Some? ==>
      Retry(e, r, maxAttempts, t).value.records == e.records.Note(r.location, r.end)
  {}

  lemma StartsFresh(o: Operation)
    requires o.First().Some?
    ensures o.Start().records == Records(None, None) && o.Start().count == 0
  {}

  /** The executor of one request of a run comes from that of the previous one. */
  lemma InRun(o: Operation, requests: seq<Request>, turns: seq<Turn>, i: nat)
    requires Run(o, requests, turns) && i < |requests|
    ensures |requests| == |turns| + 1
    ensures o.First().Some? && At(o.Start(), o.maxAttempts, requests, turns, i).Some?
    ensures i == 0 ==> At(o.Start(), o.maxAttempts, requests, turns, i).value == o.Start()
    ensures i > 0 ==>
      && At(o.Start(), o.maxAttempts, requests, turns, i - 1).Some?
      && At(o.Start(), o.maxAttempts, requests, turns, i)
         == Retry(At(o.Start(), o.maxAttempts, requests, turns, i - 1).value, requests[i - 1], o.maxAttempts,
           turns[i - 1])
  {
    hide Retry, Waits, Operation.Start, Operation.First;
  }

  /** The policy's records are right: they hold the end of the last request to either location. */
  lemma {:induction false} RecordsAreRight(o: Operation, requests: seq<Request>, turns: seq<Turn>, i: nat, l: Location)
    requires Run(o, requests, turns) && i < |requests|
    ensures At(o.Start(), o.maxAttempts, requests, turns, i).Some?
    ensures At(o.Start(), o.maxAttempts, requests, turns, i).value.records.At(l) == LastEnd(requests, i, l)
  {
    hide At, Retry, Ask, Run, Operation.Start, Operation.First;
    InRun(o, requests, turns, i);
    if i == 0 {
      StartsFresh(o);
    } else {
      RecordsAreRight(o, requests, turns, i - 1, l);
      AskNotes(At(o.Start(), o.maxAttempts, requests, turns, i - 1).value, requests[i - 1], o.maxAttempts,
        turns[i - 1]);
    }
  }

  lemma TimeGoesOn(o: Operation, requests: seq<Request>, turns: seq<Turn>, i: nat)
    requires Run(o, requests, turns) && i < |turns|
    ensures turns[i].now <= requests[i + 1].start
  {
    hide At, Ask;
    assert Waits(o.Start(), o.maxAttempts, requests, turns, i);
    AskNotes(At(o.Start(), o.maxAttempts, requests, turns, i).value, requests[i], o.maxAttempts, turns[i]);
  }

  /** Time goes on: no request before the last one ends later than it. */
  lemma {:induction false} EndsBefore(o: Operation, requests: seq<Request>, turns: seq<Turn>, i: nat, l: Location)
    requires Run(o, requests, turns) && i < |requests|
    ensures LastEnd(requests, i + 1, l).Some? ==> LastEnd(requests, i + 1, l).value <= requests[i].end
  {
    hide Waits, At;
    if i > 0 && requests[i].location != l {
      EndsBefore(o, requests, turns, i - 1, l);
      TimeGoesOn(o, requests, turns, i - 1);
    }
  }

  /** A retry at the location the policy chose starts no earlier than the end of the previous request there
      plus the backoff, whatever detours lay between. */
  lemma RetriesAreSpaced(o: Operation, requests: seq<Request>, turns: seq<Turn>, i: nat)
    requires Run(o, requests, turns) && i < |turns|
    ensures At(o.Start(), o.maxAttempts, requests, turns, i).Some?
    ensures Answer(o.Start(), o.maxAttempts, requests, turns, i).DoRetry?
    ensures var l := requests[i + 1].location;
      Answer(o.Start(), o.maxAttempts, requests, turns, i).target == l && LastEnd(requests, i + 1, l).Some? ==>
        requests[i + 1].start >= LastEnd(requests, i + 1, l).value + 10_000 * turns[i].backoff
  {
    hide At;
    var e, l := o.Start(), requests[i + 1].location;
    assert Waits(e, o.maxAttempts, requests, turns, i);
    RecordsAreRight(o, requests, turns, i, l);
    EndsBefore(o, requests, turns, i, l);
    if LastEnd(requests, i + 1, l).Some? {
      AlignedWaits(LastEnd(requests, i + 1, l).value, turns[i].now, turns[i].backoff);
    }
  }

  // ---------- the location the retry is aligned for is not always the one it goes to ----------

  /** Every moment the policy may be asked at leads to a start at least the backoff after `end`. */
  ghost predicate AlwaysSpaced(last: Option<int>, now: int, end: int, backoff: int) {
    forall later :: now <= later ==> Spaced(last, later, end, backoff)
  }

  predicate Spaced(last: Option<int>, now: int, end: int, backoff: int) {
    Earliest(last, now, backoff) >= end + TICKS_PER_MS * backoff
  }

  /** The record a wait was computed from is of no use for a location used until `end`: there is none, or it is older,
      by more than what the rounding to seconds gives away. */
  predicate Outdated(last: Option<int>, end: int, backoff: int) {
    0 < backoff
    && (last.None? || (last.value < end && last.value + TICKS_PER_SECOND < end + TICKS_PER_MS * backoff))
  }

  /** A wait computed from a record is long enough for a location used until `end` if and only if the record is not
      outdated for it. */
  lemma SpacedIff(last: Option<int>, end: int, backoff: int)
    ensures AlwaysSpaced(last, end, end, backoff) <==> !Outdated(last, end, backoff)
  {
    if Outdated(last, end, backoff) {
      if last.Some? {
        TooEarly(last.value, end, backoff);
      } else {
        assert !Spaced(last, end, end, backoff);
      }
    } else {
      forall now | end <= now ensures Spaced(last, now, end, backoff) {
        if 0 < backoff {
          LongEnough(last.value, now, end, backoff);
        }
      }
    }
  }

  lemma TooEarly(last: int, end: int, backoff: int)
    requires Outdated(Some(last), end, backoff)
    ensures exists now :: end <= now && !Spaced(Some(last), now, end, backoff)
  {
    if end - last < TICKS_PER_SECOND {
      var now := last + TICKS_PER_SECOND;
      assert WholeSeconds(now - last) == 1;
      assert !Spaced(Some(last), now, end, backoff);
    } else {
      assert WholeSeconds(end - last) >= 1;
      assert !Spaced(Some(last), end, end, backoff);
    }
  }

  lemma LongEnough(last: int, now: int, end: int, backoff: int)
    requires end <= now && 0 < backoff && !Outdated(Some(last), end, backoff)
    ensures Spaced(Some(last), now, end, backoff)
  {
    if last <= now {
      AlignedWaits(last, now, backoff);
      if now - last < TICKS_PER_SECOND {
        assert WholeSeconds(now - last) == 0;
      }
    }
  }

  /** What the policy answers if it is asked at `now` about the failed request r. */
  function AnswerAt(e: Executor, r: Request, maxAttempts: int, t: Turn, now: int): RetryInfo {
    Ask(e, r, maxAttempts, t.(now := now)).0
  }

  /** Whenever after the last request of the run the policy is asked, the retry at l starts the backoff after `end`. */
  ghost predicate NextIsSpaced(e: Executor, r: Request, maxAttempts: int, t: Turn, end: int) {
    forall now :: r.end <= now ==> NextStart(e, r, maxAttempts, t, now) >= end + TICKS_PER_MS * t.backoff
  }

  function NextStart(e: Executor, r: Request, maxAttempts: int, t: Turn, now: int): int {
    var info := AnswerAt(e, r, maxAttempts, t, now);
    if info.DoRetry? then now + TICKS_PER_MS * info.interval else now
  }

  /** After any run: the next request is always spaced from the previous one at its location l, if and only if the
      record that the policy computed the wait from, that of the location it aimed at, is not outdated for l. It can
      only be outdated where a lock redirects the retry to the location just used. */
  lemma NextIsSpacedIff(o: Operation, requests: seq<Request>, turns: seq<Turn>, t: Turn)
    requires Run(o, requests, turns) && Retry(Last(o, requests, turns), requests[|turns|], o.maxAttempts, t).Some?
    ensures var e, r := Last(o, requests, turns), requests[|turns|];
      var l, target := Retry(e, r, o.maxAttempts, t).value.location, AnswerAt(e, r, o.maxAttempts, t, t.now).target;
      var end, record := LastEnd(requests, |requests|, l), LastEnd(requests, |requests|, target);
      end.Some? ==>
        && (NextIsSpaced(e, r, o.maxAttempts, t, end.value) <==> !Outdated(record, end.value, t.backoff))
        && (Outdated(record, end.value, t.backoff) ==> target != l && r.location == l)
  {
    hide At, Waits, Retry, Ask, AnswerAt, NextStart, Earliest, Operation.Start, Operation.First;
    InRun(o, requests, turns, |turns|);
    hide Run;
    var n, r, e := |turns|, requests[|turns|], Last(o, requests, turns);
    RetryIsAnswered(e, r, o.maxAttempts, t);
    var l, target := Retry(e, r, o.maxAttempts, t).value.location, AnswerAt(e, r, o.maxAttempts, t, t.now).target;
    RecordsAreRight(o, requests, turns, n, target);
    EndsBefore(o, requests, turns, n, l);
    var end, record := LastEnd(requests, n + 1, l), LastEnd(requests, n + 1, target);
    if end.Some? {
      assert record == e.records.Note(r.location, r.end).At(target);
      forall now ensures NextStart(e, r, o.maxAttempts, t, now) == Earliest(record, now, t.backoff) {
        IntervalIsAligned(e, r, o.maxAttempts, t, now, record);
      }
      if r.location == l {
        SpacedIff(record, end.value, t.backoff);
        NextIsAlways(e, r, o.maxAttempts, t, end.value, record);
      } else {
        assert record == if target == l then end else Some(r.end);
        NotRedirected(e, r, o.maxAttempts, t, end.value, record.value);
      }
    }
  }

  lemma RetryIsAnswered(e: Executor, r: Request, maxAttempts: int, t: Turn)
    requires Retry(e, r, maxAttempts, t).Some?
    ensures AnswerAt(e, r, maxAttempts, t, t.now).DoRetry?
  {}

  lemma NextIsAlways(e: Executor, r: Request, maxAttempts: int, t: Turn, end: int, record: Option<int>)
    requires forall now :: NextStart(e, r, maxAttempts, t, now) == Earliest(record, now, t.backoff)
    requires r.end == end
    ensures NextIsSpaced(e, r, maxAttempts, t, end) <==> AlwaysSpaced(record, end, end, t.backoff)
  {
    hide NextStart, Earliest;
    if NextIsSpaced(e, r, maxAttempts, t, end) {
      forall now | end <= now ensures Spaced(record, now, end, t.backoff) {
        assert NextStart(e, r, maxAttempts, t, now) >= end + TICKS_PER_MS * t.backoff;
      }
    } else {
      var now :| end <= now && NextStart(e, r, maxAttempts, t, now) < end + TICKS_PER_MS * t.backoff;
      assert !Spaced(record, now, end, t.backoff);
    }
  }

  lemma NotRedirected(e: Executor, r: Request, maxAttempts: int, t: Turn, end: int, record: int)
    requires forall now :: NextStart(e, r, maxAttempts, t, now) == Earliest(Some(record), now, t.backoff)
    requires end <= record <= r.end
    ensures NextIsSpaced(e, r, maxAttempts, t, end)
  {
    hide NextStart, Earliest;
    forall now | r.end <= now ensures NextStart(e, r, maxAttempts, t, now) >= end + TICKS_PER_MS * t.backoff {
      AlignedWaits(record, now, t.backoff);
    }
  }

  /** The interval of an answer is what is left of the backoff since the target's record. */
  lemma IntervalIsAligned(e: Executor, r: Request, maxAttempts: int, t: Turn, now: int, record: Option<int>)
    requires AnswerAt(e, r, maxAttempts, t, t.now).DoRetry?
    requires record == e.records.Note(r.location, r.end).At(AnswerAt(e, r, maxAttempts, t, t.now).target)
    ensures NextStart(e, r, maxAttempts, t, now) == Earliest(record, now, t.backoff)
  {}

  /** And such a redirection happens: reading primary-then-secondary, the first response locks the command to the
      primary and breaks off; the policy aims at the secondary, never used, and the primary is asked again at once. */
  lemma LockedRetryComesAtOnce()
    ensures exists requests: seq<Request>, turns: seq<Turn> ::
      && Run(Operation(PrimaryThenSecondary, None, 3), requests, turns) && |turns| == 1 && turns[0].backoff == 3_000
      && requests[0].location == requests[1].location == Primary && requests[1].start == requests[0].end
  {
    var r0, r1 := Request(Primary, 0, 10, 200), Request(Primary, 10, 20, 200);
    var t := Turn(3_000, 10, Some(Primary));
    var requests, turns := [r0, r1], [t];
    var o := Operation(PrimaryThenSecondary, None, 3);
    var e := o.Start();
    assert At(e, 3, requests, turns, 0) == Some(e);
    assert Answer(e, 3, requests, turns, 0) == DoRetry(Secondary, PrimaryThenSecondary, 0);
    assert At(e, 3, requests, turns, 1) == Some(Executor(PrimaryOnly, Primary, 1, Records(Some(10), None)));
    assert Waits(e, 3, requests, turns, 0);
    assert Run(o, requests, turns);
  }
}
