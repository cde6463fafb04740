/** Append-blob writes over a network that loses, delays and reorders: every buffer of a stream is sent with the
    position it must land at, retried after failures, and a refused retry may be taken for a late success. */
module AppendStream {
  import opened Common

  /** One output stream: what the blob holds when the stream opens, the position the stream believes it starts at,
      the buffers the writer will hand over, the max-size condition, the absorb option, and whether the append call may
      itself throw. */
  datatype Config = Config(
    initial: seq<byte>, start: nat, buffers: seq<seq<byte>>, maxSize: Option<nat>, absorb: bool, throws: bool) {

    /** Empty buffers are never uploaded. */
    ghost predicate Valid() { forall k :: 0 <= k < |buffers| ==> buffers[k] != [] }

    /** The first k buffers, joined. */
    function Joined(k: nat): seq<byte>
      requires k <= |buffers|
    {
      Common.Joined(buffers, k)
    }

    /** The append position of buffer k: m_current_blob_offset when it was prepared. */
    function Position(k: nat): nat
      requires k <= |buffers|
    {
      start + |Joined(k)|
    }

    predicate Allowed(size: nat) { maxSize.Some? ==> size <= maxSize.value }
  }

  /** Attempt number `attempt` (from 1) at appending buffer k. */
  datatype Request = Request(k: nat, attempt: nat)

  datatype State = State(
    blob: seq<byte>,          // at the server
    network: set<Request>,    // sent and neither delivered nor lost
    prepared: nat,            // calls of upload_buffer so far
    queued: nat,              // how many of those waited or wait for the permit
    taken: nat,               // how many of those got it
    done: nat,                // appends that ended without an exception
    attempt: nat,             // requests sent for buffer taken - 1 while the permit is held, else 0
    thrown: Option<nat>,      // the first buffer whose append call threw, if any did
    failed: bool)             // m_currentException is set

  function Init(c: Config): State {
    State(c.initial, {}, 0, 0, 0, 0, 0, None, false)
  }

  datatype Action =
    | Prepare                               // the writer's buffer is full: upload_buffer
    | Start                                 // the permit is granted to the next buffer
    | Throw                                 // the same, and the append call throws; the exception is dropped
    | Deliver(r: Request, answered: bool)   // the server handles a request; its answer arrives in time or not
    | Lose(r: Request)
    | Retry                                 // the attempt failed without an answer and is repeated
    | GiveUp                                // or not

  predicate Enabled(c: Config, s: State, a: Action) {
    match a
    case Prepare => s.prepared < |c.buffers|
    case Start => s.attempt == 0 && s.taken < s.queued
    case Throw => c.throws && s.attempt == 0 && s.taken < s.queued && !s.failed
    case Deliver(r, answered) =>
      r in s.network && r.k < |c.buffers|
      && (answered ==> s.attempt > 0 && s.taken > 0 && r == Request(s.taken - 1, s.attempt))
    case Lose(r) => r in s.network
    case Retry => s.attempt > 0 && s.taken > 0
    case GiveUp => s.attempt > 0
  }

  /** The server's two conditions: the append position and the maximum size. */
  predicate Accepts(c: Config, blob: seq<byte>, k: nat)
    requires k < |c.buffers|
  {
    |blob| == c.Position(k) && c.Allowed(|blob| + |c.buffers[k]|)
  }

  function Send(s: State): State
    requires s.taken > 0
  {
    s.(attempt := s.attempt + 1, network := s.network + {Request(s.taken - 1, s.attempt + 1)})
  }

  function Apply(c: Config, s: State, a: Action): State
    requires Enabled(c, s, a)
  {
    match a
    case Prepare =>
      if c.Allowed(c.Position(s.prepared + 1)) then s.(prepared := s.prepared + 1, queued := s.queued + 1)
      else s.(prepared := s.prepared + 1, failed := true)
    case Start =>
      if s.failed then s.(taken := s.taken + 1) else Send(s.(taken := s.taken + 1))
    case Throw => s.(taken := s.taken + 1, thrown := if s.thrown.Some? then s.thrown else Some(s.taken))
    case Deliver(r, answered) =>
      var accepted := Accepts(c, s.blob, r.k);
      var s' := s.(network := s.network - {r}, blob := if accepted then s.blob + c.buffers[r.k] else s.blob);
      if !answered then s'
      // a 412 on a retry is ignored: the request is taken to have succeeded before
      else if accepted || (c.absorb && s.attempt > 1) then s'.(attempt := 0, done := s.done + 1)
      else s'.(attempt := 0, failed := true)
    case Lose(r) => s.(network := s.network - {r})
    case Retry => Send(s)
    case GiveUp => s.(attempt := 0, failed := true)
  }

  ghost predicate Reaches(c: Config, s: State, acts: seq<Action>, s': State)
    decreases |acts|
  {
    if acts == [] then s' == s
    else Enabled(c, s, acts[0]) && Reaches(c, Apply(c, s, acts[0]), acts[1..], s')
  }

  /** _sync found every prepared buffer handled and no exception. */
  predicate CleanSync(s: State) {
    s.attempt == 0 && s.taken == s.queued && !s.failed
  }

  // ---------- a stream that opened at the real end of the blob ----------

  lemma {:induction false} JoinedGrows(c: Config, j: nat, k: nat)
    requires c.Valid() && j < k <= |c.buffers|
    ensures |c.Joined(j)| < |c.Joined(k)|
  {
    if j < k - 1 {
      JoinedGrows(c, j, k - 1);
    }
  }

  ghost predicate Holds(c: Config, s: State, k: nat) {
    k <= |c.buffers| && s.blob == c.initial + c.Joined(k)
  }

  /** Buffer k fits under the maximum size at its position. */
  predicate Fits(c: Config, k: nat)
    requires k < |c.buffers|
  {
    c.Allowed(c.Position(k + 1))
  }

  /** The order of things on the client and on the wire, whatever the server holds. */
  ghost predicate Counters(c: Config, s: State) {
    && s.done <= s.taken <= s.queued <= s.prepared <= |c.buffers|
    && (s.queued < s.prepared ==> s.failed && !Fits(c, s.queued))
    && (forall k :: 0 <= k < s.queued ==> Fits(c, k))
    && (forall r :: r in s.network ==> r.k < s.taken && 1 <= r.attempt)
    && (s.attempt > 0 ==> 0 < s.taken && forall r :: r in s.network && r.k == s.taken - 1 ==> r.attempt <= s.attempt)
    && (s.thrown.Some? ==> Passed(s, s.thrown.value))
    && (s.thrown.None? ==> InTurn(s))
  }

  /** Buffer t was never sent, and a request that is out is for a later one. */
  predicate Passed(s: State, t: nat) {
    && t < s.taken && (s.attempt > 0 ==> t < s.taken - 1)
    && s.done + 1 + (if s.attempt > 0 then 1 else 0) <= s.taken
    && (forall r :: r in s.network ==> r.k != t)
  }

  /** As long as nothing threw, the buffers that were done are all but the one whose request is out, and after a
      recorded exception no other one is sent. */
  predicate InTurn(s: State) {
    && (!s.failed ==> s.taken == s.done + (if s.attempt > 0 then 1 else 0))
    && (s.attempt > 0 ==> s.taken == s.done + 1)
    && (forall r :: r in s.network ==> r.k <= s.done)
  }

  /** The blob holds the first `done` buffers, or one more that an earlier attempt brought without being heard of. After
      an append call that threw, it holds the buffers before that one. */
  ghost predicate Inv(c: Config, s: State) {
    && Counters(c, s)
    && match s.thrown
       case Some(t) => Holds(c, s, t)
       case None =>
         && (Holds(c, s, s.done) || (s.done < s.taken && Holds(c, s, s.done + 1)))
         && (s.attempt == 0 && !s.failed ==> Holds(c, s, s.done))
         && (s.attempt == 1 && Request(s.done, 1) in s.network ==> Holds(c, s, s.done))
  }

  lemma StepCounters(c: Config, s: State, a: Action)
    requires c.Valid() && Counters(c, s) && Enabled(c, s, a)
    ensures Counters(c, Apply(c, s, a))
  {
    hide Accepts, Config.Joined, Config.Allowed;
    if a.Prepare? && s.queued < s.prepared {
      LaterNeverFits(c, s.queued, s.prepared);
    }
  }

  lemma LaterNeverFits(c: Config, j: nat, k: nat)
    requires c.Valid() && j <= k < |c.buffers| && !Fits(c, j)
    ensures !Fits(c, k)
  {
    if j < k {
      JoinedGrows(c, j + 1, k + 1);
    }
  }

  /** What the server does with a request that is still under way. */
  lemma Delivery(c: Config, s: State, r: Request)
    requires c.Valid() && c.start == |c.initial| && Inv(c, s) && r in s.network
    ensures r.k < |c.buffers|
    ensures Accepts(c, s.blob, r.k) ==> s.thrown.None? && r.k == s.done && Holds(c, s, s.done)
    ensures s.thrown.None? && !Accepts(c, s.blob, r.k) && r.k == s.done ==> Holds(c, s, s.done + 1)
  {
    var held := if s.thrown.Some? then s.thrown.value else s.done;
    if r.k < held {
      JoinedGrows(c, r.k, held);
    }
    if held < r.k {
      JoinedGrows(c, held, r.k);
    }
    if Holds(c, s, s.done + 1) {
      JoinedGrows(c, s.done, s.done + 1);
    }
    assert Fits(c, r.k);
  }

  lemma StepInv(c: Config, s: State, a: Action)
    requires c.Valid() && c.start == |c.initial| && Inv(c, s) && Enabled(c, s, a)
    ensures Inv(c, Apply(c, s, a))
  {
    hide Accepts, Fits, Config.Allowed, Config.Joined;
    StepCounters(c, s, a);
    if a.Deliver? {
      Delivery(c, s, a.r);
      if s.done < |c.buffers| {
        JoinedNext(c, s.done);
      }
    }
  }

  lemma JoinedNext(c: Config, k: nat)
    requires k < |c.buffers|
    ensures c.initial + c.Joined(k + 1) == c.initial + c.Joined(k) + c.buffers[k]
  {}

  lemma {:induction false} RunInv(c: Config, s: State, acts: seq<Action>, s': State)
    requires c.Valid() && c.start == |c.initial| && Inv(c, s) && Reaches(c, s, acts, s')
    ensures Inv(c, s')
    decreases |acts|
  {
    hide Inv, Enabled, Apply;
    if acts != [] {
      StepInv(c, s, acts[0]);
      RunInv(c, Apply(c, s, acts[0]), acts[1..], s');
    }
  }

  /** At every moment the blob is its old content followed by the first k or k + 1 buffers in order, k being the appends
      that ended without an exception: nothing is lost, doubled or swapped. Once an append call threw, it stays at the
      buffers before that one. */
  lemma PrefixAlways(c: Config, acts: seq<Action>, s: State)
    requires c.Valid() && c.start == |c.initial| && Reaches(c, Init(c), acts, s)
    ensures s.done <= s.prepared <= |c.buffers| && (s.thrown.Some? ==> s.thrown.value < s.prepared)
    ensures match s.thrown
      case Some(t) => s.blob == c.initial + c.Joined(t)
      case None =>
        || s.blob == c.initial + c.Joined(s.done)
        || (s.done < s.prepared && s.blob == c.initial + c.Joined(s.done + 1))
  {
    RunInv(c, Init(c), acts, s);
  }

  /** While nothing threw, a first attempt is never refused, so only a late success can make the server refuse a
      request. */
  lemma FirstAttemptAccepted(c: Config, acts: seq<Action>, s: State)
    requires c.Valid() && c.start == |c.initial| && Reaches(c, Init(c), acts, s) && s.thrown.None?
    requires s.attempt == 1 && Request(s.done, 1) in s.network
    ensures s.done < |c.buffers| && Accepts(c, s.blob, s.done)
  {
    RunInv(c, Init(c), acts, s);
    assert Fits(c, s.done);
  }

  /** A clean _sync of a run is right exactly if no append call threw in it. */
  lemma CleanSyncIff(c: Config, acts: seq<Action>, s: State)
    requires c.Valid() && c.start == |c.initial| && Reaches(c, Init(c), acts, s) && CleanSync(s)
    ensures s.prepared <= |c.buffers|
    ensures s.blob == c.initial + c.Joined(s.prepared) <==> s.thrown.None?
  {
    RunInv(c, Init(c), acts, s);
    if s.thrown.Some? {
      JoinedGrows(c, s.thrown.value, s.prepared);
    }
  }

  /** A clean _sync promises that every buffer handed over so far was appended exactly once, in order. */
  ghost predicate ExactlyOnce(c: Config) {
    forall acts, s :: Reaches(c, Init(c), acts, s) && CleanSync(s)
      ==> s.prepared <= |c.buffers| && s.blob == c.initial + c.Joined(s.prepared)
  }

  lemma OpenedAtEndIsExact(c: Config)
    requires c.Valid() && c.start == |c.initial| && !c.throws
    ensures ExactlyOnce(c)
  {
    forall acts, s | Reaches(c, Init(c), acts, s) && CleanSync(s)
      ensures s.prepared <= |c.buffers| && s.blob == c.initial + c.Joined(s.prepared)
    {
      CleanSyncIff(c, acts, s);
      NothingThrown(c, Init(c), acts, s);
    }
  }

  lemma {:induction false} NothingThrown(c: Config, s: State, acts: seq<Action>, s': State)
    requires !c.throws && s.thrown.None? && Reaches(c, s, acts, s')
    ensures s'.thrown.None?
    decreases |acts|
  {
    if acts != [] {
      NothingThrown(c, Apply(c, s, acts[0]), acts[1..], s');
    }
  }

  // ---------- a stream that opened anywhere else ----------

  /** Without absorbing, a stream that starts at a wrong position never appends anything and always reports it. */
  ghost predicate NothingAppended(c: Config, s: State) {
    s.blob == c.initial && s.done == 0 && s.thrown.None?
  }

  lemma MisplacedStep(c: Config, s: State, a: Action)
    requires c.Valid() && c.start != |c.initial| && !c.absorb && !c.throws && Counters(c, s) && NothingAppended(c, s)
      && Enabled(c, s, a)
    ensures NothingAppended(c, Apply(c, s, a))
  {
    hide Fits, Config.Allowed;
  }

  lemma {:induction false} MisplacedRun(c: Config, s: State, acts: seq<Action>, s': State)
    requires c.Valid() && c.start != |c.initial| && !c.absorb && !c.throws
    requires Counters(c, s) && NothingAppended(c, s) && Reaches(c, s, acts, s')
    ensures Counters(c, s') && NothingAppended(c, s')
    decreases |acts|
  {
    hide Counters, NothingAppended, Enabled, Apply;
    if acts != [] {
      StepCounters(c, s, acts[0]);
      MisplacedStep(c, s, acts[0]);
      MisplacedRun(c, Apply(c, s, acts[0]), acts[1..], s');
    }
  }

  lemma MisplacedWithoutAbsorbing(c: Config)
    requires c.Valid() && c.start != |c.initial| && !c.absorb && !c.throws
    ensures ExactlyOnce(c)
  {
    forall acts, s | Reaches(c, Init(c), acts, s) && CleanSync(s)
      ensures s.prepared <= |c.buffers| && s.blob == c.initial + c.Joined(s.prepared)
    {
      MisplacedRun(c, Init(c), acts, s);
    }
  }

  /** The run that loses a buffer without a trace: the first attempt is lost, the retry is refused
      because of the position, and the refusal is taken for a late success. */
  lemma AbsorbedButNotAppended(c: Config)
    requires c.Valid() && c.start != |c.initial| && c.absorb && 0 < |c.buffers| && Fits(c, 0)
    ensures !ExactlyOnce(c)
  {
    var first, second := Request(0, 1), Request(0, 2);
    var acts := [Prepare, Start, Lose(first), Retry, Deliver(second, true)];
    var s0 := Init(c);
    var s1 := Apply(c, s0, Prepare);
    var s2 := Apply(c, s1, Start);
    var s3 := Apply(c, s2, Lose(first));
    var s4 := Apply(c, s3, Retry);
    var s5 := Apply(c, s4, Deliver(second, true));
    assert Reaches(c, s5, [], s5);
    assert Reaches(c, s4, acts[4..], s5);
    assert Reaches(c, s3, acts[3..], s5);
    assert Reaches(c, s2, acts[2..], s5);
    assert Reaches(c, s1, acts[1..], s5);
    assert Reaches(c, s0, acts, s5) && CleanSync(s5);
    assert c.Joined(1) == c.buffers[0];
    assert |s5.blob| != |c.initial + c.Joined(1)|;
  }

  /** And the shorter run: the append call throws, and the stream goes on as if nothing had happened. */
  lemma ThrownAndNotAppended(c: Config)
    requires c.Valid() && c.throws && 0 < |c.buffers| && Fits(c, 0)
    ensures !ExactlyOnce(c)
  {
    var s0 := Init(c);
    var s1 := Apply(c, s0, Prepare);
    var s2 := Apply(c, s1, Throw);
    var acts := [Prepare, Throw];
    assert acts[1..] == [Throw] && acts[1..][1..] == [];
    assert Reaches(c, s2, [], s2);
    assert Reaches(c, s1, acts[1..], s2);
    assert Reaches(c, s0, acts, s2) && CleanSync(s2);
    assert c.Joined(0) == [];
    assert c.Joined(1) == c.buffers[0];
    assert |s2.blob| != |c.initial + c.Joined(1)|;
  }

  /** Exactly when a clean _sync can be trusted: there was nothing to append that fits, or no append call throws and
      the stream started at the real end of the blob or refused retries are not absorbed. */
  lemma ExactlyOnceIff(c: Config)
    requires c.Valid()
    ensures ExactlyOnce(c) <==>
      |c.buffers| == 0 || !Fits(c, 0) || (!c.throws && (c.start == |c.initial| || !c.absorb))
  {
    if c.throws && |c.buffers| > 0 && Fits(c, 0) {
      ThrownAndNotAppended(c);
    } else if |c.buffers| == 0 || !Fits(c, 0) {
      NothingToAppend(c);
    } else if c.start == |c.initial| {
      OpenedAtEndIsExact(c);
    } else if !c.absorb {
      MisplacedWithoutAbsorbing(c);
    } else {
      AbsorbedButNotAppended(c);
    }
  }

  /** A stream whose first buffer does not fit never sends anything. */
  lemma {:induction false} NothingSent(c: Config, s: State, acts: seq<Action>, s': State)
    requires c.Valid() && (|c.buffers| == 0 || !Fits(c, 0)) && Reaches(c, s, acts, s')
    requires Counters(c, s) && s.queued == 0 && s.network == {} && NothingAppended(c, s)
    ensures Counters(c, s') && s'.queued == 0 && NothingAppended(c, s')
    decreases |acts|
  {
    if acts != [] {
      StepCounters(c, s, acts[0]);
      NothingSent(c, Apply(c, s, acts[0]), acts[1..], s');
    }
  }

  lemma NothingToAppend(c: Config)
    requires c.Valid() && (|c.buffers| == 0 || !Fits(c, 0))
    ensures ExactlyOnce(c)
  {
    forall acts, s | Reaches(c, Init(c), acts, s) && CleanSync(s)
      ensures s.prepared <= |c.buffers| && s.blob == c.initial + c.Joined(s.prepared)
    {
      NothingSent(c, Init(c), acts, s);
    }
  }

  // ---------- what a loss needs ----------

  /** Nothing is sent twice, and no append call throws. */
  predicate Straight(acts: seq<Action>) {
    forall i :: 0 <= i < |acts| ==> !acts[i].Retry? && !acts[i].Throw?
  }

  /** As long as no exception is recorded, the appends that are done are in the blob, wherever the stream started; and
      if the answer to the one request that is out was lost, that one may be as well. */
  ghost predicate Straightforward(c: Config, s: State) {
    && s.attempt <= 1 && s.thrown.None?
    && (!s.failed ==>
          && s.done <= s.taken == s.done + s.attempt <= |c.buffers|
          && (forall r :: r in s.network ==> s.attempt == 1 && r == Request(s.done, 1))
          && (Holds(c, s, s.done) || (s.attempt == 1 && s.network == {} && Holds(c, s, s.done + 1))))
  }

  lemma StraightStep(c: Config, s: State, a: Action)
    requires Counters(c, s) && Straightforward(c, s) && Enabled(c, s, a) && !a.Retry? && !a.Throw?
    ensures Straightforward(c, Apply(c, s, a))
  {
    hide Accepts, Fits, Config.Allowed, Config.Joined;
    if a.Deliver? && s.done < |c.buffers| {
      JoinedNext(c, s.done);
    }
  }

  lemma {:induction false} StraightRun(c: Config, s: State, acts: seq<Action>, s': State)
    requires c.Valid() && Counters(c, s) && Straightforward(c, s) && Straight(acts) && Reaches(c, s, acts, s')
    ensures Counters(c, s') && Straightforward(c, s')
    decreases |acts|
  {
    hide Counters, Straightforward, Enabled, Apply;
    if acts != [] {
      StepCounters(c, s, acts[0]);
      StraightStep(c, s, acts[0]);
      StraightRun(c, Apply(c, s, acts[0]), acts[1..], s');
    }
  }

  /** Wherever the stream started, and whether or not refused retries are absorbed: a clean _sync is wrong only after a
      retry or an append call that threw. */
  lemma StraightIsExact(c: Config, acts: seq<Action>, s: State)
    requires c.Valid() && Straight(acts) && Reaches(c, Init(c), acts, s) && CleanSync(s)
    ensures s.prepared <= |c.buffers| && s.blob == c.initial + c.Joined(s.prepared)
  {
    assert c.initial + c.Joined(0) == c.initial;
    StraightRun(c, Init(c), acts, s);
  }

  lemma {:induction false} FailedStays(c: Config, s: State, acts: seq<Action>, s': State)
    requires Reaches(c, s, acts, s') && (s.failed || GiveUp in acts)
    ensures s'.failed
    decreases |acts|
  {
    if acts != [] {
      FailedStays(c, Apply(c, s, acts[0]), acts[1..], s');
    }
  }

  /** A request that was given up is never forgotten: no later _sync is clean. And whatever request is out may be. */
  lemma GivingUpIsReported(c: Config, acts: seq<Action>, s: State)
    requires Reaches(c, Init(c), acts, s)
    ensures GiveUp in acts ==> !CleanSync(s)
    ensures s.attempt > 0 ==> Reaches(c, Init(c), acts + [GiveUp], s.(attempt := 0, failed := true))
  {
    if GiveUp in acts {
      FailedStays(c, Init(c), acts, s);
    }
    if s.attempt > 0 {
      var s' := s.(attempt := 0, failed := true);
      assert Reaches(c, s', [], s');
      assert Reaches(c, s, [GiveUp], s');
      ReachesOn(c, Init(c), acts, s, [GiveUp], s');
    }
  }

  // ---------- and a clean _sync can be reached ----------

  /** The first k buffers were appended one after the other, each by one request, and the others not yet prepared. */
  function Appended(c: Config, k: nat): State
    requires k <= |c.buffers|
  {
    State(c.initial + c.Joined(k), {}, k, k, k, k, 0, None, false)
  }

  lemma OneAppend(c: Config, k: nat)
    requires c.start == |c.initial| && k < |c.buffers| && Fits(c, k)
    ensures Reaches(c, Appended(c, k), [Prepare, Start, Deliver(Request(k, 1), true)], Appended(c, k + 1))
  {
    hide Config.Joined, Config.Allowed;
    JoinedNext(c, k);
    var s0, r := Appended(c, k), Request(k, 1);
    var s1 := s0.(prepared := k + 1, queued := k + 1);
    var s2 := s1.(taken := k + 1, attempt := 1, network := {r});
    var s3 := Appended(c, k + 1);
    assert Apply(c, s0, Prepare) == s1;
    assert Apply(c, s1, Start) == s2;
    assert Accepts(c, s2.blob, k);
    assert Apply(c, s2, Deliver(r, true)) == s3;
    hide Apply;
    assert Reaches(c, s3, [], s3);
    assert Reaches(c, s2, [Deliver(r, true)], s3);
    assert Reaches(c, s1, [Start, Deliver(r, true)], s3);
  }

  lemma {:induction false} ReachesOn(c: Config, s: State, acts: seq<Action>, s': State, more: seq<Action>, s'': State)
    requires Reaches(c, s, acts, s') && Reaches(c, s', more, s'')
    ensures Reaches(c, s, acts + more, s'')
    decreases |acts|
  {
    if acts == [] {
      assert acts + more == more;
    } else {
      hide Apply, Enabled;
      ReachesOn(c, Apply(c, s, acts[0]), acts[1..], s', more, s'');
      assert (acts + more)[1..] == acts[1..] + more;
    }
  }

  lemma {:induction false} AllAppended(c: Config, k: nat) returns (acts: seq<Action>)
    requires c.start == |c.initial| && k <= |c.buffers| && forall j :: 0 <= j < k ==> Fits(c, j)
    ensures Reaches(c, Init(c), acts, Appended(c, k))
  {
    hide Apply, Enabled, Fits;
    if k == 0 {
      acts := [];
      assert c.initial + c.Joined(0) == c.initial;
    } else {
      acts := AllAppended(c, k - 1);
      OneAppend(c, k - 1);
      var more := [Prepare, Start, Deliver(Request(k - 1, 1), true)];
      ReachesOn(c, Init(c), acts, Appended(c, k - 1), more, Appended(c, k));
      acts := acts + more;
    }
  }

  /** A stream that opened at the end of the blob can be synced cleanly with everything appended exactly if the blob may
      grow that large. */
  lemma CanBeSyncedIff(c: Config)
    requires c.Valid() && c.start == |c.initial| && c.buffers != []
    ensures (exists acts, s ::
               Reaches(c, Init(c), acts, s) && CleanSync(s) && s.blob == c.initial + c.Joined(|c.buffers|))
      <==> (c.maxSize.Some? ==> |c.initial| + |c.Joined(|c.buffers|)| <= c.maxSize.value)
  {
    var n := |c.buffers|;
    if acts, s :| Reaches(c, Init(c), acts, s) && CleanSync(s) && s.blob == c.initial + c.Joined(n) {
      CleanAndFull(c, acts, s);
    }
    if c.maxSize.Some? ==> |c.initial| + |c.Joined(n)| <= c.maxSize.value {
      forall j | 0 <= j < n ensures Fits(c, j) {
        if !Fits(c, j) {
          LaterNeverFits(c, j, n - 1);
        }
      }
      var acts := AllAppended(c, n);
      assert CleanSync(Appended(c, n));
    }
  }

  lemma CleanAndFull(c: Config, acts: seq<Action>, s: State)
    requires c.Valid() && c.start == |c.initial| && c.buffers != []
    requires Reaches(c, Init(c), acts, s) && CleanSync(s) && s.blob == c.initial + c.Joined(|c.buffers|)
    ensures Fits(c, |c.buffers| - 1)
  {
    RunInv(c, Init(c), acts, s);
    hide Reaches, Fits;
    var held := if s.thrown.Some? then s.thrown.value else s.done;
    if held < |c.buffers| {
      JoinedGrows(c, held, |c.buffers|);
    }
  }

  // ---------- no buffer is left waiting ----------

  /** Retries are the retry policy's, and what happens to a request that nobody hears of is the network's. */
  predicate Advances(a: Action) {
    a.Prepare? || a.Start? || a.Throw? || a.GiveUp? || (a.Deliver? && a.answered)
  }

  function Advancing(acts: seq<Action>): nat {
    if acts == [] then 0 else (if Advances(acts[0]) then 1 else 0) + Advancing(acts[1..])
  }

  /** Steps a stream is still away from its end. */
  function Left(c: Config, s: State): int {
    3 * (|c.buffers| - s.prepared) + 2 * (s.queued - s.taken) + (if s.attempt > 0 then 1 else 0)
  }

  lemma {:induction false} AdvancesAreBounded(c: Config, s: State, acts: seq<Action>, s': State)
    requires c.Valid() && Counters(c, s) && Reaches(c, s, acts, s')
    ensures Counters(c, s') && Advancing(acts) + Left(c, s') <= Left(c, s)
    decreases |acts|
  {
    hide Counters;
    if acts != [] {
      StepCounters(c, s, acts[0]);
      AdvancesAreBounded(c, Apply(c, s, acts[0]), acts[1..], s');
    }
  }

  /** A stream takes at most three steps a buffer besides its retries, and unless every buffer was prepared and is over
      it can take one: _sync never waits for nothing. */
  lemma SyncCompletes(c: Config, acts: seq<Action>, s: State)
    requires c.Valid() && Reaches(c, Init(c), acts, s)
    ensures Advancing(acts) <= 3 * |c.buffers|
    ensures s.prepared != |c.buffers| || s.taken != s.queued || s.attempt != 0 ==>
      Enabled(c, s, Prepare) || Enabled(c, s, Start) || Enabled(c, s, GiveUp)
  {
    AdvancesAreBounded(c, Init(c), acts, s);
  }

  // ---------- the writing side ----------

  /** The buffers before the first one that does not fit were given to lock_async in order, each with its append
      position. */
  ghost predicate HandedOver(c: Config, uploads: seq<(nat, seq<byte>)>, refused: bool) {
    && |uploads| <= |c.buffers| && (refused <==> |uploads| < |c.buffers|)
    && (forall k :: 0 <= k < |uploads| ==> uploads[k] == (c.Position(k), c.buffers[k]))
    && (forall k :: 0 <= k < |uploads| ==> Fits(c, k))
    && (refused ==> !Fits(c, |uploads|))
  }

  /** A buffer behind the others moves none of them. */
  lemma PositionsStay(c: Config, full: seq<byte>)
    requires c.Valid() && full != []
    ensures var c', n := c.(buffers := c.buffers + [full]), |c.buffers|;
      && c'.Valid() && c'.Position(n + 1) == c.Position(n) + |full|
      && (forall k :: 0 <= k <= n ==> c'.Position(k) == c.Position(k))
      && (forall k :: 0 <= k < n ==> Fits(c', k) == Fits(c, k))
      && Fits(c', n) == c.Allowed(c.Position(n) + |full|)
  {
    var c', n := c.(buffers := c.buffers + [full]), |c.buffers|;
    forall k | 0 <= k <= n ensures c'.Position(k) == c.Position(k) {
      JoinedExtends(c.buffers, full, k);
    }
    JoinedAppend(c.buffers, full);
    hide Config.Position, Config.Joined, Common.Joined;
    forall k | 0 <= k < n ensures Fits(c', k) == Fits(c, k) {
      assert c'.Position(k + 1) == c.Position(k + 1);
    }
  }

  /** One more buffer: it is handed over if it fits, and none fits behind one that does not. */
  lemma OneMoreBuffer(c: Config, uploads: seq<(nat, seq<byte>)>, refused: bool, full: seq<byte>)
    requires c.Valid() && HandedOver(c, uploads, refused) && full != []
    ensures var c', end := c.(buffers := c.buffers + [full]), c.Position(|c.buffers|) + |full|;
      && c'.Valid() && c'.Position(|c'.buffers|) == end
      && if c.Allowed(end) then !refused && HandedOver(c', uploads + [(c.Position(|c.buffers|), full)], false)
         else HandedOver(c', uploads, true)
  {
    var c', n := c.(buffers := c.buffers + [full]), |c.buffers|;
    PositionsStay(c, full);
    hide Config.Position, Config.Joined, Config.Allowed, Config.Valid, Fits;
    if refused {
      LaterNeverFits(c', |uploads|, n);
    } else if c.Allowed(c.Position(n) + |full|) {
      Extends(c, c', uploads, (c.Position(n), full));
    }
  }

  lemma Extends(c: Config, c': Config, uploads: seq<(nat, seq<byte>)>, last: (nat, seq<byte>))
    requires HandedOver(c, uploads, false) && c'.buffers == c.buffers + [last.1]
    requires forall k :: 0 <= k <= |c.buffers| ==> c'.Position(k) == c.Position(k)
    requires forall k :: 0 <= k < |c.buffers| ==> Fits(c', k) == Fits(c, k)
    requires last.0 == c.Position(|c.buffers|) && Fits(c', |c.buffers|)
    ensures HandedOver(c', uploads + [last], false)
  {
    hide Config.Position, Fits;
  }

  lemma NextPart(head: seq<byte>, data: seq<byte>, done: nat, size: nat)
    requires done + size <= |data|
    ensures head + data[..done] + data[done..done + size] == head + data[..done + size]
  {}

  /** An append-blob stream: a buffer and a running append position. Its hash providers are those of any stream. */
  class AppendBlobStream {
    const start: nat
    const maxSize: Option<nat>
    var bufferSize: nat
    var nextBufferSize: nat
    var buffer: seq<byte>
    var blobOffset: nat
    var streambufOffset: nat
    /** The buffers that were given to lock_async, with the append position of each. */
    var uploads: seq<(nat, seq<byte>)>
    /** A buffer did not fit under the maximum size: m_currentException was set, and the buffer dropped. */
    var refused: bool
    var committed: bool

    /** Everything the caller wrote, and every buffer that was prepared from it. */
    ghost var written: seq<byte>
    ghost var buffers: seq<seq<byte>>

    /** The stream as the protocol sees it, whatever is at the server. */
    ghost function Plan(): Config
      reads this`buffers
    {
      Config([], start, buffers, maxSize, false, false)
    }

    /** What was prepared or is still buffered. */
    ghost function Content(): seq<byte>
      reads this`buffers, this`buffer
    {
      Plan().Joined(|buffers|) + buffer
    }

    ghost predicate Appends()
      reads this`bufferSize, this`nextBufferSize, this`blobOffset, this`buffers, this`uploads, this`refused
    {
      && 0 < bufferSize && 0 < nextBufferSize
      && Plan().Valid() && blobOffset == Plan().Position(|buffers|) && HandedOver(Plan(), uploads, refused)
    }

    ghost predicate Valid()
      reads this
    {
      Appends() && Content() == written && streambufOffset == |written|
    }

    /** The stream starts at the append position of the caller's condition, or else at the size of the blob. */
    constructor (start: nat, maxSize: Option<nat>, writeSize: nat)
      requires 0 < writeSize
      ensures Valid() && written == [] && buffers == [] && !committed && this.start == start && this.maxSize == maxSize
    {
      this.start, this.maxSize := start, maxSize;
      bufferSize, nextBufferSize, buffer, blobOffset, streambufOffset := writeSize, writeSize, [], start, 0;
      uploads, refused, committed, written, buffers := [], false, false, [], [];
    }

    /** A non-empty buffer moves the append position, and is handed over if it ends below the maximum size. */
    method UploadBuffer()
      requires Appends()
      modifies this`buffer, this`bufferSize, this`blobOffset, this`uploads, this`refused, this`buffers
      ensures Appends() && Content() == old(Content()) && buffer == [] && bufferSize == nextBufferSize
      ensures buffers == if old(buffer) == [] then old(buffers) else old(buffers) + [old(buffer)]
      ensures var end := old(blobOffset) + |old(buffer)|;
        if old(buffer) != [] && !(maxSize.Some? && end > maxSize.value) then
          uploads == old(uploads) + [(old(blobOffset), old(buffer))] && refused == old(refused) && blobOffset == end
        else
          uploads == old(uploads) && refused == (old(refused) || old(buffer) != []) && blobOffset == end
    {
      hide HandedOver, Common.Joined, Config.Valid;
      var full := buffer;
      buffer, bufferSize := [], nextBufferSize;
      if full != [] {
        OneMoreBuffer(Plan(), uploads, refused, full);
        JoinedAppend(buffers, full);
        var offset := blobOffset;
        blobOffset := blobOffset + |full|;
        if maxSize.Some? && blobOffset > maxSize.value {
          refused := true;
        } else {
          uploads := uploads + [(offset, full)];
        }
        buffers := buffers + [full];
        assert Common.Joined(buffers, |buffers|) + [] == Common.Joined(buffers, |buffers|);
      }
    }

    /** Since buffer number n only full buffers were prepared, the first one of the size set before, and this one is not
        overfilled. */
    ghost predicate Fills(n: nat, first: nat)
      reads this`buffers, this`nextBufferSize, this`bufferSize, this`buffer
    {
      && n <= |buffers| && |buffer| <= bufferSize
      && (forall k :: n <= k < |buffers| ==> |buffers[k]| == if k == n then first else nextBufferSize)
      && bufferSize == if |buffers| == n then first else nextBufferSize
    }

    /** And not even full. */
    ghost predicate FullSince(n: nat, first: nat)
      reads this`buffers, this`nextBufferSize, this`bufferSize, this`buffer
    {
      Fills(n, first) && |buffer| < bufferSize
    }

    /** One turn of the loop. */
    method PutPiece(piece: seq<byte>)
      requires Appends()
      modifies this`buffer, this`bufferSize, this`blobOffset, this`uploads, this`refused, this`buffers
      ensures Appends() && Content() == old(Content()) + piece && 0 < bufferSize
      ensures var filled := old(buffer) + piece;
        if filled != [] && old(bufferSize) == |filled| then
          buffer == [] && buffers == old(buffers) + [filled] && bufferSize == nextBufferSize
        else
          buffer == filled && buffers == old(buffers) && bufferSize == old(bufferSize)
    {
      hide HandedOver, Config.Joined, Config.Position, Config.Valid;
      ghost var head := Plan().Joined(|buffers|);
      assert head + (buffer + piece) == (head + buffer) + piece;
      buffer := buffer + piece;
      if bufferSize == |buffer| {
        UploadBuffer();
      }
    }

    /** The turn, seen from the whole write. */
    method PutNext(piece: seq<byte>, ghost n: nat, ghost first: nat)
      requires Appends()
      modifies this`buffer, this`bufferSize, this`blobOffset, this`uploads, this`refused, this`buffers
      ensures Appends() && Content() == old(Content()) + piece && 0 < bufferSize && old(buffers) <= buffers
      ensures old(bufferSize == |buffer|) && piece == [] ==> |buffer| < old(|buffer|)
      ensures old(Fills(n, first)) && |old(buffer)| + |piece| <= old(bufferSize) ==>
        Fills(n, first) && FullSince(n, first)
    {
      SizeIsPositive();
      hide Appends, Content;
      PutPiece(piece);
    }

    /** The loop of a write. */
    method PutAll(data: seq<byte>, ghost head: seq<byte>, ghost n: nat, ghost first: nat)
      requires Appends() && Content() == head
      modifies this`buffer, this`bufferSize, this`blobOffset, this`uploads, this`refused, this`buffers
      ensures Appends() && Content() == head + data && old(buffers) <= buffers
      ensures old(FullSince(n, first)) || (data != [] && old(Fills(n, first))) ==> FullSince(n, first)
    {
      SizeIsPositive();
      hide *;
      var done := 0;
      assert head + data[..done] == head;
      while done < |data|
        invariant done <= |data| && Appends() && Content() == head + data[..done] && 0 < bufferSize
        invariant old(buffers) <= buffers && (old(Fills(n, first)) ==> Fills(n, first))
        invariant old(FullSince(n, first)) || (0 < done && old(Fills(n, first))) ==> FullSince(n, first)
        decreases |data| - done, |buffer|
      {
        // size_t arithmetic: an overfilled buffer leaves "room" for everything
        var size := |data| - done;
        if |buffer| <= bufferSize && bufferSize - |buffer| < size {
          size := bufferSize - |buffer|;
        }
        NextPart(head, data, done, size);
        NotOverfilled(n, first);
        PutNext(data[done..done + size], n, first);
        done := done + size;
      }
      assert data[..done] == data;
    }

    lemma SizeIsPositive()
      requires Appends()
      ensures 0 < bufferSize
    {}

    lemma NotOverfilled(n: nat, first: nat)
      ensures FullSince(n, first) ==> Fills(n, first)
      ensures Fills(n, first) ==> |buffer| <= bufferSize
    {}

    /** Nothing is lost or reordered on the way to the buffers, and a stream whose buffer is not overfilled prepares
        full buffers only. */
    method PutN(data: seq<byte>)
      requires Valid()
      modifies this
      ensures Valid() && written == old(written) + data && committed == old(committed)
      ensures nextBufferSize == old(nextBufferSize) && old(buffers) <= buffers
      ensures old(|buffer| < bufferSize) || (data != [] && old(|buffer| == bufferSize)) ==>
        FullSince(|old(buffers)|, old(bufferSize))
    {
      hide Appends, Content;
      streambufOffset := streambufOffset + |data|;
      PutAll(data, written, |buffers|, bufferSize);
      written := written + data;
    }

    /** One character. `full` is what in_avail() reports. */
    method PutC(ch: byte, full: bool)
      requires Valid()
      modifies this
      ensures Valid() && written == old(written) + [ch] && committed == old(committed)
      ensures buffers == if full then old(buffers) + [old(buffer) + [ch]] else old(buffers)
      ensures buffer == if full then [] else old(buffer) + [ch]
    {
      hide HandedOver, Config.Joined, Config.Position, Config.Valid;
      streambufOffset := streambufOffset + 1;
      ghost var head := Plan().Joined(|buffers|);
      assert head + (buffer + [ch]) == (head + buffer) + [ch];
      buffer := buffer + [ch];
      written := written + [ch];
      if full {
        UploadBuffer();
      }
    }

    /** Closing hands the rest over. A second close is an error. */
    method CloseWrite() returns (ok: bool)
      requires Valid()
      modifies this
      ensures Valid() && ok == !old(committed) && committed && written == old(written)
      ensures buffer == if ok then [] else old(buffer)
      ensures buffers == if ok && old(buffer) != [] then old(buffers) + [old(buffer)] else old(buffers)
    {
      hide Appends, Content;
      if committed {
        return false;
      }
      committed := true;
      UploadBuffer();
      return true;
    }
  }

  /** From the caller's writes to the blob: of a stream that opened at the end of the blob and was closed, a clean sync
      leaves the old content followed by everything that was written, exactly if no append call threw; and then no
      buffer was refused for its size, and the stream handed all of them over at the positions the protocol has. */
  lemma WrittenIsAppended(stream: AppendBlobStream, c: Config, acts: seq<Action>, s: State)
    requires stream.Valid() && stream.buffer == [] && c.buffers == stream.buffers
    requires c.start == stream.start == |c.initial| && c.maxSize == stream.maxSize
    requires Reaches(c, Init(c), acts, s) && CleanSync(s) && s.prepared == |c.buffers|
    ensures s.blob == c.initial + stream.written <==> s.thrown.None?
    ensures !stream.refused && |stream.uploads| == s.taken == |c.buffers|
    ensures forall k :: 0 <= k < |c.buffers| ==> stream.uploads[k] == (c.Position(k), c.buffers[k])
  {
    hide Reaches, Init;
    SentInFull(stream, c, acts, s);
    CleanSyncIff(c, acts, s);
    assert c.Joined(|c.buffers|) + [] == c.Joined(|c.buffers|);
  }

  lemma SentInFull(stream: AppendBlobStream, c: Config, acts: seq<Action>, s: State)
    requires stream.Valid() && c.buffers == stream.buffers && c.start == stream.start && c.maxSize == stream.maxSize
    requires c.start == |c.initial|
    requires Reaches(c, Init(c), acts, s) && CleanSync(s) && s.prepared == |c.buffers|
    ensures c.Valid() && HandedOver(c, stream.uploads, false) && !stream.refused && s.taken == |c.buffers|
  {
    RunInv(c, Init(c), acts, s);
    SamePlan(stream.Plan(), c, stream.uploads, stream.refused);
    hide Reaches, Fits, Config.Position, Config.Joined;
  }

  lemma SamePlan(p: Config, c: Config, uploads: seq<(nat, seq<byte>)>, refused: bool)
    requires HandedOver(p, uploads, refused)
    requires p.start == c.start && p.buffers == c.buffers && p.maxSize == c.maxSize
    ensures HandedOver(c, uploads, refused)
  {
    hide Common.Joined;
    assert forall k :: 0 <= k <= |c.buffers| ==> c.Position(k) == p.Position(k);
    hide Config.Position;
    assert forall k :: 0 <= k < |c.buffers| ==> Fits(c, k) == Fits(p, k);
    hide Fits;
  }
}
