/** The concurrent part of a buffered upload: every full buffer waits for a permit, is uploaded, and its answer is
    recorded before the permit goes back; _sync then looks at what was recorded. */
module UploadQueue {
  import opened Common
  import opened Tallies
  import opened AsyncSemaphores

  /** The buffers handed over until _sync, in order. A target of fixed size refuses what does not fit; `records`
      tells whether an exception thrown by the upload call itself is kept (block blobs) or dropped (pages, files). */
  datatype Config = Config(buffers: seq<seq<byte>>, permits: nat, start: nat, size: Option<nat>, records: bool) {

    predicate Valid() { 0 < permits }

    /** Where buffer k goes: the running offset when it was prepared. */
    function Offset(k: nat): nat
      requires k <= |buffers|
    {
      start + |Joined(buffers, k)|
    }

    predicate Fits(k: nat)
      requires k < |buffers|
    {
      size.Some? ==> Offset(k + 1) <= size.value
    }
  }

  datatype Phase =
    | Waiting                   // lock_async was not called or its task is not complete
    | Sent                      // the request is out
    | Answered(ok: bool)        // its outcome is recorded and the permit still held
    | Finished(ok: bool)
    | Skipped                   // an exception was recorded before it could start
    | Threw(recorded: bool)     // the upload call threw and sent nothing

  predicate Over(p: Phase) { p.Finished? || p.Skipped? || p.Threw? }

  predicate WasSent(p: Phase) { p.Sent? || p.Answered? || p.Finished? }

  datatype State = State(
    sem: Permits,
    phase: seq<Phase>,
    applied: seq<nat>,   // the uploads in the order the server carried them out, repeats included
    failed: bool)        // m_currentException is set

  function Init(c: Config): State {
    State(Fresh(c.permits), seq(|c.buffers|, k => Waiting), [], false)
  }

  datatype Action =
    | Prepare                       // upload_buffer calls lock_async
    | Start(k: nat)                 // the continuation of a complete lock task
    | Throw(k: nat)                 // the same, with a throwing upload call
    | Record(k: nat)                // the exception is stored after the permit went back
    | Deliver(k: nat)               // the server carries a request out, perhaps late and perhaps again
    | Answer(k: nat, ok: bool)      // the upload task completes
    | Release(k: nat)               // the lock guard ends

  predicate Enabled(c: Config, s: State, a: Action)
    requires |s.phase| == |c.buffers|
  {
    match a
    case Prepare => s.sem.calls < |c.buffers|
    case Start(k) => k < |s.phase| && k < s.sem.granted && s.phase[k].Waiting?
    case Throw(k) => k < |s.phase| && k < s.sem.granted && s.phase[k].Waiting? && !s.failed
    case Record(k) => k < |s.phase| && c.records && s.phase[k] == Threw(false)
    case Deliver(k) => k < |s.phase| && WasSent(s.phase[k]) && c.Fits(k)
    case Answer(k, ok) => k < |s.phase| && s.phase[k].Sent? && (ok ==> k in s.applied)
    case Release(k) => k < |s.phase| && s.phase[k].Answered?
  }

  function Move(s: State, k: nat, p: Phase): State
    requires k < |s.phase|
  {
    s.(phase := s.phase[k := p])
  }

  function Apply(c: Config, s: State, a: Action): State
    requires |s.phase| == |c.buffers| && Enabled(c, s, a)
  {
    match a
    case Prepare => s.(sem := s.sem.Lock())
    case Start(k) => if s.failed then Move(s, k, Skipped).(sem := s.sem.Unlock()) else Move(s, k, Sent)
    case Throw(k) => Move(s, k, Threw(false)).(sem := s.sem.Unlock())
    case Record(k) => Move(s, k, Threw(true)).(failed := true)
    case Deliver(k) => s.(applied := s.applied + [k])
    case Answer(k, ok) => Move(s, k, Answered(ok)).(failed := s.failed || !ok)
    case Release(k) => Move(s, k, Finished(s.phase[k].ok)).(sem := s.sem.Unlock())
  }

  ghost predicate Reaches(c: Config, s: State, acts: seq<Action>, s': State)
    decreases |acts|
  {
    if acts == [] then s' == s
    else |s.phase| == |c.buffers| && Enabled(c, s, acts[0]) && Reaches(c, Apply(c, s, acts[0]), acts[1..], s')
  }

  /** What is true of one upload, whatever the others do. */
  predicate Sane(c: Config, s: State, k: nat)
    requires k < |s.phase|
  {
    && (s.sem.granted <= k ==> s.phase[k].Waiting?)
    && (WasSent(s.phase[k]) || k !in s.applied)
    && (s.phase[k].Answered? || s.phase[k].Finished? ==> if s.phase[k].ok then k in s.applied else s.failed)
    && (s.phase[k].Skipped? || s.phase[k] == Threw(true) ==> s.failed)
  }

  ghost predicate Inv(c: Config, s: State) {
    && |s.phase| == |c.buffers|
    && s.sem.Valid() && s.sem.total == c.permits && s.sem.calls <= |c.buffers|
    && Tally(s.phase, Over) == s.sem.released
    && (forall k :: 0 <= k < |s.phase| ==> Sane(c, s, k))
    && (forall j :: 0 <= j < |s.applied| ==> s.applied[j] < |c.buffers| && c.Fits(s.applied[j]))
  }

  lemma InitInv(c: Config)
    requires c.Valid()
    ensures Inv(c, Init(c))
  {
    TallyNone(Init(c).phase, Over);
  }

  /** No more uploads are over than were granted a permit, and all of these only if none still holds one. */
  lemma OverIsGranted(c: Config, s: State)
    requires Inv(c, s)
    ensures s.sem.released <= s.sem.granted <= |s.phase|
    ensures s.sem.released == s.sem.granted ==> forall k :: 0 <= k < s.sem.granted ==> Over(s.phase[k])
  {
    forall k | s.sem.granted <= k < |s.phase| ensures !Over(s.phase[k]) {
      assert Sane(c, s, k);
    }
    TallyAtMost(s.phase, Over, s.sem.granted);
  }

  /** Permits: one that is out is either about to start, sent or answered. */
  lemma StepCounts(c: Config, s: State, a: Action)
    requires Inv(c, s) && Enabled(c, s, a)
    ensures var s' := Apply(c, s, a);
      && |s'.phase| == |c.buffers| && s'.sem.Valid() && s'.sem.total == c.permits && s'.sem.calls <= |c.buffers|
      && Tally(s'.phase, Over) == s'.sem.released && s.sem.granted <= s'.sem.granted
  {
    hide Tally, Config.Fits, Sane;
    if a.Prepare? {
      LockKeeps(s.sem);
    } else if !a.Deliver? {
      StepsAreGranted(c, s, a);
      OneMoves(c, s, a.k, Apply(c, s, a).phase[a.k]);
    }
  }

  /** A task that is over with its step gives its permit back. */
  lemma OneMoves(c: Config, s: State, k: nat, p: Phase)
    requires Inv(c, s) && k < |s.phase| && k < s.sem.granted && (Over(s.phase[k]) ==> Over(p))
    ensures Tally(s.phase[k := p], Over) == s.sem.released + (if Over(p) && !Over(s.phase[k]) then 1 else 0)
    ensures !Over(s.phase[k]) ==> s.sem.released < s.sem.granted && s.sem.Unlock().Valid()
  {
    hide Tally, Over, Config.Fits;
    TallyUpdate(s.phase, k, p, Over);
    OverIsGranted(c, s);
    if !Over(s.phase[k]) {
      UnlockKeeps(s.sem);
    }
  }

  /** Only granted uploads take steps. */
  lemma StepsAreGranted(c: Config, s: State, a: Action)
    requires Inv(c, s) && Enabled(c, s, a) && !a.Prepare? && !a.Deliver?
    ensures a.k < s.sem.granted
  {
    assert Sane(c, s, a.k);
  }

  lemma StepSane(c: Config, s: State, a: Action, k: nat)
    requires Inv(c, s) && Enabled(c, s, a) && k < |s.phase|
    ensures Sane(c, Apply(c, s, a), k)
  {
    hide Tally, Over, Config.Fits;
    assert Sane(c, s, k);
  }

  lemma StepInv(c: Config, s: State, a: Action)
    requires Inv(c, s) && Enabled(c, s, a)
    ensures Inv(c, Apply(c, s, a))
  {
    hide Tally, Sane;
    StepCounts(c, s, a);
    forall k | 0 <= k < |s.phase| ensures Sane(c, Apply(c, s, a), k) {
      StepSane(c, s, a, k);
    }
  }

  lemma RunInv(c: Config, s: State, acts: seq<Action>, s': State)
    requires Inv(c, s) && Reaches(c, s, acts, s')
    ensures Inv(c, s')
    decreases |acts|
  {
    if acts != [] {
      StepInv(c, s, acts[0]);
      RunInv(c, Apply(c, s, acts[0]), acts[1..], s');
    }
  }

  /** What _sync waits for and checks: every buffer was prepared, every permit is home, no exception is stored. */
  predicate CleanSync(c: Config, s: State) {
    s.sem.calls == |c.buffers| && s.sem.free == s.sem.total && !s.failed
  }

  // ---------- what a clean _sync says ----------

  /** Every permit home means every upload is over. */
  lemma AllOver(c: Config, s: State)
    requires Inv(c, s) && s.sem.calls == |c.buffers| && s.sem.free == s.sem.total
    ensures forall k :: 0 <= k < |s.phase| ==> Over(s.phase[k])
  {
    TallyAtMost(s.phase, Over, |s.phase|);
  }

  /** The upload call itself threw for buffer k. */
  predicate Swallowed(s: State, k: nat)
    requires k < |s.phase|
  {
    s.phase[k].Threw?
  }

  /** A clean _sync means exactly the buffers whose upload call did not throw were carried out by the server. */
  lemma CleanSyncIff(c: Config, acts: seq<Action>, s: State, k: nat)
    requires c.Valid() && Reaches(c, Init(c), acts, s) && CleanSync(c, s) && k < |c.buffers|
    ensures |s.phase| == |c.buffers|
    ensures k in s.applied <==> !Swallowed(s, k)
  {
    InitInv(c);
    RunInv(c, Init(c), acts, s);
    AllOver(c, s);
    assert Sane(c, s, k);
  }

  // ---------- no upload is left waiting ----------

  /** Steps a client action is still away from the end of an upload. */
  function Left(p: Phase): nat {
    match p
    case Waiting => 3
    case Sent => 2
    case Answered(_) => 1
    case Threw(recorded) => if recorded then 0 else 1
    case _ => 0
  }

  function AllLeft(phase: seq<Phase>): nat {
    if phase == [] then 0 else Left(phase[0]) + AllLeft(phase[1..])
  }

  lemma {:induction false} AllLeftUpdate(phase: seq<Phase>, k: nat, p: Phase)
    requires k < |phase|
    ensures AllLeft(phase[k := p]) == AllLeft(phase) - Left(phase[k]) + Left(p)
  {
    if k > 0 {
      AllLeftUpdate(phase[1..], k - 1, p);
      assert phase[k := p][1..] == phase[1..][k - 1 := p];
    } else {
      assert phase[0 := p][1..] == phase[1..];
    }
  }

  function Measure(c: Config, s: State): int { |c.buffers| - s.sem.calls + AllLeft(s.phase) }

  /** Every client step comes closer to the end, so a stream makes finitely many of them. */
  lemma StepDecreases(c: Config, s: State, a: Action)
    requires Inv(c, s) && Enabled(c, s, a) && !a.Deliver?
    ensures 0 <= Measure(c, Apply(c, s, a)) < Measure(c, s)
  {
    if !a.Prepare? {
      AllLeftUpdate(s.phase, a.k, Apply(c, s, a).phase[a.k]);
    }
    StepInv(c, s, a);
  }

  function ClientSteps(acts: seq<Action>): nat {
    if acts == [] then 0 else (if acts[0].Deliver? then 0 else 1) + ClientSteps(acts[1..])
  }

  lemma {:induction false} StepsAreBounded(c: Config, s: State, acts: seq<Action>, s': State)
    requires Inv(c, s) && Reaches(c, s, acts, s')
    ensures 0 <= Measure(c, s') && ClientSteps(acts) + Measure(c, s') <= Measure(c, s)
    decreases |acts|
  {
    if acts != [] {
      StepInv(c, s, acts[0]);
      if !acts[0].Deliver? {
        StepDecreases(c, s, acts[0]);
      }
      StepsAreBounded(c, Apply(c, s, acts[0]), acts[1..], s');
    }
  }

  /** A stream uploads in at most four client steps a buffer, and whenever one of its permits is out, the task
      that holds it can take a step: _sync never waits for nothing. */
  lemma SyncCompletes(c: Config, acts: seq<Action>, s: State)
    requires c.Valid() && Reaches(c, Init(c), acts, s)
    ensures ClientSteps(acts) <= 4 * |c.buffers|
    ensures |s.phase| == |c.buffers|
    ensures s.sem.calls < |c.buffers| ==> Enabled(c, s, Prepare)
    ensures s.sem.calls == |c.buffers| && s.sem.free != s.sem.total ==>
      exists k | 0 <= k < |c.buffers| ::
        Enabled(c, s, Start(k)) || Enabled(c, s, Answer(k, false)) || Enabled(c, s, Release(k))
    ensures forall k :: 0 <= k < |c.buffers| && Swallowed(s, k) && !s.phase[k].recorded && c.records ==>
      Enabled(c, s, Record(k)) && !CleanSync(c, Apply(c, s, Record(k)))
  {
    InitInv(c);
    RunInv(c, Init(c), acts, s);
    StepsAreBounded(c, Init(c), acts, s);
    InitialMeasure(Init(c).phase);
    if s.sem.calls == |c.buffers| && s.sem.free != s.sem.total {
      var k := Holder(c, s);
      assert Enabled(c, s, Start(k)) || Enabled(c, s, Answer(k, false)) || Enabled(c, s, Release(k));
    }
  }

  /** The one who holds a permit. */
  lemma Holder(c: Config, s: State) returns (k: nat)
    requires Inv(c, s) && s.sem.free != s.sem.total
    ensures k < |s.phase| && k < s.sem.granted && !Over(s.phase[k])
  {
    forall k | s.sem.granted <= k < |s.phase| ensures !Over(s.phase[k]) {
      assert Sane(c, s, k);
    }
    if forall k :: 0 <= k < s.sem.granted ==> Over(s.phase[k]) {
      TallyPrefix(s.phase, Over, s.sem.granted);
      assert false;
    }
    k :| 0 <= k < s.sem.granted && !Over(s.phase[k]);
  }

  lemma {:induction false} InitialMeasure(phase: seq<Phase>)
    requires forall k :: 0 <= k < |phase| ==> phase[k].Waiting?
    ensures AllLeft(phase) == 3 * |phase|
  {
    if phase != [] {
      InitialMeasure(phase[1..]);
    }
  }

  // ---------- and a clean _sync can be reached ----------

  /** The first k buffers were uploaded one after the other, each by one request, and the others not yet prepared. */
  function Uploaded(c: Config, k: nat): State
    requires k <= |c.buffers|
  {
    State(Permits(c.permits, c.permits, k, k, k), seq(|c.buffers|, i => if i < k then Finished(true) else Waiting),
      seq(k, i => i), false)
  }

  /** The five steps of an undisturbed upload. */
  lemma OneUpload(c: Config, k: nat)
    requires c.Valid() && k < |c.buffers| && c.Fits(k)
    ensures Reaches(c, Uploaded(c, k), [Prepare, Start(k), Deliver(k), Answer(k, true), Release(k)], Uploaded(c, k + 1))
  {
    hide Config.Fits;
    var s0, p, phase := Uploaded(c, k), c.permits, Uploaded(c, k).phase;
    var s1 := State(Permits(p, p - 1, k + 1, k + 1, k), phase, s0.applied, false);
    var s2 := s1.(phase := phase[k := Sent]);
    var s3 := s2.(applied := s0.applied + [k]);
    var s4 := s3.(phase := phase[k := Answered(true)]);
    var s5 := Uploaded(c, k + 1);
    assert Apply(c, s0, Prepare) == s1;
    assert Apply(c, s1, Start(k)) == s2;
    assert Apply(c, s2, Deliver(k)) == s3;
    assert Apply(c, s3, Answer(k, true)) == s4 by {
      assert phase[k := Sent][k := Answered(true)] == phase[k := Answered(true)];
    }
    assert Apply(c, s4, Release(k)) == s5 by {
      assert phase[k := Answered(true)][k := Finished(true)] == s5.phase;
      assert s0.applied + [k] == s5.applied;
    }
    hide Apply;
    assert Reaches(c, s5, [], s5);
    assert Reaches(c, s4, [Release(k)], s5);
    assert Reaches(c, s3, [Answer(k, true), Release(k)], s5);
    assert Reaches(c, s2, [Deliver(k), Answer(k, true), Release(k)], s5);
    assert Reaches(c, s1, [Start(k), Deliver(k), Answer(k, true), Release(k)], s5);
  }

  lemma {:induction false} ReachesOn(c: Config, s: State, acts: seq<Action>, s': State, more: seq<Action>, s'': State)
    requires Reaches(c, s, acts, s') && Reaches(c, s', more, s'')
    ensures Reaches(c, s, acts + more, s'')
    decreases |acts|
  {
    if acts == [] {
      assert acts + more == more;
    } else {
      hide Apply, Enabled;
      ReachesOn(c, Apply(c, s, acts[0]), acts[1..], s', more, s'');
      assert (acts + more)[1..] == acts[1..] + more;
    }
  }

  lemma {:induction false} AllUploaded(c: Config, k: nat) returns (acts: seq<Action>)
    requires c.Valid() && k <= |c.buffers| && forall j :: 0 <= j < k ==> c.Fits(j)
    ensures Reaches(c, Init(c), acts, Uploaded(c, k))
  {
    hide Apply, Enabled, Config.Fits;
    if k == 0 {
      acts := [];
      assert Init(c) == Uploaded(c, 0);
    } else {
      acts := AllUploaded(c, k - 1);
      OneUpload(c, k - 1);
      var more := [Prepare, Start(k - 1), Deliver(k - 1), Answer(k - 1, true), Release(k - 1)];
      ReachesOn(c, Init(c), acts, Uploaded(c, k - 1), more, Uploaded(c, k));
      acts := acts + more;
    }
  }

  lemma {:induction false} OffsetsGrow(c: Config, j: nat, k: nat)
    requires j <= k <= |c.buffers|
    ensures c.Offset(j) <= c.Offset(k)
    ensures j < k ==> c.Offset(j + 1) == c.Offset(j) + |c.buffers[j]| <= c.Offset(k)
  {
    if j + 1 < k {
      OffsetsGrow(c, j, k - 1);
    }
  }

  /** A stream can be synced cleanly with every buffer carried out exactly if what it writes ends within the target. */
  lemma CanBeSyncedIff(c: Config)
    requires c.Valid() && c.buffers != []
    ensures (exists acts, s :: Reaches(c, Init(c), acts, s) && CleanSync(c, s) && s.applied == seq(|c.buffers|, i => i))
      <==> (c.size.Some? ==> c.start + |Joined(c.buffers, |c.buffers|)| <= c.size.value)
  {
    var n := |c.buffers|;
    if acts, s :| Reaches(c, Init(c), acts, s) && CleanSync(c, s) && s.applied == seq(n, i => i) {
      InitInv(c);
      RunInv(c, Init(c), acts, s);
      assert c.Fits(s.applied[n - 1]);
    }
    if c.size.Some? ==> c.start + |Joined(c.buffers, n)| <= c.size.value {
      forall j | 0 <= j < n ensures c.Fits(j) {
        OffsetsGrow(c, j + 1, n);
      }
      var acts := AllUploaded(c, n);
      assert CleanSync(c, Uploaded(c, n));
    }
  }
}
