/** The parallel part of a range download: one task a chunk under an asynchronous semaphore, writing to a target
    that either can seek or must receive the chunks in order. A transition system over the steps of the tasks. */
module ParallelDownload {
  import opened Common
  import opened Tallies
  import opened AsyncSemaphores

  /** One download: the bytes at `offset` were asked for, the first `first` of them are already in the target,
      and the rest come in chunks of `block` bytes under `permits` permits. At every position `blob` has the byte that
      the download of its range delivers if it succeeds. A blob's tasks return their permit
      however they end, and the download waits for all of them; a file's tasks (`isFile`) call unlock where they
      succeed, and the download waits for the permits and the counter only. */
  datatype Config = Config(
    blob: seq<byte>, offset: nat, end: nat, first: nat, block: nat, permits: nat, canSeek: bool, isFile: bool) {

    ghost predicate Valid() {
      && offset + first < end <= |blob|
      && 0 < block && 0 < permits
    }

    function Start(): nat { offset + first }

    /** Number of chunks. */
    function N(): (n: nat)
      requires Valid()
      ensures 0 < n && Begin(n - 1) < end <= Begin(n)
    {
      var n := (end - Start() + block - 1) / block;
      CeilingDivision(end - Start(), block);
      n
    }

    /** Where chunk i begins; chunk N() would begin at or after the end. */
    function Begin(i: nat): nat { Start() + i * block }

    /** Where chunk i stops: after a block, or at the end for the last one. */
    function Stop(i: nat): nat { if Begin(i) + block > end then end else Begin(i) + block }

    /** What a successful download of chunk i puts into its buffer. */
    function Chunk(i: nat): seq<byte>
      requires Valid() && i < N()
    {
      Spans(i);
      blob[Begin(i)..Stop(i)]
    }

    /** Chunk i is a non-empty piece that starts where the previous one stops. */
    lemma Spans(i: nat)
      requires Valid() && i < N()
      ensures Start() <= Begin(i) < Stop(i) <= end
      ensures Stop(i) == (if i == N() - 1 then end else Begin(i + 1))
      ensures Stop(i) == (if Begin(i + 1) <= end then Begin(i + 1) else end)
    {
      hide N, Begin;
      BeginsAtStart(this);
      BeginNext(this, i);
      if 0 < i {
        BeginGrows(this, 0, i);
      }
      if i < N() - 1 {
        BeginGrows(this, i, N() - 1);
      }
      if i < N() - 2 {
        BeginGrows(this, i + 1, N() - 1);
      }
    }
  }

  lemma BeginsAtStart(c: Config)
    ensures c.Begin(0) == c.Start()
  {}

  lemma CeilingDivision(a: nat, b: nat)
    requires b > 0
    ensures var n := (a + b - 1) / b; (n - 1) * b < a <= n * b && (0 < a ==> 0 < n)
  {
    var n, r := (a + b - 1) / b, (a + b - 1) % b;
    assert a + b - 1 == b * n + r;
    assert (n - 1) * b == n * b - b;
  }

  // ---------- the tasks ----------

  /** How far the task of one chunk is. `early` tells that it gave up its permit before it wrote. */
  datatype Phase =
    | Pending                 // its lock call was not made or is still queued
    | Downloading             // it has a permit and its range is being downloaded into its buffer
    | Downloaded              // the buffer is complete
    | Missed                  // the target could not seek and it was not this chunk's turn
    | Counted                 // writer was incremented
    | Releasing               // writer was below the parallelism factor: the permit is about to be given up
    | Sleeping(early: bool)   // waiting on the condition variable
    | Awake(early: bool)      // woken in its turn, about to take the mutex again and write
    | Written(early: bool)    // wrote after waiting; writer is still to be decremented
    | Leaving                 // done, with the permit still held
    | Done
    | Failing                 // the download threw; the permit is still held
    | Broken

  predicate Holds(p: Phase) {
    p.Downloading? || p.Downloaded? || p.Missed? || p.Counted? || p.Releasing? || p.Leaving? || p.Failing?
    || ((p.Sleeping? || p.Awake? || p.Written?) && !p.early)
  }

  predicate InWriter(p: Phase) { p.Counted? || p.Releasing? || p.Sleeping? || p.Awake? || p.Written? }

  /** Tasks that decided to give up their permit and still count as writers. */
  predicate Early(p: Phase) { p.Releasing? || ((p.Sleeping? || p.Awake? || p.Written?) && p.early) }

  predicate HasWritten(p: Phase) { p.Written? || p.Leaving? || p.Done? }

  predicate Failed(p: Phase) { p.Failing? || p.Broken? }

  datatype State = State(
    sem: Permits, phase: seq<Phase>, writer: int, smallest: nat, target: seq<byte>,
    outOfOrder: bool, returned: bool, raised: bool)
  {
    /** The download is over for its caller, normally or with an exception. */
    predicate Ended() { returned || raised }

    /** Every lock call was made, and every permit is home: what wait_all_async waits for. */
    predicate Home() { sem.calls == |phase| && sem.free == sem.total }
  }

  /** The state when the parallel part starts: the target holds the first range. */
  function Init(c: Config): State
    requires c.Valid()
  {
    State(Fresh(c.permits), seq(c.N(), i => Pending), 0, c.Start(), c.blob[c.offset..c.Start()], false, false,
      false)
  }

  datatype Action =
    | Spawn             // the loop calls lock_async for the next chunk
    | Finish(i: nat)    // the download of the chunk's range succeeds
    | Fail(i: nat)      // or throws
    | Enter(i: nat)     // the task takes the mutex: writes if it may
    | Count(i: nat)     // atomic_increment(writer)
    | Check(i: nat)     // writer < parallelism_factor?
    | Release(i: nat)   // sem_unlocker->unlock()
    | Wake(i: nat)      // the awaited condition holds
    | Write(i: nat)     // the task takes the mutex again
    | Uncount(i: nat)   // notify_all, atomic_decrement(writer)
    | Exit(i: nat)      // the task ends and its permit with it
    | Return            // wait_all_async, when_all and the last wait are over
    | Raise             // wait_all_async is over, and when_all, complete with the first failed task, rethrows

  predicate Enabled(c: Config, s: State, a: Action)
    requires c.Valid()
  {
    match a
    case Spawn => s.sem.calls < |s.phase|
    case Finish(i) => i < |s.phase| && s.phase[i].Downloading?
    case Fail(i) => i < |s.phase| && s.phase[i].Downloading?
    case Enter(i) => i < |s.phase| && s.phase[i].Downloaded?
    case Count(i) => i < |s.phase| && s.phase[i].Missed?
    case Check(i) => i < |s.phase| && s.phase[i].Counted?
    case Release(i) => i < |s.phase| && s.phase[i].Releasing?
    case Wake(i) => i < |s.phase| && s.phase[i].Sleeping? && s.smallest == c.Begin(i)
    case Write(i) => i < |s.phase| && s.phase[i].Awake?
    case Uncount(i) => i < |s.phase| && s.phase[i].Written?
    case Exit(i) => i < |s.phase| && (s.phase[i].Leaving? || (s.phase[i].Failing? && !c.isFile))
    case Return =>
      && !s.Ended() && s.Home()
      && (!c.isFile ==> forall i :: 0 <= i < |s.phase| ==> s.phase[i].Done?)
      && s.smallest >= c.end
    case Raise => !c.isFile && !s.Ended() && s.Home() && exists i :: 0 <= i < |s.phase| && s.phase[i].Broken?
  }

  /** The phases after a semaphore operation: a lock call that got its permit starts downloading. */
  function Granted(ph: seq<Phase>, before: Permits, after: Permits): (r: seq<Phase>)
    ensures |r| == |ph|
  {
    if before.granted < after.granted && before.granted < |ph| then ph[before.granted := Downloading] else ph
  }

  function Move(s: State, i: nat, p: Phase): State
    requires i < |s.phase|
  {
    s.(phase := s.phase[i := p])
  }

  function Unlock(s: State): State {
    s.(sem := s.sem.Unlock(), phase := Granted(s.phase, s.sem, s.sem.Unlock()))
  }

  /** Overwrite the target from position `at` on; a gap before it would be filled with zeros. */
  function PutAt(target: seq<byte>, at: nat, data: seq<byte>): (r: seq<byte>)
    ensures |r| == if |target| < at + |data| then at + |data| else |target|
    ensures r[at..at + |data|] == data
    ensures forall j :: 0 <= j < |r| && !(at <= j < at + |data|) ==> r[j] == if j < |target| then target[j] else 0
  {
    var padded := if |target| < at then target + seq(at - |target|, j => 0) else target;
    if |padded| <= at + |data| then padded[..at] + data else padded[..at] + data + padded[at + |data|..]
  }

  function Apply(c: Config, s: State, a: Action): State
    requires c.Valid() && |s.phase| == c.N() && Enabled(c, s, a)
  {
    match a
    case Spawn => s.(sem := s.sem.Lock(), phase := Granted(s.phase, s.sem, s.sem.Lock()))
    case Finish(i) => Move(s, i, Downloaded)
    case Fail(i) => Move(s, i, Failing)
    case Enter(i) =>
      if c.canSeek then
        c.Spans(i);
        Move(s, i, Leaving).(target := PutAt(s.target, c.Begin(i) - c.offset, c.Chunk(i)),
          smallest := s.smallest + c.block)
      else if s.smallest == c.Begin(i) then
        Move(s, i, Leaving).(target := s.target + c.Chunk(i), smallest := s.smallest + c.block)
      else Move(s, i, Missed)
    case Count(i) => Move(s, i, Counted).(writer := s.writer + 1)
    case Check(i) => Move(s, i, if s.writer < c.permits then Releasing else Sleeping(false))
    case Release(i) => Unlock(Move(s, i, Sleeping(true)))
    case Wake(i) => Move(s, i, Awake(s.phase[i].early))
    case Write(i) =>
      if s.smallest == c.Begin(i) then
        Move(s, i, Written(s.phase[i].early)).(target := s.target + c.Chunk(i), smallest := s.smallest + c.block)
      else if s.smallest > c.Begin(i) then s.(outOfOrder := true)
      else Move(s, i, Written(s.phase[i].early))
    case Uncount(i) =>
      Move(s, i, if s.phase[i].early then Done else Leaving).(writer := s.writer - 1)
    case Exit(i) => Unlock(Move(s, i, if s.phase[i].Leaving? then Done else Broken))
    case Return => s.(returned := true)
    case Raise => s.(raised := true)
  }

  // ---------- what every step keeps ----------

  predicate AllWritten(s: State) { forall i :: 0 <= i < |s.phase| ==> HasWritten(s.phase[i]) }

  /** Permits and writers are what the phases of the tasks say. */
  ghost predicate Counting(c: Config, s: State)
    requires c.Valid()
  {
    && |s.phase| == c.N()
    && s.sem.Valid() && s.sem.total == c.permits && s.sem.calls <= c.N()
    && (forall i :: 0 <= i < |s.phase| ==> (s.phase[i].Pending? <==> s.sem.granted <= i))
    && Tally(s.phase, Holds) == s.sem.granted - s.sem.released
    && Tally(s.phase, InWriter) == s.writer
    && Tally(s.phase, Early) < c.permits
    && s.smallest == c.Begin(Tally(s.phase, HasWritten))
    && (s.returned ==> AllWritten(s))
  }

  /** Where the bytes of the first w chunks end. */
  function UpTo(c: Config, w: nat): nat { if c.Begin(w) < c.end then c.Begin(w) else c.end }

  /** A target that cannot seek: chunks were written strictly in order and it holds exactly their bytes. */
  ghost predicate InOrder(c: Config, s: State)
    requires c.Valid() && |s.phase| == c.N()
  {
    var w := Tally(s.phase, HasWritten);
    && !s.outOfOrder
    && (forall i :: 0 <= i < |s.phase| ==> (HasWritten(s.phase[i]) <==> i < w))
    && (forall i :: 0 <= i < |s.phase| && s.phase[i].Awake? ==> i == w)
    && c.offset <= UpTo(c, w) && s.target == c.blob[c.offset..UpTo(c, w)]
  }

  /** Chunk i is in its place. */
  ghost predicate InPlace(c: Config, target: seq<byte>, i: nat)
    requires c.Valid() && i < c.N()
  {
    c.Spans(i);
    c.Stop(i) - c.offset <= |target| && target[c.Begin(i) - c.offset..c.Stop(i) - c.offset] == c.Chunk(i)
  }

  /** A target that can seek: every written chunk, and the first range, is in its place. */
  ghost predicate AllInPlace(c: Config, s: State)
    requires c.Valid() && |s.phase| == c.N()
  {
    && !s.outOfOrder
    && c.first <= |s.target| <= c.end - c.offset && s.target[..c.first] == c.blob[c.offset..c.Start()]
    && (forall i :: 0 <= i < |s.phase| ==>
          !s.phase[i].Missed? && !s.phase[i].Counted? && !s.phase[i].Releasing?
          && !s.phase[i].Sleeping? && !s.phase[i].Awake? && !s.phase[i].Written?)
    && (forall i :: 0 <= i < |s.phase| && HasWritten(s.phase[i]) ==> InPlace(c, s.target, i))
  }

  ghost predicate Inv(c: Config, s: State) {
    c.Valid() && Counting(c, s) && if c.canSeek then AllInPlace(c, s) else InOrder(c, s)
  }

  lemma InitInv(c: Config)
    requires c.Valid()
    ensures Inv(c, Init(c))
  {
    var s := Init(c);
    TallyNone(s.phase, Holds);
    TallyNone(s.phase, InWriter);
    TallyNone(s.phase, Early);
    TallyNone(s.phase, HasWritten);
  }

  lemma BeginNext(c: Config, w: nat)
    ensures c.Begin(w) + c.block == c.Begin(w + 1)
  {}

  lemma {:induction false} BeginGrows(c: Config, i: nat, j: nat)
    requires i < j
    ensures c.Begin(i) + c.block <= c.Begin(j)
  {
    BeginNext(c, i);
    BeginNext(c, j - 1);
    if i < j - 1 {
      BeginGrows(c, i, j - 1);
    }
  }

  lemma BeginInjective(c: Config, i: nat, j: nat)
    requires 0 < c.block && c.Begin(i) == c.Begin(j)
    ensures i == j
  {
    hide *;
    if i < j {
      BeginGrows(c, i, j);
    } else if j < i {
      BeginGrows(c, j, i);
    }
  }

  lemma TallyMove(ph: seq<Phase>, i: nat, p: Phase)
    requires i < |ph|
    ensures Tally(ph[i := p], Holds) == Tally(ph, Holds) - (if Holds(ph[i]) then 1 else 0) + (if Holds(p) then 1 else 0)
    ensures Tally(ph[i := p], InWriter)
      == Tally(ph, InWriter) - (if InWriter(ph[i]) then 1 else 0) + (if InWriter(p) then 1 else 0)
    ensures Tally(ph[i := p], Early) == Tally(ph, Early) - (if Early(ph[i]) then 1 else 0) + (if Early(p) then 1 else 0)
    ensures Tally(ph[i := p], HasWritten)
      == Tally(ph, HasWritten) - (if HasWritten(ph[i]) then 1 else 0) + (if HasWritten(p) then 1 else 0)
  {
    TallyUpdate(ph, i, p, Holds);
    TallyUpdate(ph, i, p, InWriter);
    TallyUpdate(ph, i, p, Early);
    TallyUpdate(ph, i, p, HasWritten);
  }

  /** A task that moves on without touching the semaphore, and holds its permit before and after or neither. */
  ghost predicate Moves(c: Config, s: State, i: nat, s': State) {
    && i < |s.phase| && |s'.phase| == |s.phase| && s'.phase == s.phase[i := s'.phase[i]]
    && s'.sem == s.sem && s'.returned == s.returned
    && var before, after := s.phase[i], s'.phase[i];
    && !before.Pending? && !before.Done? && !after.Pending? && Holds(after) == Holds(before)
    && s'.writer == s.writer - (if InWriter(before) then 1 else 0) + (if InWriter(after) then 1 else 0)
    && (Early(after) ==> Early(before) || (before.Counted? && s.writer < c.permits))
    && s'.smallest == s.smallest + (if HasWritten(after) && !HasWritten(before) then c.block else 0)
    && (HasWritten(before) ==> HasWritten(after))
  }

  lemma TaskMoves(c: Config, s: State, a: Action)
    requires c.Valid() && |s.phase| == c.N() && Enabled(c, s, a)
    requires a.Finish? || a.Fail? || a.Enter? || a.Count? || a.Check?
    ensures Moves(c, s, a.i, Apply(c, s, a))
  {
    hide Config.Begin, Config.Chunk, Config.N, PutAt;
  }

  lemma WaiterMoves(c: Config, s: State, a: Action)
    requires c.Valid() && |s.phase| == c.N() && Enabled(c, s, a)
    requires a.Wake? || a.Uncount? || (a.Write? && s.smallest == c.Begin(a.i))
    ensures Moves(c, s, a.i, Apply(c, s, a))
  {
    hide Config.Begin, Config.Chunk, Config.N, PutAt;
  }

  lemma MoveCounts(c: Config, s: State, i: nat, s': State)
    requires c.Valid() && Counting(c, s) && Moves(c, s, i, s')
    ensures Counting(c, s')
  {
    TallyMove(s.phase, i, s'.phase[i]);
    BeginNext(c, Tally(s.phase, HasWritten));
    if s.phase[i].Counted? {
      EarlyAreWriters(s.phase, i);
    }
  }

  /** A task that counts as writer but did not decide yet comes on top of those that gave up their permit. */
  lemma {:induction false} EarlyAreWriters(ph: seq<Phase>, i: nat)
    requires i < |ph| && InWriter(ph[i]) && !Early(ph[i])
    ensures Tally(ph, Early) < Tally(ph, InWriter)
  {
    EarlyBelow(ph[1..]);
    if i > 0 {
      EarlyAreWriters(ph[1..], i - 1);
    }
  }

  lemma {:induction false} EarlyBelow(ph: seq<Phase>)
    ensures Tally(ph, Early) <= Tally(ph, InWriter)
  {
    if ph != [] {
      EarlyBelow(ph[1..]);
    }
  }

  lemma {:induction false} HolderCounts(ph: seq<Phase>, i: nat, f: Phase -> bool)
    requires i < |ph| && f(ph[i])
    ensures Tally(ph, f) > 0
  {
    if i > 0 {
      HolderCounts(ph[1..], i - 1, f);
    }
  }

  /** A task gives its permit up: the next queued task gets it. */
  lemma UnlockCounts(c: Config, s: State, i: nat, p: Phase)
    requires c.Valid() && Counting(c, s) && i < |s.phase|
    requires Holds(s.phase[i]) && !Holds(p) && !p.Pending?
    requires InWriter(p) == InWriter(s.phase[i]) && HasWritten(p) == HasWritten(s.phase[i])
      && (Early(p) ==> Early(s.phase[i]))
    ensures Counting(c, Unlock(Move(s, i, p)))
  {
    hide Tally, Config.Begin, Config.N;
    var m := Move(s, i, p);
    HolderCounts(s.phase, i, Holds);
    TallyMove(s.phase, i, p);
    UnlockKeeps(s.sem);
    if s.sem.granted < s.sem.calls {
      TallyMove(m.phase, s.sem.granted, Downloading);
    }
  }

  lemma SpawnCounts(c: Config, s: State)
    requires c.Valid() && Counting(c, s) && Enabled(c, s, Spawn)
    ensures Counting(c, Apply(c, s, Spawn))
  {
    hide Tally, Config.Begin, Config.N;
    LockKeeps(s.sem);
    if s.sem.free > 0 {
      TallyMove(s.phase, s.sem.granted, Downloading);
    }
  }

  lemma StepCounts(c: Config, s: State, a: Action)
    requires c.Valid() && Counting(c, s) && Enabled(c, s, a)
    requires a.Write? ==> s.smallest == c.Begin(a.i)
    ensures Counting(c, Apply(c, s, a))
  {
    hide Tally, Moves, Config.Begin, Config.Chunk, PutAt;
    match a
    case Spawn => SpawnCounts(c, s);
    case Release(i) => UnlockCounts(c, s, i, Sleeping(true));
    case Exit(i) => UnlockCounts(c, s, i, if s.phase[i].Leaving? then Done else Broken);
    case Return => ReturnCounts(c, s);
    case Raise =>
    case _ =>
      if a.Wake? || a.Uncount? || a.Write? { WaiterMoves(c, s, a); } else { TaskMoves(c, s, a); }
      MoveCounts(c, s, a.i, Apply(c, s, a));
  }

  lemma ReturnCounts(c: Config, s: State)
    requires c.Valid() && Counting(c, s) && Enabled(c, s, Return)
    ensures Counting(c, Apply(c, s, Return))
  {
    hide Tally, Config.N;
    WrittenIffEnd(c, s);
  }

  lemma WrittenIffEnd(c: Config, s: State)
    requires c.Valid() && Counting(c, s)
    ensures s.smallest >= c.end <==> AllWritten(s)
  {
    hide Config.Begin, Tally;
    var n, w := c.N(), Tally(s.phase, HasWritten);
    BeginOfLast(c);
    TallyAtMost(s.phase, HasWritten, n);
    if w < n - 1 {
      BeginGrows(c, w, n - 1);
    }
    if AllWritten(s) {
      TallyPrefix(s.phase, HasWritten, n);
    }
  }

  // ---------- a target that cannot seek ----------

  lemma NothingWritten(c: Config, s: State, s': State)
    requires c.Valid() && |s.phase| == c.N() && InOrder(c, s) && |s'.phase| == |s.phase|
    requires forall i :: 0 <= i < |s.phase| ==> HasWritten(s'.phase[i]) == HasWritten(s.phase[i])
    requires forall i :: 0 <= i < |s.phase| && s'.phase[i].Awake? ==> s.phase[i].Awake? || s.smallest == c.Begin(i)
    requires s.smallest == c.Begin(Tally(s.phase, HasWritten))
    requires s'.target == s.target && s'.outOfOrder == s.outOfOrder
    ensures InOrder(c, s')
  {
    var w := Tally(s.phase, HasWritten);
    TallyAtMost(s.phase, HasWritten, |s.phase|);
    TallyPrefix(s'.phase, HasWritten, w);
    forall i | 0 <= i < |s.phase| && s'.phase[i].Awake? ensures i == w {
      if !s.phase[i].Awake? {
        BeginInjective(c, i, w);
      }
    }
  }

  lemma NextWritten(c: Config, s: State, i: nat, s': State)
    requires c.Valid() && |s.phase| == c.N() && InOrder(c, s) && i < |s.phase|
    requires s.smallest == c.Begin(Tally(s.phase, HasWritten)) && s.smallest == c.Begin(i)
    requires |s'.phase| == |s.phase| && s'.phase == s.phase[i := s'.phase[i]]
    requires HasWritten(s'.phase[i]) && (forall j :: 0 <= j < |s.phase| && j != i ==> !s.phase[j].Awake?)
    requires s'.target == s.target + c.Chunk(i) && s'.outOfOrder == s.outOfOrder
    ensures InOrder(c, s')
  {
    var w := Tally(s.phase, HasWritten);
    BeginInjective(c, i, w);
    c.Spans(i);
    forall j | 0 <= j < |s'.phase| ensures HasWritten(s'.phase[j]) <==> j < w + 1 {
      if j != i {
        assert s'.phase[j] == s.phase[j];
      }
    }
    TallyPrefix(s'.phase, HasWritten, w + 1);
    assert c.blob[c.offset..c.Begin(i)] + c.blob[c.Begin(i)..c.Stop(i)] == c.blob[c.offset..c.Stop(i)];
  }

  /** Only one task can be awake, and it is the one whose turn it is. */
  lemma AwakeAlone(c: Config, s: State, i: nat)
    requires c.Valid() && |s.phase| == c.N() && InOrder(c, s) && i < |s.phase|
    requires s.smallest == c.Begin(Tally(s.phase, HasWritten))
    requires s.phase[i].Awake? || s.smallest == c.Begin(i)
    ensures s.smallest == c.Begin(i) && i == Tally(s.phase, HasWritten)
    ensures forall j :: 0 <= j < |s.phase| && j != i ==> !s.phase[j].Awake?
  {
    if !s.phase[i].Awake? {
      BeginInjective(c, i, Tally(s.phase, HasWritten));
    }
  }

  lemma StepInOrder(c: Config, s: State, a: Action)
    requires c.Valid() && !c.canSeek && Counting(c, s) && InOrder(c, s) && Enabled(c, s, a)
    ensures InOrder(c, Apply(c, s, a))
    ensures a.Write? ==> s.smallest == c.Begin(a.i)
  {
    hide Tally, InOrder, Config.Begin, Config.Chunk, PutAt;
    var s' := Apply(c, s, a);
    if a.Write? || (a.Enter? && s.smallest == c.Begin(a.i)) {
      AwakeAlone(c, s, a.i);
      NextWritten(c, s, a.i, s');
    } else {
      InOrderKnows(c, s);
      WrittenStays(c, s, a);
      hide Apply, Enabled, Counting;
      NothingWritten(c, s, s');
    }
  }

  /** Nothing about what is written changes, and only the task whose turn it is wakes. */
  ghost predicate SameWritten(c: Config, s: State, s': State) {
    && |s'.phase| == |s.phase| && s'.target == s.target && s'.outOfOrder == s.outOfOrder
    && (forall i :: 0 <= i < |s.phase| ==> HasWritten(s'.phase[i]) == HasWritten(s.phase[i]))
    && (forall i :: 0 <= i < |s.phase| && s'.phase[i].Awake? ==> s.phase[i].Awake? || s.smallest == c.Begin(i))
  }

  lemma WrittenStays(c: Config, s: State, a: Action)
    requires c.Valid() && |s.phase| == c.N() && Counting(c, s) && Enabled(c, s, a) && !c.canSeek
    requires !a.Write? && (a.Enter? ==> s.smallest != c.Begin(a.i))
    ensures SameWritten(c, s, Apply(c, s, a))
  {
    hide Tally, Config.Begin, Config.Chunk, Config.N, PutAt, Granted, State.Home, State.Ended;
    match a
    case Spawn => GrantKeeps(s.phase, s.sem, s.sem.Lock());
    case Release(i) => UnlockWrites(c, s, i, Sleeping(true));
    case Exit(i) => UnlockWrites(c, s, i, if s.phase[i].Leaving? then Done else Broken);
    case Return =>
    case Raise =>
    case _ => OthersWrite(c, s, a);
  }

  lemma OthersWrite(c: Config, s: State, a: Action)
    requires c.Valid() && |s.phase| == c.N() && Enabled(c, s, a) && !c.canSeek
    requires !a.Spawn? && !a.Release? && !a.Exit? && !a.Return? && !a.Raise?
    requires !a.Write? && (a.Enter? ==> s.smallest != c.Begin(a.i))
    ensures SameWritten(c, s, Apply(c, s, a))
  {
    hide Config.Begin, Config.Chunk, Config.N, PutAt, Granted, State.Home, State.Ended;
  }

  lemma UnlockWrites(c: Config, s: State, i: nat, p: Phase)
    requires c.Valid() && |s.phase| == c.N() && Counting(c, s) && i < |s.phase| && !s.phase[i].Pending?
    requires HasWritten(p) == HasWritten(s.phase[i]) && !p.Awake? && !p.Pending?
    ensures SameWritten(c, s, Unlock(Move(s, i, p)))
  {
    hide Tally, Config.Begin, Config.N, Granted;
    GrantKeeps(s.phase[i := p], s.sem, s.sem.Unlock());
  }

  /** A granted task starts downloading and nothing else. */
  lemma GrantKeeps(ph: seq<Phase>, before: Permits, after: Permits)
    requires before.granted < |ph| ==> ph[before.granted].Pending?
    ensures var r := Granted(ph, before, after);
      && |r| == |ph|
      && forall i :: 0 <= i < |ph| ==> HasWritten(r[i]) == HasWritten(ph[i]) && (r[i].Awake? ==> ph[i].Awake?)
  {}

  lemma InOrderKnows(c: Config, s: State)
    requires c.Valid() && |s.phase| == c.N() && InOrder(c, s)
    ensures !s.outOfOrder
  {}

  // ---------- a target that can seek ----------

  lemma OthersStayInPlace(c: Config, target: seq<byte>, i: nat, j: nat)
    requires c.Valid() && i < c.N() && j < c.N() && i != j && InPlace(c, target, j)
    requires c.offset <= c.Begin(i)
    ensures InPlace(c, PutAt(target, c.Begin(i) - c.offset, c.Chunk(i)), j)
  {
    c.Spans(i);
    c.Spans(j);
    if i < j { BeginGrows(c, i, j); } else { BeginGrows(c, j, i); }
    var r := PutAt(target, c.Begin(i) - c.offset, c.Chunk(i));
    var lo, hi := c.Begin(j) - c.offset, c.Stop(j) - c.offset;
    assert forall k :: lo <= k < hi ==> r[k] == target[k];
    assert r[lo..hi] == target[lo..hi];
  }

  lemma PutInPlace(c: Config, s: State, i: nat)
    requires c.Valid() && |s.phase| == c.N() && AllInPlace(c, s) && Enabled(c, s, Enter(i)) && c.canSeek
    ensures AllInPlace(c, Apply(c, s, Enter(i)))
  {
    hide Config.Begin, Config.Stop, Config.Chunk;
    var s' := Apply(c, s, Enter(i));
    c.Spans(i);
    forall j | 0 <= j < |s.phase| && HasWritten(s'.phase[j]) ensures InPlace(c, s'.target, j) {
      if j == i {
        Placed(c, s.target, i);
      } else {
        OthersStayInPlace(c, s.target, i, j);
      }
    }
    FirstStays(c, s.target, i);
  }

  lemma Placed(c: Config, target: seq<byte>, i: nat)
    requires c.Valid() && i < c.N()
    ensures c.offset <= c.Begin(i) && InPlace(c, PutAt(target, c.Begin(i) - c.offset, c.Chunk(i)), i)
  {
    c.Spans(i);
    assert |c.Chunk(i)| == c.Stop(i) - c.Begin(i);
  }

  lemma FirstStays(c: Config, target: seq<byte>, i: nat)
    requires c.Valid() && i < c.N() && c.first <= |target| <= c.end - c.offset
    ensures c.offset <= c.Begin(i)
    ensures var r := PutAt(target, c.Begin(i) - c.offset, c.Chunk(i));
      c.first <= |r| <= c.end - c.offset && r[..c.first] == target[..c.first]
  {
    c.Spans(i);
    var r := PutAt(target, c.Begin(i) - c.offset, c.Chunk(i));
    assert forall k :: 0 <= k < c.first ==> r[k] == target[k];
  }

  lemma StepInPlace(c: Config, s: State, a: Action)
    requires c.Valid() && c.canSeek && Counting(c, s) && AllInPlace(c, s) && Enabled(c, s, a)
    ensures AllInPlace(c, Apply(c, s, a)) && !a.Write?
  {
    hide Tally, Config.Begin, Config.Stop, Config.Chunk, PutAt, InPlace;
    if a.Enter? {
      PutInPlace(c, s, a.i);
    }
  }

  /** Every step of every task keeps the invariant. */
  lemma StepInv(c: Config, s: State, a: Action)
    requires Inv(c, s) && Enabled(c, s, a)
    ensures Inv(c, Apply(c, s, a))
  {
    hide InOrder, AllInPlace, Apply, Enabled;
    if c.canSeek {
      StepInPlace(c, s, a);
    } else {
      StepInOrder(c, s, a);
    }
    StepCounts(c, s, a);
  }

  // ---------- whole runs ----------

  /** s' is reached from s by the given steps of the tasks, in any interleaving. */
  ghost predicate Reaches(c: Config, s: State, acts: seq<Action>, s': State)
    requires c.Valid()
    decreases |acts|
  {
    if acts == [] then s' == s
    else |s.phase| == c.N() && Enabled(c, s, acts[0]) && Reaches(c, Apply(c, s, acts[0]), acts[1..], s')
  }

  lemma {:induction false} RunInv(c: Config, s: State, acts: seq<Action>, s': State)
    requires Inv(c, s) && Reaches(c, s, acts, s')
    ensures Inv(c, s')
    decreases |acts|
  {
    hide Apply, Enabled, Counting, InOrder, AllInPlace;
    if acts != [] {
      StepInv(c, s, acts[0]);
      RunInv(c, Apply(c, s, acts[0]), acts[1..], s');
    }
  }

  /** The out-of-order exception is never thrown; a target that cannot seek holds, at every moment,
      exactly the bytes from `offset` up to the smaller of `smallest_offset` and the end. */
  lemma OrderedSafety(c: Config, acts: seq<Action>, s: State)
    requires c.Valid() && Reaches(c, Init(c), acts, s)
    ensures !s.outOfOrder
    ensures !c.canSeek ==>
      var upTo := if s.smallest < c.end then s.smallest else c.end;
      c.offset <= upTo && s.target == c.blob[c.offset..upTo]
  {
    hide Tally;
    InitInv(c);
    RunInv(c, Init(c), acts, s);
  }

  /** When the download returns, whichever kind of target it wrote to holds the whole range and nothing else. */
  lemma ReturnedComplete(c: Config, acts: seq<Action>, s: State)
    requires c.Valid() && Reaches(c, Init(c), acts, s) && s.returned
    ensures s.target == c.blob[c.offset..c.end]
  {
    InitInv(c);
    RunInv(c, Init(c), acts, s);
    AllWrittenComplete(c, s);
  }

  /** Every lock call was made and every task is over. */
  predicate Quiet(s: State) {
    s.returned && s.sem.calls == |s.phase| && forall i :: 0 <= i < |s.phase| ==> s.phase[i].Done?
  }

  lemma {:induction false} StaysQuiet(c: Config, s: State, acts: seq<Action>, s': State)
    requires c.Valid() && !c.isFile && (s.returned ==> Quiet(s)) && Reaches(c, s, acts, s')
    ensures s'.returned ==> Quiet(s')
    decreases |acts|
  {
    if acts != [] {
      StaysQuiet(c, Apply(c, s, acts[0]), acts[1..], s');
    }
  }

  /** When the download of a blob returns, no task is left that could still touch anything. */
  lemma ReturnedIsFinal(c: Config, acts: seq<Action>, s: State)
    requires c.Valid() && !c.isFile && Reaches(c, Init(c), acts, s) && s.returned
    ensures forall i :: 0 <= i < |s.phase| ==> s.phase[i].Done?
    ensures forall a :: !Enabled(c, s, a)
  {
    StaysQuiet(c, Init(c), acts, s);
  }

  /** Position k of the range is in the target. */
  ghost predicate Arrived(c: Config, target: seq<byte>, k: nat) {
    k < |target| && c.offset + k < |c.blob| && target[k] == c.blob[c.offset + k]
  }

  lemma AllArrived(c: Config, target: seq<byte>)
    requires c.Valid() && |target| <= c.end - c.offset
    requires forall k :: 0 <= k < c.end - c.offset ==> Arrived(c, target, k)
    ensures target == c.blob[c.offset..c.end]
  {
    assert Arrived(c, target, c.end - c.offset - 1);
    forall k | 0 <= k < |target| ensures target[k] == c.blob[c.offset..c.end][k] {
      assert Arrived(c, target, k);
    }
  }

  lemma InPlaceArrived(c: Config, target: seq<byte>, i: nat, k: nat)
    requires c.Valid() && i < c.N() && InPlace(c, target, i) && c.Begin(i) <= c.offset + k < c.Stop(i)
    ensures Arrived(c, target, k)
  {
    c.Spans(i);
    assert target[k] == target[c.Begin(i) - c.offset..c.Stop(i) - c.offset][k - (c.Begin(i) - c.offset)];
  }

  lemma AllWrittenComplete(c: Config, s: State)
    requires Inv(c, s) && AllWritten(s)
    ensures s.target == c.blob[c.offset..c.end] && s.smallest >= c.end
  {
    hide Tally, Config.Chunk, Config.Stop, InPlace, Arrived;
    TallyPrefix(s.phase, HasWritten, c.N());
    if c.canSeek {
      forall k | 0 <= k < c.end - c.offset ensures Arrived(c, s.target, k) {
        if k < c.first {
          FirstArrived(c, s.target, k);
        } else {
          var i := InChunk(c, c.offset + k);
          assert HasWritten(s.phase[i]);
          InPlaceArrived(c, s.target, i, k);
        }
      }
      AllArrived(c, s.target);
    }
  }

  lemma FirstArrived(c: Config, target: seq<byte>, k: nat)
    requires c.Valid() && c.first <= |target| && target[..c.first] == c.blob[c.offset..c.Start()] && k < c.first
    ensures Arrived(c, target, k)
  {
    assert target[k] == target[..c.first][k];
  }

  /** Every position of the parallel part lies in a chunk. */
  lemma InChunk(c: Config, at: nat) returns (i: nat)
    requires c.Valid() && c.Start() <= at < c.end
    ensures i < c.N() && c.Begin(i) <= at < c.Stop(i)
  {
    i := (at - c.Start()) / c.block;
    DivisionBounds(at - c.Start(), c.block);
    assert c.Begin(i) <= at < c.Begin(i) + c.block;
    if i > c.N() {
      BeginGrows(c, c.N(), i);
    }
  }

  lemma DivisionBounds(a: nat, b: nat)
    requires b > 0
    ensures (a / b) * b <= a < (a / b) * b + b
  {}

  /** Chunk i was delivered as it is in the blob. */
  predicate Delivered(c: Config, actual: seq<byte>, i: nat)
    requires c.Valid() && c.end <= |actual| && i < c.N()
  {
    c.Spans(i);
    c.Chunk(i) == actual[c.Begin(i)..c.Stop(i)]
  }

  /** The download is as good as the downloads of its ranges: when it returned, the target holds the range of the actual
      blob if and only if the first range and every chunk did. */
  lemma ExactIffDelivered(c: Config, acts: seq<Action>, s: State, actual: seq<byte>)
    requires c.Valid() && Reaches(c, Init(c), acts, s) && s.returned && c.end <= |actual|
    ensures s.target == actual[c.offset..c.end] <==>
      && c.blob[c.offset..c.Start()] == actual[c.offset..c.Start()]
      && forall i :: 0 <= i < c.N() ==> Delivered(c, actual, i)
  {
    ReturnedComplete(c, acts, s);
    hide Config.Begin, Config.N, Config.Stop, Config.Chunk;
    if s.target == actual[c.offset..c.end] {
      SamePart(c, actual, c.offset, c.Start());
      forall i | 0 <= i < c.N() ensures Delivered(c, actual, i) {
        c.Spans(i);
        SamePart(c, actual, c.Begin(i), c.Stop(i));
        ChunkIs(c, i);
      }
    } else if c.blob[c.offset..c.Start()] == actual[c.offset..c.Start()]
      && forall i :: 0 <= i < c.N() ==> Delivered(c, actual, i) {
      forall at | c.offset <= at < c.end ensures c.blob[at] == actual[at] {
        if at < c.Start() {
          assert c.blob[at] == c.blob[c.offset..c.Start()][at - c.offset];
        } else {
          var i := InChunk(c, at);
          assert Delivered(c, actual, i);
          c.Spans(i);
          ChunkIs(c, i);
          assert c.blob[at] == c.blob[c.Begin(i)..c.Stop(i)][at - c.Begin(i)];
        }
      }
    }
  }

  lemma ChunkIs(c: Config, i: nat)
    requires c.Valid() && i < c.N()
    ensures c.Begin(i) <= c.Stop(i) <= c.end && c.Chunk(i) == c.blob[c.Begin(i)..c.Stop(i)]
  {
    c.Spans(i);
  }

  lemma SamePart(c: Config, actual: seq<byte>, low: nat, high: nat)
    requires c.offset <= low <= high <= c.end <= |c.blob| && c.end <= |actual|
    requires c.blob[c.offset..c.end] == actual[c.offset..c.end]
    ensures c.blob[low..high] == actual[low..high]
  {
    PartOfPart(c.blob, c.offset, c.end, low, high);
    PartOfPart(actual, c.offset, c.end, low, high);
  }

  /** A chunk whose bytes are in memory or on their way: its permit was granted and it did not write yet. */
  predicate InMemory(p: Phase) { !p.Pending? && !HasWritten(p) && !p.Broken? }

  lemma {:induction false} InMemoryBound(ph: seq<Phase>)
    ensures Tally(ph, InMemory) <= Tally(ph, Holds) + Tally(ph, Early)
  {
    if ph != [] {
      InMemoryBound(ph[1..]);
    }
  }

  /** However early permits are given up, at most twice the permits less one chunks are in memory. */
  lemma MemoryBound(c: Config, acts: seq<Action>, s: State)
    requires c.Valid() && Reaches(c, Init(c), acts, s)
    ensures Tally(s.phase, InMemory) <= 2 * c.permits - 1
  {
    InitInv(c);
    RunInv(c, Init(c), acts, s);
    InMemoryBound(s.phase);
  }

  // ---------- progress ----------

  /** Steps left to a task at most. */
  function Rank(p: Phase): nat {
    match p
    case Pending => 12
    case Downloading => 11
    case Downloaded => 10
    case Missed => 9
    case Counted => 8
    case Releasing => 7
    case Sleeping(_) => 6
    case Awake(_) => 5
    case Written(_) => 4
    case Leaving => 3
    case Failing => 3
    case Done => 0
    case Broken => 0
  }

  function RankSum(ph: seq<Phase>): nat {
    if ph == [] then 0 else Rank(ph[0]) + RankSum(ph[1..])
  }

  function Measure(s: State): int {
    RankSum(s.phase) + (|s.phase| - s.sem.calls) + (if s.Ended() then 0 else 1)
  }

  lemma {:induction false} RankUpdate(ph: seq<Phase>, i: nat, p: Phase)
    requires i < |ph|
    ensures RankSum(ph[i := p]) == RankSum(ph) - Rank(ph[i]) + Rank(p)
  {
    if i > 0 {
      RankUpdate(ph[1..], i - 1, p);
      assert ph[i := p][1..] == ph[1..][i - 1 := p];
    } else {
      assert ph[0 := p][1..] == ph[1..];
    }
  }

  lemma GrantRank(ph: seq<Phase>, before: Permits, after: Permits)
    requires before.granted < |ph| ==> ph[before.granted].Pending?
    ensures RankSum(Granted(ph, before, after)) <= RankSum(ph)
  {
    if before.granted < after.granted && before.granted < |ph| {
      RankUpdate(ph, before.granted, Downloading);
    }
  }

  /** A step that changes nothing but its own task, which comes closer to its end. */
  ghost predicate Advances(s: State, i: nat, s': State) {
    && i < |s.phase| == |s'.phase| && s'.phase == s.phase[i := s'.phase[i]]
    && Rank(s'.phase[i]) < Rank(s.phase[i]) && s'.sem == s.sem && s'.returned == s.returned && s'.raised == s.raised
  }

  lemma TaskAdvances(c: Config, s: State, a: Action)
    requires c.Valid() && |s.phase| == c.N() && Enabled(c, s, a)
    requires a.Finish? || a.Fail? || a.Enter? || a.Count? || a.Check?
    ensures Advances(s, a.i, Apply(c, s, a))
  {
    hide Config.Begin, Config.Chunk, Config.N, PutAt, Granted, State.Home, State.Ended;
  }

  lemma WaiterAdvances(c: Config, s: State, a: Action)
    requires c.Valid() && |s.phase| == c.N() && Enabled(c, s, a)
    requires a.Wake? || a.Uncount? || (a.Write? && s.smallest == c.Begin(a.i))
    ensures Advances(s, a.i, Apply(c, s, a))
  {
    hide Config.Begin, Config.Chunk, Config.N, PutAt, Granted, State.Home, State.Ended;
  }

  lemma UnlockDecreases(s: State, i: nat, p: Phase)
    requires i < |s.phase| && Rank(p) < Rank(s.phase[i]) && !s.phase[i].Pending?
    requires forall j :: 0 <= j < |s.phase| ==> (s.phase[j].Pending? <==> s.sem.granted <= j)
    ensures Measure(Unlock(Move(s, i, p))) < Measure(s)
  {
    hide RankSum;
    RankUpdate(s.phase, i, p);
    GrantRank(s.phase[i := p], s.sem, s.sem.Unlock());
  }

  lemma SpawnDecreases(c: Config, s: State)
    requires c.Valid() && Counting(c, s) && Enabled(c, s, Spawn)
    ensures Measure(Apply(c, s, Spawn)) < Measure(s)
  {
    hide RankSum, Tally;
    GrantRank(s.phase, s.sem, s.sem.Lock());
  }

  lemma StepDecreases(c: Config, s: State, a: Action)
    requires Inv(c, s) && Enabled(c, s, a)
    ensures Measure(Apply(c, s, a)) < Measure(s)
  {
    hide RankSum, Tally, InOrder, AllInPlace, Config.Begin, Config.Chunk, Config.N, PutAt;
    match a
    case Spawn => SpawnDecreases(c, s);
    case Release(i) => UnlockDecreases(s, i, Sleeping(true));
    case Exit(i) => UnlockDecreases(s, i, if s.phase[i].Leaving? then Done else Broken);
    case Return =>
    case Raise =>
    case _ =>
      if c.canSeek { StepInPlace(c, s, a); } else { StepInOrder(c, s, a); }
      if a.Wake? || a.Uncount? || a.Write? { WaiterAdvances(c, s, a); } else { TaskAdvances(c, s, a); }
      RankUpdate(s.phase, a.i, Apply(c, s, a).phase[a.i]);
  }

  /** No run is longer than 13 steps a chunk and one more. */
  lemma {:induction false} RunsEnd(c: Config, s: State, acts: seq<Action>, s': State)
    requires Inv(c, s) && Reaches(c, s, acts, s')
    ensures |acts| <= Measure(s) - Measure(s')
    decreases |acts|
  {
    hide Apply, Enabled, Counting, InOrder, AllInPlace, Measure;
    if acts != [] {
      StepInv(c, s, acts[0]);
      StepDecreases(c, s, acts[0]);
      RunsEnd(c, Apply(c, s, acts[0]), acts[1..], s');
    }
  }

  lemma {:induction false} InitRank(n: nat)
    ensures RankSum(seq(n, i => Pending)) == 12 * n
  {
    if n > 0 {
      assert seq(n, i => Pending)[1..] == seq(n - 1, i => Pending);
      InitRank(n - 1);
    }
  }

  lemma {:induction false} RankNonNegative(c: Config, s: State)
    requires Inv(c, s)
    ensures Measure(s) >= 0
  {}

  lemma RunsAreFinite(c: Config, acts: seq<Action>, s: State)
    requires c.Valid() && Reaches(c, Init(c), acts, s)
    ensures |acts| <= 13 * c.N() + 1
  {
    hide RankSum, Tally;
    InitInv(c);
    InitRank(c.N());
    RunInv(c, Init(c), acts, s);
    RunsEnd(c, Init(c), acts, s);
    RankNonNegative(c, s);
  }

  /** The task has a step of its own to take. */
  ghost predicate Mobile(c: Config, s: State, i: nat) {
    && i < |s.phase| && !s.phase[i].Pending? && !s.phase[i].Done? && !s.phase[i].Broken?
    && (s.phase[i].Sleeping? ==> s.smallest == c.Begin(i)) && !(s.phase[i].Failing? && c.isFile)
  }

  lemma MobileMoves(c: Config, s: State, i: nat) returns (a: Action)
    requires c.Valid() && Mobile(c, s, i)
    ensures Enabled(c, s, a) && !a.Fail?
  {
    a := match s.phase[i]
      case Downloading => Finish(i)
      case Downloaded => Enter(i)
      case Missed => Count(i)
      case Counted => Check(i)
      case Releasing => Release(i)
      case Sleeping(_) => Wake(i)
      case Awake(_) => Write(i)
      case Written(_) => Uncount(i)
      case _ => Exit(i);
  }

  /** If anybody sleeps, the chunk whose turn it is was granted before, and its task is not stuck. */
  lemma TurnIsMobile(c: Config, s: State, h: nat)
    requires Inv(c, s) && h < |s.phase| && s.phase[h].Sleeping?
    requires forall i :: 0 <= i < |s.phase| ==> !Failed(s.phase[i])
    ensures Mobile(c, s, Tally(s.phase, HasWritten))
  {
    hide Tally, Config.Begin, Config.N;
  }

  /** No deadlock: while no chunk's download failed, some task, the spawning loop or the final wait can go on. */
  lemma Progress(c: Config, s: State) returns (a: Action)
    requires Inv(c, s) && !s.Ended()
    requires forall i :: 0 <= i < |s.phase| ==> !Failed(s.phase[i])
    ensures Enabled(c, s, a) && !a.Fail?
  {
    hide Tally, InOrder, AllInPlace, Config.Begin, Config.N;
    if i: nat :| Mobile(c, s, i) {
      a := MobileMoves(c, s, i);
    } else if s.sem.calls < |s.phase| {
      a := Spawn;
    } else {
      a := Return;
      if s.sem.granted < |s.phase| {
        var h := TallyFind(s.phase, Holds);
        assert !Mobile(c, s, h);
        TurnIsMobile(c, s, h);
        assert false;
      }
      forall i | 0 <= i < |s.phase| ensures s.phase[i].Done? {
        assert !Mobile(c, s, i);
        if s.phase[i].Sleeping? {
          TurnIsMobile(c, s, i);
          assert false;
        }
      }
      TallyNone(s.phase, Holds);
      AllWrittenComplete(c, s);
    }
  }

  /** Steps of a run without failed downloads leave no failed task behind, and nothing to raise. */
  lemma {:induction false} NoFailures(c: Config, s: State, acts: seq<Action>, s': State)
    requires Inv(c, s) && Reaches(c, s, acts, s') && !s.raised
    requires forall i :: 0 <= i < |s.phase| ==> !Failed(s.phase[i])
    requires forall k :: 0 <= k < |acts| ==> !acts[k].Fail?
    ensures !s'.raised && forall i :: 0 <= i < |s'.phase| ==> !Failed(s'.phase[i])
    decreases |acts|
  {
    if acts != [] {
      StepInv(c, s, acts[0]);
      NoFailureStep(c, s, acts[0]);
      NoFailures(c, Apply(c, s, acts[0]), acts[1..], s');
    }
  }

  lemma NoFailureStep(c: Config, s: State, a: Action)
    requires c.Valid() && |s.phase| == c.N() && Enabled(c, s, a) && !a.Fail?
    requires forall i :: 0 <= i < |s.phase| ==> !Failed(s.phase[i])
    ensures var s' := Apply(c, s, a);
      s'.raised == s.raised && forall i :: 0 <= i < |s'.phase| ==> !Failed(s'.phase[i])
  {
    hide Config.Begin, Config.Chunk, Config.N, PutAt, Granted, State.Home;
    match a
    case Spawn => GrantFails(s.phase, s.sem, s.sem.Lock());
    case Release(i) => GrantFails(s.phase[i := Sleeping(true)], s.sem, s.sem.Unlock());
    case Exit(i) => GrantFails(s.phase[i := Done], s.sem, s.sem.Unlock());
    case Return =>
    case Raise =>
    case _ =>
  }

  lemma GrantFails(ph: seq<Phase>, before: Permits, after: Permits)
    requires forall i :: 0 <= i < |ph| ==> !Failed(ph[i])
    ensures var r := Granted(ph, before, after); forall i :: 0 <= i < |r| ==> !Failed(r[i])
  {}

  /** Put together: if no chunk's download fails, every run that cannot be continued has returned,
      after at most 13 steps a chunk and one more, with the whole range in the target. */
  lemma MaximalRunCompletes(c: Config, acts: seq<Action>, s: State)
    requires c.Valid() && Reaches(c, Init(c), acts, s)
    requires forall k :: 0 <= k < |acts| ==> !acts[k].Fail?
    requires Stuck(c, s)
    ensures s.returned && s.target == c.blob[c.offset..c.end] && |acts| <= 13 * c.N() + 1
  {
    InitInv(c);
    RunInv(c, Init(c), acts, s);
    NoFailures(c, Init(c), acts, s);
    RunsAreFinite(c, acts, s);
    if s.returned {
      ReturnedComplete(c, acts, s);
    } else {
      var a := Progress(c, s);
      assert false;
    }
  }

  // ---------- failed chunks ----------

  /** Nothing can happen any more, but for a download that fails. */
  ghost predicate Stuck(c: Config, s: State)
    requires c.Valid()
  {
    forall a :: Enabled(c, s, a) ==> a.Fail?
  }

  lemma FailedStep(c: Config, s: State, a: Action, i: nat)
    requires Inv(c, s) && Enabled(c, s, a) && i < |s.phase| && Failed(s.phase[i])
    ensures var s' := Apply(c, s, a); i < |s'.phase| && Failed(s'.phase[i]) && (!s.returned ==> !s'.returned)
  {
    hide Tally, Config.Begin, Config.Chunk, Config.N, PutAt, InOrder, AllInPlace;
    if a.Return? {
      WrittenIffEnd(c, s);
    }
  }

  lemma {:induction false} FailedStays(c: Config, s: State, acts: seq<Action>, s': State, i: nat)
    requires Inv(c, s) && Reaches(c, s, acts, s') && i < |s.phase| && Failed(s.phase[i]) && !s.returned
    ensures i < |s'.phase| && Failed(s'.phase[i]) && !s'.returned
    decreases |acts|
  {
    hide Apply, Enabled, Counting, InOrder, AllInPlace;
    if acts != [] {
      StepInv(c, s, acts[0]);
      FailedStep(c, s, acts[0], i);
      FailedStays(c, Apply(c, s, acts[0]), acts[1..], s', i);
    }
  }

  lemma FailStep(c: Config, s: State, i: nat)
    requires Inv(c, s) && Enabled(c, s, Fail(i))
    ensures var s' := Apply(c, s, Fail(i)); !s'.returned && i < |s'.phase| && Failed(s'.phase[i])
  {
    hide Tally, InOrder, AllInPlace;
  }

  lemma {:induction false} FailureSeen(c: Config, s: State, acts: seq<Action>, s': State, k: nat) returns (i: nat)
    requires Inv(c, s) && Reaches(c, s, acts, s') && k < |acts| && acts[k].Fail?
    ensures i < |s'.phase| && Failed(s'.phase[i]) && !s'.returned
    decreases |acts|
  {
    hide Apply, Enabled, Counting, InOrder, AllInPlace;
    StepInv(c, s, acts[0]);
    if k == 0 {
      i := acts[0].i;
      FailStep(c, s, i);
      FailedStays(c, Apply(c, s, acts[0]), acts[1..], s', i);
    } else {
      i := FailureSeen(c, Apply(c, s, acts[0]), acts[1..], s', k - 1);
    }
  }

  /** A run that cannot be continued has returned normally exactly if no download in it failed. */
  lemma ReturnedIffNoFailure(c: Config, acts: seq<Action>, s: State)
    requires c.Valid() && Reaches(c, Init(c), acts, s) && Stuck(c, s)
    ensures s.returned <==> forall k :: 0 <= k < |acts| ==> !acts[k].Fail?
  {
    InitInv(c);
    if forall k :: 0 <= k < |acts| ==> !acts[k].Fail? {
      MaximalRunCompletes(c, acts, s);
    } else {
      var k: nat :| k < |acts| && acts[k].Fail?;
      var i := FailureSeen(c, Init(c), acts, s, k);
    }
  }

  /** A failed chunk stops an ordered target for good: nothing from it on is ever written. */
  lemma NothingAfterFailure(c: Config, acts: seq<Action>, s: State, i: nat, more: seq<Action>, s': State)
    requires c.Valid() && !c.canSeek && Reaches(c, Init(c), acts, s) && i < |s.phase| && Failed(s.phase[i])
    requires !s.returned && Reaches(c, s, more, s')
    ensures s'.smallest <= c.Begin(i) && forall j :: i <= j < |s'.phase| ==> !HasWritten(s'.phase[j])
  {
    hide Tally, Config.Begin;
    InitInv(c);
    RunInv(c, Init(c), acts, s);
    RunInv(c, s, more, s');
    FailedStays(c, s, more, s', i);
    var w := Tally(s'.phase, HasWritten);
    if w < i {
      BeginGrows(c, w, i);
    }
  }

  /** In a file download only Fail makes failed tasks, and they keep their permit. */
  lemma FileFailing(c: Config, s: State, acts: seq<Action>, s': State, i: nat)
    requires Inv(c, s) && Reaches(c, s, acts, s') && c.isFile && i < |s'.phase| && Failed(s'.phase[i])
    requires forall j :: 0 <= j < |s.phase| ==> !s.phase[j].Broken?
    ensures s'.phase[i].Failing?
    decreases |acts|
  {
    hide Counting, InOrder, AllInPlace;
    if acts != [] {
      StepInv(c, s, acts[0]);
      NotBroken(c, s, acts[0]);
      FileFailing(c, Apply(c, s, acts[0]), acts[1..], s', i);
    }
  }

  lemma NotBroken(c: Config, s: State, a: Action)
    requires c.Valid() && |s.phase| == c.N() && Enabled(c, s, a) && c.isFile
    requires forall j :: 0 <= j < |s.phase| ==> !s.phase[j].Broken?
    ensures forall j :: 0 <= j < |Apply(c, s, a).phase| ==> !Apply(c, s, a).phase[j].Broken?
  {
    hide Config.Begin, Config.Chunk, Config.N, PutAt;
  }

  /** In a stuck seekable download whoever holds a permit failed in a file. */
  lemma StuckTask(c: Config, s: State, h: nat)
    requires Inv(c, s) && c.canSeek && Stuck(c, s) && h < |s.phase| && Holds(s.phase[h])
    ensures c.isFile && s.phase[h].Failing?
  {
    hide Tally, Config.Begin, Config.N;
    if Mobile(c, s, h) {
      var a := MobileMoves(c, s, h);
    }
  }

  lemma HomeIff(c: Config, s: State)
    requires Inv(c, s)
    ensures s.sem.free == s.sem.total <==> Tally(s.phase, Holds) == 0
  {
    hide Tally, InOrder, AllInPlace;
  }

  /** With a seekable target every permit comes home, exactly unless this is a file and a download failed. */
  lemma PermitsHomeIff(c: Config, acts: seq<Action>, s: State)
    requires c.Valid() && c.canSeek && Reaches(c, Init(c), acts, s) && Stuck(c, s)
    ensures s.sem.free == s.sem.total <==> !c.isFile || forall k :: 0 <= k < |acts| ==> !acts[k].Fail?
  {
    InitInv(c);
    assert Inv(c, Init(c)) && |s.phase| >= 0;
    RunInv(c, Init(c), acts, s);
    HomeIff(c, s);
    if c.isFile && exists k :: 0 <= k < |acts| && acts[k].Fail? {
      hide Inv, Stuck, Tally;
      var k: nat :| k < |acts| && acts[k].Fail?;
      var i := FailureSeen(c, Init(c), acts, s, k);
      FileFailing(c, Init(c), acts, s, i);
      HolderCounts(s.phase, i, Holds);
    } else if s.sem.free != s.sem.total {
      var h := TallyFind(s.phase, Holds);
      hide Inv, Tally;
      StuckTask(c, s, h);
      NoFailures(c, Init(c), acts, s);
    }
  }

  // ---------- how a download ends ----------

  /** Once every permit is home no step takes one. */
  lemma HomeStep(c: Config, s: State, a: Action)
    requires Inv(c, s) && Enabled(c, s, a) && s.Home()
    ensures Apply(c, s, a).Home()
  {
    hide InOrder, AllInPlace, Config.Begin, Config.Chunk, Config.N, PutAt, Tally;
    HomeIff(c, s);
    if a.Release? || a.Exit? {
      HolderCounts(s.phase, a.i, Holds);
      assert false;
    }
  }

  lemma {:induction false} EndedIsHome(c: Config, s: State, acts: seq<Action>, s': State)
    requires Inv(c, s) && Reaches(c, s, acts, s') && (s.Ended() ==> s.Home())
    ensures s'.Ended() ==> s'.Home()
    decreases |acts|
  {
    hide Apply, Enabled, Counting, InOrder, AllInPlace, State.Ended, State.Home;
    if acts != [] {
      StepInv(c, s, acts[0]);
      EndedStep(c, s, acts[0]);
      EndedIsHome(c, Apply(c, s, acts[0]), acts[1..], s');
    }
  }

  lemma EndedStep(c: Config, s: State, a: Action)
    requires Inv(c, s) && Enabled(c, s, a) && (s.Ended() ==> s.Home())
    ensures Apply(c, s, a).Ended() ==> Apply(c, s, a).Home()
  {
    hide Inv, Config.Begin, Config.Chunk, Config.N, PutAt;
    assert |s.phase| == c.N() by { PhaseCount(c, s); }
    if s.Ended() || a.Return? || a.Raise? {
      HomeStep(c, s, a);
    }
  }

  lemma PhaseCount(c: Config, s: State)
    requires Inv(c, s)
    ensures c.Valid() && |s.phase| == c.N()
  {}

  /** Where all permits are home and nothing can happen any more, the caller got an answer. */
  lemma StuckAtHome(c: Config, s: State)
    requires Inv(c, s) && Stuck(c, s) && s.sem.free == s.sem.total
    requires c.isFile ==> forall i :: 0 <= i < |s.phase| ==> !s.phase[i].Broken?
    ensures s.Ended()
  {
    hide InOrder, AllInPlace, Config.Begin, Config.N, Tally;
    HomeIff(c, s);
    assert s.Home() by {
      assert s.sem.calls < |s.phase| ==> Enabled(c, s, Spawn);
    }
    if i: nat :| i < |s.phase| && Failed(s.phase[i]) {
      if s.phase[i].Failing? {
        HolderCounts(s.phase, i, Holds);
      }
      assert s.phase[i].Broken?;
      assert !s.Ended() ==> Enabled(c, s, Raise);
    } else if !s.Ended() {
      var a := Progress(c, s);
      assert false;
    }
  }

  /** A run that cannot go on has ended for the caller exactly if all permits are home. */
  lemma EndedIffHome(c: Config, acts: seq<Action>, s: State)
    requires c.Valid() && Reaches(c, Init(c), acts, s) && Stuck(c, s)
    ensures s.Ended() <==> s.sem.free == s.sem.total
  {
    hide Inv, Stuck;
    InitInv(c);
    RunInv(c, Init(c), acts, s);
    EndedIsHome(c, Init(c), acts, s);
    if s.sem.free == s.sem.total {
      if c.isFile {
        forall i | 0 <= i < |s.phase| ensures !s.phase[i].Broken? {
          if Failed(s.phase[i]) {
            FileFailing(c, Init(c), acts, s, i);
          }
        }
      }
      StuckAtHome(c, s);
    }
  }

  /** Whatever fails, every run that cannot go on has ended, with the whole range or with an exception. */
  ghost predicate AlwaysEnds(c: Config)
    requires c.Valid()
  {
    forall acts, s :: Reaches(c, Init(c), acts, s) && Stuck(c, s) ==> s.Ended()
  }

  predicate Waits(p: Phase) { p.Sleeping? || p.Awake? || p.Written? }

  /** The first chunk never waits for its turn, and whoever waits gave its permit up before. */
  ghost predicate WaitersLeft(ph: seq<Phase>) {
    && (forall i :: 0 <= i < |ph| && Waits(ph[i]) ==> ph[i].early)
    && (ph != [] ==> !ph[0].Missed? && !InWriter(ph[0]))
  }

  lemma {:induction false} TallyBelow(ph: seq<Phase>)
    requires ph != [] && !InWriter(ph[0])
    ensures Tally(ph, InWriter) < |ph|
  {
    TallyAtMost(ph[1..], InWriter, |ph| - 1);
  }

  lemma OneChanged(ph: seq<Phase>, i: nat, p: Phase)
    requires WaitersLeft(ph) && i < |ph| && (Waits(p) ==> p.early) && (i == 0 ==> !p.Missed? && !InWriter(p))
    ensures WaitersLeft(ph[i := p])
  {}

  lemma UnlockLeaves(s: State, i: nat, p: Phase)
    requires WaitersLeft(s.phase) && i < |s.phase| && (Waits(p) ==> p.early) && (i == 0 ==> !p.Missed? && !InWriter(p))
    ensures WaitersLeft(Unlock(Move(s, i, p)).phase)
  {
    hide WaitersLeft;
    OneChanged(s.phase, i, p);
    GrantLeaves(s.phase[i := p], s.sem, s.sem.Unlock());
  }

  lemma GrantLeaves(ph: seq<Phase>, before: Permits, after: Permits)
    requires WaitersLeft(ph)
    ensures WaitersLeft(Granted(ph, before, after))
  {}

  lemma WaitersStep(c: Config, s: State, a: Action)
    requires Inv(c, s) && !c.canSeek && c.N() <= c.permits && WaitersLeft(s.phase) && Enabled(c, s, a)
    ensures WaitersLeft(Apply(c, s, a).phase)
  {
    hide Tally, Config.Begin, Config.N, Config.Chunk, PutAt, InOrder, Granted;
    match a
    case Spawn => GrantLeaves(s.phase, s.sem, s.sem.Lock());
    case Release(i) => UnlockLeaves(s, i, Sleeping(true));
    case Exit(i) => UnlockLeaves(s, i, if s.phase[i].Leaving? then Done else Broken);
    case Return =>
    case Raise =>
    case _ => OneMoves(c, s, a);
  }

  lemma OneMoves(c: Config, s: State, a: Action)
    requires Inv(c, s) && !c.canSeek && c.N() <= c.permits && WaitersLeft(s.phase) && Enabled(c, s, a)
    requires !a.Spawn? && !a.Release? && !a.Exit? && !a.Return? && !a.Raise?
    ensures WaitersLeft(Apply(c, s, a).phase)
  {
    hide Tally, Config.Begin, Config.N, Config.Chunk, PutAt, InOrder, Granted;
    if a.Enter? && a.i == 0 {
      FirstIsNext(c, s);
    }
    TallyBelow(s.phase);
    OneChanged(s.phase, a.i, Apply(c, s, a).phase[a.i]);
  }

  /** When the first chunk comes to write, it is its turn. */
  lemma FirstIsNext(c: Config, s: State)
    requires Inv(c, s) && !c.canSeek && !HasWritten(s.phase[0])
    ensures s.smallest == c.Begin(0)
  {
    hide Tally, Config.N, Config.Begin;
  }

  lemma {:induction false} WaitersRun(c: Config, s: State, acts: seq<Action>, s': State)
    requires Inv(c, s) && Reaches(c, s, acts, s') && !c.canSeek && c.N() <= c.permits && WaitersLeft(s.phase)
    ensures WaitersLeft(s'.phase)
    decreases |acts|
  {
    hide Apply, Enabled, Counting, InOrder, AllInPlace, WaitersLeft;
    if acts != [] {
      StepInv(c, s, acts[0]);
      WaitersStep(c, s, acts[0]);
      WaitersRun(c, Apply(c, s, acts[0]), acts[1..], s');
    }
  }

  /** A blob's download to a target that can seek, or of no more chunks than permits, always ends. */
  lemma BlobEnds(c: Config, acts: seq<Action>, s: State)
    requires c.Valid() && !c.isFile && (c.canSeek || c.N() <= c.permits)
    requires Reaches(c, Init(c), acts, s) && Stuck(c, s)
    ensures s.Ended()
  {
    InitInv(c);
    RunInv(c, Init(c), acts, s);
    EndedIffHome(c, acts, s);
    HomeIff(c, s);
    if s.sem.free != s.sem.total {
      var h := TallyFind(s.phase, Holds);
      if !c.canSeek {
        WaitersRun(c, Init(c), acts, s);
      }
      hide Inv, Reaches, Tally;
      NoHolder(c, s, h);
    }
  }

  lemma NoHolder(c: Config, s: State, h: nat)
    requires Inv(c, s) && Stuck(c, s) && !c.isFile && (c.canSeek || WaitersLeft(s.phase)) && h < |s.phase|
    ensures !Holds(s.phase[h])
  {
    hide Tally, Config.Begin, Config.N;
    if Mobile(c, s, h) {
      var a := MobileMoves(c, s, h);
    }
  }

  /** Any state can be driven on, without another failure, until nothing can happen any more. */
  lemma {:induction false} RunToStuck(c: Config, s: State) returns (acts: seq<Action>, s': State)
    requires Inv(c, s)
    ensures Reaches(c, s, acts, s') && Stuck(c, s') && forall k :: 0 <= k < |acts| ==> !acts[k].Fail?
    decreases Measure(s)
  {
    hide Apply, Enabled, Counting, InOrder, AllInPlace, Measure;
    if Stuck(c, s) {
      acts, s' := [], s;
    } else {
      var a :| Enabled(c, s, a) && !a.Fail?;
      StepInv(c, s, a);
      StepDecreases(c, s, a);
      PhaseCount(c, s);
      RankNonNegative(c, s);
      RankNonNegative(c, Apply(c, s, a));
      var rest;
      rest, s' := RunToStuck(c, Apply(c, s, a));
      acts := [a] + rest;
      assert acts[1..] == rest;
    }
  }

  /** The first chunk failed, and no other one. */
  ghost predicate FirstFailed(s: State) {
    && s.phase != [] && Failed(s.phase[0]) && !s.Ended()
    && forall i :: 0 < i < |s.phase| ==> !Failed(s.phase[i])
  }

  /** With more chunks than permits, the first one's failure leaves somebody asleep with a permit: at most one less than
      the permits were given up early. */
  lemma SomebodySleeps(c: Config, s: State)
    requires Inv(c, s) && !c.canSeek && c.permits < c.N() && FirstFailed(s)
    ensures !s.Home()
  {
    hide Config.Begin, Config.N;
    if s.Home() {
      HomeIff(c, s);
      var rest := s.phase[1..];
      forall i | 0 <= i < |rest| ensures Early(rest[i]) {
        assert rest[i] == s.phase[i + 1];
        if Holds(s.phase[i + 1]) {
          HolderCounts(s.phase, i + 1, Holds);
        }
      }
      TallyPrefix(rest, Early, |rest|);
    }
  }

  lemma FirstFailedStep(c: Config, s: State, a: Action)
    requires Inv(c, s) && !c.canSeek && c.permits < c.N() && FirstFailed(s) && Enabled(c, s, a) && !a.Fail?
    ensures FirstFailed(Apply(c, s, a))
  {
    SomebodySleeps(c, s);
    hide Tally, Config.Begin, Config.Chunk, Config.N, PutAt, InOrder, AllInPlace;
  }

  lemma {:induction false} FirstFailedRun(c: Config, s: State, acts: seq<Action>, s': State)
    requires Inv(c, s) && !c.canSeek && c.permits < c.N() && FirstFailed(s) && Reaches(c, s, acts, s')
    requires forall k :: 0 <= k < |acts| ==> !acts[k].Fail?
    ensures FirstFailed(s')
    decreases |acts|
  {
    hide Apply, Enabled, Counting, InOrder, AllInPlace, FirstFailed;
    if acts != [] {
      StepInv(c, s, acts[0]);
      FirstFailedStep(c, s, acts[0]);
      FirstFailedRun(c, Apply(c, s, acts[0]), acts[1..], s');
    }
  }

  /** The first chunk is granted and fails. */
  lemma FirstFails(c: Config) returns (s: State)
    requires c.Valid()
    ensures Inv(c, s) && FirstFailed(s) && Reaches(c, Init(c), [Spawn, Fail(0)], s)
  {
    hide Inv, Tally, Config.Begin, Config.Chunk, PutAt;
    InitInv(c);
    var s0 := Init(c);
    StepInv(c, s0, Spawn);
    var s1 := Apply(c, s0, Spawn);
    StepInv(c, s1, Fail(0));
    s := Apply(c, s1, Fail(0));
    assert [Spawn, Fail(0)][1..] == [Fail(0)];
    assert Reaches(c, s, [], s) && Reaches(c, s1, [Fail(0)], s);
  }

  /** For files, and for blobs that are written in order with more chunks than permits, a run that stops without an
      answer to the caller: the first chunk fails, and everything else goes on as far as it can. */
  lemma HangingRun(c: Config) returns (acts: seq<Action>, s: State)
    requires c.Valid() && (c.isFile || (!c.canSeek && c.permits < c.N()))
    ensures Reaches(c, Init(c), acts, s) && Stuck(c, s) && !s.Ended()
  {
    hide Inv, Apply, Enabled, Stuck;
    var s1 := FirstFails(c);
    var rest;
    rest, s := RunToStuck(c, s1);
    acts := [Spawn, Fail(0)] + rest;
    Joins(c, Init(c), [Spawn, Fail(0)], s1, rest, s);
    if c.isFile {
      FileHangs(c, acts, s);
    } else {
      FirstFailedRun(c, s1, rest, s);
    }
  }

  lemma {:induction false} Joins(c: Config, s: State, acts: seq<Action>, s1: State, rest: seq<Action>, s2: State)
    requires c.Valid() && Reaches(c, s, acts, s1) && Reaches(c, s1, rest, s2)
    ensures Reaches(c, s, acts + rest, s2)
    decreases |acts|
  {
    hide Apply, Enabled;
    if acts != [] {
      Joins(c, Apply(c, s, acts[0]), acts[1..], s1, rest, s2);
      assert (acts + rest)[1..] == acts[1..] + rest;
    } else {
      assert acts + rest == rest;
    }
  }

  /** A file's download in which a chunk failed keeps that permit, and never ends. */
  lemma FileHangs(c: Config, acts: seq<Action>, s: State)
    requires c.Valid() && c.isFile && Reaches(c, Init(c), acts, s) && Stuck(c, s)
    requires exists k :: 0 <= k < |acts| && acts[k].Fail?
    ensures s.sem.free != s.sem.total && !s.Ended()
  {
    hide Inv, Stuck, Tally;
    InitInv(c);
    RunInv(c, Init(c), acts, s);
    var k: nat :| k < |acts| && acts[k].Fail?;
    var i := FailureSeen(c, Init(c), acts, s, k);
    FileFailing(c, Init(c), acts, s, i);
    HolderCounts(s.phase, i, Holds);
    HomeIff(c, s);
    EndedIffHome(c, acts, s);
  }

  /** Every download ends for its caller, whatever fails, exactly if it is a blob's and its target can seek or there are
      no more chunks than permits. */
  lemma AlwaysEndsIff(c: Config)
    requires c.Valid()
    ensures AlwaysEnds(c) <==> !c.isFile && (c.canSeek || c.N() <= c.permits)
  {
    hide Reaches, Stuck, Init, Config.N;
    if !c.isFile && (c.canSeek || c.N() <= c.permits) {
      forall acts, s | Reaches(c, Init(c), acts, s) && Stuck(c, s) ensures s.Ended() {
        BlobEnds(c, acts, s);
      }
    } else {
      var acts, s := HangingRun(c);
    }
  }

  // ---------- two concrete runs ----------

  ghost predicate Leads(c: Config, s: State, a: Action, s': State)
    requires c.Valid()
  {
    |s.phase| == c.N() && Enabled(c, s, a) && Apply(c, s, a) == s'
  }

  /** A run given by the states it goes through. */
  lemma {:induction false} Follows(c: Config, states: seq<State>, acts: seq<Action>)
    requires c.Valid() && |states| == |acts| + 1
    requires forall k :: 0 <= k < |acts| ==> Leads(c, states[k], acts[k], states[k + 1])
    ensures Reaches(c, states[0], acts, states[|acts|])
  {
    hide Enabled, Apply;
    if acts != [] {
      Follows(c, states[1..], acts[1..]);
      assert Leads(c, states[0], acts[0], states[1]);
    }
  }

  /** Two chunks of one byte, in order, under one permit. */
  function TwoChunks(): Config { Config([1, 2, 3], 0, 3, 1, 1, 1, false, false) }

  function Stage(sem: Permits, first: Phase, second: Phase, writer: int): State {
    State(sem, [first, second], writer, 1, [1], false, false, false)
  }

  /** The first chunk fails and gives its permit to the second one, which misses its turn, finds one writer, itself,
      where none is allowed, and goes to sleep with the permit. Nothing can happen any more, and the caller waits. */
  lemma FailedChunkHangs() returns (acts: seq<Action>, s: State)
    ensures var c := TwoChunks();
      c.Valid() && Reaches(c, Init(c), acts, s) && Stuck(c, s) && !s.Ended() && s.sem.free < s.sem.total
  {
    hide *;
    acts := [Spawn, Spawn, Fail(0), Exit(0), Finish(1), Enter(1), Count(1), Check(1)];
    var states := seq(9, k requires 0 <= k < 9 => HangingState(k));
    TwoChunksStart();
    forall k | 0 <= k < |acts| ensures Leads(TwoChunks(), states[k], acts[k], states[k + 1]) {
      if k < 4 { HangingStart(k, acts[k]); } else { HangingEnd(k, acts[k]); }
    }
    Follows(TwoChunks(), states, acts);
    s := states[8];
    HangingStuck();
  }

  function HangingState(k: nat): State
    requires k < 9
  {
    if k == 0 then Stage(Permits(1, 1, 0, 0, 0), Pending, Pending, 0)
    else if k == 1 then Stage(Permits(1, 0, 1, 1, 0), Downloading, Pending, 0)
    else if k == 2 then Stage(Permits(1, 0, 2, 1, 0), Downloading, Pending, 0)
    else if k == 3 then Stage(Permits(1, 0, 2, 1, 0), Failing, Pending, 0)
    else if k == 4 then Stage(Permits(1, 0, 2, 2, 1), Broken, Downloading, 0)
    else if k == 5 then Stage(Permits(1, 0, 2, 2, 1), Broken, Downloaded, 0)
    else if k == 6 then Stage(Permits(1, 0, 2, 2, 1), Broken, Missed, 0)
    else if k == 7 then Stage(Permits(1, 0, 2, 2, 1), Broken, Counted, 1)
    else Stage(Permits(1, 0, 2, 2, 1), Broken, Sleeping(false), 1)
  }

  lemma TwoChunksStart()
    ensures TwoChunks().Valid() && TwoChunks().N() == 2 && Init(TwoChunks()) == HangingState(0)
  {
    hide Config.Begin;
    assert [1, 2, 3][0..1] == [1];
  }

  lemma HangingStart(k: nat, a: Action)
    requires k < 4 && a == if k < 2 then Spawn else if k == 2 then Fail(0) else Exit(0)
    ensures TwoChunks().Valid() && Leads(TwoChunks(), HangingState(k), a, HangingState(k + 1))
  {
    TwoChunksStart();
    hide PutAt, Config.Chunk, Config.Begin, Config.N, Init;
  }

  lemma HangingEnd(k: nat, a: Action)
    requires 4 <= k < 8
    requires a == if k == 4 then Finish(1) else if k == 5 then Enter(1) else if k == 6 then Count(1) else Check(1)
    ensures TwoChunks().Valid() && Leads(TwoChunks(), HangingState(k), a, HangingState(k + 1))
  {
    TwoChunksStart();
    hide PutAt, Config.Chunk, Config.N, Init;
  }

  lemma HangingStuck()
    ensures var s := HangingState(8); Stuck(TwoChunks(), s) && !s.Ended() && s.sem.free < s.sem.total
  {
    hide PutAt, Config.Chunk, Config.N;
    forall a | Enabled(TwoChunks(), HangingState(8), a) ensures a.Fail? {}
  }

  /** A file of one chunk of one byte, under one permit. */
  function OneChunk(): Config { Config([1, 2], 0, 2, 1, 1, 1, true, true) }

  function FileState(phase: Phase): State {
    State(if phase.Pending? then Permits(1, 1, 0, 0, 0) else Permits(1, 0, 1, 1, 0), [phase], 0, 1, [1],
      false, false, false)
  }

  /** A file download whose only chunk fails: its permit stays out for good, with a target that can seek, too. */
  lemma FailedFileKeepsPermit() returns (acts: seq<Action>, s: State)
    ensures var c := OneChunk();
      c.Valid() && Reaches(c, Init(c), acts, s) && Stuck(c, s) && !s.Ended() && s.sem.free < s.sem.total
  {
    hide *;
    acts, s := [Spawn, Fail(0)], FileState(Failing);
    OneChunkStart();
    FileSpawns();
    FileFails();
    Follows(OneChunk(), [FileState(Pending), FileState(Downloading), FileState(Failing)], acts);
    FileStuck();
  }

  lemma OneChunkStart()
    ensures OneChunk().Valid() && OneChunk().N() == 1 && Init(OneChunk()) == FileState(Pending)
  {
    hide Config.Begin;
    assert [1, 2][0..1] == [1];
  }

  lemma FileSpawns()
    ensures OneChunk().Valid() && Leads(OneChunk(), FileState(Pending), Spawn, FileState(Downloading))
  {
    OneChunkStart();
    hide PutAt, Config.Chunk, Config.Begin, Config.N, Init;
    assert [Pending][0 := Downloading] == [Downloading];
  }

  lemma FileFails()
    ensures OneChunk().Valid() && Leads(OneChunk(), FileState(Downloading), Fail(0), FileState(Failing))
  {
    OneChunkStart();
    hide PutAt, Config.Chunk, Config.Begin, Config.N, Init, Granted, Unlock;
    assert [Downloading][0 := Failing] == [Failing];
  }

  lemma FileStuck()
    ensures var s := FileState(Failing); Stuck(OneChunk(), s) && !s.Ended() && s.sem.free < s.sem.total
  {
    hide PutAt, Config.Chunk, Config.N;
    forall a | Enabled(OneChunk(), FileState(Failing), a) ensures a.Fail? {}
  }

  /** The counter says when everything is written: it is at or past the end exactly when every chunk was. */
  lemma EndReachedWhenWritten(c: Config, acts: seq<Action>, s: State)
    requires c.Valid() && Reaches(c, Init(c), acts, s)
    ensures s.smallest >= c.end <==> AllWritten(s)
  {
    hide Counting, AllWritten;
    InitInv(c);
    RunInv(c, Init(c), acts, s);
    WrittenIffEnd(c, s);
  }

  lemma BeginOfLast(c: Config)
    requires c.Valid()
    ensures c.Begin(c.N() - 1) < c.end <= c.Begin(c.N())
  {}

  // ---------- the plan ----------

  const MAX_LENGTH: nat := 0xFFFF_FFFF_FFFF_FFFF

  /** The offsets and lengths of the chunks the loop spawns after the first range of `first` bytes: up to the length
      asked for, or to the size that the first response reported if that is less. */
  method PlanChunks(c: Config, length: nat, size: nat) returns (chunks: seq<(nat, nat)>)
    requires c.offset <= size == |c.blob| <= MAX_LENGTH && 0 < c.block && 0 < c.permits
    requires c.end == if c.offset + length < size then c.offset + length else size
    ensures c.end <= c.offset + c.first ==> chunks == []
    ensures c.offset + c.first < c.end ==>
      c.Valid() && |chunks| == c.N()
        && forall i :: 0 <= i < |chunks| ==> chunks[i] == (c.Begin(i), c.Stop(i) - c.Begin(i))
  {
    var targetOffset, targetLength := c.offset, length;
    if targetLength >= MAX_LENGTH || targetLength > size - c.offset {
      targetLength := size - c.offset;
    }
    chunks := [];
    if targetLength <= c.first {
      return;
    }
    targetOffset, targetLength := targetOffset + c.first, targetLength - c.first;
    var currentOffset := targetOffset;
    while currentOffset < targetOffset + targetLength
      invariant |chunks| <= c.N() && currentOffset == c.Begin(|chunks|)
      invariant forall i :: 0 <= i < |chunks| ==> chunks[i] == (c.Begin(i), c.Stop(i) - c.Begin(i))
      decreases c.N() - |chunks|
    {
      var currentLength := c.block;
      if currentOffset + currentLength > targetOffset + targetLength {
        currentLength := targetOffset + targetLength - currentOffset;
      }
      NotYetLast(c, |chunks|);
      BeginNext(c, |chunks|);
      chunks := chunks + [(currentOffset, currentLength)];
      currentOffset := currentOffset + c.block;
    }
    NoneMissing(c, |chunks|);
  }

  lemma NotYetLast(c: Config, i: nat)
    requires c.Valid() && c.Begin(i) < c.end
    ensures i < c.N()
  {
    hide Config.Begin;
    BeginOfLast(c);
    if i > c.N() {
      BeginGrows(c, c.N(), i);
    }
  }

  lemma NoneMissing(c: Config, i: nat)
    requires c.Valid() && i <= c.N() && c.end <= c.Begin(i)
    ensures i == c.N()
  {
    hide Config.Begin;
    BeginOfLast(c);
    if i < c.N() - 1 {
      BeginGrows(c, i, c.N() - 1);
    }
  }
}