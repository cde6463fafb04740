/** The seekable blob input stream: a buffer over ranged downloads that should behave like direct reads of the blob
    at a cursor. */
module BlobReader {
  import opened Common

  /** The blob, a hash function, and the MD5 stored with the blob. */
  datatype Config = Config(blob: seq<byte>, md5: seq<byte> -> string, stored: string)

  datatype Reader = Reader(
    current: nat,               // m_current_blob_offset
    next: nat,                  // m_next_blob_offset
    buffer: seq<byte>,
    position: nat,              // read head of the buffer
    bufferSize: nat,
    nextBufferSize: nat,
    hash: Option<seq<byte>>,    // what m_blob_hash_provider was given, if it is enabled
    failed: bool)               // m_currentException is set

  function Open(c: Config, readSize: nat, validate: bool): Reader {
    Reader(0, 0, [], 0, readSize, readSize, if validate && c.stored != "" then Some([]) else None, false)
  }

  function Available(r: Reader): nat { if r.position <= |r.buffer| then |r.buffer| - r.position else 0 }

  function Tell(r: Reader): nat { r.current + r.position }

  /** The next range, unless the blob is read to its end. `fault` tells that the request fails. */
  function Download(c: Config, r: Reader, fault: bool): (r': Reader)
    requires r.next <= |c.blob|
    ensures r'.next <= |c.blob|
  {
    var low := r.next;
    if low == |c.blob| then r.(current := low)
    else
      var size := if |c.blob| - low > r.nextBufferSize then r.nextBufferSize else |c.blob| - low;
      var moved := r.(current := low, bufferSize := r.nextBufferSize, next := low + size);
      if fault then moved.(buffer := [], failed := true)
      else
        var data := c.blob[low..low + size];
        var hash := if r.hash.Some? then Some(r.hash.value + data) else None;
        moved.(buffer := data, position := 0, hash := hash,
          failed := hash.Some? && low + size == |c.blob| && c.md5(hash.value) != c.stored)
  }

  function DownloadIfNecessary(c: Config, r: Reader, needed: nat, fault: bool): Reader
    requires r.next <= |c.blob|
  {
    if Available(r) < needed then Download(c, r, fault) else r
  }

  /** A seek inside the buffer moves its head; any other valid one drops the buffer and the hash. */
  function Seek(c: Config, r: Reader, pos: int): (r': Reader)
    ensures r'.next == r.next || r'.next <= |c.blob|
  {
    if 0 <= pos - r.current <= |r.buffer| then r.(position := pos - r.current)
    else if 0 <= pos <= |c.blob| then r.(current := pos, next := pos, buffer := [], position := 0, hash := None)
    else r
  }

  datatype Op =
    | SeekTo(pos: int)
    | Bump(fault: bool)
    | Get(fault: bool)
    | Next(fault: bool)
    | GetN(count: nat, fault: bool)
    | Resize(size: nat)

  datatype Out = Position(pos: int) | Rejected | Byte(value: byte) | Eof | Bytes(data: seq<byte>) | Done | Error

  predicate IsRead(op: Op) { op.Bump? || op.Get? || op.Next? || op.GetN? }

  /** Bytes an operation wants in the buffer. */
  function Needed(op: Op): nat { if op.Next? then 2 else 1 }

  /** The read itself, once the buffer was filled as far as it could be. */
  function ReadBuffer(r: Reader, op: Op): (Reader, Out)
    requires IsRead(op)
  {
    var avail := Available(r);
    match op
    case GetN(count, _) =>
      var n := if count < avail then count else avail;
      if n == 0 then (r, Bytes([])) else (r.(position := r.position + n), Bytes(r.buffer[r.position..r.position + n]))
    case _ =>
      if avail == 0 then (r, Eof)
      else if op.Get? then (r, Byte(r.buffer[r.position]))
      else if op.Bump? then (r.(position := r.position + 1), Byte(r.buffer[r.position]))
      else (r.(position := r.position + 1), if avail == 1 then Eof else Byte(r.buffer[r.position + 1]))
  }

  function Step(c: Config, r: Reader, op: Op): (Reader, Out)
    requires r.next <= |c.blob|
  {
    match op
    case SeekTo(pos) =>
      (Seek(c, r, pos), if 0 <= pos - r.current <= |r.buffer| || 0 <= pos <= |c.blob| then Position(pos) else Rejected)
    case Resize(size) => (r.(nextBufferSize := size), Done)
    case _ =>
      var filled := DownloadIfNecessary(c, r, Needed(op), op.fault);
      if filled.failed then (filled, Error) else ReadBuffer(filled, op)
  }

  // ---------- direct reads ----------

  /** What a byte array with a cursor may answer. A bulk read may be short, but not empty before the end. */
  predicate Allows(blob: seq<byte>, cursor: nat, op: Op, out: Out)
    requires cursor <= |blob|
  {
    match op
    case SeekTo(pos) => out == if 0 <= pos <= |blob| then Position(pos) else Rejected
    case Resize(_) => out == Done
    case Next(_) => out == if cursor + 1 < |blob| then Byte(blob[cursor + 1]) else Eof
    case GetN(count, _) =>
      && out.Bytes? && |out.data| <= count && out.data <= blob[cursor..]
      && (out.data == [] ==> count == 0 || cursor == |blob|)
    case _ => out == if cursor < |blob| then Byte(blob[cursor]) else Eof
  }

  /** And where its cursor is afterwards. */
  function After(blob: seq<byte>, cursor: nat, op: Op, out: Out): nat {
    match op
    case SeekTo(pos) => if 0 <= pos <= |blob| then pos else cursor
    case GetN(_, _) => if out.Bytes? then cursor + |out.data| else cursor
    case Bump(_) => if cursor < |blob| then cursor + 1 else cursor
    case Next(_) => if cursor < |blob| then cursor + 1 else cursor
    case _ => cursor
  }

  // ---------- agreement ----------

  /** The buffer holds the blob between the two offsets, the hash was given everything before the second one, and a
      blob read to its end was checked against the stored MD5. */
  predicate Agree(c: Config, r: Reader, cursor: nat) {
    && !r.failed && 0 < r.nextBufferSize
    && r.current <= r.next <= |c.blob| && r.buffer == c.blob[r.current..r.next]
    && r.position <= |r.buffer| && Tell(r) == cursor
    && (r.hash.Some? ==> r.hash.value == c.blob[..r.next] && (0 < r.next == |c.blob| ==> c.md5(c.blob) == c.stored))
  }

  /** The operation answers and moves like direct reads do, or reports a failure. */
  predicate Right(c: Config, cursor: nat, op: Op, r: Reader, out: Out)
    requires cursor <= |c.blob|
  {
    if r.failed then out == Error else Allows(c.blob, cursor, op, out) && Tell(r) == After(c.blob, cursor, op, out)
  }

  /** When the reader loses its place: a read at the end of the blob with bytes still in the buffer; a two-byte look
      with one byte left, whose download skips that byte; or one into a buffer too small for two. */
  predicate Slips(c: Config, r: Reader, op: Op)
    requires r.next <= |c.blob|
  {
    if !IsRead(op) then false
    else if r.next == |c.blob| then Available(r) < Needed(op) && r.buffer != []
    else
      && op.Next? && !Download(c, r, op.fault).failed
      && (Available(r) == 1 || (Available(r) == 0 && r.nextBufferSize == 1 && r.next + 1 < |c.blob|))
  }

  /** A download that has something left to fetch puts the reader at the start of a new buffer. */
  lemma DownloadAgrees(c: Config, r: Reader, cursor: nat, fault: bool)
    requires Agree(c, r, cursor) && r.next < |c.blob|
    ensures var r' := Download(c, r, fault);
      !r'.failed ==>
        && Agree(c, r', r.next) && r'.buffer != [] && r'.position == 0
        && (|r'.buffer| == 1 <==> r.nextBufferSize == 1 || r.next + 1 == |c.blob|)
        && (r'.next == |c.blob| <==> |c.blob| - r.next <= r.nextBufferSize)
  {
    var r' := Download(c, r, fault);
    assert c.blob[..r.next] + c.blob[r.next..r'.next] == c.blob[..r'.next];
    assert c.blob[..|c.blob|] == c.blob;
  }

  /** A buffer that agrees and holds what the operation needs, or reaches to the end, answers it. */
  lemma ReadAgrees(c: Config, r: Reader, cursor: nat, op: Op)
    requires Agree(c, r, cursor) && IsRead(op)
    requires Needed(op) <= Available(r) || r.next == |c.blob|
    ensures var (r', out) := ReadBuffer(r, op);
      Allows(c.blob, cursor, op, out) && Agree(c, r', After(c.blob, cursor, op, out))
  {
    if op.GetN? {
      BytesAgree(c, r, cursor, op);
    }
  }

  lemma BytesAgree(c: Config, r: Reader, cursor: nat, op: Op)
    requires Agree(c, r, cursor) && op.GetN?
    requires 0 < Available(r) || r.next == |c.blob|
    ensures var (r', out) := ReadBuffer(r, op);
      Allows(c.blob, cursor, op, out) && Agree(c, r', After(c.blob, cursor, op, out))
  {
    var n := if op.count < Available(r) then op.count else Available(r);
    PartOfPart(c.blob, r.current, r.next, cursor, cursor + n);
    assert c.blob[cursor..][..n] == c.blob[cursor..cursor + n];
  }

  lemma RightUnlessSlips(c: Config, r: Reader, cursor: nat, op: Op)
    requires Agree(c, r, cursor) && (op.Resize? ==> 0 < op.size) && !Slips(c, r, op)
    ensures var (r', out) := Step(c, r, op);
      Right(c, cursor, op, r', out) && (!r'.failed ==> Agree(c, r', After(c.blob, cursor, op, out)))
  {
    if IsRead(op) {
      hide Allows, After, Download, ReadBuffer, Seek;
      if Needed(op) <= Available(r) || r.next == |c.blob| {
        AtTheEnd(c, r, op.fault);
        ReadAgrees(c, r, cursor, op);
      } else {
        DownloadAgrees(c, r, cursor, op.fault);
        var filled := Download(c, r, op.fault);
        if !filled.failed {
          assert Available(r) == 0 && r.next == cursor;
          ReadAgrees(c, filled, cursor, op);
        }
      }
    }
  }

  lemma AtTheEnd(c: Config, r: Reader, fault: bool)
    ensures r.next == |c.blob| ==> Download(c, r, fault) == r.(current := r.next)
  {}

  /** After a slip the position is off, or a byte that is there is reported missing. */
  lemma WrongIfSlips(c: Config, r: Reader, cursor: nat, op: Op)
    requires Agree(c, r, cursor) && Slips(c, r, op)
    ensures var (r', out) := Step(c, r, op); !r'.failed && !Right(c, cursor, op, r', out)
  {
    hide Download;
    AtTheEnd(c, r, op.fault);
    if r.next < |c.blob| {
      DownloadAgrees(c, r, cursor, op.fault);
    }
  }

  /** Exactly when an operation does not slip, it is right; and then buffer, offsets and hash still agree. */
  lemma StepIff(c: Config, r: Reader, cursor: nat, op: Op)
    requires Agree(c, r, cursor) && (op.Resize? ==> 0 < op.size)
    ensures var (r', out) := Step(c, r, op);
      && (Right(c, cursor, op, r', out) <==> !Slips(c, r, op))
      && (!Slips(c, r, op) && !r'.failed ==> Agree(c, r', After(c.blob, cursor, op, out)))
  {
    hide Step, Right, Slips;
    if Slips(c, r, op) {
      WrongIfSlips(c, r, cursor, op);
    } else {
      RightUnlessSlips(c, r, cursor, op);
    }
  }

  // ---------- runs ----------

  ghost predicate Sizes(ops: seq<Op>) { forall op :: op in ops && op.Resize? ==> 0 < op.size }

  /** What a caller sees: every answer and the position reported after it, up to the first failure. */
  function Run(c: Config, r: Reader, ops: seq<Op>): seq<(Out, nat)>
    requires r.next <= |c.blob|
    decreases |ops|
  {
    if ops == [] then []
    else
      var (r', out) := Step(c, r, ops[0]);
      [(out, Tell(r'))] + if r'.failed then [] else Run(c, r', ops[1..])
  }

  /** What direct reads of the blob may show. */
  predicate Direct(blob: seq<byte>, cursor: nat, ops: seq<Op>, trace: seq<(Out, nat)>)
    decreases |ops|
  {
    if ops == [] || trace == [] then ops == [] && trace == []
    else if trace[0].0 == Error then |trace| == 1
    else
      && cursor <= |blob| && Allows(blob, cursor, ops[0], trace[0].0)
      && trace[0].1 == After(blob, cursor, ops[0], trace[0].0)
      && Direct(blob, trace[0].1, ops[1..], trace[1..])
  }

  predicate NeverSlips(c: Config, r: Reader, ops: seq<Op>)
    requires r.next <= |c.blob|
    decreases |ops|
  {
    ops == []
    || (!Slips(c, r, ops[0])
        && var r' := Step(c, r, ops[0]).0; r'.failed || NeverSlips(c, r', ops[1..]))
  }

  lemma {:induction false} RunFrom(c: Config, r: Reader, cursor: nat, ops: seq<Op>)
    requires Agree(c, r, cursor) && Sizes(ops)
    ensures Direct(c.blob, cursor, ops, Run(c, r, ops)) <==> NeverSlips(c, r, ops)
    decreases |ops|
  {
    if ops != [] {
      hide Step, Slips, Allows, After;
      var (r', out) := Step(c, r, ops[0]);
      StepIff(c, r, cursor, ops[0]);
      ErrorIfFailed(c, r, ops[0]);
      if !r'.failed && !Slips(c, r, ops[0]) {
        RunFrom(c, r', After(c.blob, cursor, ops[0], out), ops[1..]);
      }
      assert Run(c, r, ops)[1..] == if r'.failed then [] else Run(c, r', ops[1..]);
    }
  }

  lemma ErrorIfFailed(c: Config, r: Reader, op: Op)
    requires r.next <= |c.blob| && !r.failed
    ensures var (r', out) := Step(c, r, op); out == Error <==> r'.failed
  {}

  /** Any mix of seeks and reads of a new stream shows what direct reads of the blob show, positions included,
      exactly if none of them slips. */
  lemma RunIff(c: Config, readSize: nat, validate: bool, ops: seq<Op>)
    requires 0 < readSize && Sizes(ops)
    ensures Direct(c.blob, 0, ops, Run(c, Open(c, readSize, validate), ops))
      <==> NeverSlips(c, Open(c, readSize, validate), ops)
  {
    assert c.blob[0..0] == [] && c.blob[..0] == [];
    RunFrom(c, Open(c, readSize, validate), 0, ops);
  }

  function Final(c: Config, r: Reader, ops: seq<Op>): (r': Reader)
    requires r.next <= |c.blob|
    ensures r'.next <= |c.blob|
    decreases |ops|
  {
    if ops == [] || r.failed then r else Final(c, Step(c, r, ops[0]).0, ops[1..])
  }

  lemma {:induction false} FinalAgrees(c: Config, r: Reader, cursor: nat, ops: seq<Op>)
    requires Agree(c, r, cursor) && Sizes(ops) && NeverSlips(c, r, ops)
    ensures var r' := Final(c, r, ops); r'.failed || Agree(c, r', Tell(r'))
    decreases |ops|
  {
    if ops != [] {
      hide Step, Slips, Allows, After;
      var (r', out) := Step(c, r, ops[0]);
      StepIff(c, r, cursor, ops[0]);
      if !r'.failed {
        FinalAgrees(c, r', After(c.blob, cursor, ops[0], out), ops[1..]);
      }
    }
  }

  /** A stream that still hashes has hashed exactly what lies before its next download; if it has fetched a blob to
      its end without a failure, the blob matches its stored MD5. */
  lemma HashedIsPrefix(c: Config, readSize: nat, validate: bool, ops: seq<Op>)
    requires 0 < readSize && Sizes(ops) && NeverSlips(c, Open(c, readSize, validate), ops)
    ensures var r := Final(c, Open(c, readSize, validate), ops);
      !r.failed && r.hash.Some? ==>
        && r.hash.value == c.blob[..r.next]
        && (0 < r.next == |c.blob| ==> c.md5(c.blob) == c.stored)
  {
    assert c.blob[0..0] == [] && c.blob[..0] == [];
    FinalAgrees(c, Open(c, readSize, validate), 0, ops);
  }

  // ---------- when a stream fails ----------

  predicate Faultless(op: Op) {
    match op
    case Bump(fault) => !fault
    case Get(fault) => !fault
    case Next(fault) => !fault
    case GetN(_, fault) => !fault
    case _ => true
  }

  ghost predicate AllFaultless(ops: seq<Op>) { forall op :: op in ops ==> Faultless(op) }

  ghost predicate ShowsError(trace: seq<(Out, nat)>) { exists i :: 0 <= i < |trace| && trace[i].0 == Error }

  /** Whatever slipped before: a stream that still hashes was given what lies before its next download. */
  predicate HashesPrefix(c: Config, r: Reader) {
    r.next <= |c.blob| && 0 < r.nextBufferSize && (r.hash.Some? ==> r.hash.value == c.blob[..r.next])
  }

  lemma DownloadFailsIff(c: Config, r: Reader)
    requires HashesPrefix(c, r) && !r.failed
    ensures var r' := Download(c, r, false);
      && HashesPrefix(c, r') && (r'.hash.Some? <==> r.hash.Some?)
      && (r'.failed <==> r.next < |c.blob| <= r.next + r.nextBufferSize && r.hash.Some? && c.md5(c.blob) != c.stored)
  {
    if r.next < |c.blob| {
      var next := if |c.blob| - r.next > r.nextBufferSize then r.next + r.nextBufferSize else |c.blob|;
      assert c.blob[..r.next] + c.blob[r.next..next] == c.blob[..next];
    }
    assert c.blob[..|c.blob|] == c.blob;
  }

  lemma ReadKeeps(r: Reader, op: Op)
    ensures IsRead(op) ==> var r' := ReadBuffer(r, op).0;
      r'.next == r.next && r'.hash == r.hash && r'.failed == r.failed && r'.nextBufferSize == r.nextBufferSize
  {}

  /** Without a fault an operation fails exactly if it needs more than the buffer holds, fetches the end of a blob
      that is validated, and the blob does not match its stored MD5. */
  lemma StepFailsIff(c: Config, r: Reader, op: Op)
    requires HashesPrefix(c, r) && !r.failed && Faultless(op) && (op.Resize? ==> 0 < op.size)
    ensures var r' := Step(c, r, op).0;
      && HashesPrefix(c, r') && (r.hash.None? ==> r'.hash.None?)
      && (r'.failed <==> IsRead(op) && Available(r) < Needed(op) && r.next < |c.blob| <= r.next + r.nextBufferSize
                         && r.hash.Some? && c.md5(c.blob) != c.stored)
  {
    hide ReadBuffer, Download;
    DownloadFailsIff(c, r);
    if IsRead(op) {
      ReadKeeps(DownloadIfNecessary(c, r, Needed(op), false), op);
    }
  }

  /** And a request that fails is shown by the operation that needed it. */
  lemma FaultIsShown(c: Config, r: Reader, op: Op)
    requires r.next < |c.blob| && !r.failed && IsRead(op) && !Faultless(op) && Available(r) < Needed(op)
    ensures Step(c, r, op).1 == Error && Step(c, r, op).0.failed
  {}

  lemma {:induction false} NoErrors(c: Config, r: Reader, ops: seq<Op>)
    requires HashesPrefix(c, r) && !r.failed && AllFaultless(ops) && Sizes(ops)
    requires r.hash.None? || c.blob == [] || c.md5(c.blob) == c.stored
    ensures !ShowsError(Run(c, r, ops))
    decreases |ops|
  {
    hide Step, HashesPrefix, Faultless;
    assert r.next <= |c.blob| by { PrefixBounds(c, r); }
    if ops != [] {
      var (r', out) := Step(c, r, ops[0]);
      StepFailsIff(c, r, ops[0]);
      ErrorIfFailed(c, r, ops[0]);
      PrefixBounds(c, r');
      NoErrors(c, r', ops[1..]);
      var trace, rest := Run(c, r, ops), Run(c, r', ops[1..]);
      assert trace == [(out, Tell(r'))] + rest;
    }
  }

  lemma PrefixBounds(c: Config, r: Reader)
    requires HashesPrefix(c, r)
    ensures r.next <= |c.blob| && 0 < r.nextBufferSize
  {}

  function Bumps(n: nat): seq<Op> { seq(n, i => Bump(false)) }

  /** Reading on, byte by byte, what is left of a validated blob that does not match its MD5. */
  lemma {:induction false} BumpsFail(c: Config, r: Reader, cursor: nat, n: nat)
    requires Agree(c, r, cursor) && r.hash.Some? && c.md5(c.blob) != c.stored
    requires r.next < |c.blob| <= cursor + n
    ensures ShowsError(Run(c, r, Bumps(n)))
    decreases n
  {
    var op := Bump(false);
    var (r', out) := Step(c, r, op);
    assert Bumps(n)[0] == op && Bumps(n)[1..] == Bumps(n - 1);
    StepIff(c, r, cursor, op);
    StepFailsIff(c, r, op);
    ErrorIfFailed(c, r, op);
    hide Step;
    var trace, rest := Run(c, r, Bumps(n)), if r'.failed then [] else Run(c, r', Bumps(n - 1));
    assert trace == [(out, Tell(r'))] + rest;
    if r'.failed {
      assert trace[0].0 == Error;
    } else {
      BumpGoesOn(c, r, cursor);
      BumpsFail(c, r', cursor + 1, n - 1);
      var i :| 0 <= i < |rest| && rest[i].0 == Error;
      assert trace[i + 1] == rest[i];
    }
  }

  lemma BumpGoesOn(c: Config, r: Reader, cursor: nat)
    requires Agree(c, r, cursor) && r.hash.Some? && r.next < |c.blob|
    requires !Step(c, r, Bump(false)).0.failed && c.md5(c.blob) != c.stored
    ensures var r' := Step(c, r, Bump(false)).0;
      Agree(c, r', cursor + 1) && r'.hash.Some? && r'.next < |c.blob|
  {
    StepIff(c, r, cursor, Bump(false));
    StepFailsIff(c, r, Bump(false));
  }

  /** What direct reads show, byte by byte. */
  function Bytewise(blob: seq<byte>, from: nat, n: nat): seq<(Out, nat)>
    requires from + n <= |blob|
  {
    seq(n, i requires 0 <= i < n => (Byte(blob[from + i]), from + i + 1))
  }

  lemma BumpReads(c: Config, r: Reader, cursor: nat)
    requires Agree(c, r, cursor) && (r.hash.None? || c.md5(c.blob) == c.stored) && cursor < |c.blob|
    ensures var (r', out) := Step(c, r, Bump(false));
      Agree(c, r', cursor + 1) && out == Byte(c.blob[cursor]) && (r.hash.None? ==> r'.hash.None?) && !r'.failed
  {
    StepIff(c, r, cursor, Bump(false));
    StepFailsIff(c, r, Bump(false));
  }

  lemma NextBytewise(blob: seq<byte>, from: nat, n: nat)
    requires 0 < n && from + n <= |blob|
    ensures Bytewise(blob, from, n) == [(Byte(blob[from]), from + 1)] + Bytewise(blob, from + 1, n - 1)
  {}

  lemma {:induction false} BumpsRead(c: Config, r: Reader, cursor: nat, n: nat)
    requires Agree(c, r, cursor) && (r.hash.None? || c.md5(c.blob) == c.stored) && cursor + n <= |c.blob|
    ensures r.next <= |c.blob| && Run(c, r, Bumps(n)) == Bytewise(c.blob, cursor, n)
    decreases n
  {
    hide Step, Bytewise;
    if n > 0 {
      var (r', out) := Step(c, r, Bump(false));
      assert Bumps(n)[0] == Bump(false) && Bumps(n)[1..] == Bumps(n - 1);
      BumpReads(c, r, cursor);
      BumpsRead(c, r', cursor + 1, n - 1);
      NextBytewise(c.blob, cursor, n);
    } else {
      assert Bumps(0) == [] && Bytewise(c.blob, cursor, 0) == [] by { NothingBytewise(c.blob, cursor); }
    }
  }

  lemma NothingBytewise(blob: seq<byte>, from: nat)
    requires from <= |blob|
    ensures Bytewise(blob, from, 0) == []
  {}

  /** The blob passes: nobody asked for validation, there is nothing to validate, or it matches its stored MD5. */
  predicate Passes(c: Config, validate: bool) {
    !validate || c.stored == "" || c.blob == [] || c.md5(c.blob) == c.stored
  }

  /** Reading a new stream byte by byte to its end shows exactly the bytes of the blob if it passes, and else an
      error. */
  lemma ReadsAllIff(c: Config, readSize: nat, validate: bool)
    requires 0 < readSize
    ensures var trace := Run(c, Open(c, readSize, validate), Bumps(|c.blob|));
      if Passes(c, validate) then trace == Bytewise(c.blob, 0, |c.blob|) else ShowsError(trace)
  {
    assert c.blob[0..0] == [] && c.blob[..0] == [];
    var r := Open(c, readSize, validate);
    if c.blob == [] {
      assert Bumps(0) == [];
    } else if Passes(c, validate) {
      BumpsRead(c, r, 0, |c.blob|);
    } else {
      BumpsFail(c, r, 0, |c.blob|);
    }
  }

  /** No request of a stream fails, whatever is read and wherever it seeks, if and only if its blob passes. */
  lemma NeverFailsIff(c: Config, readSize: nat, validate: bool)
    requires 0 < readSize
    ensures (forall ops :: AllFaultless(ops) && Sizes(ops) ==> !ShowsError(Run(c, Open(c, readSize, validate), ops)))
      <==> Passes(c, validate)
  {
    hide Run;
    var r := Open(c, readSize, validate);
    assert HashesPrefix(c, r) by {
      assert c.blob[..0] == [];
    }
    if Passes(c, validate) {
      forall ops | AllFaultless(ops) && Sizes(ops) ensures !ShowsError(Run(c, r, ops)) {
        NoErrors(c, r, ops);
      }
    } else {
      var ops := Bumps(|c.blob|);
      assert AllFaultless(ops) && Sizes(ops);
      ReadsAllIff(c, readSize, validate);
    }
  }

  /** What a slip at the end does: a later seek to the end is accepted and then finds bytes to read. */
  lemma StaleBytes(c: Config, r: Reader, fault: bool)
    requires Agree(c, r, |c.blob|) && r.buffer != []
    ensures var (r1, out1) := Step(c, r, Bump(fault));
      var (r2, out2) := Step(c, r1, SeekTo(|c.blob|));
      var (r3, out3) := Step(c, r2, Bump(fault));
      out1 == Eof && Tell(r1) == |c.blob| + |r.buffer| && out2 == Position(|c.blob|) && out3 == Byte(c.blob[r.current])
  {
    hide Agree;
    StaleState(c, r, fault);
  }

  lemma StaleState(c: Config, r: Reader, fault: bool)
    requires Agree(c, r, |c.blob|) && r.buffer != []
    ensures !r.failed && r.next == |c.blob| && r.position == |r.buffer| && r.buffer[0] == c.blob[r.current]
    ensures Step(c, r, Bump(fault)) == (r.(current := |c.blob|), Eof)
  {}

  /** And a new stream gets there: of a blob of one byte, it reads the byte, then finds the end, may go to the end, and
      reads the byte once more. */
  lemma StaleRun(md5: seq<byte> -> string)
    ensures var c := Config([7], md5, "");
      Run(c, Open(c, 4, false), [Bump(false), Bump(false), SeekTo(1), Bump(false)])
        == [(Byte(7), 1), (Eof, 2), (Position(1), 1), (Byte(7), 2)]
  {
    var c := Config([7], md5, "");
    var ops := [Bump(false), Bump(false), SeekTo(1), Bump(false)];
    var r0 := Open(c, 4, false);
    var r1 := Reader(0, 1, [7], 1, 4, 4, None, false);
    var r2, r3 := r1.(current := 1), r1.(current := 1, position := 0);
    assert Step(c, r0, ops[0]) == (r1, Byte(7)) by {
      assert c.blob[0..1] == [7];
    }
    assert Step(c, r1, ops[1]) == (r2, Eof);
    assert Step(c, r2, ops[2]) == (r3, Position(1));
    assert Step(c, r3, ops[3]) == (r3.(position := 1), Byte(7));
    hide Step;
    assert ops[1..][1..] == ops[2..] && ops[2..][1..] == ops[3..] && ops[3..][1..] == [];
    assert Run(c, r3, ops[3..]) == [(Byte(7), 2)];
    assert Run(c, r2, ops[2..]) == [(Position(1), 1), (Byte(7), 2)];
    assert Run(c, r1, ops[1..]) == [(Eof, 2), (Position(1), 1), (Byte(7), 2)];
  }

  // ---------- the stream itself ----------

  class BlobIstreambuf {
    const c: Config
    var currentBlobOffset: nat
    var nextBlobOffset: nat
    var bufferSize: nat
    var nextBufferSize: nat
    var buffer: seq<byte>
    var readHead: nat
    var blobHashProvider: Option<seq<byte>>
    var currentException: bool

    ghost function View(): Reader
      reads this
    {
      Reader(currentBlobOffset, nextBlobOffset, buffer, readHead, bufferSize, nextBufferSize, blobHashProvider,
        currentException)
    }

    function InAvail(): nat
      reads this
    {
      if readHead <= |buffer| then |buffer| - readHead else 0
    }

    constructor (c: Config, readSize: nat, validate: bool)
      ensures View() == Open(c, readSize, validate) && this.c == c
    {
      this.c := c;
      currentBlobOffset, nextBlobOffset, bufferSize, nextBufferSize := 0, 0, readSize, readSize;
      buffer, readHead, currentException := [], 0, false;
      blobHashProvider := if validate && c.stored != "" then Some([]) else None;
    }

    method Seekpos(pos: int) returns (out: Out)
      requires nextBlobOffset <= |c.blob|
      modifies this
      ensures (View(), out) == Step(c, old(View()), SeekTo(pos))
      // only a seek that leaves the buffer, its end included, gives the checksum up
      ensures var inBuffer := 0 <= pos - old(currentBlobOffset) <= |old(buffer)|;
        && (blobHashProvider == if inBuffer || out == Rejected then old(blobHashProvider) else None)
        && (buffer == if inBuffer || out == Rejected then old(buffer) else [])
        && (out == Rejected <==> !inBuffer && (pos < 0 || |c.blob| < pos))
    {
      var inBuffer := pos - currentBlobOffset;
      if 0 <= inBuffer <= |buffer| {
        readHead := inBuffer;
        return Position(inBuffer + currentBlobOffset);
      }
      if 0 <= pos <= |c.blob| {
        currentBlobOffset := pos;
        nextBlobOffset := currentBlobOffset;
        buffer, readHead := [], 0;
        blobHashProvider := None;
        return Position(pos);
      }
      return Rejected;
    }

    method DownloadRange(fault: bool) returns (downloaded: bool)
      requires nextBlobOffset <= |c.blob| && !currentException
      modifies this
      ensures View() == Download(c, old(View()), fault)
      ensures downloaded <==> old(nextBlobOffset) < |c.blob| && !currentException
    {
      currentBlobOffset := nextBlobOffset;
      var readSize := |c.blob| - currentBlobOffset;
      if readSize == 0 {
        return false;
      }
      bufferSize := nextBufferSize;
      if readSize > bufferSize {
        readSize := bufferSize;
      }
      nextBlobOffset := currentBlobOffset + readSize;
      // the old collection moves into the request's own buffer
      buffer := [];
      if fault {
        currentException := true;
        return false;
      }
      buffer, readHead := c.blob[currentBlobOffset..currentBlobOffset + readSize], 0;
      if blobHashProvider.Some? {
        blobHashProvider := Some(blobHashProvider.value + buffer);
        if nextBlobOffset == |c.blob| && c.md5(blobHashProvider.value) != c.stored {
          currentException := true;
          return false;
        }
      }
      return true;
    }

    /** download_if_necessary */
    method FillBuffer(needed: nat, fault: bool) returns (filled: bool)
      requires nextBlobOffset <= |c.blob| && !currentException
      modifies this
      ensures View() == DownloadIfNecessary(c, old(View()), needed, fault)
      ensures old(InAvail()) >= needed ==> filled && View() == old(View())
      ensures old(InAvail()) < needed ==> (filled <==> old(nextBlobOffset) < |c.blob| && !currentException)
    {
      if InAvail() < needed {
        filled := DownloadRange(fault);
      } else {
        filled := true;
      }
    }

    method Bumpc(fault: bool) returns (out: Out)
      requires nextBlobOffset <= |c.blob| && !currentException
      modifies this
      ensures (View(), out) == Step(c, old(View()), Bump(fault))
    {
      hide Download;
      var _ := FillBuffer(1, fault);
      if currentException {
        return Error;
      }
      if readHead >= |buffer| {
        return Eof;
      }
      out := Byte(buffer[readHead]);
      readHead := readHead + 1;
    }

    method Getc(fault: bool) returns (out: Out)
      requires nextBlobOffset <= |c.blob| && !currentException
      modifies this
      ensures (View(), out) == Step(c, old(View()), Get(fault))
    {
      hide Download;
      var _ := FillBuffer(1, fault);
      if currentException {
        return Error;
      }
      return if readHead >= |buffer| then Eof else Byte(buffer[readHead]);
    }

    method Nextc(fault: bool) returns (out: Out)
      requires nextBlobOffset <= |c.blob| && !currentException
      modifies this
      ensures (View(), out) == Step(c, old(View()), Next(fault))
    {
      hide Download;
      var _ := FillBuffer(2, fault);
      if currentException {
        return Error;
      }
      if readHead >= |buffer| {
        return Eof;
      }
      readHead := readHead + 1;
      return if readHead >= |buffer| then Eof else Byte(buffer[readHead]);
    }

    method Getn(count: nat, fault: bool) returns (out: Out)
      requires nextBlobOffset <= |c.blob| && !currentException
      modifies this
      ensures (View(), out) == Step(c, old(View()), GetN(count, fault))
      // it is only short where the buffer ends
      ensures out.Bytes? ==> |out.data| <= count && (|out.data| < count ==> |buffer| <= readHead)
    {
      hide Download;
      var _ := FillBuffer(1, fault);
      if currentException {
        return Error;
      }
      var end := readHead;
      if readHead < |buffer| {
        end := if readHead + count <= |buffer| then readHead + count else |buffer|;
      }
      if end == readHead {
        return Bytes([]);
      }
      out := Bytes(buffer[readHead..end]);
      readHead := end;
    }
  }
}
