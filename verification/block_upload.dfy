/** The block-blob output stream: buffers become blocks with numbered ids, blocks are uploaded concurrently,
    and closing the stream commits the list of ids. */
module BlockUpload {
  import opened Common
  import opened UploadQueue
  import Base64

  // ---------- block ids ----------

  /** The decimal digits of n as characters. */
  function Decimal(n: nat): (r: seq<byte>)
    ensures r != []
  {
    if n < 10 then [48 + n] else Decimal(n / 10) + [48 + n % 10]
  }

  function Zeros(n: nat): seq<byte> { seq(n, i => 48) }

  /** setw(6) with setfill('0'): a minimum width, not a maximum. */
  function Padded(n: nat): seq<byte> {
    var d := Decimal(n);
    if |d| < 6 then Zeros(6 - |d|) + d else d
  }

  /** The number that digits stand for. */
  function Number(digits: seq<byte>): int {
    if digits == [] then 0 else Number(digits[..|digits| - 1]) * 10 + digits[|digits| - 1] - 48
  }

  /** The id of block n of a stream. The prefix is the stream's UUID in UTF-8, followed by '-'. */
  function BlockId(prefix: seq<byte>, n: nat): string { Base64.Encode(prefix + [45] + Padded(n)) }

  lemma {:induction false} NumberOfDecimal(zeros: nat, n: nat)
    ensures Number(Zeros(zeros) + Decimal(n)) == n
    decreases zeros + n
  {
    var s := Zeros(zeros) + Decimal(n);
    if n >= 10 {
      NumberOfDecimal(zeros, n / 10);
      assert s[..|s| - 1] == Zeros(zeros) + Decimal(n / 10);
    } else {
      NumberOfZeros(zeros);
      assert s[..|s| - 1] == Zeros(zeros);
    }
  }

  lemma {:induction false} NumberOfZeros(zeros: nat)
    ensures Number(Zeros(zeros)) == 0
  {
    if zeros > 0 {
      NumberOfZeros(zeros - 1);
      assert Zeros(zeros)[..zeros - 1] == Zeros(zeros - 1);
    }
  }

  lemma NumberOfPadded(n: nat)
    ensures Number(Padded(n)) == n
  {
    var d := Decimal(n);
    NumberOfDecimal(if |d| < 6 then 6 - |d| else 0, n);
    assert Zeros(0) + d == d;
  }

  lemma {:induction false} DecimalDigits(n: nat)
    ensures forall i :: 0 <= i < |Decimal(n)| ==> 48 <= Decimal(n)[i] <= 57
    ensures 0 < n ==> Decimal(n)[0] != 48
  {
    if n >= 10 {
      DecimalDigits(n / 10);
    }
  }

  /** The number in an id, in ASCII: with leading zeros up to six digits and none beyond. */
  lemma PaddedIs(n: nat)
    ensures Number(Padded(n)) == n && |Padded(n)| >= 6 && (|Padded(n)| > 6 ==> Padded(n)[0] != '0' as nat)
    ensures forall i :: 0 <= i < |Padded(n)| ==> '0' as nat <= Padded(n)[i] <= '9' as nat
  {
    NumberOfPadded(n);
    DecimalDigits(n);
    assert '0' as nat == 48 && '9' as nat == 57;
    hide Number, Decimal;
  }

  /** What an id is: the prefix, a hyphen and that number. */
  lemma IdIs(prefix: seq<byte>, n: nat)
    ensures Base64.Decode(BlockId(prefix, n)) == Some(prefix + ['-' as nat] + Padded(n))
  {
    Base64.DecodeEncode(prefix + [45] + Padded(n));
    hide Base64.Encode, Base64.Decode, Padded;
    assert '-' as nat == 45;
  }

  /** Two blocks of a stream never share an id, however many there are. */
  lemma BlockIdsDistinct(prefix: seq<byte>, m: nat, n: nat)
    requires BlockId(prefix, m) == BlockId(prefix, n)
    ensures m == n
  {
    var p := prefix + [45];
    Base64.EncodeInjective(p + Padded(m), p + Padded(n));
    assert (p + Padded(m))[|p|..] == Padded(m) && (p + Padded(n))[|p|..] == Padded(n);
    NumberOfPadded(m);
    NumberOfPadded(n);
  }

  lemma {:induction false} DecimalWidth(n: nat, w: nat)
    requires 0 < w
    ensures |Decimal(n)| <= w <==> n < Ten(w)
    decreases w
  {
    if w > 1 {
      if n >= 10 {
        DecimalWidth(n / 10, w - 1);
      }
    }
  }

  function Ten(w: nat): (r: nat)
    ensures r >= 1 && (w > 0 ==> r >= 10)
  {
    if w == 0 then 1 else 10 * Ten(w - 1)
  }

  /** The number in an id has six digits exactly for the first million blocks. */
  lemma SixDigits(n: nat)
    ensures |Padded(n)| == 6 <==> n < 1000000
  {
    DecimalWidth(n, 6);
    assert Ten(6) == 1000000;
  }

  /** So the first million ids of a stream have one length, as ids of one blob must. */
  lemma IdsHaveOneLength(prefix: seq<byte>, m: nat, n: nat)
    requires m < 1000000 && n < 1000000
    ensures |BlockId(prefix, m)| == |BlockId(prefix, n)|
  {
    SixDigits(m);
    SixDigits(n);
    Base64.EncodeLength(prefix + [45] + Padded(m));
    Base64.EncodeLength(prefix + [45] + Padded(n));
  }

  // ---------- the commit ----------

  /** The blocks the server keeps after carrying out uploads in some order. */
  function Stored(prefix: seq<byte>, buffers: seq<seq<byte>>, before: map<string, seq<byte>>,
                  applied: seq<nat>): map<string, seq<byte>>
    requires forall j :: 0 <= j < |applied| ==> applied[j] < |buffers|
  {
    if applied == [] then before
    else
      var k := applied[|applied| - 1];
      Stored(prefix, buffers, before, applied[..|applied| - 1])[BlockId(prefix, k) := buffers[k]]
  }

  /** Put Block List: refused where a listed block is missing, else the blob is the listed blocks joined. */
  function CommitList(blocks: map<string, seq<byte>>, ids: seq<string>): Option<seq<byte>> {
    if ids == [] then Some([])
    else
      var head, id := CommitList(blocks, ids[..|ids| - 1]), ids[|ids| - 1];
      if head.None? || id !in blocks then None else Some(head.value + blocks[id])
  }

  function Ids(prefix: seq<byte>, n: nat): (ids: seq<string>)
    ensures |ids| == n
  {
    seq(n, (k: nat) => BlockId(prefix, k))
  }

  ghost predicate NoneOfOurs(prefix: seq<byte>, blocks: map<string, seq<byte>>) {
    forall k: nat :: BlockId(prefix, k) !in blocks
  }

  lemma {:induction false} StoredBlock(prefix: seq<byte>, buffers: seq<seq<byte>>, before: map<string, seq<byte>>,
                                       applied: seq<nat>, k: nat)
    requires NoneOfOurs(prefix, before) && k < |buffers|
    requires forall j :: 0 <= j < |applied| ==> applied[j] < |buffers|
    ensures var blocks := Stored(prefix, buffers, before, applied);
      && (BlockId(prefix, k) in blocks <==> k in applied)
      && (k in applied ==> blocks[BlockId(prefix, k)] == buffers[k])
    decreases |applied|
  {
    hide BlockId;
    if applied != [] {
      var init, last := applied[..|applied| - 1], applied[|applied| - 1];
      assert applied == init + [last];
      StoredBlock(prefix, buffers, before, init, k);
      if BlockId(prefix, k) == BlockId(prefix, last) {
        BlockIdsDistinct(prefix, k, last);
      }
    }
  }

  lemma {:induction false} CommitFirst(prefix: seq<byte>, buffers: seq<seq<byte>>, blocks: map<string, seq<byte>>,
                                       n: nat)
    requires n <= |buffers|
    requires forall k :: 0 <= k < n && BlockId(prefix, k) in blocks ==> blocks[BlockId(prefix, k)] == buffers[k]
    ensures CommitList(blocks, Ids(prefix, n)) ==
      if forall k :: 0 <= k < n ==> BlockId(prefix, k) in blocks then Some(Joined(buffers, n)) else None
  {
    hide BlockId;
    if n > 0 {
      CommitFirst(prefix, buffers, blocks, n - 1);
      assert Ids(prefix, n)[..n - 1] == Ids(prefix, n - 1);
    }
  }

  /** Whatever the order in which uploads were granted, carried out, repeated and answered: the block list is sent
      after a clean _sync only, and then the committed blob is all buffers joined in write order. If the upload call
      itself threw for some buffer just before the check, the server refuses the list instead. */
  lemma CommitIsExact(c: Config, prefix: seq<byte>, before: map<string, seq<byte>>, acts: seq<Action>, s: State)
    requires c.Valid() && NoneOfOurs(prefix, before)
    requires Reaches(c, Init(c), acts, s) && CleanSync(c, s)
    ensures |s.phase| == |c.buffers| && forall j :: 0 <= j < |s.applied| ==> s.applied[j] < |c.buffers|
    ensures CommitList(Stored(prefix, c.buffers, before, s.applied), Ids(prefix, |c.buffers|)) ==
      if exists k :: 0 <= k < |c.buffers| && Swallowed(s, k) then None else Some(Joined(c.buffers, |c.buffers|))
  {
    hide BlockId;
    InitInv(c);
    RunInv(c, Init(c), acts, s);
    var blocks := Stored(prefix, c.buffers, before, s.applied);
    forall k | 0 <= k < |c.buffers|
      ensures BlockId(prefix, k) in blocks <==> !Swallowed(s, k)
      ensures BlockId(prefix, k) in blocks ==> blocks[BlockId(prefix, k)] == c.buffers[k]
    {
      CleanSyncIff(c, acts, s, k);
      StoredBlock(prefix, c.buffers, before, s.applied, k);
    }
    CommitFirst(prefix, c.buffers, blocks, |c.buffers|);
  }

  // ---------- the writing side ----------

  lemma IdsAppend(prefix: seq<byte>, n: nat)
    ensures Ids(prefix, n) + [BlockId(prefix, n)] == Ids(prefix, n + 1)
  {
    hide BlockId;
  }

  /** The stream's own fields, updated by the writer. */
  class BlockBlobStream {
    const prefix: seq<byte>
    var bufferSize: nat
    var nextBufferSize: nat
    var buffer: seq<byte>
    var streambufOffset: nat
    var blockList: seq<string>
    /** The buffers that were given to lock_async, in order. */
    var uploads: seq<seq<byte>>
    /** What m_total_hash_provider was given, and m_transaction_hash_provider since a buffer was last prepared. */
    var totalHash: seq<byte>
    var transactionHash: seq<byte>
    /** What the checksum of each upload was computed from. */
    var checksums: seq<seq<byte>>
    var committed: bool

    /** Everything the caller wrote, and how much of it one character at a time: in all, in the buffer, in each
        upload. */
    ghost var written: seq<byte>
    ghost var singles: nat
    ghost var bufferSingles: nat
    ghost var uploadSingles: seq<nat>

    /** What was handed over or is still buffered. */
    ghost function Content(): seq<byte>
      reads this`uploads, this`buffer
    {
      Joined(uploads, |uploads|) + buffer
    }

    ghost predicate Blocks()
      reads this`bufferSize, this`nextBufferSize, this`blockList, this`uploads
    {
      && 0 < bufferSize && 0 < nextBufferSize
      && blockList == Ids(prefix, |uploads|)
      && (forall k :: 0 <= k < |uploads| ==> uploads[k] != [])
    }

    ghost predicate Checksums()
      reads this`uploads, this`buffer, this`transactionHash, this`checksums, this`bufferSingles, this`uploadSingles
    {
      && HashFits(buffer, transactionHash, bufferSingles)
      && |checksums| == |uploads| == |uploadSingles|
      && (forall k :: 0 <= k < |uploads| ==> HashFits(uploads[k], checksums[k], uploadSingles[k]))
    }

    ghost predicate Valid()
      reads this
    {
      && Blocks() && Checksums() && Content() == written
      && streambufOffset == |written| && HashFits(written, totalHash, singles)
    }

    constructor (prefix: seq<byte>, writeSize: nat)
      requires 0 < writeSize
      ensures Valid() && written == [] && uploads == [] && !committed && this.prefix == prefix && singles == 0
      ensures buffer == [] && totalHash == [] && transactionHash == [] && checksums == []
    {
      this.prefix := prefix;
      bufferSize, nextBufferSize, buffer, streambufOffset := writeSize, writeSize, [], 0;
      blockList, uploads, totalHash, transactionHash, checksums, committed := [], [], [], [], [], false;
      written, singles, bufferSingles, uploadSingles := [], 0, 0, [];
    }

    /** The uploads from number n on are as large as the buffer was, the first one by the size set before. */
    ghost predicate FullFrom(n: nat, first: nat)
      reads this`uploads, this`nextBufferSize
    {
      forall k :: n <= k < |uploads| ==> |uploads[k]| == if k == n then first else nextBufferSize
    }

    /** The uploads from number n on carry the checksum of their content. */
    ghost predicate CheckedFrom(n: nat)
      reads this`uploads, this`checksums
    {
      forall k :: n <= k < |uploads| ==> k < |checksums| && checksums[k] == uploads[k]
    }

    method UploadBuffer()
      requires Blocks() && Checksums()
      modifies this`buffer, this`bufferSize, this`blockList, this`uploads,
        this`transactionHash, this`checksums, this`bufferSingles, this`uploadSingles
      ensures Blocks() && Checksums() && Content() == old(Content())
      ensures buffer == [] && bufferSize == nextBufferSize && bufferSingles == 0
      ensures uploads == if old(buffer) == [] then old(uploads) else old(uploads) + [old(buffer)]
      ensures checksums == if old(buffer) == [] then old(checksums) else old(checksums) + [old(transactionHash)]
    {
      hide BlockId, HashFits, Ids, Joined;
      NothingFits();
      var full, blockChecksum := buffer, transactionHash;
      ghost var blockSingles := bufferSingles;
      buffer, transactionHash, bufferSingles := [], [], 0;
      bufferSize := nextBufferSize;
      if full != [] {
        blockList := blockList + [BlockId(prefix, |blockList|)];
        JoinedAppend(uploads, full);
        IdsAppend(prefix, |uploads|);
        assert Joined(uploads, |uploads|) + full + [] == Joined(uploads, |uploads|) + full;
        uploads, checksums, uploadSingles := uploads + [full], checksums + [blockChecksum],
          uploadSingles + [blockSingles];
      }
    }

    /** Since upload number n only full buffers were handed over, and this one is not overfilled. */
    ghost predicate Fills(n: nat, first: nat)
      reads this`uploads, this`nextBufferSize, this`bufferSize, this`buffer
    {
      && n <= |uploads| && FullFrom(n, first) && |buffer| <= bufferSize
      && bufferSize == if |uploads| == n then first else nextBufferSize
    }

    /** And not even full. */
    ghost predicate FullSince(n: nat, first: nat)
      reads this`uploads, this`nextBufferSize, this`bufferSize, this`buffer
    {
      Fills(n, first) && |buffer| < bufferSize
    }

    /** Since upload number n no character was written on its own. */
    ghost predicate CheckedSince(n: nat)
      reads this`uploads, this`checksums, this`bufferSingles
    {
      n <= |uploads| && CheckedFrom(n) && bufferSingles == 0
    }

    /** Of what the caller is writing, this part was taken: behind `head` in the content and behind `hashed` in the
        hash. */
    ghost predicate Taken(part: seq<byte>, head: seq<byte>, hashed: seq<byte>)
      reads this`uploads, this`buffer, this`totalHash
    {
      Content() == head + part && totalHash == hashed + part
    }

    /** One turn of the loop: a piece goes to both providers, and a buffer that is full now is uploaded. */
    method PutPiece(piece: seq<byte>)
      requires Blocks() && Checksums()
      modifies this`totalHash, this`buffer, this`bufferSize, this`blockList, this`uploads,
        this`transactionHash, this`checksums, this`bufferSingles, this`uploadSingles
      ensures Blocks() && Checksums() && Content() == old(Content()) + piece && totalHash == old(totalHash) + piece
      ensures var filled := old(buffer) + piece;
        if filled != [] && old(bufferSize) == |filled| then
          && buffer == [] && uploads == old(uploads) + [filled] && bufferSize == nextBufferSize
          && checksums == old(checksums) + [old(transactionHash) + piece]
        else
          buffer == filled && uploads == old(uploads) && bufferSize == old(bufferSize) && checksums == old(checksums)
      ensures old(bufferSingles) == 0 ==> bufferSingles == 0
    {
      hide BlockId, Joined, Ids;
      ghost var head, was := Joined(uploads, |uploads|), buffer;
      totalHash, transactionHash := totalHash + piece, transactionHash + piece;
      buffer := buffer + piece;
      assert head + buffer == (head + was) + piece;
      if bufferSize == |buffer| {
        UploadBuffer();
      }
    }

    /** The turn, seen from the whole write. */
    method PutNext(piece: seq<byte>, ghost part: seq<byte>, ghost head: seq<byte>, ghost hashed: seq<byte>,
                   ghost n: nat, ghost first: nat)
      requires Blocks() && Checksums() && Taken(part, head, hashed)
      modifies this`totalHash, this`buffer, this`bufferSize, this`blockList, this`uploads,
        this`transactionHash, this`checksums, this`bufferSingles, this`uploadSingles
      ensures Blocks() && Checksums() && Taken(part + piece, head, hashed) && old(uploads) <= uploads
      ensures old(|buffer| == bufferSize) && piece == [] ==> |buffer| < old(|buffer|)
      ensures old(Fills(n, first)) && |old(buffer)| + |piece| <= old(bufferSize) ==>
        Fills(n, first) && FullSince(n, first)
      ensures old(CheckedSince(n)) ==> CheckedSince(n)
    {
      assert head + part + piece == head + (part + piece) && hashed + part + piece == hashed + (part + piece);
      hide Content, BlockId, Ids;
      PutPiece(piece);
    }

    /** The loop of a write. */
    method PutAll(data: seq<byte>, ghost head: seq<byte>, ghost hashed: seq<byte>, ghost n: nat, ghost first: nat)
      requires Blocks() && Checksums() && Taken([], head, hashed)
      modifies this`totalHash, this`buffer, this`bufferSize, this`blockList, this`uploads,
        this`transactionHash, this`checksums, this`bufferSingles, this`uploadSingles
      ensures Blocks() && Checksums() && Taken(data, head, hashed) && old(uploads) <= uploads
      ensures old(FullSince(n, first)) || (data != [] && old(Fills(n, first))) ==> FullSince(n, first)
      ensures old(CheckedSince(n)) ==> CheckedSince(n)
    {
      hide *;
      var done := 0;
      while done < |data|
        invariant done <= |data|
        invariant Blocks() && Checksums() && Taken(data[..done], head, hashed) && old(uploads) <= uploads
        invariant old(Fills(n, first)) ==> Fills(n, first)
        invariant old(FullSince(n, first)) || (0 < done && old(Fills(n, first))) ==> FullSince(n, first)
        invariant old(CheckedSince(n)) ==> CheckedSince(n)
        decreases |data| - done, |buffer|
      {
        // size_t arithmetic: an overfilled buffer leaves "room" for everything
        var size := |data| - done;
        if |buffer| <= bufferSize && bufferSize - |buffer| < size {
          size := bufferSize - |buffer|;
        }
        assert data[..done] + data[done..done + size] == data[..done + size];
        NotOverfilled(n, first);
        PutNext(data[done..done + size], data[..done], head, hashed, n, first);
        done := done + size;
      }
      assert data[..done] == data;
    }

    /** Nothing is lost or reordered. A stream whose buffer is not overfilled uploads full buffers only, and one that
        was not given single characters since its last upload gives each of these the checksum of its content. */
    method PutN(data: seq<byte>)
      requires Valid()
      modifies this
      ensures Valid() && written == old(written) + data && singles == old(singles)
      ensures committed == old(committed) && nextBufferSize == old(nextBufferSize) && old(uploads) <= uploads
      ensures old(|buffer| < bufferSize) || (data != [] && old(|buffer| == bufferSize)) ==>
        FullSince(|old(uploads)|, old(bufferSize))
      ensures old(bufferSingles) == 0 ==> CheckedSince(|old(uploads)|)
    {
      hide Content, HashFits, Ids;
      assert Taken([], written, totalHash);
      streambufOffset := streambufOffset + |data|;
      PutAll(data, written, totalHash, |uploads|, bufferSize);
      Wrote(data, written, old(totalHash));
      written := written + data;
    }

    lemma NotOverfilled(n: nat, first: nat)
      ensures FullSince(n, first) ==> Fills(n, first)
      ensures Fills(n, first) ==> |buffer| <= bufferSize
    {}

    lemma Wrote(data: seq<byte>, head: seq<byte>, hashed: seq<byte>)
      requires Taken(data, head, hashed) && HashFits(head, hashed, singles)
      ensures Content() == head + data && HashFits(head + data, totalHash, singles)
    {}

    /** One character. `full` is what in_avail() reports; the providers are not told about the character. */
    method PutC(ch: byte, full: bool)
      requires Valid()
      modifies this
      ensures Valid() && written == old(written) + [ch] && singles == old(singles) + 1
      ensures committed == old(committed) && totalHash == old(totalHash)
      ensures uploads == if full then old(uploads) + [old(buffer) + [ch]] else old(uploads)
      ensures checksums == if full then old(checksums) + [old(transactionHash)] else old(checksums)
      ensures buffer == if full then [] else old(buffer) + [ch]
      ensures !full ==> transactionHash == old(transactionHash) && bufferSingles == old(bufferSingles) + 1
    {
      hide HashFits, Ids, Joined;
      OneMore(buffer, transactionHash, bufferSingles, ch);
      OneMore(written, totalHash, singles, ch);
      streambufOffset := streambufOffset + 1;
      assert Joined(uploads, |uploads|) + (buffer + [ch]) == (Joined(uploads, |uploads|) + buffer) + [ch];
      buffer := buffer + [ch];
      written, singles, bufferSingles := written + [ch], singles + 1, bufferSingles + 1;
      if full {
        UploadBuffer();
      }
    }

    /** Closing hands the rest over: the uploads then hold everything written, each under the id listed for it.
        A second close is an error. */
    method CloseWrite() returns (ok: bool)
      requires Valid()
      modifies this
      ensures Valid() && ok == !old(committed) && committed && written == old(written) && singles == old(singles)
      ensures ok ==> buffer == [] && Joined(uploads, |uploads|) == written && blockList == Ids(prefix, |uploads|)
      // the stored MD5 is that of the content exactly if nothing was written one character at a time
      ensures ok ==> (totalHash == Joined(uploads, |uploads|) <==> singles == 0)
      ensures totalHash == old(totalHash)
      ensures uploads == if !ok || old(buffer) == [] then old(uploads) else old(uploads) + [old(buffer)]
      ensures checksums == if !ok || old(buffer) == [] then old(checksums) else old(checksums) + [old(transactionHash)]
      ensures !ok ==> buffer == old(buffer)
    {
      if committed {
        return false;
      }
      committed := true;
      UploadBuffer();
      assert Joined(uploads, |uploads|) + [] == Joined(uploads, |uploads|);
      return true;
    }
  }

  /** From the caller's writes to the committed blob: after the close, a clean _sync and the commit of the stream's
      list give exactly the bytes that were written, or a refusal if some upload call threw. */
  lemma WrittenIsCommitted(stream: BlockBlobStream, c: Config, before: map<string, seq<byte>>, acts: seq<Action>,
                           s: State)
    requires stream.Valid() && stream.buffer == []
    requires c.Valid() && c.buffers == stream.uploads && NoneOfOurs(stream.prefix, before)
    requires Reaches(c, Init(c), acts, s) && CleanSync(c, s)
    ensures |s.phase| == |c.buffers| && forall j :: 0 <= j < |s.applied| ==> s.applied[j] < |c.buffers|
    ensures CommitList(Stored(stream.prefix, c.buffers, before, s.applied), stream.blockList) ==
      if exists k :: 0 <= k < |c.buffers| && Swallowed(s, k) then None else Some(stream.written)
  {
    hide Ids, Stored, CommitList;
    CommitIsExact(c, stream.prefix, before, acts, s);
    assert Joined(stream.uploads, |stream.uploads|) + [] == Joined(stream.uploads, |stream.uploads|);
  }

  /** A stream that is given the one character 7: it uploads it, and neither its checksum nor the stored MD5 covers
      it. */
  method UnhashedCharacter() returns (stream: BlockBlobStream)
    ensures fresh(stream) && stream.Valid() && stream.committed
    ensures stream.uploads == [[7]] && stream.checksums == [[]] && stream.totalHash == []
  {
    hide *;
    stream := new BlockBlobStream([1], 4);
    stream.PutC(7, false);
    assert stream.buffer == [7];
    var ok := stream.CloseWrite();
  }
}
