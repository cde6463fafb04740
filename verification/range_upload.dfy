/** The page-blob and file output streams: every buffer is written at the running offset of its preparation,
    and the ranges arrive in any order, perhaps more than once. */
module RangeUpload {
  import opened Common
  import opened UploadQueue
  import opened AsyncSemaphores

  /** The target after the server carried out uploads in some order. */
  function Content(c: Config, initial: seq<byte>, applied: seq<nat>): (r: seq<byte>)
    requires c.size == Some(|initial|)
    requires forall j :: 0 <= j < |applied| ==> applied[j] < |c.buffers| && c.Fits(applied[j])
    ensures |r| == |initial|
  {
    if applied == [] then initial
    else
      var k := applied[|applied| - 1];
      OffsetsGrow(c, k, k + 1);
      assert c.Fits(k);
      Overwrite(Content(c, initial, applied[..|applied| - 1]), c.Offset(k), c.buffers[k])
  }

  /** The bytes of the range of buffer k. */
  function At(c: Config, content: seq<byte>, k: nat): seq<byte>
    requires k < |c.buffers| && c.Offset(k + 1) <= |content|
  {
    OffsetsGrow(c, k, k + 1);
    content[c.Offset(k)..c.Offset(k + 1)]
  }

  lemma OverwriteElsewhere(t: seq<byte>, position: nat, data: seq<byte>, low: nat, high: nat)
    requires position + |data| <= |t| && low <= high <= |t|
    requires high <= position || position + |data| <= low
    ensures Overwrite(t, position, data)[low..high] == t[low..high]
  {
    var r := Overwrite(t, position, data);
    forall j | low <= j < high ensures r[j] == t[j] {}
  }

  /** Ranges do not overlap: each holds its buffer if that was carried out, else what was there, in every order. */
  lemma {:induction false} RangeHolds(c: Config, initial: seq<byte>, applied: seq<nat>, k: nat)
    requires c.size == Some(|initial|) && k < |c.buffers| && c.Fits(k)
    requires forall j :: 0 <= j < |applied| ==> applied[j] < |c.buffers| && c.Fits(applied[j])
    ensures At(c, Content(c, initial, applied), k) == if k in applied then c.buffers[k] else At(c, initial, k)
    decreases |applied|
  {
    if applied != [] {
      hide Overwrite, Config.Offset;
      var init, last := applied[..|applied| - 1], applied[|applied| - 1];
      assert applied == init + [last];
      RangeHolds(c, initial, init, k);
      OffsetsGrow(c, k, k + 1);
      OffsetsGrow(c, last, last + 1);
      if last < k {
        OffsetsGrow(c, last, k);
      }
      if k < last {
        OffsetsGrow(c, k, last);
      }
      if k != last {
        OverwriteElsewhere(Content(c, initial, init), c.Offset(last), c.buffers[last], c.Offset(k), c.Offset(k + 1));
      }
    }
  }

  lemma OverwriteKeeps(t: seq<byte>, position: nat, data: seq<byte>, low: nat, high: nat)
    requires low <= position && position + |data| <= high <= |t|
    ensures Overwrite(t, position, data)[..low] == t[..low] && Overwrite(t, position, data)[high..] == t[high..]
  {
    var r := Overwrite(t, position, data);
    forall j | 0 <= j < low ensures r[j] == t[j] {}
    forall j | high <= j < |t| ensures r[j] == t[j] {}
  }

  /** Bytes outside all ranges stay. */
  lemma {:induction false} OutsideStays(c: Config, initial: seq<byte>, applied: seq<nat>)
    requires c.size == Some(|initial|) && c.Offset(|c.buffers|) <= |initial|
    requires forall j :: 0 <= j < |applied| ==> applied[j] < |c.buffers| && c.Fits(applied[j])
    ensures c.start <= |initial|
    ensures var r, end := Content(c, initial, applied), c.Offset(|c.buffers|);
      r[..c.start] == initial[..c.start] && r[end..] == initial[end..]
    decreases |applied|
  {
    if applied != [] {
      hide Overwrite;
      var last := applied[|applied| - 1];
      OutsideStays(c, initial, applied[..|applied| - 1]);
      OffsetsGrow(c, 0, last);
      OffsetsGrow(c, last, |c.buffers|);
      OverwriteKeeps(Content(c, initial, applied[..|applied| - 1]), c.Offset(last), c.buffers[last], c.start,
        c.Offset(|c.buffers|));
    }
  }

  /** Ranges that each hold their buffer hold all buffers joined. */
  lemma {:induction false} RangesJoin(c: Config, content: seq<byte>, n: nat)
    requires n <= |c.buffers| && c.Offset(n) <= |content|
    requires forall k :: 0 <= k < n ==> Covered(c, content, k)
    ensures content[c.start..c.Offset(n)] == Joined(c.buffers, n)
  {
    if n > 0 {
      OffsetsGrow(c, n - 1, n);
      RangesJoin(c, content, n - 1);
      assert Covered(c, content, n - 1);
      assert content[c.start..c.Offset(n)] == content[c.start..c.Offset(n - 1)] + content[c.Offset(n - 1)..c.Offset(n)];
    }
  }

  predicate Covered(c: Config, content: seq<byte>, k: nat)
    requires k < |c.buffers|
  {
    c.Offset(k + 1) <= |content| && At(c, content, k) == c.buffers[k]
  }

  /** After a clean _sync the target is the old one with all that was written in place of what was there, in every
      order of completion, unless some upload call threw; then its range and only its range is still the old one. */
  lemma CleanSyncIsExact(c: Config, initial: seq<byte>, acts: seq<Action>, s: State)
    requires c.Valid() && c.size == Some(|initial|) && c.start <= |initial|
    requires Reaches(c, Init(c), acts, s) && CleanSync(c, s)
    ensures |s.phase| == |c.buffers|
    ensures forall j :: 0 <= j < |s.applied| ==> s.applied[j] < |c.buffers| && c.Fits(s.applied[j])
    ensures (forall k :: 0 <= k < |c.buffers| ==> !Swallowed(s, k)) ==>
      Content(c, initial, s.applied) == Overwrite(initial, c.start, Joined(c.buffers, |c.buffers|))
    ensures forall k :: 0 <= k < |c.buffers| && c.Fits(k) ==>
      At(c, Content(c, initial, s.applied), k) == if Swallowed(s, k) then At(c, initial, k) else c.buffers[k]
  {
    hide Overwrite;
    InitInv(c);
    RunInv(c, Init(c), acts, s);
    var content, n := Content(c, initial, s.applied), |c.buffers|;
    forall k | 0 <= k < n && c.Fits(k)
      ensures At(c, content, k) == if Swallowed(s, k) then At(c, initial, k) else c.buffers[k]
    {
      CleanSyncIff(c, acts, s, k);
      RangeHolds(c, initial, s.applied, k);
    }
    if forall k :: 0 <= k < n ==> !Swallowed(s, k) {
      forall k | 0 <= k < n ensures Covered(c, content, k) {
        CleanSyncIff(c, acts, s, k);
        assert c.Fits(k);
      }
      assert n > 0 ==> Covered(c, content, n - 1);
      Assemble(c, initial, s.applied);
    }
  }

  lemma Assemble(c: Config, initial: seq<byte>, applied: seq<nat>)
    requires c.size == Some(|initial|) && c.Offset(|c.buffers|) <= |initial|
    requires forall j :: 0 <= j < |applied| ==> applied[j] < |c.buffers| && c.Fits(applied[j])
    requires forall k :: 0 <= k < |c.buffers| ==> Covered(c, Content(c, initial, applied), k)
    ensures Content(c, initial, applied) == Overwrite(initial, c.start, Joined(c.buffers, |c.buffers|))
  {
    hide Content, Covered, Config.Fits, Overwrite, Joined;
    var content, n := Content(c, initial, applied), |c.buffers|;
    RangesJoin(c, content, n);
    OutsideStays(c, initial, applied);
    ThreeParts(initial, content, c.start, Joined(c.buffers, n));
  }

  lemma ThreeParts(t: seq<byte>, r: seq<byte>, position: nat, data: seq<byte>)
    requires position + |data| <= |t| == |r|
    requires r[..position] == t[..position] && r[position + |data|..] == t[position + |data|..]
    requires r[position..position + |data|] == data
    ensures r == Overwrite(t, position, data)
  {
    assert r == r[..position] + r[position..position + |data|] + r[position + |data|..];
  }

  /** The dropped exception: the stream reports success and its byte is not in the target. */
  lemma SilentLoss()
    ensures exists acts: seq<Action>, s: State ::
      && Reaches(LOSING, Init(LOSING), acts, s) && CleanSync(LOSING, s) && !LOSING.records
      && s.applied == [] && Content(LOSING, [0], s.applied) == [0] && LOSING.buffers == [[7]]
  {
    hide Joined, Overwrite, Config.Fits, Config.Offset, Over;
    var c := LOSING;
    var prepared := State(Permits(1, 0, 1, 1, 0), [Waiting], [], false);
    var lost := State(Permits(1, 1, 1, 1, 1), [Threw(false)], [], false);
    var acts := [Prepare, Throw(0)];
    assert Init(c).phase == [Waiting];
    assert Apply(c, Init(c), Prepare) == prepared && Apply(c, prepared, Throw(0)) == lost;
    assert acts[1..] == [Throw(0)] && acts[1..][1..] == [];
    assert Reaches(c, lost, [], lost);
    assert Reaches(c, prepared, acts[1..], lost);
    assert Reaches(c, Init(c), acts, lost) && CleanSync(c, lost);
  }

  /** One page or file of one byte, one permit, and the byte 7 to write. */
  const LOSING := Config([[7]], 1, 0, Some(1), false)

  // ---------- the stretches between two syncs ----------

  /** The buffers handed over between two syncs, laid end to end from a base offset. */
  datatype Stretch = Stretch(base: nat, buffers: seq<seq<byte>>) {

    function End(): nat { base + |Joined(buffers, |buffers|)| }

    function Add(data: seq<byte>): Stretch { Stretch(base, buffers + [data]) }

    /** The uploads of this stretch, as the transition system has them. */
    function Uploads(size: nat, permits: nat, records: bool): Config {
      Config(buffers, permits, base, Some(size), records)
    }
  }

  lemma OverwriteTwice(t: seq<byte>, position: nat, a: seq<byte>, b: seq<byte>)
    requires position <= |t|
    ensures Overwrite(Overwrite(t, position, a), position + |a|, b) == Overwrite(t, position, a + b)
  {}

  lemma OverwriteNothing(t: seq<byte>, position: nat)
    requires position <= |t|
    ensures Overwrite(t, position, []) == t
  {}

  /** Every stretch starts within what the ones before it made of the target. */
  predicate Rooted(initial: seq<byte>, stretches: seq<Stretch>) {
    stretches == []
    || (Rooted(initial, stretches[..|stretches| - 1])
        && stretches[|stretches| - 1].base <= |Image(initial, stretches[..|stretches| - 1])|)
  }

  /** What the stretches make of the target, one after the other. */
  function Image(initial: seq<byte>, stretches: seq<Stretch>): seq<byte> {
    if stretches == [] then initial
    else
      var before, last := Image(initial, stretches[..|stretches| - 1]), stretches[|stretches| - 1];
      if last.base <= |before| then Overwrite(before, last.base, Joined(last.buffers, |last.buffers|)) else before
  }

  lemma ImageOf(initial: seq<byte>, before: seq<Stretch>, last: Stretch)
    ensures Rooted(initial, before + [last]) <==> Rooted(initial, before) && last.base <= |Image(initial, before)|
    ensures last.base <= |Image(initial, before)| ==>
      Image(initial, before + [last])
        == Overwrite(Image(initial, before), last.base, Joined(last.buffers, |last.buffers|))
  {
    hide Overwrite;
    assert (before + [last])[..|before|] == before;
  }

  /** One more buffer at the end of the last stretch. */
  lemma ImageAdds(initial: seq<byte>, before: seq<Stretch>, last: Stretch, data: seq<byte>)
    requires Rooted(initial, before + [last])
    ensures Rooted(initial, before + [last.Add(data)])
    ensures last.End() <= |Image(initial, before + [last])| && last.Add(data).End() == last.End() + |data|
    ensures Image(initial, before + [last.Add(data)]) == Overwrite(Image(initial, before + [last]), last.End(), data)
  {
    hide Image, Rooted, Overwrite;
    ImageOf(initial, before, last);
    ImageOf(initial, before, last.Add(data));
    JoinedAppend(last.buffers, data);
    hide Joined;
    OverwriteTwice(Image(initial, before), last.base, Joined(last.buffers, |last.buffers|), data);
  }

  /** A new stretch anywhere within the target. */
  lemma ImageStarts(initial: seq<byte>, stretches: seq<Stretch>, base: nat)
    requires Rooted(initial, stretches) && base <= |Image(initial, stretches)|
    ensures Rooted(initial, stretches + [Stretch(base, [])])
    ensures Image(initial, stretches + [Stretch(base, [])]) == Image(initial, stretches)
  {
    hide Image, Rooted, Overwrite;
    ImageOf(initial, stretches, Stretch(base, []));
    OverwriteNothing(Image(initial, stretches), base);
  }

  lemma {:induction false} ImageKeepsSize(initial: seq<byte>, stretches: seq<Stretch>)
    requires Rooted(initial, stretches)
    ensures |initial| <= |Image(initial, stretches)|
    ensures stretches != [] ==> stretches[|stretches| - 1].End() <= |Image(initial, stretches)|
    decreases |stretches|
  {
    if stretches != [] {
      ImageKeepsSize(initial, stretches[..|stretches| - 1]);
    }
  }

  /** How the uploads of a stretch went until its sync: any interleaving, any order of delivery, repeats. */
  datatype Round = Round(acts: seq<Action>, s: State)

  /** The sync of a stretch was clean, no upload call threw, and the server carried the uploads out from `before` to
      `after`. */
  ghost predicate Served(st: Stretch, permits: nat, records: bool, round: Round, before: seq<byte>, after: seq<byte>) {
    var c, s := st.Uploads(|before|, permits, records), round.s;
    && c.Valid() && Reaches(c, Init(c), round.acts, s) && CleanSync(c, s)
    && |s.phase| == |c.buffers| && (forall k :: 0 <= k < |c.buffers| ==> !Swallowed(s, k))
    && (forall j :: 0 <= j < |s.applied| ==> s.applied[j] < |c.buffers| && c.Fits(s.applied[j]))
    && after == Content(c, before, s.applied)
  }

  /** The target at the server before the first and after every stretch. */
  ghost predicate History(stretches: seq<Stretch>, permits: nat, records: bool, rounds: seq<Round>,
                          targets: seq<seq<byte>>) {
    && |rounds| == |stretches| && |targets| == |stretches| + 1
    && (stretches == []
        || (History(stretches[..|stretches| - 1], permits, records, rounds[..|stretches| - 1], targets[..|stretches|])
            && Served(stretches[|stretches| - 1], permits, records, rounds[|stretches| - 1],
                      targets[|stretches| - 1], targets[|stretches|])))
  }

  /** Over several stretches, each with its own order of completion, the server ends with what direct writes make. */
  lemma {:induction false} HistoryIsImage(stretches: seq<Stretch>, permits: nat, records: bool, rounds: seq<Round>,
                                          targets: seq<seq<byte>>)
    requires History(stretches, permits, records, rounds, targets) && Rooted(targets[0], stretches)
    ensures targets[|stretches|] == Image(targets[0], stretches) && |targets[|stretches|]| == |targets[0]|
    decreases |stretches|
  {
    if stretches != [] {
      var n := |stretches| - 1;
      HistoryIsImage(stretches[..n], permits, records, rounds[..n], targets[..n + 1]);
      hide Content, Overwrite, Image, History;
      ServedIsOverwritten(stretches[n], permits, records, rounds[n], targets[n], targets[n + 1]);
      LastStretch(targets[0], stretches);
    }
  }

  lemma ServedIsOverwritten(st: Stretch, permits: nat, records: bool, round: Round, before: seq<byte>, after: seq<byte>)
    requires Served(st, permits, records, round, before, after) && st.base <= |before|
    ensures |after| == |before| && after == Overwrite(before, st.base, Joined(st.buffers, |st.buffers|))
  {
    CleanSyncIsExact(st.Uploads(|before|, permits, records), before, round.acts, round.s);
  }

  lemma LastStretch(initial: seq<byte>, stretches: seq<Stretch>)
    requires stretches != [] && Rooted(initial, stretches)
    ensures var n := |stretches| - 1; var before := Image(initial, stretches[..n]);
      && stretches[n].base <= |before|
      && Image(initial, stretches)
        == Overwrite(before, stretches[n].base, Joined(stretches[n].buffers, |stretches[n].buffers|))
  {}

  // ---------- the writing side ----------

  /** The buffers of the stretches with the offsets they go to, in order. */
  function Ranges(stretches: seq<Stretch>): seq<(nat, seq<byte>)> {
    if stretches == [] then [] else Ranges(stretches[..|stretches| - 1]) + Placed(stretches[|stretches| - 1])
  }

  function Placed(st: Stretch): seq<(nat, seq<byte>)> {
    seq(|st.buffers|, j requires 0 <= j < |st.buffers| => (st.base + |Joined(st.buffers, j)|, st.buffers[j]))
  }

  /** The range of a buffer is where the transition system has it. */
  lemma PlacedAtOffset(st: Stretch, j: nat, size: nat, permits: nat, records: bool)
    requires j < |st.buffers|
    ensures Placed(st)[j]
      == (st.Uploads(size, permits, records).Offset(j), st.Uploads(size, permits, records).buffers[j])
  {}

  lemma PlacedAdds(before: seq<Stretch>, last: Stretch, data: seq<byte>)
    ensures Ranges(before + [last.Add(data)]) == Ranges(before + [last]) + [(last.End(), data)]
  {
    assert (before + [last])[..|before|] == before && (before + [last.Add(data)])[..|before|] == before;
    forall j | 0 <= j < |last.buffers|
      ensures Joined(last.buffers + [data], j) == Joined(last.buffers, j)
    {
      JoinedExtends(last.buffers, data, j);
    }
    JoinedExtends(last.buffers, data, |last.buffers|);
    assert Placed(last.Add(data)) == Placed(last) + [(last.End(), data)];
  }

  lemma RangesStart(stretches: seq<Stretch>, base: nat)
    ensures Ranges(stretches + [Stretch(base, [])]) == Ranges(stretches)
  {
    assert (stretches + [Stretch(base, [])])[..|stretches|] == stretches;
  }

  /** How closing a stream ends. */
  datatype Ending = AlreadyClosed | SyncFailed | Closed(md5: Option<seq<byte>>)

  /** A page-blob or file stream: a buffer at a running offset, that can seek unless it hashes. `image` is what the
      caller's writes and seeks would make of the target if every one of them went through at once. */
  class RangeStream {
    const initial: seq<byte>
    const storeMd5: bool
    var bufferSize: nat
    var nextBufferSize: nat
    var buffer: seq<byte>
    var rangeOffset: nat
    var streambufOffset: nat
    /** The buffers that were given to lock_async, with their offsets, in order. */
    var uploads: seq<(nat, seq<byte>)>
    /** What m_total_hash_provider was given, if it is enabled. */
    var totalHash: seq<byte>
    var committed: bool

    ghost var image: seq<byte>
    /** The uploads by stretches; the last one is not synced yet. */
    ghost var past: seq<Stretch>
    ghost var current: Stretch
    /** Everything the caller wrote, and how much of it one character at a time. */
    ghost var written: seq<byte>
    ghost var singles: nat

    ghost function Stretches(): seq<Stretch>
      reads this`past, this`current
    {
      past + [current]
    }

    /** The target with what was handed over. */
    ghost function Sent(): seq<byte>
      reads this`past, this`current
    {
      Image(initial, Stretches())
    }

    /** The image, but for the stream's own idea of the cursor. */
    ghost predicate Pending()
      reads this`bufferSize, this`nextBufferSize, this`buffer, this`rangeOffset, this`uploads, this`image, this`past,
        this`current
    {
      && 0 < bufferSize && 0 < nextBufferSize
      && uploads == Ranges(Stretches()) && Rooted(initial, Stretches()) && rangeOffset == current.End()
      && rangeOffset <= |Sent()| && image == Overwrite(Sent(), rangeOffset, buffer)
    }

    ghost predicate Valid()
      reads this
    {
      && Pending() && streambufOffset == rangeOffset + |buffer| && |initial| <= |image|
      && HashFits(written, totalHash, singles)
      && (storeMd5 ==> streambufOffset == |written| && image == Overwrite(initial, 0, written))
    }

    constructor (initial: seq<byte>, writeSize: nat, storeMd5: bool)
      requires 0 < writeSize
      ensures Valid() && image == initial && Stretches() == [Stretch(0, [])] && !committed
      ensures written == [] && singles == 0 && this.initial == initial && this.storeMd5 == storeMd5
      ensures buffer == [] && uploads == [] && totalHash == [] && streambufOffset == 0
    {
      this.initial, this.storeMd5 := initial, storeMd5;
      bufferSize, nextBufferSize, buffer, rangeOffset, streambufOffset := writeSize, writeSize, [], 0, 0;
      uploads, totalHash, committed, image := [], [], false, initial;
      past, current, written, singles := [], Stretch(0, []), [], 0;
      new;
      hide Overwrite, Image, Rooted;
      OverwriteNothing(initial, 0);
      ImageStarts(initial, [], 0) by { EmptyImage(initial); }
      EmptyImage(initial);
      RangesStart([], 0);
      NothingFits();
      assert [] + [current] == Stretches();
    }

    method UploadBuffer()
      requires Pending()
      modifies this`buffer, this`bufferSize, this`rangeOffset, this`uploads, this`current
      ensures Pending() && buffer == [] && rangeOffset == old(rangeOffset + |buffer|)
      ensures Sent() == image && bufferSize == nextBufferSize
      ensures uploads == if old(buffer) == [] then old(uploads) else old(uploads) + [(old(rangeOffset), old(buffer))]
    {
      hide Overwrite, Image, Rooted, Ranges;
      var full := buffer;
      buffer, bufferSize := [], nextBufferSize;
      OverwriteNothing(Sent(), rangeOffset);
      if full != [] {
        var offset := rangeOffset;
        rangeOffset := rangeOffset + |full|;
        uploads := uploads + [(offset, full)];
        ImageAdds(initial, past, current, full);
        PlacedAdds(past, current, full);
        current := current.Add(full);
        OverwriteNothing(Sent(), rangeOffset);
      }
    }

    /** The buffer grows, and the image with it. */
    method Append(piece: seq<byte>)
      requires Pending()
      modifies this`buffer, this`image
      ensures Pending() && buffer == old(buffer) + piece && rangeOffset + |old(buffer)| <= |old(image)|
      ensures image == Overwrite(old(image), rangeOffset + |old(buffer)|, piece)
    {
      hide Overwrite, Image, Rooted, Ranges;
      OverwriteTwice(Sent(), rangeOffset, buffer, piece);
      buffer := buffer + piece;
      image := Overwrite(Sent(), rangeOffset, buffer);
    }

    /** Since upload number n only full buffers were handed over, the first one of the size set before, and this one
        is not overfilled. */
    ghost predicate Fills(n: nat, first: nat)
      reads this`uploads, this`nextBufferSize, this`bufferSize, this`buffer
    {
      && n <= |uploads| && |buffer| <= bufferSize
      && (forall k :: n <= k < |uploads| ==> |uploads[k].1| == if k == n then first else nextBufferSize)
      && bufferSize == if |uploads| == n then first else nextBufferSize
    }

    /** And not even full. */
    ghost predicate FullSince(n: nat, first: nat)
      reads this`uploads, this`nextBufferSize, this`bufferSize, this`buffer
    {
      Fills(n, first) && |buffer| < bufferSize
    }

    /** One turn of the loop: a piece goes to the hash and the buffer, and a buffer that is full now is uploaded. */
    method PutPiece(piece: seq<byte>)
      requires Pending()
      modifies this`buffer, this`bufferSize, this`rangeOffset, this`uploads, this`current, this`image, this`totalHash
      ensures Pending() && old(rangeOffset + |buffer|) <= |old(image)|
      ensures image == Overwrite(old(image), old(rangeOffset + |buffer|), piece) && totalHash == old(totalHash) + piece
      ensures rangeOffset + |buffer| == old(rangeOffset + |buffer|) + |piece| && 0 < bufferSize
      ensures var filled := old(buffer) + piece;
        if filled != [] && old(bufferSize) == |filled| then
          buffer == [] && uploads == old(uploads) + [(old(rangeOffset), filled)] && bufferSize == nextBufferSize
        else
          buffer == filled && uploads == old(uploads) && bufferSize == old(bufferSize)
    {
      hide *;
      SizeIsPositive();
      totalHash := totalHash + piece;
      Append(piece);
      if bufferSize == |buffer| {
        UploadBuffer();
      }
      SizeIsPositive();
    }

    /** Of what the caller is writing at `position`, this part was taken. */
    ghost predicate Taken(part: seq<byte>, position: nat, before: seq<byte>, hashed: seq<byte>)
      reads this`buffer, this`rangeOffset, this`image, this`totalHash
    {
      && position <= |before| && image == Overwrite(before, position, part) && totalHash == hashed + part
      && rangeOffset + |buffer| == position + |part|
    }

    /** The turn, seen from the whole write. */
    method PutNext(piece: seq<byte>, ghost part: seq<byte>, ghost position: nat, ghost before: seq<byte>,
                   ghost hashed: seq<byte>, ghost n: nat, ghost first: nat)
      requires Pending() && Taken(part, position, before, hashed)
      modifies this`buffer, this`bufferSize, this`rangeOffset, this`uploads, this`current, this`image, this`totalHash
      ensures Pending() && Taken(part + piece, position, before, hashed) && 0 < bufferSize && old(uploads) <= uploads
      ensures old(|buffer| == bufferSize) && piece == [] ==> |buffer| < old(|buffer|)
      ensures old(Fills(n, first)) && |old(buffer)| + |piece| <= old(bufferSize) ==>
        Fills(n, first) && FullSince(n, first)
    {
      SizeIsPositive();
      hide Overwrite, Pending;
      OverwriteTwice(before, position, part, piece);
      assert hashed + part + piece == hashed + (part + piece);
      PutPiece(piece);
    }

    /** The loop of a write. */
    method PutAll(data: seq<byte>, ghost position: nat, ghost before: seq<byte>, ghost hashed: seq<byte>,
                  ghost n: nat, ghost first: nat)
      requires Pending() && Taken([], position, before, hashed)
      modifies this`buffer, this`bufferSize, this`rangeOffset, this`uploads, this`current, this`image, this`totalHash
      ensures Pending() && Taken(data, position, before, hashed) && old(uploads) <= uploads
      ensures old(FullSince(n, first)) || (data != [] && old(Fills(n, first))) ==> FullSince(n, first)
    {
      hide *;
      SizeIsPositive();
      var done := 0;
      assert data[..done] == [];
      while done < |data|
        invariant done <= |data| && Pending() && Taken(data[..done], position, before, hashed) && 0 < bufferSize
        invariant old(uploads) <= uploads && (old(Fills(n, first)) ==> Fills(n, first))
        invariant old(FullSince(n, first)) || (0 < done && old(Fills(n, first))) ==> FullSince(n, first)
        decreases |data| - done, |buffer|
      {
        // size_t arithmetic: an overfilled buffer leaves "room" for everything
        var size := |data| - done;
        if |buffer| <= bufferSize && bufferSize - |buffer| < size {
          size := bufferSize - |buffer|;
        }
        assert data[..done] + data[done..done + size] == data[..done + size];
        NotOverfilled(n, first);
        PutNext(data[done..done + size], data[..done], position, before, hashed, n, first);
        done := done + size;
      }
      assert data[..done] == data;
    }

    lemma PositionFits()
      requires Pending()
      ensures rangeOffset + |buffer| <= |image|
    {}

    lemma SizeIsPositive()
      requires Pending()
      ensures 0 < bufferSize
    {}

    lemma NotOverfilled(n: nat, first: nat)
      ensures FullSince(n, first) ==> Fills(n, first)
      ensures Fills(n, first) ==> |buffer| <= bufferSize
    {}

    /** A write lands at the stream position, as if there were no buffer, and a stream whose buffer is not overfilled
        hands full buffers over only. */
    method PutN(data: seq<byte>)
      requires Valid()
      modifies this
      ensures old(streambufOffset) <= |old(image)|
      ensures Valid() && image == Overwrite(old(image), old(streambufOffset), data)
      ensures streambufOffset == old(streambufOffset) + |data| && committed == old(committed) && past == old(past)
      ensures written == old(written) + data && singles == old(singles) && totalHash == old(totalHash) + data
      ensures nextBufferSize == old(nextBufferSize) && old(uploads) <= uploads
      ensures old(|buffer| < bufferSize) || (data != [] && old(|buffer| == bufferSize)) ==>
        FullSince(|old(uploads)|, old(bufferSize))
    {
      hide Overwrite, Image, Rooted, Ranges, Pending, HashFits;
      PositionFits();
      if storeMd5 {
        OverwriteTwice(initial, 0, written, data);
      }
      BothGrow(written, totalHash, singles, data);
      OverwriteNothing(image, streambufOffset);
      ghost var position := streambufOffset;
      streambufOffset := streambufOffset + |data|;
      PutAll(data, position, image, totalHash, |uploads|, bufferSize);
      written := written + data;
    }

    /** One character, which the hash provider is not told about. `full` is what in_avail() reports. */
    method PutC(ch: byte, full: bool)
      requires Valid()
      modifies this
      ensures old(streambufOffset) <= |old(image)|
      ensures Valid() && image == Overwrite(old(image), old(streambufOffset), [ch])
      ensures streambufOffset == old(streambufOffset) + 1 && committed == old(committed) && past == old(past)
      ensures written == old(written) + [ch] && singles == old(singles) + 1 && totalHash == old(totalHash)
      ensures uploads == if full then old(uploads) + [(old(rangeOffset), old(buffer) + [ch])] else old(uploads)
      ensures buffer == if full then [] else old(buffer) + [ch]
    {
      hide Overwrite, Image, Rooted, Ranges, Pending, HashFits;
      if storeMd5 {
        OverwriteTwice(initial, 0, written, [ch]);
      }
      OneMore(written, totalHash, singles, ch);
      streambufOffset := streambufOffset + 1;
      Append([ch]);
      written, singles := written + [ch], singles + 1;
      if full {
        UploadBuffer();
      }
    }

    /** _sync: the buffer is handed over, and a sync that ends cleanly ends the stretch. */
    method Sync(clean: bool)
      requires Valid()
      modifies this`buffer, this`bufferSize, this`rangeOffset, this`uploads, this`current, this`past
      ensures Valid() && buffer == [] && Sent() == image
      ensures streambufOffset == old(streambufOffset) && written == old(written) && totalHash == old(totalHash)
      ensures clean ==> |past| == |old(past)| + 1 && old(past) <= past && current == Stretch(streambufOffset, [])
      ensures !clean ==> past == old(past)
    {
      hide Overwrite, Image, Rooted, Ranges, HashFits;
      UploadBuffer();
      if clean {
        StartStretch(rangeOffset);
      }
    }

    /** The next stretch starts at `base`. */
    method StartStretch(base: nat)
      requires Pending() && buffer == [] && Sent() == image && base <= |image|
      modifies this`past, this`current, this`rangeOffset
      ensures Pending() && Sent() == image && rangeOffset == base
      ensures past == old(past) + [old(current)] && current == Stretch(base, [])
    {
      hide Overwrite, Image, Rooted, Ranges;
      ImageStarts(initial, Stretches(), base);
      RangesStart(Stretches(), base);
      OverwriteNothing(Sent(), base);
      past, current := past + [current], Stretch(base, []);
      rangeOffset := base;
    }

    /** A seek within the target's size syncs and goes there; the image stays. `clean` is how the sync ends. */
    method Seekpos(pos: int, clean: bool) returns (r: Option<nat>, thrown: bool)
      requires Valid()
      modifies this
      ensures Valid() && image == old(image) && committed == old(committed)
      ensures var may := !old(committed) && !storeMd5 && 0 <= pos <= |initial|;
        && (thrown <==> may && !clean) && (r.Some? <==> may && clean)
        && (r.Some? ==> streambufOffset == pos == r.value && buffer == [] && Sent() == image)
        && (!may ==> streambufOffset == old(streambufOffset) && uploads == old(uploads) && buffer == old(buffer))
    {
      hide Overwrite, Image, Rooted, Ranges, HashFits;
      if committed || storeMd5 || pos < 0 || pos > |initial| {
        return None, false;
      }
      UploadBuffer();
      if !clean {
        return None, true;
      }
      StartStretch(pos);
      streambufOffset := pos;
      return Some(pos), false;
    }

    /** Closing hands the rest over, and after a clean sync stores the MD5 if the stream hashes. A second close is an
        error. */
    method CloseWrite(clean: bool) returns (r: Ending)
      requires Valid()
      modifies this
      ensures Valid() && committed && image == old(image) && (r.AlreadyClosed? <==> old(committed))
      ensures written == old(written) && singles == old(singles) && totalHash == old(totalHash)
      ensures r.AlreadyClosed? ==> uploads == old(uploads) && buffer == old(buffer)
      ensures !r.AlreadyClosed? ==> buffer == [] && Sent() == image && (r.SyncFailed? <==> !clean)
      ensures r.Closed? ==> r.md5 == if storeMd5 then Some(totalHash) else None
      // the stored MD5 is that of the whole target exactly if all of it was written, and nothing in single characters
      ensures r.Closed? && storeMd5 ==> (totalHash == image <==> singles == 0 && |initial| <= |written|)
    {
      hide Image, Rooted, Ranges;
      if committed {
        return AlreadyClosed;
      }
      committed := true;
      UploadBuffer();
      if !clean {
        return SyncFailed;
      }
      r := Closed(if storeMd5 then Some(totalHash) else None);
    }
  }

  /** From the caller's writes and seeks to the target at the server: if all stretches were synced cleanly and no upload
      call threw, the server ends with the image, in every order of completion of every stretch. */
  lemma WrittenIsStored(stream: RangeStream, permits: nat, records: bool, rounds: seq<Round>, targets: seq<seq<byte>>)
    requires stream.Valid() && stream.buffer == []
    requires History(stream.Stretches(), permits, records, rounds, targets) && targets[0] == stream.initial
    ensures targets[|rounds|] == stream.image
  {
    hide Image, Rooted, Ranges, Overwrite;
    HistoryIsImage(stream.Stretches(), permits, records, rounds, targets);
    OverwriteNothing(stream.Sent(), stream.rangeOffset);
  }

  // ---------- requests that are carried out again, perhaps in a later stretch ----------

  predicate Fitting(ranges: seq<(nat, seq<byte>)>, size: nat) {
    forall i :: 0 <= i < |ranges| ==> ranges[i].0 + |ranges[i].1| <= size
  }

  /** The ranges that the server wrote, by number, in its order. */
  predicate Events(ranges: seq<(nat, seq<byte>)>, events: seq<nat>) {
    forall j :: 0 <= j < |events| ==> events[j] < |ranges|
  }

  /** Every range was written at least once. */
  predicate AllCarriedOut(ranges: seq<(nat, seq<byte>)>, events: seq<nat>) {
    Events(ranges, events) && forall i: nat :: i < |ranges| ==> i in events
  }

  /** What the server's writes make of the target, whichever stretch they belong to. */
  function Deliveries(initial: seq<byte>, ranges: seq<(nat, seq<byte>)>, events: seq<nat>): (r: seq<byte>)
    requires Fitting(ranges, |initial|) && Events(ranges, events)
    ensures |r| == |initial|
  {
    if events == [] then initial
    else
      var k := events[|events| - 1];
      Overwrite(Deliveries(initial, ranges, events[..|events| - 1]), ranges[k].0, ranges[k].1)
  }

  predicate InRange(range: (nat, seq<byte>), p: nat) { range.0 <= p < range.0 + |range.1| }

  function ByteAt(range: (nat, seq<byte>), p: nat): byte
    requires InRange(range, p)
  {
    range.1[p - range.0]
  }

  /** Ranges that overlap have the same bytes there. */
  ghost predicate Agreeing(ranges: seq<(nat, seq<byte>)>) {
    forall i, j, p :: 0 <= i < |ranges| && 0 <= j < |ranges| && InRange(ranges[i], p) && InRange(ranges[j], p) ==>
      ByteAt(ranges[i], p) == ByteAt(ranges[j], p)
  }

  lemma OverwriteAt(t: seq<byte>, range: (nat, seq<byte>), p: nat)
    requires range.0 + |range.1| <= |t| && p < |t|
    ensures |Overwrite(t, range.0, range.1)| == |t|
    ensures Overwrite(t, range.0, range.1)[p] == if InRange(range, p) then ByteAt(range, p) else t[p]
  {}

  lemma {:induction false} DeliveredByte(initial: seq<byte>, ranges: seq<(nat, seq<byte>)>, events: seq<nat>,
                                         i: nat, p: nat)
    requires Fitting(ranges, |initial|) && Events(ranges, events) && Agreeing(ranges)
    requires i < |ranges| && i in events && InRange(ranges[i], p)
    ensures p < |initial| && Deliveries(initial, ranges, events)[p] == ByteAt(ranges[i], p)
    decreases |events|
  {
    hide Overwrite;
    var init, last := events[..|events| - 1], events[|events| - 1];
    OverwriteAt(Deliveries(initial, ranges, init), ranges[last], p);
    if !InRange(ranges[last], p) {
      assert events == init + [last];
      DeliveredByte(initial, ranges, init, i, p);
    }
  }

  lemma {:induction false} UntouchedByte(initial: seq<byte>, ranges: seq<(nat, seq<byte>)>, events: seq<nat>, p: nat)
    requires Fitting(ranges, |initial|) && Events(ranges, events) && p < |initial|
    requires forall i :: 0 <= i < |ranges| ==> !InRange(ranges[i], p)
    ensures Deliveries(initial, ranges, events)[p] == initial[p]
    decreases |events|
  {
    if events != [] {
      hide Overwrite;
      var init, last := events[..|events| - 1], events[|events| - 1];
      OverwriteAt(Deliveries(initial, ranges, init), ranges[last], p);
      UntouchedByte(initial, ranges, init, p);
    }
  }

  /** Where overlapping ranges agree, the order and the number of the writes do not matter. */
  lemma SameDeliveries(initial: seq<byte>, ranges: seq<(nat, seq<byte>)>, e: seq<nat>, f: seq<nat>)
    requires Fitting(ranges, |initial|) && Agreeing(ranges) && AllCarriedOut(ranges, e) && AllCarriedOut(ranges, f)
    ensures Deliveries(initial, ranges, e) == Deliveries(initial, ranges, f)
  {
    hide Deliveries, Agreeing;
    forall p | 0 <= p < |initial| ensures Deliveries(initial, ranges, e)[p] == Deliveries(initial, ranges, f)[p] {
      if i: nat :| i < |ranges| && InRange(ranges[i], p) {
        DeliveredByte(initial, ranges, e, i, p);
        DeliveredByte(initial, ranges, f, i, p);
      } else {
        UntouchedByte(initial, ranges, e, p);
        UntouchedByte(initial, ranges, f, p);
      }
    }
  }

  function Upto(n: nat): seq<nat> { seq(n, (i: nat) => i) }

  lemma {:induction false} MoreRanges(initial: seq<byte>, ranges: seq<(nat, seq<byte>)>, more: (nat, seq<byte>), n: nat)
    requires Fitting(ranges + [more], |initial|) && n <= |ranges|
    ensures Fitting(ranges, |initial|) && Events(ranges, Upto(n)) && Events(ranges + [more], Upto(n))
    ensures Deliveries(initial, ranges + [more], Upto(n)) == Deliveries(initial, ranges, Upto(n))
  {
    assert forall i :: 0 <= i < |ranges| ==> (ranges + [more])[i] == ranges[i];
    if n > 0 {
      MoreRanges(initial, ranges, more, n - 1);
      assert Upto(n)[..n - 1] == Upto(n - 1);
    }
  }

  lemma UptoCovers(ranges: seq<(nat, seq<byte>)>)
    ensures AllCarriedOut(ranges, Upto(|ranges|))
  {
    forall i: nat | i < |ranges| ensures i in Upto(|ranges|) {
      assert Upto(|ranges|)[i] == i;
    }
  }

  /** Carried out once and in order, the ranges make the image. */
  lemma {:induction false} InOrderIsImage(initial: seq<byte>, before: seq<Stretch>, last: Stretch)
    requires Rooted(initial, before + [last]) && Fitting(Ranges(before + [last]), |initial|)
    ensures AllCarriedOut(Ranges(before + [last]), Upto(|Ranges(before + [last])|))
    ensures var ranges := Ranges(before + [last]);
      Deliveries(initial, ranges, Upto(|ranges|)) == Image(initial, before + [last])
    decreases |before|, |last.buffers|
  {
    hide Overwrite, Image, Rooted, Ranges;
    ImageOf(initial, before, last);
    UptoCovers(Ranges(before + [last]));
    var n := |last.buffers|;
    if n > 0 {
      var shorter, data := Stretch(last.base, last.buffers[..n - 1]), last.buffers[n - 1];
      assert last == shorter.Add(data);
      ImageOf(initial, before, shorter);
      ImageAdds(initial, before, shorter, data);
      PlacedAdds(before, shorter, data);
      var ranges := Ranges(before + [shorter]);
      MoreRanges(initial, ranges, (shorter.End(), data), |ranges|);
      InOrderIsImage(initial, before, shorter);
      assert Upto(|ranges| + 1)[..|ranges|] == Upto(|ranges|);
    } else {
      assert last == Stretch(last.base, []);
      RangesStart(before, last.base);
      ImageStarts(initial, before, last.base);
      if before != [] {
        var m := |before| - 1;
        assert before == before[..m] + [before[m]];
        InOrderIsImage(initial, before[..m], before[m]);
      } else {
        EmptyImage(initial);
      }
    }
  }

  /** The server ends with the image, whatever was carried out again and when. */
  ghost predicate StoredWhatever(initial: seq<byte>, ranges: seq<(nat, seq<byte>)>, image: seq<byte>)
    requires Fitting(ranges, |initial|)
  {
    forall events :: AllCarriedOut(ranges, events) ==> Deliveries(initial, ranges, events) == image
  }

  /** Exactly when late repeats do no harm: where ranges that the stream wrote overlap, after a seek back, they have the
      same bytes. Otherwise the late repeat of one of them is enough. */
  lemma LateRepeatsIff(stream: RangeStream)
    requires stream.Valid() && stream.buffer == [] && Fitting(stream.uploads, |stream.initial|)
    ensures StoredWhatever(stream.initial, stream.uploads, stream.image) <==> Agreeing(stream.uploads)
  {
    var initial, ranges, image := stream.initial, stream.uploads, stream.image;
    hide Deliveries, Image, Rooted, Ranges, Overwrite, Agreeing;
    OverwriteNothing(stream.Sent(), stream.rangeOffset);
    InOrderIsImage(initial, stream.past, stream.current);
    if Agreeing(ranges) {
      forall events | AllCarriedOut(ranges, events) ensures Deliveries(initial, ranges, events) == image {
        SameDeliveries(initial, ranges, events, Upto(|ranges|));
      }
    } else {
      LateRepeatHarms(initial, ranges, image);
    }
  }

  lemma LateRepeatHarms(initial: seq<byte>, ranges: seq<(nat, seq<byte>)>, image: seq<byte>)
    requires Fitting(ranges, |initial|) && !Agreeing(ranges) && |image| == |initial|
    requires AllCarriedOut(ranges, Upto(|ranges|))
    ensures !StoredWhatever(initial, ranges, image)
  {
    var i: nat, j: nat, p: nat :| i < |ranges| && j < |ranges| && InRange(ranges[i], p) && InRange(ranges[j], p)
      && ByteAt(ranges[i], p) != ByteAt(ranges[j], p);
    var k := if ByteAt(ranges[i], p) != image[p] then i else j;
    var events := Upto(|ranges|) + [k];
    assert events[..|ranges|] == Upto(|ranges|) && AllCarriedOut(ranges, events);
    hide Overwrite;
    OverwriteAt(Deliveries(initial, ranges, Upto(|ranges|)), ranges[k], p);
  }

  /** A stream writes 1, seeks back and writes 2: a late repeat of the first request is what stays. */
  lemma OverwrittenByLateRepeat()
    ensures var stretches := [Stretch(0, [[1]]), Stretch(0, [[2]])];
      && Rooted([0], stretches) && Image([0], stretches) == [2]
      && Fitting(Ranges(stretches), 1) && AllCarriedOut(Ranges(stretches), [0, 1, 0])
      && Deliveries([0], Ranges(stretches), [0, 1, 0]) == [1]
  {
    var first, second := Stretch(0, [[1]]), Stretch(0, [[2]]);
    OneWrite([0], [], 0, [1]);
    OneWrite([0], [first], 0, [2]);
    EmptyImage([0]);
    hide Image, Rooted, Ranges, Placed;
    assert [] + [first] == [first] && [first] + [second] == [first, second];
    TwoWrites();
  }

  /** A stretch of a single buffer. */
  lemma OneWrite(initial: seq<byte>, before: seq<Stretch>, base: nat, data: seq<byte>)
    requires Rooted(initial, before) && base <= |Image(initial, before)|
    ensures var last := Stretch(base, [data]);
      && Rooted(initial, before + [last])
      && Image(initial, before + [last]) == Overwrite(Image(initial, before), base, data)
      && Ranges(before + [last]) == Ranges(before) + [(base, data)]
  {
    hide Image, Rooted, Ranges, Overwrite;
    var empty := Stretch(base, []);
    assert empty.Add(data) == Stretch(base, [data]) && empty.End() == base;
    ImageStarts(initial, before, base);
    RangesStart(before, base);
    ImageAdds(initial, before, empty, data);
    PlacedAdds(before, empty, data);
  }

  lemma TwoWrites()
    ensures Overwrite([0], 0, [1]) == [1] && Overwrite([1], 0, [2]) == [2]
    ensures var ranges := [(0, [1]), (0, [2])];
      && Fitting(ranges, 1) && AllCarriedOut(ranges, [0, 1, 0]) && Deliveries([0], ranges, [0, 1, 0]) == [1]
  {
    var ranges: seq<(nat, seq<byte>)>, events: seq<nat> := [(0, [1]), (0, [2])], [0, 1, 0];
    assert 0 in events && 1 in events;
    assert events[..2] == [0, 1] && events[..2][..1] == [0] && events[..1][..0] == [];
    assert Deliveries([0], ranges, events[..1]) == [1];
    assert Deliveries([0], ranges, events[..2]) == [2];
  }

  lemma FirstByte()
    ensures Overwrite([0, 0], 0, [7]) == [7, 0]
  {}

  /** A stream over two bytes that writes only the first one, and stores its MD5 as that of the whole target. */
  method PartialHash() returns (stream: RangeStream, md5: seq<byte>)
    ensures fresh(stream) && stream.Valid() && stream.image == [7, 0] && md5 == [7]
  {
    hide *;
    stream := new RangeStream([0, 0], 4, true);
    stream.PutN([7]);
    var r := stream.CloseWrite(true);
    md5 := r.md5.value;
    FirstByte();
  }

  lemma EmptyImage(initial: seq<byte>)
    ensures Image(initial, []) == initial && Rooted(initial, []) && Ranges([]) == []
  {}
}
