/** serializers.py: length-prefixed frames, batching, and the deserializers behind `zip` and
    `cartesian`. Objects go through an abstract codec in place of pickle. */
module Serializers {
  import opened Seqs
  import opened Bytes

  /** How a read ends: EOFError, struct.error, or another exception out of `loads`. */
  datatype End = Eof | StructError | LoadsError

  /** `dumps` and `loads`, which may raise anything on bytes that `dumps` did not write; on a
      payload that was cut off, an EOFError too. */
  datatype Codec<!T> = Codec(dumps: T -> seq<Byte>, loads: seq<Byte> -> Result<T, End>)

  ghost predicate Faithful<T(!new)>(c: Codec<T>)
  {
    forall x :: c.loads(c.dumps(x)) == Ok(x)
  }

  /** Payloads that a frame can carry: `write_int` rejects longer ones. */
  predicate Fits<T>(c: Codec<T>, xs: seq<T>)
  {
    forall i :: 0 <= i < |xs| ==> |c.dumps(xs[i])| < INT_LIMIT
  }

  // ---------- Streams ----------

  /** What `stream.read(n)` returns: up to n bytes, everything when n is negative. */
  function ReadBytes(data: seq<Byte>, n: int): (r: seq<Byte>)
    ensures r <= data
    ensures |r| == n || (r == data && (n < 0 || |data| < n))
  {
    if n < 0 || n > |data| then data else data[..n]
  }

  class Stream {
    var data: seq<Byte>  // bytes not read yet

    constructor ()
      ensures data == []
    {
      data := [];
    }

    method Write(bytes: seq<Byte>)
      modifies this
      ensures data == old(data) + bytes
    {
      data := data + bytes;
    }

    method Read(n: int) returns (r: seq<Byte>)
      modifies this
      ensures r == ReadBytes(old(data), n) && old(data) == r + data
    {
      r := ReadBytes(data, n);
      data := data[|r|..];
    }

    method ReadInt() returns (v: Result<int, End>)
      modifies this
      ensures |old(data)| >= 4 ==> v == Ok(UnpackInt(old(data)[..4], true)) && data == old(data)[4..]
      ensures |old(data)| < 4 ==> v == Err(if old(data) == [] then Eof else StructError)
    {
      var bytes := Read(4);
      if bytes == [] {
        return Err(Eof);
      }
      if |bytes| < 4 {
        return Err(StructError);
      }
      return Ok(UnpackInt(bytes, true));
    }

    /** `_write_with_length`; false is the error of packing a length over 2^31 - 1. */
    method WriteWithLength<T>(c: Codec<T>, x: T) returns (ok: bool)
      modifies this
      ensures ok <==> |c.dumps(x)| < INT_LIMIT
      ensures data == if ok then old(data) + Frame(c.dumps(x)) else old(data)
    {
      var serialized := c.dumps(x);
      if |serialized| >= INT_LIMIT {
        return false;
      }
      Write(PackInt(|serialized|, true));
      Write(serialized);
      ok := true;
    }

    /** `_read_with_length` */
    method ReadWithLength<T>(c: Codec<T>) returns (r: Result<T, End>)
      modifies this
      ensures match ReadFrame(c, old(data))
        case Item(x, rest) => r == Ok(x) && data == rest
        case Stop(end) => r == Err(end)
    {
      var length := ReadInt();
      if length.Err? {
        return Err(length.error);
      }
      var obj := Read(length.value);
      if obj == [] {
        return Err(Eof);
      }
      r := c.loads(obj);
    }

    /** `dump_stream`: frame by frame, up to the first object that does not fit. */
    method DumpStream<T>(c: Codec<T>, xs: seq<T>) returns (ok: bool, ghost written: nat)
      modifies this
      ensures written <= |xs| && Fits(c, xs[..written])
      ensures data == old(data) + Frames(c, xs[..written])
      ensures if ok then written == |xs| else written < |xs| && |c.dumps(xs[written])| >= INT_LIMIT
      ensures ok <==> Fits(c, xs)
    {
      hide Frame, Frames;
      NoFrames(c, xs[..0]);
      for i := 0 to |xs|
        invariant Fits(c, xs[..i]) && data == old(data) + Frames(c, xs[..i])
      {
        var fits := WriteWithLength(c, xs[i]);
        if !fits {
          return false, i;
        }
        FramesSnoc(c, xs, i);
      }
      assert xs[..|xs|] == xs;
      return true, |xs|;
    }

    /** `load_stream`, run to its end: the objects yielded, and what ended it. */
    method LoadStream<T>(c: Codec<T>) returns (r: Loaded<T>)
      modifies this
      ensures r == LoadAll(c, old(data))
    {
      hide ReadFrame;
      var items: seq<T> := [];
      while true
        invariant LoadAll(c, old(data)) == Loaded(items + LoadAll(c, data).items, LoadAll(c, data).end)
        decreases |data|
      {
        ghost var before := data;
        var x := ReadWithLength(c);
        if x.Err? {
          return Loaded(items, x.error);
        }
        items := items + [x.value];
      }
    }
  }

  // ---------- Frames as byte sequences ----------

  function Frame(payload: seq<Byte>): seq<Byte>
    requires |payload| < INT_LIMIT
  {
    PackInt(|payload|, true) + payload
  }

  function FrameList<T>(c: Codec<T>, xs: seq<T>): (r: seq<seq<Byte>>)
    requires Fits(c, xs)
    ensures |r| == |xs|
  {
    seq(|xs|, i requires 0 <= i < |xs| => Frame(c.dumps(xs[i])))
  }

  function Frames<T>(c: Codec<T>, xs: seq<T>): seq<Byte>
    requires Fits(c, xs)
  {
    Flatten(FrameList(c, xs))
  }

  lemma NoFrames<T>(c: Codec<T>, xs: seq<T>)
    requires xs == []
    ensures Frames(c, xs) == []
  {
  }

  lemma FramesCons<T>(c: Codec<T>, xs: seq<T>)
    requires xs != [] && Fits(c, xs)
    ensures Frames(c, xs) == Frame(c.dumps(xs[0])) + Frames(c, xs[1..])
  {
    hide Frame;
    assert FrameList(c, xs)[1..] == FrameList(c, xs[1..]);
  }

  lemma FramesSnoc<T>(c: Codec<T>, xs: seq<T>, i: nat)
    requires i < |xs| && Fits(c, xs[..i]) && |c.dumps(xs[i])| < INT_LIMIT
    ensures Fits(c, xs[..i + 1])
    ensures Frames(c, xs[..i + 1]) == Frames(c, xs[..i]) + Frame(c.dumps(xs[i]))
  {
    hide Frame;
    assert forall j :: 0 <= j < i ==> xs[..i + 1][j] == xs[..i][j];
    var last := Frame(c.dumps(xs[i]));
    assert FrameList(c, xs[..i + 1]) == FrameList(c, xs[..i]) + [last];
    FlattenConcat(FrameList(c, xs[..i]), [last]);
    FlattenOne(last);
  }

  datatype ReadResult<+T> = Item(x: T, rest: seq<Byte>) | Stop(end: End)

  /** One frame off the front. An empty payload reads as the end of the stream, and a negative
      length swallows the rest of it. */
  function ReadFrame<T>(c: Codec<T>, data: seq<Byte>): (r: ReadResult<T>)
    ensures r.Item? ==> |r.rest| < |data|
  {
    if data == [] then Stop(Eof)
    else if |data| < 4 then Stop(StructError)
    else
      var payload := ReadBytes(data[4..], UnpackInt(data[..4], true));
      if payload == [] then Stop(Eof)
      else match c.loads(payload)
        case Err(end) => Stop(end)
        case Ok(x) => Item(x, data[4..][|payload|..])
  }

  datatype Loaded<+T> = Loaded(items: seq<T>, end: End)

  function LoadAll<T>(c: Codec<T>, data: seq<Byte>): Loaded<T>
    decreases |data|
  {
    match ReadFrame(c, data)
    case Stop(end) => Loaded([], end)
    case Item(x, rest) =>
      var more := LoadAll(c, rest);
      Loaded([x] + more.items, more.end)
  }

  /** A frame written out: the payload's length, most significant byte first, and the payload. */
  lemma FrameBytes(payload: seq<Byte>)
    requires |payload| < INT_LIMIT
    ensures var f := Frame(payload);
      && |f| == 4 + |payload| && f[4..] == payload
      && 0x100_0000 * (f[0] as int) + 0x1_0000 * (f[1] as int) + 0x100 * (f[2] as int) + (f[3] as int) == |payload|
  {
    PackIntDigits(|payload|);
    hide PackInt;
    assert forall i :: 0 <= i < 4 ==> Frame(payload)[i] == PackInt(|payload|, true)[i];
  }

  /** A negative length swallows the rest of the stream. */
  lemma NegativeLength<T>(c: Codec<T>, data: seq<Byte>)
    requires |data| > 4 && data[0] >= 0x80
    ensures ReadFrame(c, data) == match c.loads(data[4..]) case Err(end) => Stop(end) case Ok(x) => Item(x, [])
  {
    assert data[..4][0] == data[0];
  }

  lemma ReadFrameOf<T(!new)>(c: Codec<T>, x: T, tail: seq<Byte>)
    requires Faithful(c) && |c.dumps(x)| < INT_LIMIT
    ensures ReadFrame(c, Frame(c.dumps(x)) + tail) == if c.dumps(x) == [] then Stop(Eof) else Item(x, tail)
  {
    hide PackInt, UnpackInt;
    var payload := c.dumps(x);
    var data := Frame(payload) + tail;
    UnpackPack(|payload|, true);
    assert data[..4] == PackInt(|payload|, true);
    assert data[4..] == payload + tail;
    assert (payload + tail)[..|payload|] == payload;
    assert (payload + tail)[|payload|..] == tail;
  }

  /** The objects before the first one with an empty payload. */
  function UntilEmpty<T>(c: Codec<T>, xs: seq<T>): (r: seq<T>)
    ensures r <= xs
    ensures r == xs <==> forall i :: 0 <= i < |xs| ==> c.dumps(xs[i]) != []
  {
    if xs == [] || c.dumps(xs[0]) == [] then [] else [xs[0]] + UntilEmpty(c, xs[1..])
  }

  /** Main result: reading back what was written yields the objects before the first empty payload,
      ending cleanly; so the round trip is exact if and only if no payload is empty. */
  lemma {:induction false} StreamRoundTrip<T(!new)>(c: Codec<T>, xs: seq<T>)
    requires Faithful(c) && Fits(c, xs)
    ensures LoadAll(c, Frames(c, xs)) == Loaded(UntilEmpty(c, xs), Eof)
    ensures LoadAll(c, Frames(c, xs)).items == xs <==> forall i :: 0 <= i < |xs| ==> c.dumps(xs[i]) != []
  {
    if xs != [] {
      FramesCons(c, xs);
      ReadFrameOf(c, xs[0], Frames(c, xs[1..]));
      StreamRoundTrip(c, xs[1..]);
    }
  }

  lemma LoadCutOff<T>(c: Codec<T>, x: T, k: nat)
    requires 0 < k < |c.dumps(x)| < INT_LIMIT && c.loads(c.dumps(x)[..k]).Err?
    ensures LoadAll(c, Frame(c.dumps(x))[..4 + k]) == Loaded([], c.loads(c.dumps(x)[..k]).error)
  {
    hide PackInt, UnpackInt;
    var tail := Frame(c.dumps(x))[..4 + k];
    UnpackPack(|c.dumps(x)|, true);
    assert tail[..4] == PackInt(|c.dumps(x)|, true);
    assert tail[4..] == c.dumps(x)[..k];
  }

  /** Reading goes through the frames of xs to whatever follows them. */
  lemma {:induction false} LoadThrough<T(!new)>(c: Codec<T>, xs: seq<T>, tail: seq<Byte>)
    requires Faithful(c) && Fits(c, xs) && forall i :: 0 <= i < |xs| ==> c.dumps(xs[i]) != []
    ensures LoadAll(c, Frames(c, xs) + tail) == Loaded(xs + LoadAll(c, tail).items, LoadAll(c, tail).end)
  {
    hide Frame, Frames, LoadAll, Faithful;
    if xs == [] {
      NoFrames(c, xs);
      assert Frames(c, xs) + tail == tail;
      assert xs + LoadAll(c, tail).items == LoadAll(c, tail).items;
    } else {
      FramesCons(c, xs);
      LoadThrough(c, xs[1..], tail);
      var first, rest := Frame(c.dumps(xs[0])), Frames(c, xs[1..]);
      assert (first + rest) + tail == first + (rest + tail);
      LoadPast(c, xs[0], rest + tail);
      assert [xs[0]] + (xs[1..] + LoadAll(c, tail).items) == xs + LoadAll(c, tail).items;
    }
  }

  /** A stream that breaks off inside the payload of x yields what came before; it ends cleanly,
      as if x had never been written, exactly when `loads` meets the cut-off payload with EOFError. */
  lemma CutOffPayload<T(!new)>(c: Codec<T>, xs: seq<T>, x: T, k: nat)
    requires Faithful(c) && Fits(c, xs) && forall i :: 0 <= i < |xs| ==> c.dumps(xs[i]) != []
    requires 0 < k < |c.dumps(x)| < INT_LIMIT && c.loads(c.dumps(x)[..k]).Err?
    ensures LoadAll(c, Frames(c, xs) + Frame(c.dumps(x))[..4 + k]) == Loaded(xs, c.loads(c.dumps(x)[..k]).error)
  {
    var tail := Frame(c.dumps(x))[..4 + k];
    hide Frame, Frames, LoadAll, Faithful;
    LoadThrough(c, xs, tail);
    LoadCutOff(c, x, k);
    assert xs + [] == xs;
  }

  lemma LoadPast<T(!new)>(c: Codec<T>, x: T, rest: seq<Byte>)
    requires Faithful(c) && 0 < |c.dumps(x)| < INT_LIMIT
    ensures LoadAll(c, Frame(c.dumps(x)) + rest) == Loaded([x] + LoadAll(c, rest).items, LoadAll(c, rest).end)
  {
    hide Frame, ReadFrame;
    ReadFrameOf(c, x, rest);
  }

  // ---------- Batching ----------

  const UNLIMITED_BATCH_SIZE := -1

  /** What `_batched` yields: full batches and a shorter, non-empty last one; everything at once for
      an unlimited size; and for any other size below 1, one batch unless there is nothing. */
  ghost predicate IsBatched<T>(xs: seq<T>, size: int, out: seq<seq<T>>)
  {
    && Flatten(out) == xs
    && (size == UNLIMITED_BATCH_SIZE ==> |out| == 1)
    && (size != UNLIMITED_BATCH_SIZE ==> forall i :: 0 <= i < |out| ==> out[i] != [])
    && (size != UNLIMITED_BATCH_SIZE && size < 1 ==> |out| <= 1)
    && (size >= 1 ==> forall i :: 0 <= i < |out| ==> if i < |out| - 1 then |out[i]| == size else |out[i]| <= size)
  }

  method Batched<T>(xs: seq<T>, batchSize: int) returns (out: seq<seq<T>>)
    ensures IsBatched(xs, batchSize, out)
  {
    if batchSize == UNLIMITED_BATCH_SIZE {
      FlattenOne(xs);
      return [xs];
    }
    out := [];
    var items: seq<T> := [];
    var count := 0;
    for i := 0 to |xs|
      invariant count == |items| && Flatten(out) + items == xs[..i]
      invariant batchSize >= 1 ==> count < batchSize
      invariant batchSize < 1 ==> out == []
      invariant forall j :: 0 <= j < |out| ==> |out[j]| == batchSize
    {
      assert xs[..i + 1] == xs[..i] + [xs[i]];
      items := items + [xs[i]];
      count := count + 1;
      if count == batchSize {
        FlattenConcat(out, [items]);
        FlattenOne(items);
        out := out + [items];
        items := [];
        count := 0;
      }
    }
    assert xs[..|xs|] == xs;
    if items != [] {
      FlattenConcat(out, [items]);
      FlattenOne(items);
      out := out + [items];
    }
  }

  lemma {:induction false} BatchCount<T>(out: seq<seq<T>>, size: nat)
    requires forall i :: 0 <= i < |out| ==> |out[i]| <= size
    ensures |Flatten(out)| <= |out| * size
  {
    if out != [] {
      BatchCount(out[1..], size);
      assert |out| * size == (|out| - 1) * size + size;
    }
  }

  /** A batched stream unbatches to the objects that went in, provided their pickled batches are
      non-empty (as every pickled list is). */
  lemma BatchedRoundTrip<T(!new)>(c: Codec<seq<T>>, xs: seq<T>, size: int, batches: seq<seq<T>>)
    requires Faithful(c) && IsBatched(xs, size, batches) && Fits(c, batches)
    requires forall i :: 0 <= i < |batches| ==> c.dumps(batches[i]) != []
    ensures Flatten(LoadAll(c, Frames(c, batches)).items) == xs
    ensures LoadAll(c, Frames(c, batches)).end == Eof
  {
    StreamRoundTrip(c, batches);
  }

  /** `parallelize`'s choice of batch size; sizes up to 1 mean no batching. */
  function ChosenBatchSize(length: nat, numSlices: nat, contextBatchSize: int): int
    requires numSlices >= 1
  {
    if length / numSlices < contextBatchSize then length / numSlices else contextBatchSize
  }

  lemma {:induction false} FlattenSingles<T>(xs: seq<T>)
    ensures Flatten(Map(One, xs)) == xs
  {
    if xs != [] {
      FlattenSingles(xs[1..]);
      assert Map(One, xs)[1..] == Map(One, xs[1..]);
    }
  }

  /** The frames `parallelize` writes, each as the list of its objects. */
  method ParallelizeFrames<T>(xs: seq<T>, numSlices: nat, contextBatchSize: int) returns (frames: seq<seq<T>>)
    requires numSlices >= 1
    ensures Flatten(frames) == xs
    ensures |xs| >= numSlices ==> |frames| >= numSlices
    ensures |xs| < numSlices ==> |frames| == |xs|
    ensures var size := Least(|xs| / numSlices, contextBatchSize);
      && (size <= 1 ==> forall i :: 0 <= i < |frames| ==> |frames[i]| == 1)
      && (size > 1 ==> forall i :: 0 <= i < |frames| ==> if i < |frames| - 1 then |frames[i]| == size else 0 < |frames[i]| <= size)
  {
    var batchSize := ChosenBatchSize(|xs|, numSlices, contextBatchSize);
    if batchSize > 1 {
      frames := Batched(xs, batchSize);
      BatchCount(frames, batchSize);
      EnoughFrames(|xs|, numSlices, batchSize, |frames|);
    } else {
      frames := Map(One, xs);
      FlattenSingles(xs);
    }
  }

  lemma MulLess(a: nat, b: nat, c: nat)
    requires a < b && c >= 1
    ensures a * c < b * c
  {
  }

  lemma EnoughFrames(length: nat, numSlices: nat, size: nat, frames: nat)
    requires numSlices >= 1 && size >= 1 && size <= length / numSlices && length <= frames * size
    ensures length >= numSlices && frames >= numSlices
  {
    assert length >= numSlices * (length / numSlices);
    assert numSlices * (length / numSlices) >= numSlices * size;
    if frames < numSlices {
      MulLess(frames, numSlices, size);
    }
  }
}
