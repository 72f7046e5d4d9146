// When the device stays inside its two 512-byte buffers, for any input and for the driver's.
module Bounds {
  import opened Bytes
  import opened Codec
  import opened Line
  import opened Protocol
  import opened Host
  import opened Session
  import opened ServerTask

  // --------------------------------------------------------------- any input

  /** The number of bytes of the command that input starts with, as its bytes say. */
  function CommandLength(input: seq<byte>): (n: nat)
    requires input != []
    ensures n > 0
  {
    if input[0] == LPTS_READ_BLOCK then 6
    else if input[0] == LPTS_WRITE_BLOCK then
      if |input| < 6 then 6 else if PackedSize(input) == 0 then 518 else 6 + PackedSize(input)
    else if input[0] == LPTS_QUERY_DISK_CAPS then 2
    else 1
  }

  function PackedSize(input: seq<byte>): nat
    requires |input| >= 6
  {
    Word16(input[2], input[3])
  }

  /** What must not arrive: a read of a sector whose compression passes 512 cells, byte 513 of a
      packed write, or a complete packed write that decodes to more than 512 bytes. */
  predicate CommandFits<D>(be: Backend<D>, disk: D, input: seq<byte>)
    requires input != []
  {
    |input| < 6 ||
    if input[0] == LPTS_READ_BLOCK then ReadFits(be, disk, input)
    else input[0] == LPTS_WRITE_BLOCK ==> PayloadFits(input)
  }

  predicate ReadFits<D>(be: Backend<D>, disk: D, input: seq<byte>)
    requires |input| >= 6
  {
    var (_, status, x) := be.read(disk, input[1], PackedSize(input) * 0x1_0000 + Word16(input[4], input[5]));
    status == 0 ==> !WritesCell512(x)
  }

  predicate PayloadFits(input: seq<byte>)
    requires |input| >= 6
  {
    var size := PackedSize(input);
    && (size <= 512 || |input| <= 6 + 512)
    && (0 < size && 6 + size <= |input| ==> |Decode(input[6..6 + size], 0, []).bytes| <= 512)
  }

  predicate CommandsFit<D>(be: Backend<D>, dev: Device<D>, input: seq<byte>)
    decreases |input|
  {
    input == [] ||
    (CommandFits(be, dev.disk, input) &&
     var n := CommandLength(input);
     n < |input| ==> CommandsFit(be, FeedAll(be, dev, input[..n]).dev, input[n..]))
  }

  lemma HeaderBytes(buff: Sector, input: seq<byte>)
    requires |input| >= 6
    ensures var b := Fill(buff, 0, input[1..6]);
            && b[0] == input[1]
            && Word16(b[1], b[2]) == PackedSize(input) && Word16(b[3], b[4]) == Word16(input[4], input[5])
            && Word32(b) == PackedSize(input) * 0x1_0000 + Word16(input[4], input[5])
  {
  }

  lemma Leaves<D>(be: Backend<D>, dev: Device<D>, input: seq<byte>, n: nat)
    requires n <= |input| && FeedAll(be, dev, input[..n]).dev.phase == Undefined
    ensures !InBounds(be, dev, input)
  {
    if InBounds(be, dev, input) { NeverOutside(be, dev, input, n); }
  }

  /** The first command of input: at a boundary after it, in the middle of it, or out of bounds. */
  ghost predicate FirstCommand<D>(be: Backend<D>, dev: Device<D>, input: seq<byte>)
    requires input != []
  {
    var n := CommandLength(input);
    if CommandFits(be, dev.disk, input) then
      if n <= |input| then AtBoundary(FeedAll(be, dev, input[..n]).dev) else InBounds(be, dev, input)
    else !InBounds(be, dev, input)
  }

  lemma FirstRead<D>(be: Backend<D>, dev: Device<D>, input: seq<byte>)
    requires AtBoundary(dev) && input != [] && input[0] == LPTS_READ_BLOCK
    ensures FirstCommand(be, dev, input)
  {
    if |input| < 6 {
      ReadHeaderFed(be, dev, input, |input|);
      assert input[..|input|] == input;
    } else {
      HeaderBytes(dev.buff, input);
      ReadHeaderEnds(be, dev, input[..6]);
      assert input[..6][1..] == input[1..6];
      if !CommandFits(be, dev.disk, input) { Leaves(be, dev, input, 6); }
    }
  }

  lemma FirstWrite<D>(be: Backend<D>, dev: Device<D>, input: seq<byte>)
    requires AtBoundary(dev) && input != [] && input[0] == LPTS_WRITE_BLOCK
    ensures FirstCommand(be, dev, input)
  {
    if |input| < 6 {
      WriteHeaderFed(be, dev, input, |input|);
      assert input[..|input|] == input;
    } else {
      var d := HeaderDone(dev, input);
      HeaderBytes(dev.buff, input);
      WriteHeadCommand(be, dev, input);
      var size := PackedSize(input);
      if size == 0 {
        FirstRaw(be, dev, input, d);
      } else {
        FirstPacked(be, dev, input, d, size);
      }
    }
  }

  /** After the header the rest of the input is all there is to look at. */
  lemma FirstRaw<D>(be: Backend<D>, dev: Device<D>, input: seq<byte>, d: Device<D>)
    requires |input| >= 6 && input[0] == LPTS_WRITE_BLOCK && PackedSize(input) == 0
    requires FeedAll(be, dev, input[..6]) == Reaction(d, [])
    requires d.phase == RawData(input[1], Word16(input[4], input[5]), 0)
    ensures FirstCommand(be, dev, input)
  {
    var drv, lba, rest := input[1], Word16(input[4], input[5]), input[6..];
    if |input| < 518 {
      FeedTail(be, dev, input, 6);
      FeedRaw(be, drv, lba, d.buff, d.disk, rest);
    } else {
      assert input[..518][..6] == input[..6] && input[..518][6..] == rest[..512];
      FeedTail(be, dev, input[..518], 6);
      RawExchange(be, d, drv, lba, rest[..512]);
    }
  }

  lemma FirstPacked<D>(be: Backend<D>, dev: Device<D>, input: seq<byte>, d: Device<D>, size: nat)
    requires |input| >= 6 && input[0] == LPTS_WRITE_BLOCK && 0 < size == PackedSize(input)
    requires FeedAll(be, dev, input[..6]) == Reaction(d, [])
    requires d.phase == PackedData(input[1], Word16(input[4], input[5]), size, [])
    ensures FirstCommand(be, dev, input)
  {
    var drv, lba, rest := input[1], Word16(input[4], input[5]), input[6..];
    if size > 512 && |rest| > 512 {
      var cut := input[..6 + 513];
      assert cut[..6] == input[..6];
      FeedTail(be, dev, cut, 6);
      PackedOverflows(be, drv, lba, size, d.buff, d.disk, cut[6..]);
      Leaves(be, dev, input, 6 + 513);
    } else if |rest| < size {
      FeedTail(be, dev, input, 6);
      FeedPacked(be, drv, lba, size, d.buff, d.disk, rest);
    } else {
      var n, e := 6 + size, input[6..6 + size];
      assert input[..n][..6] == input[..6] && input[..n][6..] == e;
      FeedTail(be, dev, input[..n], 6);
      PackedEnds(be, d, drv, lba, e);
      if !CommandFits(be, dev.disk, input) { Leaves(be, dev, input, n); }
    }
  }

  lemma FirstOther<D>(be: Backend<D>, dev: Device<D>, input: seq<byte>)
    requires AtBoundary(dev) && input != [] && input[0] != LPTS_READ_BLOCK && input[0] != LPTS_WRITE_BLOCK
    ensures FirstCommand(be, dev, input)
  {
    FeedNext(be, dev, input, 0);
    if input[0] == LPTS_QUERY_DISK_CAPS {
      if |input| == 1 {
        assert input[..1] == input;
      } else {
        FeedNext(be, dev, input, 1);
      }
    }
  }

  lemma FirstCommandFits<D>(be: Backend<D>, dev: Device<D>, input: seq<byte>)
    requires AtBoundary(dev) && input != []
    ensures FirstCommand(be, dev, input)
  {
    if input[0] == LPTS_READ_BLOCK {
      FirstRead(be, dev, input);
    } else if input[0] == LPTS_WRITE_BLOCK {
      FirstWrite(be, dev, input);
    } else {
      FirstOther(be, dev, input);
    }
  }

  /**
    Whatever is sent to it, the device stays inside its buffers if and only if every sector read
    compresses inside 512 cells, at most 512 data bytes arrive for any packed write, and every
    complete one decodes to at most 512.
   */
  lemma {:induction false} StaysInsideIff<D>(be: Backend<D>, dev: Device<D>, input: seq<byte>)
    requires AtBoundary(dev)
    ensures InBounds(be, dev, input) <==> CommandsFit(be, dev, input)
    decreases |input|
  {
    hide Fold, CommandFits;
    if input == [] {
      StartsInBounds(be, dev);
    } else {
      FirstCommandFits(be, dev, input);
      var n := CommandLength(input);
      if CommandFits(be, dev.disk, input) && n <= |input| {
        var d, rest := FeedAll(be, dev, input[..n]).dev, input[n..];
        assert input == input[..n] + rest;
        FeedAllSplits(be, dev, input[..n], rest);
        StaysInsideIff(be, d, rest);
      }
    }
  }

  lemma StartsInBounds<D>(be: Backend<D>, dev: Device<D>)
    requires AtBoundary(dev)
    ensures InBounds(be, dev, [])
  {
  }

  // ---------------------------------------------------------- the three ways out

  /** Reading a sector 00 01 00 01 ... from a disk that holds one. */
  lemma ReadRunsOut(buff: Sector)
    ensures var d := Plain(map[(0, 0) := Pairs(256)], {});
            !InBounds(PlainBackend(), Device(Idle, buff, d), ReadRequest(0, 0))
  {
    var d := Plain(map[(0, 0) := Pairs(256)], {});
    AlternatingSectorWritesCell512();
    assert PlainBackend().read(d, 0, 0) == PlainGet(d, 0, 0);
    assert !ReadFits(PlainBackend(), d, ReadRequest(0, 0));
    StaysInsideIff(PlainBackend(), Device(Idle, buff, d), ReadRequest(0, 0));
  }

  /** A packed write announced with 513 bytes, on any disk: the header alone does no harm, nor do
      512 bytes of data, whatever they are; the 513th is too much. */
  lemma BigPackedWriteRunsOut<D>(be: Backend<D>, buff: Sector, d: D, data: seq<byte>)
    ensures InBounds(be, Device(Idle, buff, d), [LPTS_WRITE_BLOCK, 0, 2, 1, 0, 0] + data) <==> |data| <= 512
  {
    var input: seq<byte> := [LPTS_WRITE_BLOCK, 0, 2, 1, 0, 0] + data;
    assert PackedSize(input) == 513;
    if |data| <= 512 {
      assert CommandsFit(be, Device(Idle, buff, d), input);
    }
    StaysInsideIff(be, Device(Idle, buff, d), input);
  }

  /** A packed write of five bytes: two runs of 256 zeros, and one more byte. */
  lemma LongPackedWriteRunsOut<D>(be: Backend<D>, buff: Sector, d: D)
    ensures !InBounds(be, Device(Idle, buff, d), [LPTS_WRITE_BLOCK, 0, 0, 5, 0, 0, 0, 255, 0, 255, 1])
  {
    var input: seq<byte> := [LPTS_WRITE_BLOCK, 0, 0, 5, 0, 0, 0, 255, 0, 255, 1];
    var e: seq<byte> := [0, 255, 0, 255, 1];
    assert input[6..11] == e && PackedSize(input) == 5;
    LongPayload(e);
    StaysInsideIff(be, Device(Idle, buff, d), input);
  }

  lemma LongPayload(e: seq<byte>)
    requires e == [0, 255, 0, 255, 1]
    ensures |Decode(e, 0, []).bytes| == 513
  {
    var one := [] + Zeros(256);
    var two := one + Zeros(256);
    assert Decode(e, 0, []) == Decode(e, 1, [] + []) == Decode(e, 1, []);
    assert Decode(e, 1, []) == Decode(e, 2, one);
    assert one + [] == one;
    assert Decode(e, 2, one) == Decode(e, 3, one);
    assert Decode(e, 3, one) == Decode(e, 4, two);
    assert Decode(e, 4, two) == Decode(e, 5, two + [1]);
  }

  // ------------------------------------------------------------ the driver's input

  lemma FittingMore(x: Sector, xs: seq<Sector>)
    ensures Fitting([x] + xs) <==> !WritesCell512(x) && Fitting(xs)
  {
    hide WritesCell512;
    assert x in [x] + xs && forall y :: y in xs ==> y in [x] + xs;
  }

  lemma FeedParts<D>(be: Backend<D>, dev: Device<D>, a: seq<byte>, b: seq<byte>)
    ensures FeedAll(be, dev, a + b).dev == FeedAll(be, FeedAll(be, dev, a).dev, b).dev
    ensures FeedAll(be, dev, a).dev.phase == Undefined ==> FeedAll(be, dev, a + b).dev.phase == Undefined
  {
    FeedAllSplits(be, dev, a, b);
    if FeedAll(be, dev, a).dev.phase == Undefined { UndefinedStays(be, FeedAll(be, dev, a).dev, b); }
  }

  /** What a read does to the device: the disk as read directly, or out of bounds. */
  lemma {:induction false} ReadTalkBounds<D>(be: Backend<D>, dev: Device<D>, unit: nat, lbn: nat, count: nat)
    requires AtBoundary(dev) && lbn < 0x1_0000
    ensures var r := DirectRead(be, dev.disk, unit, lbn, count);
            var d := FeedAll(be, dev, ReadTalk(be, dev.disk, unit, lbn, count)).dev;
            if Fitting(r.blocks) then AtBoundary(d) && d.disk == r.disk else d.phase == Undefined
    decreases count
  {
    hide Fold, WritesCell512, Fitting, ReadRequest, ReadReply;
    if count == 0 {
      NothingRead(be, dev);
    } else {
      var (d1, status, x) := be.read(dev.disk, unit % 256, lbn);
      var q := ReadRequest(unit, lbn);
      var rest := if status != 0 then [] else ReadTalk(be, d1, unit, NextBlock(lbn), count - 1);
      ReadExchange(be, dev, unit, lbn);
      FeedParts(be, dev, q, rest);
      if status != 0 {
        NothingRead(be, FeedAll(be, dev, q).dev);
      } else {
        FittingMore(x, DirectRead(be, d1, unit, NextBlock(lbn), count - 1).blocks);
        if !WritesCell512(x) {
          ReadTalkBounds(be, FeedAll(be, dev, q).dev, unit, NextBlock(lbn), count - 1);
        }
      }
    }
  }

  lemma NothingRead<D>(be: Backend<D>, dev: Device<D>)
    ensures FeedAll(be, dev, []).dev == dev && Fitting([])
  {
  }

  lemma {:induction false} WriteTalkBounds<D>(be: Backend<D>, dev: Device<D>, unit: nat, lbn: nat, xs: seq<Sector>)
    requires AtBoundary(dev) && lbn < 0x1_0000
    ensures var d := FeedAll(be, dev, WriteTalk(be, dev.disk, unit, lbn, xs)).dev;
            AtBoundary(d) && d.disk == DirectWrite(be, dev.disk, unit, lbn, xs).disk
    decreases |xs|
  {
    hide Fold, WriteRequest;
    if xs == [] {
      NothingRead(be, dev);
    } else {
      var (d1, status) := be.write(dev.disk, unit % 256, lbn, xs[0]);
      var q := WriteRequest(unit, lbn, xs[0]);
      var rest := if status != 0 then [] else WriteTalk(be, d1, unit, NextBlock(lbn), xs[1..]);
      WriteExchange(be, dev, unit, lbn, xs[0]);
      FeedParts(be, dev, q, rest);
      if status != 0 {
        NothingRead(be, FeedAll(be, dev, q).dev);
      } else {
        WriteTalkBounds(be, FeedAll(be, dev, q).dev, unit, NextBlock(lbn), xs[1..]);
      }
    }
  }

  lemma CallTalkBounds<D>(be: Backend<D>, dev: Device<D>, q: Request)
    requires AtBoundary(dev) && q.Valid()
    ensures var d := FeedAll(be, dev, CallTalk(be, dev.disk, q)).dev;
            if SafeCall(be, dev.disk, q) then AtBoundary(d) && d.disk == DirectCall(be, dev.disk, q).disk
            else d.phase == Undefined
  {
    hide Fold, Fitting, ReadTalk, WriteTalk;
    match q
    case ReadBlocks(unit, lbn, count) => ReadTalkBounds(be, dev, unit, lbn, count);
    case WriteBlocks(unit, lbn, blocks) => WriteTalkBounds(be, dev, unit, lbn, blocks);
  }

  /**
    For what the driver sends only the first condition remains: the device stays inside its buffers
    if and only if every block the session reads is one it can compress there.
   */
  lemma {:induction false} DriverStaysInsideIff<D>(be: Backend<D>, dev: Device<D>, qs: seq<Request>)
    requires AtBoundary(dev) && forall q :: q in qs ==> q.Valid()
    ensures InBounds(be, dev, SessionTalk(be, dev.disk, qs)) <==> SafeSession(be, dev.disk, qs)
    decreases |qs|
  {
    hide Fold, CallTalk, SafeCall, DirectCall;
    if qs == [] {
      StartsInBounds(be, dev);
    } else {
      CallTalkBounds(be, dev, qs[0]);
      var said, d1 := CallTalk(be, dev.disk, qs[0]), DirectCall(be, dev.disk, qs[0]).disk;
      FeedParts(be, dev, said, SessionTalk(be, d1, qs[1..]));
      if SafeCall(be, dev.disk, qs[0]) {
        DriverStaysInsideIff(be, FeedAll(be, dev, said).dev, qs[1..]);
      }
    }
  }
}
