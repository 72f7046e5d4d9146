// The DOS driver's LPTRead and LPTWrite (dos/SDPP10/LPTSTORE.C) talking to the device's server.
module Host {
  import opened Bytes
  import opened Codec
  import opened Line
  import opened Protocol

  /** Between commands: the server waits for one and the host has read everything. */
  ghost predicate Ready<D>(be: Backend<D>, link: Link<Device<D>>)
    reads link
  {
    link.step == Server(be) && link.Valid() && AtBoundary(link.dev) && link.pending == []
  }

  /** The six write_byte calls at the head of every exchange. */
  method WriteHeader<S>(link: Link<S>, cmd: byte, unit: nat, third: byte, fourth: byte, lbn: nat,
                        ghost x: Talk<S>, ghost r: seq<byte>)
    requires link.Valid() && link.Sending(x, r, 0) && |r| >= 6
    requires r[..6] == [cmd, unit % 256, third, fourth, lbn / 256 % 256, lbn % 256]
    modifies link
    ensures link.Valid() && link.Sending(x, r, 6)
  {
    hide Accounted, Silent;
    ghost var h := r[..6];
    assert r[0] == h[0] && r[1] == h[1] && r[2] == h[2] && r[3] == h[3] && r[4] == h[4] && r[5] == h[5];
    link.WriteNext(cmd, x, r, 0);
    link.WriteNext(unit % 256, x, r, 1);
    link.WriteNext(third, x, r, 2);
    link.WriteNext(fourth, x, r, 3);
    link.WriteNext(lbn / 256 % 256, x, r, 4);
    link.WriteNext(lbn % 256, x, r, 5);
  }

  /** What has just been sent is all of request r, and what waits is the machine's answer. */
  lemma Answered<S>(step: Machine<S>, start: S, t: Talk<S>, dev: S, pending: seq<byte>, r: seq<byte>)
    requires Accounted(step, start, t, dev, pending) && t.sent == r && t.received == []
    ensures Fold(step, t.mark, r) == Reaction(dev, pending)
  {
    assert [] + pending == pending;
  }

  lemma ReplyParts(x: Sector)
    ensures var r, c := ReadReply(x), CompressedSize(x);
            if c == 0 then r[0] == 0 && r[1..] == x
            else r[0] == 2 && Word16(r[1], r[2]) == c == |Encode(x)| && r[3..] == Encode(x)
  {
  }

  function Patch(b: seq<byte>, at: nat, x: Sector): seq<byte>
    requires at + 512 <= |b|
  {
    b[..at] + x + b[at + 512..]
  }

  lemma Patched(before: seq<byte>, b: seq<byte>, at: nat, x: Sector)
    requires |b| == |before| && at + 512 <= |b| && b[at..at + 512] == x
    requires forall k :: 0 <= k < |b| && !(at <= k < at + 512) ==> b[k] == before[k]
    ensures b == Patch(before, at, x)
  {
    assert b == b[..at] + b[at..at + 512] + b[at + 512..];
  }

  /** The compressed branch: two size bytes, the packed bytes, then LPTDecompress. */
  method ReceivePacked<S>(link: Link<S>, buffer: array<byte>, at: nat, compressBuff: array<byte>, ghost x: Sector)
    requires link.Valid() && CompressedSize(x) != 0 && link.pending == ReadReply(x)[1..]
    requires buffer != compressBuff && compressBuff.Length == 1024 && at + 512 <= buffer.Length
    modifies link`pending, link`talk, buffer, compressBuff
    ensures link.Valid() && link.pending == [] && link.talk.Heard() == old(link.talk.Heard())
    ensures buffer[..] == Patch(old(buffer[..]), at, x)
  {
    hide Accounted, Encode, Decode;
    ghost var p := link.pending;
    ReplyParts(x);
    var hi := link.ReadByte();
    var lo := link.ReadByte();
    assert link.pending == p[2..] == Encode(x);
    var c := Word16(hi, lo);
    link.ReadBytes(compressBuff, 0, c);
    assert compressBuff[..c] == compressBuff[0..0 + c] == Encode(x);
    SectorRoundTrip(x);
    var r := Decompress(buffer, at, compressBuff, c);
    Patched(old(buffer[..]), buffer[..], at, x);
  }

  /** The reading half of LPTRead for one block: raw, compressed or error reply. */
  method ReceiveBlock<S>(link: Link<S>, buffer: array<byte>, at: nat, compressBuff: array<byte>,
                         ghost status: byte, ghost x: Sector)
    returns (ok: bool)
    requires link.Valid() && link.pending == if status == 0 then ReadReply(x) else [1]
    requires buffer != compressBuff && compressBuff.Length == 1024 && at + 512 <= buffer.Length
    modifies link`pending, link`talk, buffer, compressBuff
    ensures link.Valid() && link.pending == [] && link.talk.Heard() == old(link.talk.Heard())
    ensures ok <==> status == 0
    ensures buffer[..] == if ok then Patch(old(buffer[..]), at, x) else old(buffer[..])
  {
    hide Accounted;
    ReplyParts(x);
    var result := link.ReadByte();
    ok := true;
    if result == 0x00 {
      link.ReadBytes(buffer, at, 512);
      assert x[..512] == x;
      Patched(old(buffer[..]), buffer[..], at, x);
    } else if result == 0x02 {
      ReceivePacked(link, buffer, at, compressBuff, x);
    } else {
      ok := false;
    }
  }

  /** The six bytes that open an exchange, and the size of packed data, in numbers. */
  lemma RequestsInNumbers(unit: nat, lbn: nat, x: Sector)
    requires unit < 256 && lbn < 65536
    ensures ReadRequest(unit, lbn) == [3, unit, 0, 0, lbn / 256, lbn % 256]
    ensures WriteRequest(unit, lbn, x) ==
              var n := |Encode(x)|;
              if n < 512 then [4, unit, n / 256, n % 256, lbn / 256, lbn % 256] + Encode(x)
              else [4, unit, 0, 0, lbn / 256, lbn % 256] + x
  {
    hide Encode;
  }

  // ------------------------------------------------------- direct disk access

  /** The 16-bit successor of a block number. */
  function NextBlock(lbn: nat): nat {
    (lbn + 1) % 0x1_0000
  }

  datatype Reads<D> = Reads(disk: D, blocks: seq<Sector>, ok: bool)

  /** Reading count blocks straight from the disk, up to the first failure. The block number
      is a 16-bit word, the unit goes out as one byte. */
  function DirectRead<D>(be: Backend<D>, d: D, unit: nat, lbn: nat, count: nat): Reads<D>
    decreases count
  {
    if count == 0 then Reads(d, [], true)
    else
      var (d1, status, x) := be.read(d, unit % 256, lbn);
      if status != 0 then Reads(d1, [], false)
      else
        var r := DirectRead(be, d1, unit, NextBlock(lbn), count - 1);
        Reads(r.disk, [x] + r.blocks, r.ok)
  }

  datatype Writes<D> = Writes(disk: D, ok: bool)

  /** Writing the blocks straight to the disk, up to the first failure. */
  function DirectWrite<D>(be: Backend<D>, d: D, unit: nat, lbn: nat, blocks: seq<Sector>): Writes<D>
    decreases |blocks|
  {
    if blocks == [] then Writes(d, true)
    else
      var (d1, status) := be.write(d, unit % 256, lbn, blocks[0]);
      if status != 0 then Writes(d1, false)
      else DirectWrite(be, d1, unit, NextBlock(lbn), blocks[1..])
  }

  const RES_OK := 0
  const RES_ERROR := 1

  /** The bytes the driver sends for a read of count blocks. */
  function ReadTalk<D>(be: Backend<D>, d: D, unit: nat, lbn: nat, count: nat): seq<byte>
    decreases count
  {
    if count == 0 then []
    else
      var (d1, status, x) := be.read(d, unit % 256, lbn);
      ReadRequest(unit, lbn)
      + if status != 0 then [] else ReadTalk(be, d1, unit, NextBlock(lbn), count - 1)
  }

  /** And for a write. */
  function WriteTalk<D>(be: Backend<D>, d: D, unit: nat, lbn: nat, blocks: seq<Sector>): seq<byte>
    decreases |blocks|
  {
    if blocks == [] then []
    else
      var (d1, status) := be.write(d, unit % 256, lbn, blocks[0]);
      WriteRequest(unit, lbn, blocks[0])
      + if status != 0 then [] else WriteTalk(be, d1, unit, NextBlock(lbn), blocks[1..])
  }

  /** Sectors that the server can compress inside its buffer. */
  ghost predicate Fitting(blocks: seq<Sector>) {
    forall x :: x in blocks ==> !WritesCell512(x)
  }

  /** The body of LPTRead's loop. */
  method ReadBlock<D>(be: Backend<D>, link: Link<Device<D>>, unit: nat, lbn: nat, buffer: array<byte>, at: nat,
                      compressBuff: array<byte>)
    returns (ok: bool)
    requires Ready(be, link) && lbn < 0x1_0000
    requires var (d1, status, x) := be.read(link.dev.disk, unit % 256, lbn); status == 0 ==> !WritesCell512(x)
    requires buffer != compressBuff && compressBuff.Length == 1024 && at + 512 <= buffer.Length
    modifies link, buffer, compressBuff
    ensures Ready(be, link) && link.talk.Heard() == old(link.talk.Heard()) + ReadRequest(unit, lbn)
    ensures var (d1, status, x) := be.read(old(link.dev.disk), unit % 256, lbn);
            && link.dev.disk == d1 && (ok <==> status == 0)
            && buffer[..] == if ok then Patch(old(buffer[..]), at, x) else old(buffer[..])
  {
    hide Fold, Synchronous, Silent, ReadReply, WritesCell512;
    ghost var (d1, status, x) := be.read(link.dev.disk, unit % 256, lbn);
    ghost var r := ReadRequest(unit, lbn);
    ReadExchange(be, link.dev, unit, lbn);
    link.Mark();
    ghost var t := link.talk;
    assert r[..0] == [] && r[..6] == r;
    WriteHeader(link, LPTS_READ_BLOCK, unit, 0x00, 0x00, lbn, t, r);
    Answered(link.step, link.start, link.talk, link.dev, link.pending, r);
    ok := ReceiveBlock(link, buffer, at, compressBuff, status, x);
  }

  /** Sectors one after the other. */
  function Flat(blocks: seq<Sector>): (b: seq<byte>)
    ensures |b| == 512 * |blocks|
  {
    if blocks == [] then [] else Flat(blocks[..|blocks| - 1]) + blocks[|blocks| - 1]
  }

  /** b is before with the given blocks laid over its start, one after the other. */
  predicate Filled(b: seq<byte>, before: seq<byte>, blocks: seq<Sector>) {
    512 * |blocks| <= |before| && b == LaidOver(before, blocks)
  }

  function LaidOver(before: seq<byte>, blocks: seq<Sector>): seq<byte>
    requires 512 * |blocks| <= |before|
  {
    Flat(blocks) + before[512 * |blocks|..]
  }

  lemma FilledMore(b: seq<byte>, before: seq<byte>, blocks: seq<Sector>, x: Sector)
    requires Filled(b, before, blocks) && 512 * |blocks| + 512 <= |b|
    ensures Filled(Patch(b, 512 * |blocks|, x), before, blocks + [x])
  {
    var n := 512 * |blocks|;
    assert (blocks + [x])[..|blocks|] == blocks;
    assert b[..n] == Flat(blocks);
    assert b[n + 512..] == before[n..][512..] == before[n + 512..];
  }

  lemma {:induction false} FlatSectors(b: seq<byte>, blocks: seq<Sector>)
    requires Flat(blocks) <= b
    ensures Sectors(b, |blocks|) == blocks
  {
    if blocks != [] {
      var m := |blocks| - 1;
      FlatSectors(b, blocks[..m]);
      assert b[512 * m..512 * m + 512] == Flat(blocks)[512 * m..] == blocks[m];
      forall j | 0 <= j < m ensures Sectors(b, m + 1)[j] == blocks[j] {
        assert Sectors(b, m)[j] == blocks[..m][j];
      }
    }
  }

  /** A read that had delivered got before the rest of it. */
  function Continued<D>(got: seq<Sector>, rest: Reads<D>): Reads<D> {
    Reads(rest.disk, got + rest.blocks, rest.ok)
  }

  /** A read under way: what it delivers and sends in all, and the caller's buffer before it. */
  datatype ReadJob<!D> = ReadJob(be: Backend<D>, unit: nat, whole: Reads<D>, total: seq<byte>, before: seq<byte>) {
    /** got has been delivered into b, heard has been sent, and left blocks are still to be read
        from block lbn of disk d on. */
    ghost predicate Stands(d: D, lbn: nat, left: nat, got: seq<Sector>, b: seq<byte>, heard: seq<byte>) {
      && whole == Continued(got, DirectRead(be, d, unit, lbn, left))
      && total == heard + ReadTalk(be, d, unit, lbn, left)
      && Filled(b, before, got)
    }

    lemma Start(d: D, lbn: nat, count: nat, heard: seq<byte>)
      requires whole == DirectRead(be, d, unit, lbn, count) && total == heard + ReadTalk(be, d, unit, lbn, count)
      ensures Stands(d, lbn, count, [], before, heard)
    {
      assert [] + whole.blocks == whole.blocks && Flat([]) + before[0..] == before;
    }

    /** Reading one more block. */
    lemma Next(d: D, lbn: nat, left: nat, got: seq<Sector>, b: seq<byte>, heard: seq<byte>)
      requires left > 0 && Stands(d, lbn, left, got, b, heard) && 512 * |got| + 512 <= |b|
      ensures var (d1, status, x) := be.read(d, unit % 256, lbn);
              var heard' := heard + ReadRequest(unit, lbn);
              if status == 0 then
                && x in whole.blocks
                && Stands(d1, NextBlock(lbn), left - 1, got + [x], Patch(b, 512 * |got|, x), heard')
              else whole == Reads(d1, got, false) && total == heard' && Filled(b, before, got)
    {
      hide ReadRequest, Flat;
      var (d1, status, x) := be.read(d, unit % 256, lbn);
      var rest, r := DirectRead(be, d1, unit, NextBlock(lbn), left - 1), ReadRequest(unit, lbn);
      FilledMore(b, before, got, x);
      assert got + ([x] + rest.blocks) == got + [x] + rest.blocks;
      assert got + [] == got && r + [] == r;
      assert heard + (r + ReadTalk(be, d1, unit, NextBlock(lbn), left - 1))
          == heard + r + ReadTalk(be, d1, unit, NextBlock(lbn), left - 1);
    }

    lemma Done(d: D, lbn: nat, got: seq<Sector>, b: seq<byte>, heard: seq<byte>)
      requires Stands(d, lbn, 0, got, b, heard)
      ensures whole == Reads(d, got, true) && total == heard && Filled(b, before, got)
    {
      assert got + [] == got && heard + [] == heard;
    }
  }

  /** One round of LPTRead's loop, with what it means for the whole read. */
  method ReadNext<D>(ghost job: ReadJob<D>, be: Backend<D>, link: Link<Device<D>>, unit: nat, lbn: nat,
                     buffer: array<byte>, at: nat, compressBuff: array<byte>, ghost left: nat, ghost got: seq<Sector>)
    returns (ok: bool, ghost got': seq<Sector>)
    requires job.be == be && job.unit == unit && Fitting(job.whole.blocks)
    requires Ready(be, link) && lbn < 0x1_0000 && left > 0 && at == 512 * |got|
    requires buffer != compressBuff && compressBuff.Length == 1024 && at + 512 <= buffer.Length
    requires job.Stands(link.dev.disk, lbn, left, got, buffer[..], link.talk.Heard())
    modifies link, buffer, compressBuff
    ensures Ready(be, link) && (ok ==> |got'| == |got| + 1)
    ensures ok ==> job.Stands(link.dev.disk, NextBlock(lbn), left - 1, got', buffer[..], link.talk.Heard())
    ensures !ok ==> job.whole == Reads(link.dev.disk, got, false) && job.total == link.talk.Heard()
                    && Filled(buffer[..], job.before, got)
  {
    hide Ready, DirectRead, ReadTalk, Filled, ReadRequest, WritesCell512, ReadJob.Stands;
    job.Next(link.dev.disk, lbn, left, got, buffer[..], link.talk.Heard());
    got' := got + [be.read(link.dev.disk, unit % 256, lbn).2];
    ok := ReadBlock(be, link, unit, lbn, buffer, at, compressBuff);
  }

  /** LPTRead over the line is DirectRead, byte buffer and status included, as long as the server can
      compress what it reads. */
  method LPTRead<D>(be: Backend<D>, link: Link<Device<D>>, unit: nat, lbn: nat, buffer: array<byte>, count: nat,
                    compressBuff: array<byte>)
    returns (ret: nat)
    requires Ready(be, link) && lbn < 0x1_0000
    requires Fitting(DirectRead(be, link.dev.disk, unit, lbn, count).blocks)
    requires buffer != compressBuff && compressBuff.Length == 1024 && 512 * count <= buffer.Length
    modifies link, buffer, compressBuff
    ensures Ready(be, link)
    ensures link.talk.Heard() == old(link.talk.Heard()) + ReadTalk(be, old(link.dev.disk), unit, lbn, count)
    ensures var r := DirectRead(be, old(link.dev.disk), unit, lbn, count);
            && link.dev.disk == r.disk && ret == (if r.ok then 0 else 1)
            && Filled(buffer[..], old(buffer[..]), r.blocks)
  {
    hide Ready, DirectRead, ReadTalk, Filled, Fitting, ReadJob.Stands;
    ghost var d, heard := link.dev.disk, link.talk.Heard();
    ghost var job := ReadJob(be, unit, DirectRead(be, d, unit, lbn, count), heard + ReadTalk(be, d, unit, lbn, count),
                             buffer[..]);
    ghost var got: seq<Sector>, left := [], count;
    job.Start(d, lbn, count, heard);
    var at, j := lbn, 0;
    while j < count
      invariant 0 <= j <= count && |got| == j && left == count - j && at < 0x1_0000
      invariant Ready(be, link) && job.Stands(link.dev.disk, at, left, got, buffer[..], link.talk.Heard())
    {
      var ok;
      ok, got := ReadNext(job, be, link, unit, at, buffer, 512 * j, compressBuff, left, got);
      if !ok { return RES_ERROR; }
      at, j, left := NextBlock(at), j + 1, left - 1;
    }
    job.Done(link.dev.disk, at, got, buffer[..], link.talk.Heard());
    ret := RES_OK;
  }

  /** The writing half of LPTWrite for one block: header, then the packed or the raw sector. */
  method SendBlock<S>(link: Link<S>, unit: nat, lbn: nat, buffer: array<byte>, at: nat, compressBuff: array<byte>,
                      ghost t: Talk<S>, ghost x: Sector)
    requires buffer != compressBuff && compressBuff.Length == 1024 && at + 512 <= buffer.Length
    requires buffer[at..at + 512] == x && link.Valid() && link.Sending(t, WriteRequest(unit, lbn, x), 0)
    modifies link, compressBuff
    ensures link.Valid() && link.Sending(t, WriteRequest(unit, lbn, x), |WriteRequest(unit, lbn, x)|)
  {
    hide Accounted, Silent, WriteRequest, Encode, WritesCell512;
    ghost var r := WriteRequest(unit, lbn, x);
    RequestParts(unit, lbn, x);
    var c := Compress(compressBuff, buffer, at);
    WriteHeader(link, LPTS_WRITE_BLOCK, unit, c / 256 % 256, c % 256, lbn, t, r);
    if c != 0 {
      assert compressBuff[0..0 + c] == compressBuff[..c] == r[6..6 + c];
      link.WriteBytes(compressBuff, 0, c, t, r, 6);
    } else {
      link.WriteBytes(buffer, at, 512, t, r, 6);
    }
  }

  lemma RequestParts(unit: nat, lbn: nat, x: Sector)
    ensures var r, c := WriteRequest(unit, lbn, x), CompressedSize(x);
            var n := if c != 0 then c else 512;
            && |r| == 6 + n && r[..0] == [] && r[..|r|] == r && r[..6] == WriteHead(unit, c, lbn)
            && r[6..6 + n] == (if c != 0 then Encode(x) else x)
  {
  }

  /** The body of LPTWrite's loop: the status byte of one block. */
  method WriteBlock<D>(be: Backend<D>, link: Link<Device<D>>, unit: nat, lbn: nat, buffer: array<byte>, at: nat,
                       compressBuff: array<byte>)
    returns (result: byte)
    requires Ready(be, link) && lbn < 0x1_0000
    requires buffer != compressBuff && compressBuff.Length == 1024 && at + 512 <= buffer.Length
    modifies link, compressBuff
    ensures Ready(be, link)
    ensures link.talk.Heard() == old(link.talk.Heard()) + WriteRequest(unit, lbn, buffer[at..at + 512])
    ensures (link.dev.disk, result) == be.write(old(link.dev.disk), unit % 256, lbn, buffer[at..at + 512])
  {
    hide Fold, Synchronous, Silent, WriteRequest;
    ghost var x: Sector := buffer[at..at + 512];
    ghost var r := WriteRequest(unit, lbn, x);
    RequestParts(unit, lbn, x);
    WriteExchange(be, link.dev, unit, lbn, x);
    link.Mark();
    ghost var t := link.talk;
    SendBlock(link, unit, lbn, buffer, at, compressBuff, t, x);
    Answered(link.step, link.start, link.talk, link.dev, link.pending, r);
    result := link.ReadByte();
  }

  function Sectors(b: seq<byte>, count: nat): seq<Sector>
    requires 512 * count <= |b|
  {
    seq(count, j requires 0 <= j < count => b[512 * j..512 * j + 512])
  }

  lemma SectorAt(b: seq<byte>, count: nat, j: nat)
    requires j < count && 512 * count <= |b|
    ensures |Sectors(b, count)| == count && Sectors(b, count)[j] == b[512 * j..512 * j + 512]
  {
  }

  /** A write under way: what it does and sends in all. */
  datatype WriteJob<!D> = WriteJob(be: Backend<D>, unit: nat, whole: Writes<D>, total: seq<byte>) {
    /** heard has been sent, and left is still to be written from block lbn of disk d on. */
    ghost predicate Stands(d: D, lbn: nat, left: seq<Sector>, heard: seq<byte>) {
      whole == DirectWrite(be, d, unit, lbn, left) && total == heard + WriteTalk(be, d, unit, lbn, left)
    }

    lemma Start(d: D, lbn: nat, left: seq<Sector>, heard: seq<byte>)
      requires whole == DirectWrite(be, d, unit, lbn, left) && total == heard + WriteTalk(be, d, unit, lbn, left)
      ensures Stands(d, lbn, left, heard)
    {
    }

    lemma Next(d: D, lbn: nat, left: seq<Sector>, heard: seq<byte>)
      requires left != [] && Stands(d, lbn, left, heard)
      ensures var (d1, status) := be.write(d, unit % 256, lbn, left[0]);
              var heard' := heard + WriteRequest(unit, lbn, left[0]);
              if status == 0 then Stands(d1, NextBlock(lbn), left[1..], heard')
              else whole == Writes(d1, false) && total == heard'
    {
      hide WriteRequest;
      var (d1, status) := be.write(d, unit % 256, lbn, left[0]);
      var r := WriteRequest(unit, lbn, left[0]);
      assert r + [] == r;
      assert heard + (r + WriteTalk(be, d1, unit, NextBlock(lbn), left[1..]))
          == heard + r + WriteTalk(be, d1, unit, NextBlock(lbn), left[1..]);
    }

    lemma Done(d: D, lbn: nat, heard: seq<byte>)
      requires Stands(d, lbn, [], heard)
      ensures whole == Writes(d, true) && total == heard
    {
      assert heard + [] == heard;
    }
  }

  /** LPTWrite over the line is DirectWrite of the buffer's sectors. */
  method LPTWrite<D>(be: Backend<D>, link: Link<Device<D>>, unit: nat, lbn: nat, buffer: array<byte>, count: nat,
                     compressBuff: array<byte>)
    returns (ret: nat)
    requires Ready(be, link) && lbn < 0x1_0000
    requires buffer != compressBuff && compressBuff.Length == 1024 && 512 * count <= buffer.Length
    modifies link, compressBuff
    ensures Ready(be, link)
    ensures link.talk.Heard()
         == old(link.talk.Heard()) + WriteTalk(be, old(link.dev.disk), unit, lbn, Sectors(buffer[..], count))
    ensures var w := DirectWrite(be, old(link.dev.disk), unit, lbn, Sectors(buffer[..], count));
            link.dev.disk == w.disk && ret == (if w.ok then 0 else 1)
  {
    hide Ready, DirectWrite, WriteTalk, WriteJob.Stands, WriteRequest;
    ghost var d, heard, left := link.dev.disk, link.talk.Heard(), Sectors(buffer[..], count);
    ghost var job := WriteJob(be, unit, DirectWrite(be, d, unit, lbn, left), heard + WriteTalk(be, d, unit, lbn, left));
    job.Start(d, lbn, left, heard);
    ghost var xs := left;
    assert |xs| == count;
    var at, j := lbn, 0;
    while j < count
      invariant 0 <= j <= count && at < 0x1_0000 && left == xs[j..]
      invariant Ready(be, link) && job.Stands(link.dev.disk, at, left, link.talk.Heard())
    {
      job.Next(link.dev.disk, at, left, link.talk.Heard());
      SectorAt(buffer[..], count, j);
      assert left[0] == buffer[..][512 * j..512 * j + 512] == buffer[512 * j..512 * j + 512];
      var result := WriteBlock(be, link, unit, at, buffer, 512 * j, compressBuff);
      if result != 0 { return RES_ERROR; }
      left := left[1..];
      at, j := NextBlock(at), j + 1;
    }
    job.Done(link.dev.disk, at, link.talk.Heard());
    ret := RES_OK;
  }
}
