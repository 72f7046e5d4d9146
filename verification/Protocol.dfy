// The device's command server (lptprotocol_task in pico/lptprotocol.c) over any disk, first as
// a machine that reacts to one received byte at a time, then as the imperative routine.
module Protocol {
  import opened Bytes
  import opened Codec
  import opened Line

  const LPTS_HELLO: byte := 0x00
  const LPTS_QUERY_DISKS: byte := 0x01
  const LPTS_QUERY_DISK_CAPS: byte := 0x02
  const LPTS_READ_BLOCK: byte := 0x03
  const LPTS_WRITE_BLOCK: byte := 0x04
  const LPTS_VERSION_MAJOR: byte := 0
  const LPTS_VERSION_MINOR: byte := 1

  /** The disk behind the server (pico/disk.h), whatever it is: a state D and what the four
      entry points do to it. A status of 0 is success; a read gives data only on success. */
  datatype Backend<!D> = Backend(
    read: (D, byte, nat) -> (D, byte, Sector),
    write: (D, byte, nat, Sector) -> (D, byte),
    drives: D -> nat,
    blocks: (D, byte) -> nat)

  /** Where the server is inside a command. Undefined stands for a write past the end of one of
      its two 512-byte buffers, after which the C program has no meaning. */
  datatype Phase =
    | Idle
    | Caps
    | ReadHeader(n: nat)
    | WriteHeader(n: nat)
    | RawData(drv: byte, lba: nat, n: nat)
    | PackedData(drv: byte, lba: nat, total: nat, got: seq<byte>)
    | Undefined

  datatype Device<D> = Device(phase: Phase, buff: Sector, disk: D)

  /** The reply to a successful read: compressed when that is shorter than 512 bytes. */
  function ReadReply(x: Sector): seq<byte> {
    var c := CompressedSize(x);
    if c != 0 then [2, c / 256, c % 256] + Encode(x) else [0] + x
  }

  function Word16(hi: byte, lo: byte): nat {
    hi as nat * 0x100 + lo
  }

  function Splice(buff: Sector, w: seq<byte>): Sector
    requires |w| <= 512
  {
    w + buff[|w|..]
  }

  /** The block number of a read header: bytes 1 to 4, most significant first. */
  function Word32(buff: Sector): nat {
    Word16(buff[1], buff[2]) * 0x1_0000 + Word16(buff[3], buff[4])
  }

  function FinishRead<D>(be: Backend<D>, buff: Sector, disk: D): Reaction<Device<D>> {
    var (disk', status, x) := be.read(disk, buff[0], Word32(buff));
    if status == 0 then
      if WritesCell512(x) then Reaction(Device(Undefined, x, disk'), [])
      else Reaction(Device(Idle, x, disk'), ReadReply(x))
    else Reaction(Device(Idle, buff, disk'), [1])
  }

  function FinishWrite<D>(be: Backend<D>, drv: byte, lba: nat, buff: Sector, disk: D): Reaction<Device<D>> {
    var (disk', status) := be.write(disk, drv, lba, buff);
    Reaction(Device(Idle, buff, disk'), [status])
  }

  function StartData(buff: Sector): Phase {
    var compressed, lba := Word16(buff[1], buff[2]), Word16(buff[3], buff[4]);
    if compressed == 0 then RawData(buff[0], lba, 0) else PackedData(buff[0], lba, compressed, [])
  }

  function Unpack<D>(be: Backend<D>, drv: byte, lba: nat, packed: seq<byte>, buff: Sector, disk: D)
    : Reaction<Device<D>>
  {
    var w := Decode(packed, 0, []).bytes;
    if |w| > 512 then Reaction(Device(Undefined, buff, disk), [])
    else FinishWrite(be, drv, lba, Splice(buff, w), disk)
  }

  /** What the server does on receiving byte b. */
  function Feed<D>(be: Backend<D>, dev: Device<D>, b: byte): Reaction<Device<D>> {
    match dev.phase
    case Idle =>
      if b == LPTS_HELLO then
        var v := [LPTS_VERSION_MAJOR, LPTS_VERSION_MINOR];
        Reaction(dev.(buff := Splice(dev.buff, v)), v)
      else if b == LPTS_QUERY_DISKS then
        var w := Split32(be.drives(dev.disk));
        Reaction(dev.(buff := Splice(dev.buff, w)), w)
      else if b == LPTS_QUERY_DISK_CAPS then Reaction(dev.(phase := Caps), [])
      else if b == LPTS_READ_BLOCK then Reaction(dev.(phase := ReadHeader(0)), [])
      else if b == LPTS_WRITE_BLOCK then Reaction(dev.(phase := WriteHeader(0)), [])
      else Reaction(dev, [])
    case Caps =>
      var w := Split32(be.blocks(dev.disk, b));
      Reaction(Device(Idle, Splice(dev.buff, w), dev.disk), w)
    case ReadHeader(n) =>
      if n >= 5 then Reaction(dev, [])
      else
        var buff := dev.buff[n := b];
        if n < 4 then Reaction(Device(ReadHeader(n + 1), buff, dev.disk), [])
        else FinishRead(be, buff, dev.disk)
    case WriteHeader(n) =>
      if n >= 5 then Reaction(dev, [])
      else
        var buff := dev.buff[n := b];
        Reaction(Device(if n < 4 then WriteHeader(n + 1) else StartData(buff), buff, dev.disk), [])
    case RawData(drv, lba, n) =>
      if n >= 512 then Reaction(dev, [])
      else
        var buff := dev.buff[n := b];
        if n < 511 then Reaction(Device(RawData(drv, lba, n + 1), buff, dev.disk), [])
        else FinishWrite(be, drv, lba, buff, dev.disk)
    case PackedData(drv, lba, total, got) =>
      if |got| >= 512 then Reaction(dev.(phase := Undefined), [])
      else if |got| + 1 < total then Reaction(dev.(phase := PackedData(drv, lba, total, got + [b])), [])
      else Unpack(be, drv, lba, got + [b], dev.buff, dev.disk)
    case Undefined => Reaction(dev, [])
  }

  function Server<D>(be: Backend<D>): Machine<Device<D>> {
    (dev: Device<D>, b: byte) => Feed(be, dev, b)
  }

  function FeedAll<D>(be: Backend<D>, dev: Device<D>, bytes: seq<byte>): Reaction<Device<D>> {
    Fold(Server(be), dev, bytes)
  }

  lemma FeedNext<D>(be: Backend<D>, dev: Device<D>, bytes: seq<byte>, k: nat)
    requires k < |bytes|
    ensures var r := FeedAll(be, dev, bytes[..k]);
            var f := Feed(be, r.dev, bytes[k]);
            FeedAll(be, dev, bytes[..k + 1]) == Reaction(f.dev, r.out + f.out)
  {
    assert bytes[..k + 1][..k] == bytes[..k];
  }

  lemma FeedLast<D>(be: Backend<D>, dev: Device<D>, bytes: seq<byte>)
    requires bytes != []
    ensures var r := FeedAll(be, dev, bytes[..|bytes| - 1]);
            var f := Feed(be, r.dev, bytes[|bytes| - 1]);
            FeedAll(be, dev, bytes) == Reaction(f.dev, r.out + f.out)
  {
  }

  lemma FeedAllSplits<D>(be: Backend<D>, dev: Device<D>, a: seq<byte>, b: seq<byte>)
    ensures var r1 := FeedAll(be, dev, a);
            var r2 := FeedAll(be, r1.dev, b);
            FeedAll(be, dev, a + b) == Reaction(r2.dev, r1.out + r2.out)
  {
    FoldSplits(Server(be), dev, a, b);
  }

  // ------------------------------------------------- one exchange, byte for byte

  /** The six bytes LPTRead sends for one block, and LPTWrite's header. */
  function ReadRequest(unit: nat, lbn: nat): seq<byte> {
    [LPTS_READ_BLOCK, unit % 256, 0, 0, lbn / 256 % 256, lbn % 256]
  }

  function WriteHead(unit: nat, size: nat, lbn: nat): seq<byte> {
    [LPTS_WRITE_BLOCK, unit % 256, size / 256 % 256, size % 256, lbn / 256 % 256, lbn % 256]
  }

  /** All LPTWrite sends for one block. */
  function WriteRequest(unit: nat, lbn: nat, x: Sector): seq<byte> {
    WriteHead(unit, CompressedSize(x), lbn) + Payload(x)
  }

  function Payload(x: Sector): seq<byte> {
    if CompressedSize(x) != 0 then Encode(x) else x
  }

  /** buff with xs stored from index n on. */
  function Fill(buff: Sector, n: nat, xs: seq<byte>): Sector
    requires n + |xs| <= 512
  {
    buff[..n] + xs + buff[n + |xs|..]
  }

  lemma FillLast(buff: Sector, n: nat, xs: seq<byte>)
    requires xs != [] && n + |xs| <= 512
    ensures var m := |xs| - 1; Fill(buff, n, xs) == Fill(buff, n, xs[..m])[n + m := xs[m]]
  {
  }

  lemma {:induction false} FeedReadHeader<D>(be: Backend<D>, buff: Sector, disk: D, xs: seq<byte>)
    requires |xs| <= 4
    ensures FeedAll(be, Device(ReadHeader(0), buff, disk), xs)
         == Reaction(Device(ReadHeader(|xs|), Fill(buff, 0, xs), disk), [])
    decreases |xs|
  {
    if xs == [] {
      assert Fill(buff, 0, xs) == buff;
    } else {
      FeedReadHeader(be, buff, disk, xs[..|xs| - 1]);
      FillLast(buff, 0, xs);
    }
  }

  lemma {:induction false} FeedWriteHeader<D>(be: Backend<D>, buff: Sector, disk: D, xs: seq<byte>)
    requires |xs| <= 4
    ensures FeedAll(be, Device(WriteHeader(0), buff, disk), xs)
         == Reaction(Device(WriteHeader(|xs|), Fill(buff, 0, xs), disk), [])
    decreases |xs|
  {
    if xs == [] {
      assert Fill(buff, 0, xs) == buff;
    } else {
      FeedWriteHeader(be, buff, disk, xs[..|xs| - 1]);
      FillLast(buff, 0, xs);
    }
  }

  lemma {:induction false} FeedRaw<D>(be: Backend<D>, drv: byte, lba: nat, buff: Sector, disk: D, xs: seq<byte>)
    requires |xs| < 512
    ensures FeedAll(be, Device(RawData(drv, lba, 0), buff, disk), xs)
         == Reaction(Device(RawData(drv, lba, |xs|), Fill(buff, 0, xs), disk), [])
    decreases |xs|
  {
    if xs == [] {
      assert Fill(buff, 0, xs) == buff;
    } else {
      FeedRaw(be, drv, lba, buff, disk, xs[..|xs| - 1]);
      FillLast(buff, 0, xs);
    }
  }

  lemma {:induction false} FeedPacked<D>(
    be: Backend<D>, drv: byte, lba: nat, total: nat, buff: Sector, disk: D, xs: seq<byte>)
    requires |xs| < total && |xs| <= 512
    ensures FeedAll(be, Device(PackedData(drv, lba, total, []), buff, disk), xs)
         == Reaction(Device(PackedData(drv, lba, total, xs), buff, disk), [])
    decreases |xs|
  {
    if xs != [] {
      FeedPacked(be, drv, lba, total, buff, disk, xs[..|xs| - 1]);
      assert xs[..|xs| - 1] + [xs[|xs| - 1]] == xs;
    }
  }

  /** Byte 513 of a packed write does not fit, whatever size was announced. */
  lemma PackedOverflows<D>(
    be: Backend<D>, drv: byte, lba: nat, total: nat, buff: Sector, disk: D, xs: seq<byte>)
    requires |xs| == 513 <= total
    ensures FeedAll(be, Device(PackedData(drv, lba, total, []), buff, disk), xs)
         == Reaction(Device(Undefined, buff, disk), [])
  {
    FeedPacked(be, drv, lba, total, buff, disk, xs[..512]);
    FeedLast(be, Device(PackedData(drv, lba, total, []), buff, disk), xs);
  }

  lemma FeedTail<D>(be: Backend<D>, dev: Device<D>, xs: seq<byte>, k: nat)
    requires k <= |xs| && FeedAll(be, dev, xs[..k]).out == []
    ensures FeedAll(be, dev, xs) == FeedAll(be, FeedAll(be, dev, xs[..k]).dev, xs[k..])
  {
    FoldTail(Server(be), dev, xs, k);
  }

  predicate SilentBefore<D>(be: Backend<D>, dev: Device<D>, xs: seq<byte>, n: nat)
    requires n <= |xs| + 1
  {
    Silent(Server(be), dev, xs, n)
  }

  predicate AtBoundary<D>(dev: Device<D>) {
    dev.phase.Idle?
  }

  lemma ReadHeaderFed<D>(be: Backend<D>, dev: Device<D>, r: seq<byte>, k: nat)
    requires AtBoundary(dev) && 1 <= k <= 5 && k <= |r| && r[0] == LPTS_READ_BLOCK
    ensures FeedAll(be, dev, r[..k])
         == Reaction(Device(ReadHeader(k - 1), Fill(dev.buff, 0, r[1..k]), dev.disk), [])
  {
    FeedNext(be, dev, r, 0);
    assert r[..k][..1] == r[..1] && r[..k][1..] == r[1..k];
    FeedTail(be, dev, r[..k], 1);
    FeedReadHeader(be, dev.buff, dev.disk, r[1..k]);
  }

  lemma WriteHeaderFed<D>(be: Backend<D>, dev: Device<D>, r: seq<byte>, k: nat)
    requires AtBoundary(dev) && 1 <= k <= 5 && k <= |r| && r[0] == LPTS_WRITE_BLOCK
    ensures FeedAll(be, dev, r[..k])
         == Reaction(Device(WriteHeader(k - 1), Fill(dev.buff, 0, r[1..k]), dev.disk), [])
  {
    FeedNext(be, dev, r, 0);
    assert r[..k][..1] == r[..1] && r[..k][1..] == r[1..k];
    FeedTail(be, dev, r[..k], 1);
    FeedWriteHeader(be, dev.buff, dev.disk, r[1..k]);
  }

  lemma ReadSilent<D>(be: Backend<D>, dev: Device<D>, r: seq<byte>)
    requires AtBoundary(dev) && |r| == 6 && r[0] == LPTS_READ_BLOCK
    ensures SilentBefore(be, dev, r, 6)
  {
    ReadHeaderFed(be, dev, r, 5);
  }

  lemma HeaderDecodes(buff: Sector, h: seq<byte>, unit: nat, size: nat, lbn: nat)
    requires size < 0x1_0000 && lbn < 0x1_0000
    requires |h| == 6 && h[1..] == [unit % 256, size / 256 % 256, size % 256, lbn / 256 % 256, lbn % 256]
    ensures var b := Fill(buff, 0, h[1..]);
            b[0] == unit % 256 && Word16(b[1], b[2]) == size && Word16(b[3], b[4]) == lbn
  {
  }

  lemma ReadHeaderEnds<D>(be: Backend<D>, dev: Device<D>, r: seq<byte>)
    requires AtBoundary(dev) && |r| == 6 && r[0] == LPTS_READ_BLOCK
    ensures FeedAll(be, dev, r) == FinishRead(be, Fill(dev.buff, 0, r[1..]), dev.disk)
  {
    ReadHeaderFed(be, dev, r, 5);
    FeedLast(be, dev, r);
    assert Fill(dev.buff, 0, r[1..5])[4 := r[5]] == Fill(dev.buff, 0, r[1..]);
    var out := FinishRead(be, Fill(dev.buff, 0, r[1..]), dev.disk).out;
    assert [] + out == out;
  }

  lemma WriteHeaderEnds<D>(be: Backend<D>, dev: Device<D>, r: seq<byte>)
    requires AtBoundary(dev) && |r| == 6 && r[0] == LPTS_WRITE_BLOCK
    ensures var buff := Fill(dev.buff, 0, r[1..]);
            FeedAll(be, dev, r) == Reaction(Device(StartData(buff), buff, dev.disk), [])
  {
    WriteHeaderFed(be, dev, r, 5);
    FeedLast(be, dev, r);
    assert Fill(dev.buff, 0, r[1..5])[4 := r[5]] == Fill(dev.buff, 0, r[1..]);
  }

  /** Until its last byte a read request draws no output; on its last byte the server makes
      one access to the disk, sends exactly the reply and is ready for the next command, or
      leaves its buffers compressing the sector. */
  lemma ReadExchange<D>(be: Backend<D>, dev: Device<D>, unit: nat, lbn: nat)
    requires AtBoundary(dev) && lbn < 0x1_0000
    ensures SilentBefore(be, dev, ReadRequest(unit, lbn), 6)
    ensures var (d1, status, x) := be.read(dev.disk, unit % 256, lbn);
            var r := FeedAll(be, dev, ReadRequest(unit, lbn));
            && r.dev.disk == d1
            && if status == 0 && WritesCell512(x) then r.dev.phase == Undefined
               else AtBoundary(r.dev) && r.out == if status == 0 then ReadReply(x) else [1]
  {
    hide Fold, WritesCell512, Encode, Fill;
    var r := ReadRequest(unit, lbn);
    ReadSilent(be, dev, r);
    ReadHeaderEnds(be, dev, r);
    HeaderDecodes(dev.buff, r, unit, 0, lbn);
  }

  lemma WriteHeadExchange<D>(be: Backend<D>, dev: Device<D>, unit: nat, size: nat, lbn: nat)
    requires AtBoundary(dev) && lbn < 0x1_0000 && size < 0x1_0000
    ensures SilentBefore(be, dev, WriteHead(unit, size, lbn), 7)
    ensures var d := FeedAll(be, dev, WriteHead(unit, size, lbn)).dev;
            && d.disk == dev.disk
            && d.phase == if size == 0 then RawData(unit % 256, lbn, 0) else PackedData(unit % 256, lbn, size, [])
  {
    var r := WriteHead(unit, size, lbn);
    WriteHeaderEnds(be, dev, r);
    assert r[..6] == r;
    HeaderDecodes(dev.buff, r, unit, size, lbn);
  }

  lemma RawExchange<D>(be: Backend<D>, d: Device<D>, drv: byte, lba: nat, x: Sector)
    requires d.phase == RawData(drv, lba, 0)
    ensures SilentBefore(be, d, x, 512)
    ensures FeedAll(be, d, x) == FinishWrite(be, drv, lba, x, d.disk)
  {
    FeedLast(be, d, x);
    FeedRaw(be, drv, lba, d.buff, d.disk, x[..511]);
    assert Fill(d.buff, 0, x[..511])[511 := x[511]] == x;
  }

  lemma PackedEnds<D>(be: Backend<D>, d: Device<D>, drv: byte, lba: nat, e: seq<byte>)
    requires 0 < |e| <= 512 && d.phase == PackedData(drv, lba, |e|, [])
    ensures SilentBefore(be, d, e, |e|)
    ensures FeedAll(be, d, e) == Unpack(be, drv, lba, e, d.buff, d.disk)
  {
    FeedPacked(be, drv, lba, |e|, d.buff, d.disk, e[..|e| - 1]);
    FeedLast(be, d, e);
    assert e[..|e| - 1] + [e[|e| - 1]] == e;
    var out := Unpack(be, drv, lba, e, d.buff, d.disk).out;
    assert [] + out == out;
  }

  lemma PackedExchange<D>(be: Backend<D>, d: Device<D>, drv: byte, lba: nat, x: Sector)
    requires CompressedSize(x) != 0 && d.phase == PackedData(drv, lba, CompressedSize(x), [])
    ensures SilentBefore(be, d, Encode(x), |Encode(x)|)
    ensures FeedAll(be, d, Encode(x)) == FinishWrite(be, drv, lba, x, d.disk)
  {
    PackedEnds(be, d, drv, lba, Encode(x));
    SectorRoundTrip(x);
    assert Splice(d.buff, x) == x;
  }

  /** The data part of a write, packed or raw, whatever was in the server's buffer before. */
  lemma DataExchange<D>(be: Backend<D>, d: Device<D>, drv: byte, lba: nat, x: Sector)
    requires var c := CompressedSize(x);
             d.phase == if c == 0 then RawData(drv, lba, 0) else PackedData(drv, lba, c, [])
    ensures SilentBefore(be, d, Payload(x), |Payload(x)|)
    ensures FeedAll(be, d, Payload(x)) == FinishWrite(be, drv, lba, x, d.disk)
  {
    if CompressedSize(x) == 0 { RawExchange(be, d, drv, lba, x); } else { PackedExchange(be, d, drv, lba, x); }
  }

  /** The same for a write: silence up to the last byte, then one disk access with exactly the
      sector the host started from, one status byte, and the next command boundary. */
  lemma WriteExchange<D>(be: Backend<D>, dev: Device<D>, unit: nat, lbn: nat, x: Sector)
    requires AtBoundary(dev) && lbn < 0x1_0000
    ensures SilentBefore(be, dev, WriteRequest(unit, lbn, x), |WriteRequest(unit, lbn, x)|)
    ensures var (d1, status) := be.write(dev.disk, unit % 256, lbn, x);
            FeedAll(be, dev, WriteRequest(unit, lbn, x)) == Reaction(Device(Idle, x, d1), [status])
  {
    var c, data := CompressedSize(x), Payload(x);
    var head := WriteHead(unit, c, lbn);
    WriteHeadExchange(be, dev, unit, c, lbn);
    assert head[..6] == head;
    var d := FeedAll(be, dev, head).dev;
    DataExchange(be, d, unit % 256, lbn, x);
    SilentConcat(Server(be), dev, head, data);
    FoldSplits(Server(be), dev, head, data);
    var out := FinishWrite(be, unit % 256, lbn, x, dev.disk).out;
    assert [] + out == out;
  }

  // ------------------------------------------------- the commands, in numbers

  /** Hello is answered with version 0.1; a byte from 5 on is dropped without an answer. */
  lemma HelloOnWire<D>(be: Backend<D>, dev: Device<D>, b: byte)
    requires AtBoundary(dev)
    ensures FeedAll(be, dev, [0]).out == [0, 1] && AtBoundary(FeedAll(be, dev, [0]).dev)
    ensures b >= 5 ==> FeedAll(be, dev, [b]) == Reaction(dev, [])
  {
    FeedLast(be, dev, [0]);
    FeedLast(be, dev, [b]);
  }

  /** Command 1 asks for the drives, command 2 for the size of one: four bytes, high byte first. */
  lemma QueriesOnWire<D>(be: Backend<D>, dev: Device<D>, u: byte, a: byte, b: byte, c: byte, d: byte)
    requires AtBoundary(dev)
    ensures be.drives(dev.disk) == a as nat * 0x100_0000 + b as nat * 0x1_0000 + c as nat * 0x100 + d as nat ==>
              FeedAll(be, dev, [1]).out == [a, b, c, d]
    ensures be.blocks(dev.disk, u) == a as nat * 0x100_0000 + b as nat * 0x1_0000 + c as nat * 0x100 + d as nat ==>
              FeedAll(be, dev, [2, u]).out == [a, b, c, d]
  {
    hide Split32;
    WordOfBytes(a, b, c, d);
    FeedLast(be, dev, [1]);
    assert [2, u][..1] == [2] && [2, u][1] == u;
    FeedLast(be, dev, [2]);
    FeedLast(be, dev, [2, u]);
  }

  /** Command 3 reads block b1 b2 b3 b4 of unit u: byte 1 for a failure, 2 with a two-byte size and
      the code when that has fewer than 512 bytes, else 0 and the sector. */
  lemma ReadOnWire<D>(be: Backend<D>, dev: Device<D>, u: byte, b1: byte, b2: byte, b3: byte, b4: byte)
    requires AtBoundary(dev)
    ensures var lba := b1 as nat * 0x100_0000 + b2 as nat * 0x1_0000 + b3 as nat * 0x100 + b4 as nat;
            var (d1, status, x) := be.read(dev.disk, u, lba);
            var r, n := FeedAll(be, dev, [3, u, b1, b2, b3, b4]), |Encode(x)|;
            && r.dev.disk == d1 && (status != 0 ==> r.out == [1])
            && (status == 0 && !WritesCell512(x) ==>
                  r.out == if n < 512 then [2, n / 256, n % 256] + Encode(x) else [0] + x)
  {
    var r: seq<byte> := [3, u, b1, b2, b3, b4];
    var buff := Fill(dev.buff, 0, r[1..]);
    assert buff[0] == u && buff[1] == b1 && buff[2] == b2 && buff[3] == b3 && buff[4] == b4;
    hide Fold, Fill, WritesCell512, Encode;
    ReadHeaderEnds(be, dev, r);
    assert Word32(buff) == b1 as nat * 0x100_0000 + b2 as nat * 0x1_0000 + b3 as nat * 0x100 + b4 as nat;
  }

  /** Command 4 with size 0 writes the 512 bytes that follow to block b3 b4 of unit u; the answer is
      the disk's status. */
  lemma RawWriteOnWire<D>(be: Backend<D>, dev: Device<D>, u: byte, b3: byte, b4: byte, x: Sector)
    requires AtBoundary(dev)
    ensures var (d1, status) := be.write(dev.disk, u, b3 as nat * 0x100 + b4 as nat, x);
            FeedAll(be, dev, [4, u, 0, 0, b3, b4] + x) == Reaction(Device(Idle, x, d1), [status])
  {
    hide Fold, Fill;
    HeadOnWire(be, dev, u, 0, 0, b3, b4);
    var h: seq<byte> := [4, u, 0, 0, b3, b4];
    var d := FeedAll(be, dev, h).dev;
    RawExchange(be, d, u, b3 as nat * 0x100 + b4 as nat, x);
    HeadThenData(be, dev, h, x);
  }

  /** With a size it writes what the bytes that follow decode to. */
  lemma PackedWriteOnWire<D>(be: Backend<D>, dev: Device<D>, u: byte, s1: byte, s2: byte, b3: byte, b4: byte,
      e: seq<byte>)
    requires AtBoundary(dev) && 0 < |e| <= 512 && |e| == s1 as nat * 0x100 + s2 as nat
    requires |Decode(e, 0, []).bytes| == 512
    ensures var (d1, status) := be.write(dev.disk, u, b3 as nat * 0x100 + b4 as nat, Decode(e, 0, []).bytes);
            var r := FeedAll(be, dev, [4, u, s1, s2, b3, b4] + e);
            r.dev.disk == d1 && r.out == [status]
  {
    hide Decode, Fold, Fill;
    HeadOnWire(be, dev, u, s1, s2, b3, b4);
    var h: seq<byte> := [4, u, s1, s2, b3, b4];
    var d := FeedAll(be, dev, h).dev;
    PackedEnds(be, d, u, b3 as nat * 0x100 + b4 as nat, e);
    HeadThenData(be, dev, h, e);
    var w := Decode(e, 0, []).bytes;
    assert Splice(d.buff, w) == w;
  }

  lemma HeadOnWire<D>(be: Backend<D>, dev: Device<D>, u: byte, s1: byte, s2: byte, b3: byte, b4: byte)
    requires AtBoundary(dev)
    ensures var r, size := FeedAll(be, dev, [4, u, s1, s2, b3, b4]), s1 as nat * 0x100 + s2 as nat;
            var lba := b3 as nat * 0x100 + b4 as nat;
            && r.out == [] && r.dev.disk == dev.disk
            && r.dev.phase == if size == 0 then RawData(u, lba, 0) else PackedData(u, lba, size, [])
  {
    var r: seq<byte> := [4, u, s1, s2, b3, b4];
    WriteHeaderEnds(be, dev, r);
    var buff := Fill(dev.buff, 0, r[1..]);
    assert buff[0] == u && buff[1] == s1 && buff[2] == s2 && buff[3] == b3 && buff[4] == b4;
  }

  lemma HeadThenData<D>(be: Backend<D>, dev: Device<D>, h: seq<byte>, xs: seq<byte>)
    requires FeedAll(be, dev, h).out == []
    ensures FeedAll(be, dev, h + xs) == FeedAll(be, FeedAll(be, dev, h).dev, xs)
  {
    var r := FeedAll(be, FeedAll(be, dev, h).dev, xs);
    FeedAllSplits(be, dev, h, xs);
    assert [] + r.out == r.out;
  }
}
