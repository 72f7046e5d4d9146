// lptprotocol_task as the device runs it: buffers filled in place, bytes taken from the line
// with lptcomms_readbyte(s) and sent with lptcomms_writebyte(s). It is proved against the
// byte-at-a-time machine of module Protocol.
module ServerTask {
  import opened Bytes
  import opened Codec
  import opened Line
  import opened Protocol

  /** The machine is inside a command after each of the first from, ..., to - 1 bytes of xs. */
  ghost predicate Busy<D>(step: Machine<Device<D>>, dev: Device<D>, xs: seq<byte>, from: nat, to: nat) {
    forall k :: from <= k < to && k <= |xs| ==> !AtBoundary(Fold(step, dev, xs[..k]).dev)
  }

  /** Where the command that starts the input ends: at the first command boundary from byte k on,
      or with the input, in the middle of a command (where the device's read times out). */
  ghost function CommandEnd<D>(step: Machine<Device<D>>, dev: Device<D>, xs: seq<byte>, k: nat): (n: nat)
    requires k <= |xs|
    ensures k <= n <= |xs| && (n == |xs| || AtBoundary(Fold(step, dev, xs[..n]).dev))
    decreases |xs| - k
  {
    if k == |xs| || AtBoundary(Fold(step, dev, xs[..k]).dev) then k else CommandEnd(step, dev, xs, k + 1)
  }

  lemma {:induction false} EndsThere<D>(step: Machine<Device<D>>, dev: Device<D>, xs: seq<byte>, k: nat, n: nat)
    requires k <= n <= |xs| && Busy(step, dev, xs, k, n)
    requires n == |xs| || AtBoundary(Fold(step, dev, xs[..n]).dev)
    ensures CommandEnd(step, dev, xs, k) == n
    decreases n - k
  {
    if k < n { EndsThere(step, dev, xs, k + 1, n); }
  }

  /** What the bytes of a command leave in the server and have it send. */
  datatype Effect<D> = Effect(buff: Sector, disk: D, out: seq<byte>)

  function EffectOf<D>(r: Reaction<Device<D>>): Effect<D> {
    Effect(r.dev.buff, r.dev.disk, r.out)
  }

  /** One command taken from input: its n bytes, and their effect. */
  ghost predicate OneCommand<D>(step: Machine<Device<D>>, start: Device<D>, input: seq<byte>, n: nat, e: Effect<D>) {
    1 <= n <= |input| && n == CommandEnd(step, start, input, 1) && EffectOf(Fold(step, start, input[..n])) == e
  }

  lemma CommandIs<D>(step: Machine<Device<D>>, start: Device<D>, input: seq<byte>, n: nat, e: Effect<D>)
    requires 1 <= n <= |input| && Busy(step, start, input, 1, n)
    requires var r := Fold(step, start, input[..n]); EffectOf(r) == e && (AtBoundary(r.dev) || n == |input|)
    ensures OneCommand(step, start, input, n, e)
  {
    EndsThere(step, start, input, 1, n);
  }

  /** The input never makes the server write outside its buffers (see NeverOutside). */
  predicate InBounds<D>(be: Backend<D>, start: Device<D>, input: seq<byte>) {
    FeedAll(be, start, input).dev.phase != Undefined
  }

  lemma ShortCommand<D>(be: Backend<D>, start: Device<D>, input: seq<byte>)
    requires AtBoundary(start) && input != [] && input[0] !in {2, 3, 4}
    ensures var f := Feed(be, start, input[0]);
            OneCommand(Server(be), start, input, 1, EffectOf(f))
  {
    FeedNext(be, start, input, 0);
    var f := Feed(be, start, input[0]);
    assert [] + f.out == f.out;
    CommandIs(Server(be), start, input, 1, EffectOf(f));
  }

  lemma CapsCommand<D>(be: Backend<D>, start: Device<D>, input: seq<byte>)
    requires AtBoundary(start) && input != [] && input[0] == LPTS_QUERY_DISK_CAPS
    ensures if |input| == 1 then OneCommand(Server(be), start, input, 1, Effect(start.buff, start.disk, []))
            else var w := Split32(be.blocks(start.disk, input[1]));
                 OneCommand(Server(be), start, input, 2, Effect(Splice(start.buff, w), start.disk, w))
  {
    FeedNext(be, start, input, 0);
    if |input| > 1 {
      FeedNext(be, start, input, 1);
      var w := Split32(be.blocks(start.disk, input[1]));
      assert [] + w == w;
      CommandIs(Server(be), start, input, 2, Effect(Splice(start.buff, w), start.disk, w));
    } else {
      CommandIs(Server(be), start, input, 1, Effect(start.buff, start.disk, []));
    }
  }

  /** While the header of a read is coming in, the command is not over. */
  lemma ReadBusy<D>(be: Backend<D>, start: Device<D>, input: seq<byte>)
    requires AtBoundary(start) && input != [] && input[0] == LPTS_READ_BLOCK
    ensures Busy(Server(be), start, input, 1, 6)
  {
    forall k | 1 <= k < 6 && k <= |input| ensures !AtBoundary(FeedAll(be, start, input[..k]).dev) {
      ReadHeaderFed(be, start, input, k);
    }
  }

  lemma ReadCutShort<D>(be: Backend<D>, start: Device<D>, input: seq<byte>)
    requires AtBoundary(start) && 1 <= |input| < 6 && input[0] == LPTS_READ_BLOCK
    ensures OneCommand(Server(be), start, input, |input|, Effect(Fill(start.buff, 0, input[1..]), start.disk, []))
  {
    ReadBusy(be, start, input);
    ReadHeaderFed(be, start, input, |input|);
    assert input[..|input|] == input;
    CommandIs(Server(be), start, input, |input|, Effect(Fill(start.buff, 0, input[1..]), start.disk, []));
  }

  lemma ReadCommand<D>(be: Backend<D>, start: Device<D>, input: seq<byte>, buff: Sector)
    requires AtBoundary(start) && |input| >= 6 && input[0] == LPTS_READ_BLOCK && InBounds(be, start, input)
    requires buff == Fill(start.buff, 0, input[1..6])
    ensures var f := FinishRead(be, buff, start.disk);
            AtBoundary(f.dev) && OneCommand(Server(be), start, input, 6, EffectOf(f))
  {
    ReadBusy(be, start, input);
    ReadHeaderEnds(be, start, input[..6]);
    assert input[..6][1..] == input[1..6];
    NeverOutside(be, start, input, 6);
    CommandIs(Server(be), start, input, 6, EffectOf(FinishRead(be, buff, start.disk)));
  }

  /** The server's state once a write header is complete. */
  function HeaderDone<D>(start: Device<D>, input: seq<byte>): Device<D>
    requires |input| >= 6
  {
    var buff := Fill(start.buff, 0, input[1..6]);
    Device(StartData(buff), buff, start.disk)
  }

  lemma WriteHeadCommand<D>(be: Backend<D>, start: Device<D>, input: seq<byte>)
    requires AtBoundary(start) && input != [] && input[0] == LPTS_WRITE_BLOCK
    ensures Busy(Server(be), start, input, 1, 6)
    ensures |input| < 6 ==>
              OneCommand(Server(be), start, input, |input|, Effect(Fill(start.buff, 0, input[1..]), start.disk, []))
    ensures |input| >= 6 ==> FeedAll(be, start, input[..6]) == Reaction(HeaderDone(start, input), [])
  {
    forall k | 1 <= k < 6 && k <= |input| ensures !AtBoundary(FeedAll(be, start, input[..k]).dev) {
      WriteHeaderFed(be, start, input, k);
    }
    if |input| < 6 {
      WriteHeaderFed(be, start, input, |input|);
      assert input[..|input|] == input;
      CommandIs(Server(be), start, input, |input|, Effect(Fill(start.buff, 0, input[1..]), start.disk, []));
    } else {
      WriteHeaderEnds(be, start, input[..6]);
      assert input[..6][1..] == input[1..6];
    }
  }

  /** From a complete header on, a command is what its data part is. */
  lemma DataCommand<D>(step: Machine<Device<D>>, start: Device<D>, input: seq<byte>, d: Device<D>, m: nat, e: Effect<D>)
    requires 6 + m <= |input| && Busy(step, start, input, 1, 6) && Busy(step, d, input[6..], 0, m)
    requires Fold(step, start, input[..6]) == Reaction(d, [])
    requires var r := Fold(step, d, input[6..][..m]); EffectOf(r) == e && (AtBoundary(r.dev) || 6 + m == |input|)
    ensures OneCommand(step, start, input, 6 + m, e)
  {
    hide Fold;
    forall k | 6 <= k <= 6 + m
      ensures Fold(step, start, input[..k]) == Fold(step, d, input[6..][..k - 6])
    {
      assert input[..k][..6] == input[..6] && input[..k][6..] == input[6..][..k - 6];
      FoldTail(step, start, input[..k], 6);
    }
    forall k | 1 <= k < 6 + m ensures !AtBoundary(Fold(step, start, input[..k]).dev) {
      if k >= 6 {
        assert !AtBoundary(Fold(step, d, input[6..][..k - 6]).dev);
      }
    }
    CommandIs(step, start, input, 6 + m, e);
  }

  /** While raw data is coming in, the command is not over. */
  lemma RawBusy<D>(be: Backend<D>, d: Device<D>, drv: byte, lba: nat, rest: seq<byte>)
    requires d.phase == RawData(drv, lba, 0)
    ensures Busy(Server(be), d, rest, 0, 512)
  {
    forall k | 0 <= k < 512 && k <= |rest| ensures !AtBoundary(FeedAll(be, d, rest[..k]).dev) {
      FeedRaw(be, drv, lba, d.buff, d.disk, rest[..k]);
    }
  }

  lemma RawCutShort<D>(be: Backend<D>, start: Device<D>, input: seq<byte>, d: Device<D>, drv: byte, lba: nat)
    requires AtBoundary(start) && 6 <= |input| < 518 && input[0] == LPTS_WRITE_BLOCK
    requires d == HeaderDone(start, input) && d.phase == RawData(drv, lba, 0)
    ensures OneCommand(Server(be), start, input, |input|, Effect(Fill(d.buff, 0, input[6..]), d.disk, []))
  {
    var rest := input[6..];
    WriteHeadCommand(be, start, input);
    RawBusy(be, d, drv, lba, rest);
    assert rest[..|rest|] == rest;
    FeedRaw(be, drv, lba, d.buff, d.disk, rest);
    DataCommand(Server(be), start, input, d, |rest|, Effect(Fill(d.buff, 0, rest), d.disk, []));
  }

  lemma RawCommand<D>(be: Backend<D>, start: Device<D>, input: seq<byte>, d: Device<D>, drv: byte, lba: nat, x: Sector)
    requires AtBoundary(start) && |input| >= 518 && input[0] == LPTS_WRITE_BLOCK && x == input[6..518]
    requires d == HeaderDone(start, input) && d.phase == RawData(drv, lba, 0)
    ensures var f := FinishWrite(be, drv, lba, x, d.disk);
            OneCommand(Server(be), start, input, 518, EffectOf(f))
  {
    WriteHeadCommand(be, start, input);
    RawBusy(be, d, drv, lba, input[6..]);
    assert input[6..][..512] == x;
    RawExchange(be, d, drv, lba, x);
    var f := FinishWrite(be, drv, lba, x, d.disk);
    DataCommand(Server(be), start, input, d, 512, EffectOf(f));
  }

  /** While packed data is coming in, the command is not over. */
  lemma PackedBusy<D>(be: Backend<D>, d: Device<D>, rest: seq<byte>)
    requires d.phase.PackedData? && d.phase.got == [] && (d.phase.total <= 512 || |rest| <= 512)
    ensures Busy(Server(be), d, rest, 0, d.phase.total)
  {
    forall k | 0 <= k < d.phase.total && k <= |rest| ensures !AtBoundary(FeedAll(be, d, rest[..k]).dev) {
      FeedPacked(be, d.phase.drv, d.phase.lba, d.phase.total, d.buff, d.disk, rest[..k]);
    }
  }

  lemma PackedCutShort<D>(be: Backend<D>, start: Device<D>, input: seq<byte>)
    requires AtBoundary(start) && |input| >= 6 && input[0] == LPTS_WRITE_BLOCK
    requires var d := HeaderDone(start, input);
             d.phase.PackedData? && |input| < 6 + d.phase.total && |input| <= 6 + 512
    ensures var d := HeaderDone(start, input);
            OneCommand(Server(be), start, input, |input|, Effect(d.buff, d.disk, []))
  {
    var d, rest := HeaderDone(start, input), input[6..];
    WriteHeadCommand(be, start, input);
    PackedBusy(be, d, rest);
    assert rest[..|rest|] == rest;
    FeedPacked(be, d.phase.drv, d.phase.lba, d.phase.total, d.buff, d.disk, rest);
    DataCommand(Server(be), start, input, d, |rest|, Effect(d.buff, d.disk, []));
  }

  /** However long the packed data that a header announces, no more than 512 bytes of it have come. */
  lemma PackedInside<D>(be: Backend<D>, start: Device<D>, input: seq<byte>)
    requires AtBoundary(start) && |input| >= 6 && input[0] == LPTS_WRITE_BLOCK && InBounds(be, start, input)
    requires HeaderDone(start, input).phase.PackedData?
    ensures HeaderDone(start, input).phase.total <= 512 || |input| <= 6 + 512
  {
    var d := HeaderDone(start, input);
    if d.phase.total > 512 && |input| > 6 + 512 {
      var cut := input[..6 + 513];
      WriteHeadCommand(be, start, input);
      assert cut[..6] == input[..6];
      PackedOverflows(be, d.phase.drv, d.phase.lba, d.phase.total, d.buff, d.disk, cut[6..]);
      FeedTail(be, start, cut, 6);
      NeverOutside(be, start, input, 6 + 513);
    }
  }

  lemma PackedCommand<D>(be: Backend<D>, start: Device<D>, input: seq<byte>, e: seq<byte>)
    requires AtBoundary(start) && |input| >= 6 && input[0] == LPTS_WRITE_BLOCK && InBounds(be, start, input)
    requires var d := HeaderDone(start, input);
             d.phase.PackedData? && |input| >= 6 + d.phase.total && e == input[6..6 + d.phase.total] && |e| <= 512
    ensures var d := HeaderDone(start, input);
            var w := Decode(e, 0, []).bytes;
            |w| <= 512 &&
            var f := FinishWrite(be, d.phase.drv, d.phase.lba, Splice(d.buff, w), d.disk);
            OneCommand(Server(be), start, input, 6 + |e|, EffectOf(f))
  {
    var d, rest, cut := HeaderDone(start, input), input[6..], input[..6 + |e|];
    var drv, lba := d.phase.drv, d.phase.lba;
    WriteHeadCommand(be, start, input);
    PackedBusy(be, d, rest);
    PackedEnds(be, d, drv, lba, e);
    assert cut[..6] == input[..6] && cut[6..] == e == rest[..|e|];
    FeedTail(be, start, cut, 6);
    NeverOutside(be, start, input, 6 + |e|);
    var u := Unpack(be, drv, lba, e, d.buff, d.disk);
    DataCommand(Server(be), start, input, d, |e|, EffectOf(u));
  }

  lemma SpliceOver(s: Sector, b: byte, w: seq<byte>)
    requires 1 <= |w| <= 512
    ensures Splice([b] + s[1..], w) == Splice(s, w)
  {
  }

  lemma OverwriteStep(all: seq<byte>, before: seq<byte>, i: nat)
    requires i < |all| && i < |before|
    ensures (all[..i] + before[i..])[i := all[i]] == all[..i + 1] + before[i + 1..]
  {
  }

  /** The device: its two buffers, the disk behind it, the bytes still to arrive and the bytes sent. */
  class LptServer<D> {
    const be: Backend<D>
    const buff: array<byte>
    const compressBuff: array<byte>
    var disk: D
    var rx: seq<byte>
    var tx: seq<byte>

    ghost predicate Valid()
      reads this
    {
      buff.Length == 512 && compressBuff.Length == 512 && buff != compressBuff
    }

    ghost function Now(): Device<D>
      reads this, buff
      requires Valid()
    {
      Device(Idle, buff[..], disk)
    }

    constructor (be: Backend<D>, disk: D, rx: seq<byte>)
      ensures Valid() && fresh(buff) && fresh(compressBuff)
      ensures this.be == be && this.disk == disk && this.rx == rx && tx == []
    {
      this.be, this.disk, this.rx, this.tx := be, disk, rx, [];
      buff := new byte[512];
      compressBuff := new byte[512];
    }

    /** lptcomms_readbytes: -1 when the line falls silent first. */
    method ReadBytes(a: array<byte>, len: nat) returns (r: int)
      requires len <= a.Length || |rx| <= a.Length
      modifies this`rx, a
      ensures var n := if len <= |old(rx)| then len else |old(rx)|;
              && rx == old(rx)[n..] && a[..] == old(rx)[..n] + old(a[..])[n..]
              && r == (if len <= |old(rx)| then 0 else -1)
    {
      ghost var all, before := rx, a[..];
      var i := 0;
      while i < len
        invariant 0 <= i <= len && i <= |all|
        invariant rx == all[i..] && a[..] == all[..i] + before[i..]
      {
        if rx == [] { return -1; }
        OverwriteStep(all, before, i);
        a[i] := rx[0];
        assert a[..] == (all[..i] + before[i..])[i := all[i]];
        rx := rx[1..];
        i := i + 1;
      }
      return 0;
    }

    method WriteByte(b: byte)
      modifies this`tx
      ensures tx == old(tx) + [b]
    {
      tx := tx + [b];
    }

    /** lptcomms_writebytes; the host takes every byte. */
    method WriteBytes(a: array<byte>, len: nat)
      requires len <= a.Length
      modifies this`tx
      ensures tx == old(tx) + a[..len]
    {
      for i := 0 to len
        invariant tx == old(tx) + a[..i]
      {
        WriteByte(a[i]);
      }
    }

    /** The five header bytes, as far as they come. */
    method ReadHeader(ghost input: seq<byte>) returns (ok: bool)
      requires Valid() && input != [] && rx == input[1..]
      modifies this`rx, buff
      ensures Valid() && ok == (|input| >= 6) && rx == if ok then input[6..] else []
      ensures buff[..] == Fill(old(Now()).buff, 0, if ok then input[1..6] else input[1..])
    {
      ghost var before := buff[..];
      var r := ReadBytes(buff, 5);
      ok := r >= 0;
      ghost var h := if ok then input[1..6] else input[1..];
      assert buff[..] == h + before[|h|..] == Fill(before, 0, h);
    }

    /** Sending a sector, packed when that is shorter. */
    method SendSector()
      requires Valid() && !WritesCell512(buff[..])
      modifies this`tx, compressBuff
      ensures tx == old(tx) + ReadReply(buff[..])
    {
      hide Encode, WritesCell512;
      ghost var x: Sector := buff[..];
      assert buff[0..0 + 512] == x;
      var c := Compress(compressBuff, buff, 0);
      if c != 0 {
        WriteByte(2);
        WriteByte(c / 256);
        WriteByte(c % 256);
        assert compressBuff[..c] == Encode(x);
        WriteBytes(compressBuff, c);
        assert tx == old(tx) + ([2, c / 256, c % 256] + Encode(x));
      } else {
        WriteByte(0);
        WriteBytes(buff, 512);
        assert tx == old(tx) + ([0] + x);
      }
    }

    /** One command has been taken from input since the server was start with sent behind it: its n
        bytes are gone and it has had effect e. */
    ghost predicate Took(start: Device<D>, sent: seq<byte>, input: seq<byte>, n: nat, e: Effect<D>)
      reads this, buff
    {
      && Valid() && n <= |input| && rx == input[n..] && tx == sent + e.out
      && buff[..] == e.buff && disk == e.disk && OneCommand(Server(be), start, input, n, e)
    }

    /** The read command, after its command byte. */
    method ServeRead(ghost input: seq<byte>) returns (ghost n: nat, ghost e: Effect<D>)
      requires Valid() && input != [] && input[0] == LPTS_READ_BLOCK && rx == input[1..]
      requires InBounds(be, Now(), input)
      modifies this, buff, compressBuff
      ensures Took(old(Now()), old(tx), input, n, e)
    {
      hide OneCommand, Fold, FinishRead, Fill;
      ghost var start := Now();
      var ok := ReadHeader(input);
      if ok {
        ghost var f := FinishRead(be, buff[..], disk);
        ReadCommand(be, start, input, buff[..]);
        n, e := 6, EffectOf(f);
        FetchSector();
      } else {
        ReadCutShort(be, start, input);
        n, e := |input|, Effect(buff[..], disk, []);
        assert tx + [] == tx;
      }
    }

    /** The disk access that a read header in buff asks for, and the reply. */
    method FetchSector()
      requires Valid() && AtBoundary(FinishRead(be, buff[..], disk).dev)
      modifies this, buff, compressBuff
      ensures Valid() && rx == old(rx)
      ensures var f := FinishRead(be, old(buff[..]), old(disk));
              buff[..] == f.dev.buff && disk == f.dev.disk && tx == old(tx) + f.out
    {
      var (disk', status, x) := be.read(disk, buff[0], Word32(buff[..]));
      disk := disk';
      if status == 0 {
        forall k | 0 <= k < 512 { buff[k] := x[k]; }
        assert buff[..] == x;
        SendSector();
      } else {
        WriteByte(1);
      }
    }

    /** The write command, after its command byte. */
    method ServeWrite(ghost input: seq<byte>) returns (ghost n: nat, ghost e: Effect<D>)
      requires Valid() && input != [] && input[0] == LPTS_WRITE_BLOCK && rx == input[1..]
      requires InBounds(be, Now(), input)
      modifies this, buff, compressBuff
      ensures Took(old(Now()), old(tx), input, n, e)
    {
      hide OneCommand, Fold;
      ghost var start := Now();
      WriteHeadCommand(be, start, input);
      var ok := ReadHeader(input);
      if ok {
        var drv, compressed, lba := buff[0], Word16(buff[1], buff[2]), Word16(buff[3], buff[4]);
        if compressed == 0 {
          n, e := ServeRaw(start, input, drv, lba);
        } else {
          n, e := ServePacked(start, input, drv, lba, compressed);
        }
      } else {
        n, e := |input|, Effect(buff[..], disk, []);
        assert tx + [] == tx;
      }
    }

    method ServeRaw(ghost start: Device<D>, ghost input: seq<byte>, drv: byte, lba: nat)
      returns (ghost n: nat, ghost e: Effect<D>)
      requires Valid() && AtBoundary(start) && |input| >= 6 && input[0] == LPTS_WRITE_BLOCK && rx == input[6..]
      requires HeaderDone(start, input) == Device(RawData(drv, lba, 0), buff[..], disk)
      modifies this, buff, compressBuff
      ensures Took(start, old(tx), input, n, e)
    {
      hide OneCommand, Fold, HeaderDone;
      ghost var header, d: Device<D> := buff[..], HeaderDone(start, input);
      var r := ReadBytes(buff, 512);
      if r < 0 {
        RawCutShort(be, start, input, d, drv, lba);
        assert buff[..] == Fill(header, 0, input[6..]);
        n, e := |input|, Effect(buff[..], disk, []);
        assert tx + [] == tx;
      } else {
        assert buff[..] == input[6..518];
        RawCommand(be, start, input, d, drv, lba, buff[..]);
        n, e := 518, EffectOf(FinishWrite(be, drv, lba, buff[..], disk));
        StoreSector(drv, lba);
      }
    }

    method ServePacked(ghost start: Device<D>, ghost input: seq<byte>, drv: byte, lba: nat, compressed: nat)
      returns (ghost n: nat, ghost e: Effect<D>)
      requires Valid() && AtBoundary(start) && |input| >= 6 && input[0] == LPTS_WRITE_BLOCK && rx == input[6..]
      requires InBounds(be, start, input) && compressed > 0
      requires HeaderDone(start, input) == Device(PackedData(drv, lba, compressed, []), buff[..], disk)
      modifies this, buff, compressBuff
      ensures Took(start, old(tx), input, n, e)
    {
      hide OneCommand, Fold, HeaderDone, Decode, InBounds;
      ghost var header: Sector := buff[..];
      PackedInside(be, start, input);
      var r := ReadBytes(compressBuff, compressed);
      if r < 0 {
        PackedCutShort(be, start, input);
        n, e := |input|, Effect(buff[..], disk, []);
        assert tx + [] == tx;
      } else {
        ghost var packed := input[6..6 + compressed];
        PackedCommand(be, start, input, packed);
        assert compressBuff[..compressed] == compressBuff[..][..compressed] == packed;
        ghost var w := Decode(packed, 0, []).bytes;
        var count := Decompress(buff, 0, compressBuff, compressed);
        assert buff[0..0 + |w|] == w && buff[..] == Splice(header, w);
        n, e := 6 + compressed, EffectOf(FinishWrite(be, drv, lba, buff[..], disk));
        StoreSector(drv, lba);
      }
    }

    /** The disk access that ends a write, and its status byte. */
    method StoreSector(drv: byte, lba: nat)
      requires Valid()
      modifies this
      ensures Valid() && buff[..] == old(buff[..]) && rx == old(rx)
      ensures var f := FinishWrite(be, drv, lba, buff[..], old(disk));
              disk == f.dev.disk && tx == old(tx) + f.out
    {
      var (disk', status) := be.write(disk, drv, lba, buff[..]);
      disk := disk';
      WriteByte(status);
    }

    /** lptprotocol_task: does nothing without a byte to read, else takes exactly one command. */
    method Task() returns (ghost n: nat, ghost e: Effect<D>)
      requires Valid() && InBounds(be, Now(), rx)
      modifies this, buff, compressBuff
      ensures Valid()
      ensures if old(rx) == [] then tx == old(tx) && Now() == old(Now()) && rx == []
              else Took(old(Now()), old(tx), old(rx), n, e)
    {
      hide Took, InBounds;
      n, e := 0, Effect(buff[..], disk, []);
      if rx != [] {
        ghost var input := rx;
        var cmd := rx[0];
        rx := rx[1..];
        if cmd == LPTS_READ_BLOCK {
          n, e := ServeRead(input);
        } else if cmd == LPTS_WRITE_BLOCK {
          n, e := ServeWrite(input);
        } else if cmd == LPTS_QUERY_DISK_CAPS {
          n, e := ServeCaps(input);
        } else {
          n, e := ServeQuery(input, cmd);
        }
      }
    }

    /** The capacity query, after its command byte. */
    method ServeCaps(ghost input: seq<byte>) returns (ghost n: nat, ghost e: Effect<D>)
      requires Valid() && input != [] && input[0] == LPTS_QUERY_DISK_CAPS && rx == input[1..]
      modifies this, buff
      ensures Took(old(Now()), old(tx), input, n, e)
    {
      hide OneCommand, Fold, Split32;
      ghost var start := Now();
      CapsCommand(be, start, input);
      var r := ReadBytes(buff, 1);
      if r >= 0 {
        ghost var w := Split32(be.blocks(disk, input[1]));
        assert buff[..] == input[1..2] + start.buff[1..] && input[1..2] == [input[1]];
        SpliceOver(start.buff, input[1], w);
        SendWord(be.blocks(disk, buff[0]));
        n, e := 2, Effect(Splice(start.buff, w), start.disk, w);
      } else {
        assert buff[..] == start.buff && tx + [] == tx;
        n, e := 1, Effect(start.buff, start.disk, []);
      }
    }

    /** The other commands. An unknown byte, 0xff among them, is dropped. */
    method ServeQuery(ghost input: seq<byte>, cmd: byte) returns (ghost n: nat, ghost e: Effect<D>)
      requires Valid() && input != [] && input[0] == cmd && rx == input[1..]
      requires cmd !in {LPTS_READ_BLOCK, LPTS_WRITE_BLOCK, LPTS_QUERY_DISK_CAPS}
      modifies this, buff
      ensures Took(old(Now()), old(tx), input, n, e)
    {
      hide OneCommand, Fold, Split32;
      ghost var start := Now();
      ShortCommand(be, start, input);
      n, e := 1, EffectOf(Feed(be, start, cmd));
      if cmd == LPTS_HELLO {
        buff[0], buff[1] := LPTS_VERSION_MAJOR, LPTS_VERSION_MINOR;
        assert buff[..2] == [LPTS_VERSION_MAJOR, LPTS_VERSION_MINOR];
        assert buff[..] == Splice(start.buff, buff[..2]);
        WriteBytes(buff, 2);
      } else if cmd == LPTS_QUERY_DISKS {
        SendWord(be.drives(disk));
      } else {
        assert tx + [] == tx;
      }
    }

    /** A 32-bit answer, most significant byte first. */
    method SendWord(w: nat)
      requires Valid()
      modifies this`tx, buff
      ensures tx == old(tx) + Split32(w) && buff[..] == Splice(old(buff[..]), Split32(w))
    {
      buff[0], buff[1] := w / 0x100_0000 % 256, w / 0x1_0000 % 256;
      buff[2], buff[3] := w / 0x100 % 256, w % 256;
      WriteBytes(buff, 4);
    }

    /** The device's main loop: commands are served until the input is used up. Cutting the
        input into commands makes no difference to what the byte-at-a-time machine does. */
    method ServeAll()
      requires Valid() && InBounds(be, Now(), rx)
      modifies this, buff, compressBuff
      ensures Valid() && rx == []
      ensures var r := FeedAll(be, old(Now()), old(rx));
              tx == old(tx) + r.out && disk == r.dev.disk && buff[..] == r.dev.buff
    {
      hide FeedAll, InBounds, OneCommand, Consumed;
      ghost var start, all, sent := Now(), rx, tx;
      ghost var n, got := 0, [];
      ConsumedNone(be, start, all);
      assert all[0..] == all && sent + [] == sent;
      while rx != []
        invariant Valid() && 0 <= n <= |all| && rx == all[n..] && tx == sent + got
        invariant Consumed(be, start, all, n, Effect(buff[..], disk, got))
        decreases |rx|
      {
        NowInBounds(be, start, all, n, buff[..], disk, got);
        ghost var now := Now();
        ghost var m, e := Task();
        ConsumedMore(be, start, all, n, now, got, m, e);
        assert all[n..][m..] == all[n + m..] && sent + got + e.out == sent + (got + e.out);
        n, got := n + m, got + e.out;
      }
      ConsumedAll(be, start, all, Effect(buff[..], disk, got));
    }
  }

  /** The first n bytes of all have been served, with that effect; the rest starts a command. */
  ghost predicate Consumed<D>(be: Backend<D>, start: Device<D>, all: seq<byte>, n: nat, e: Effect<D>) {
    && n <= |all| && InBounds(be, start, all)
    && EffectOf(FeedAll(be, start, all[..n])) == e
    && (n == |all| || AtBoundary(FeedAll(be, start, all[..n]).dev))
  }

  lemma ConsumedNone<D>(be: Backend<D>, start: Device<D>, all: seq<byte>)
    requires AtBoundary(start) && InBounds(be, start, all)
    ensures Consumed(be, start, all, 0, Effect(start.buff, start.disk, []))
  {
    assert all[..0] == [];
  }

  lemma ConsumedAll<D>(be: Backend<D>, start: Device<D>, all: seq<byte>, e: Effect<D>)
    requires Consumed(be, start, all, |all|, e)
    ensures EffectOf(FeedAll(be, start, all)) == e
  {
    assert all[..|all|] == all;
  }

  lemma NowInBounds<D>(be: Backend<D>, start: Device<D>, all: seq<byte>, n: nat, buff: Sector, disk: D, got: seq<byte>)
    requires Consumed(be, start, all, n, Effect(buff, disk, got)) && n < |all|
    ensures InBounds(be, Device(Idle, buff, disk), all[n..])
  {
    hide Fold;
    RestInBounds(be, start, all, n);
  }

  lemma ConsumedMore<D>(be: Backend<D>, start: Device<D>, all: seq<byte>, n: nat, now: Device<D>, got: seq<byte>,
                        m: nat, e: Effect<D>)
    requires Consumed(be, start, all, n, Effect(now.buff, now.disk, got)) && n < |all| && AtBoundary(now)
    requires OneCommand(Server(be), now, all[n..], m, e)
    ensures m > 0 && Consumed(be, start, all, n + m, e.(out := got + e.out))
  {
    hide Fold, InBounds;
    var head, mid := all[..n], all[n..][..m];
    assert head + mid == all[..n + m];
    FeedAllSplits(be, start, head, mid);
  }

  lemma RestInBounds<D>(be: Backend<D>, start: Device<D>, all: seq<byte>, n: nat)
    requires n <= |all| && InBounds(be, start, all)
    ensures InBounds(be, FeedAll(be, start, all[..n]).dev, all[n..])
  {
    assert all == all[..n] + all[n..];
    FeedAllSplits(be, start, all[..n], all[n..]);
  }

  lemma {:induction false} UndefinedStays<D>(be: Backend<D>, start: Device<D>, xs: seq<byte>)
    requires start.phase == Undefined
    ensures FeedAll(be, start, xs).dev.phase == Undefined
    decreases |xs|
  {
    if xs != [] {
      UndefinedStays(be, start, xs[..|xs| - 1]);
      FeedLast(be, start, xs);
    }
  }

  /** A server that left its buffers never comes back, so in bounds at the end is in bounds all
      the way. Input that ends on a command boundary is in bounds. */
  lemma NeverOutside<D>(be: Backend<D>, start: Device<D>, xs: seq<byte>, k: nat)
    requires k <= |xs| && InBounds(be, start, xs)
    ensures FeedAll(be, start, xs[..k]).dev.phase != Undefined
  {
    var d := FeedAll(be, start, xs[..k]).dev;
    if d.phase == Undefined {
      assert xs == xs[..k] + xs[k..];
      FeedAllSplits(be, start, xs[..k], xs[k..]);
      UndefinedStays(be, d, xs[k..]);
    }
  }
}
