// Whole sessions of driver calls over the line, compared with the same calls made directly on
// the disk; and what those direct calls do to a plain array of sectors.
module Session {
  import opened Bytes
  import opened Line
  import opened Protocol
  import opened Host

  datatype Request =
    | ReadBlocks(unit: nat, lbn: nat, count: nat)
    | WriteBlocks(unit: nat, lbn: nat, blocks: seq<Sector>)
  {
    predicate Valid() { lbn < 0x1_0000 }
  }

  /** What the caller gets back: the status and, for a successful read, the data. */
  datatype Answer = Data(blocks: seq<Sector>) | Done | Failed

  datatype Called<D> = Called(disk: D, answer: Answer)

  datatype Served<D> = Served(disk: D, answers: seq<Answer>)

  function DirectCall<D>(be: Backend<D>, d: D, q: Request): Called<D> {
    match q
    case ReadBlocks(unit, lbn, count) =>
      var r := DirectRead(be, d, unit, lbn, count);
      Called(r.disk, if r.ok then Data(r.blocks) else Failed)
    case WriteBlocks(unit, lbn, blocks) =>
      var w := DirectWrite(be, d, unit, lbn, blocks);
      Called(w.disk, if w.ok then Done else Failed)
  }

  function DirectSession<D>(be: Backend<D>, d: D, qs: seq<Request>): Served<D>
    decreases |qs|
  {
    if qs == [] then Served(d, [])
    else
      var c := DirectCall(be, d, qs[0]);
      var rest := DirectSession(be, c.disk, qs[1..]);
      Served(rest.disk, [c.answer] + rest.answers)
  }

  /** What the driver sends for a call. */
  function CallTalk<D>(be: Backend<D>, d: D, q: Request): seq<byte> {
    match q
    case ReadBlocks(unit, lbn, count) => ReadTalk(be, d, unit, lbn, count)
    case WriteBlocks(unit, lbn, blocks) => WriteTalk(be, d, unit, lbn, blocks)
  }

  function SessionTalk<D>(be: Backend<D>, d: D, qs: seq<Request>): seq<byte>
    decreases |qs|
  {
    if qs == [] then [] else CallTalk(be, d, qs[0]) + SessionTalk(be, DirectCall(be, d, qs[0]).disk, qs[1..])
  }

  /** Every block a call reads is one the server can compress inside its buffer. */
  ghost predicate SafeCall<D>(be: Backend<D>, d: D, q: Request) {
    q.ReadBlocks? ==> Fitting(DirectRead(be, d, q.unit, q.lbn, q.count).blocks)
  }

  ghost predicate SafeSession<D>(be: Backend<D>, d: D, qs: seq<Request>)
    decreases |qs|
  {
    qs == [] || (SafeCall(be, d, qs[0]) && SafeSession(be, DirectCall(be, d, qs[0]).disk, qs[1..]))
  }

  lemma {:induction false} ReadLength<D>(be: Backend<D>, d: D, unit: nat, lbn: nat, count: nat)
    ensures var r := DirectRead(be, d, unit, lbn, count);
            |r.blocks| <= count && (r.ok <==> |r.blocks| == count)
    decreases count
  {
    if count > 0 {
      ReadLength(be, be.read(d, unit % 256, lbn).0, unit, NextBlock(lbn), count - 1);
    }
  }

  method ReadCall<D>(be: Backend<D>, link: Link<Device<D>>, unit: nat, lbn: nat, count: nat, compressBuff: array<byte>)
    returns (a: Answer)
    requires Ready(be, link) && lbn < 0x1_0000 && compressBuff.Length == 1024
    requires Fitting(DirectRead(be, link.dev.disk, unit, lbn, count).blocks)
    modifies link, compressBuff
    ensures Ready(be, link)
    ensures link.talk.Heard() == old(link.talk.Heard()) + ReadTalk(be, old(link.dev.disk), unit, lbn, count)
    ensures Called(link.dev.disk, a) == DirectCall(be, old(link.dev.disk), ReadBlocks(unit, lbn, count))
  {
    hide Ready, DirectRead, ReadTalk, Fitting;
    ReadLength(be, link.dev.disk, unit, lbn, count);
    ghost var r := DirectRead(be, link.dev.disk, unit, lbn, count);
    var buffer := new byte[512 * count];
    ghost var before := buffer[..];
    var ret := LPTRead(be, link, unit, lbn, buffer, count, compressBuff);
    if r.ok { FlatSectors(buffer[..], r.blocks); }
    a := if ret == RES_OK then Data(Sectors(buffer[..], count)) else Failed;
  }

  /** The caller's data in memory. */
  method CallersBuffer(blocks: seq<Sector>) returns (buffer: array<byte>)
    ensures fresh(buffer) && buffer.Length == 512 * |blocks| && Sectors(buffer[..], |blocks|) == blocks
  {
    buffer := new byte[512 * |blocks|](k requires 0 <= k < 512 * |blocks| => blocks[k / 512][k % 512]);
    forall j | 0 <= j < |blocks| ensures Sectors(buffer[..], |blocks|)[j] == blocks[j] {
      assert buffer[..][512 * j..512 * j + 512] == blocks[j];
    }
  }

  method WriteCall<D>(be: Backend<D>, link: Link<Device<D>>, unit: nat, lbn: nat, blocks: seq<Sector>,
                      compressBuff: array<byte>)
    returns (a: Answer)
    requires Ready(be, link) && lbn < 0x1_0000 && compressBuff.Length == 1024
    modifies link, compressBuff
    ensures Ready(be, link)
    ensures link.talk.Heard() == old(link.talk.Heard()) + WriteTalk(be, old(link.dev.disk), unit, lbn, blocks)
    ensures Called(link.dev.disk, a) == DirectCall(be, old(link.dev.disk), WriteBlocks(unit, lbn, blocks))
  {
    hide Ready, DirectWrite, WriteTalk;
    var buffer := CallersBuffer(blocks);
    var ret := LPTWrite(be, link, unit, lbn, buffer, |blocks|, compressBuff);
    a := if ret == RES_OK then Done else Failed;
  }

  method Call<D>(be: Backend<D>, link: Link<Device<D>>, q: Request, compressBuff: array<byte>) returns (a: Answer)
    requires Ready(be, link) && q.Valid() && SafeCall(be, link.dev.disk, q) && compressBuff.Length == 1024
    modifies link, compressBuff
    ensures Ready(be, link)
    ensures link.talk.Heard() == old(link.talk.Heard()) + CallTalk(be, old(link.dev.disk), q)
    ensures Called(link.dev.disk, a) == DirectCall(be, old(link.dev.disk), q)
  {
    hide Ready, DirectRead, DirectWrite, ReadTalk, WriteTalk, Fitting;
    match q {
      case ReadBlocks(unit, lbn, count) => a := ReadCall(be, link, unit, lbn, count, compressBuff);
      case WriteBlocks(unit, lbn, blocks) => a := WriteCall(be, link, unit, lbn, blocks, compressBuff);
    }
  }

  /** answers are those to the calls made so far, and qs are still to be made on disk d. */
  ghost predicate ServedSoFar<D>(whole: Served<D>, be: Backend<D>, d: D, qs: seq<Request>, answers: seq<Answer>) {
    whole == Resumed(answers, DirectSession(be, d, qs))
  }

  function Resumed<D>(answers: seq<Answer>, rest: Served<D>): Served<D> {
    Served(rest.disk, answers + rest.answers)
  }

  lemma SessionStep<D>(whole: Served<D>, be: Backend<D>, d: D, qs: seq<Request>, answers: seq<Answer>)
    requires qs != [] && ServedSoFar(whole, be, d, qs, answers)
    ensures var c := DirectCall(be, d, qs[0]);
            ServedSoFar(whole, be, c.disk, qs[1..], answers + [c.answer])
  {
    hide DirectCall;
    var c := DirectCall(be, d, qs[0]);
    var rest := DirectSession(be, c.disk, qs[1..]);
    assert answers + ([c.answer] + rest.answers) == answers + [c.answer] + rest.answers;
  }

  lemma SessionEnd<D>(whole: Served<D>, be: Backend<D>, d: D, answers: seq<Answer>)
    requires ServedSoFar(whole, be, d, [], answers)
    ensures whole == Served(d, answers)
  {
    assert answers + [] == answers;
  }

  /** heard has been sent, and the driver is to send the rest of total for the calls qs. */
  ghost predicate SaidSoFar<D>(total: seq<byte>, be: Backend<D>, d: D, qs: seq<Request>, heard: seq<byte>) {
    total == heard + SessionTalk(be, d, qs) && SafeSession(be, d, qs)
  }

  lemma TalkStep<D>(total: seq<byte>, be: Backend<D>, d: D, qs: seq<Request>, heard: seq<byte>)
    requires qs != [] && SaidSoFar(total, be, d, qs, heard)
    ensures SafeCall(be, d, qs[0])
    ensures SaidSoFar(total, be, DirectCall(be, d, qs[0]).disk, qs[1..], heard + CallTalk(be, d, qs[0]))
  {
    hide CallTalk, DirectCall, SafeCall;
    var said, rest := CallTalk(be, d, qs[0]), SessionTalk(be, DirectCall(be, d, qs[0]).disk, qs[1..]);
    assert heard + (said + rest) == heard + said + rest;
  }

  lemma TalkEnd<D>(total: seq<byte>, be: Backend<D>, d: D, heard: seq<byte>)
    requires SaidSoFar(total, be, d, [], heard)
    ensures total == heard
  {
    assert heard + [] == heard;
  }

  /**
    Every run of driver calls over the line leaves the disk, and gives the caller, exactly what
    the same calls made directly on the disk would, as long as the server can compress what it
    reads. The line stays in step throughout, so the server is at a command boundary after
    every call.
   */
  method RunSession<D>(be: Backend<D>, link: Link<Device<D>>, qs: seq<Request>) returns (answers: seq<Answer>)
    requires Ready(be, link) && SafeSession(be, link.dev.disk, qs) && forall q :: q in qs ==> q.Valid()
    modifies link
    ensures Ready(be, link)
    ensures link.talk.Heard() == old(link.talk.Heard()) + SessionTalk(be, old(link.dev.disk), qs)
    ensures Served(link.dev.disk, answers) == DirectSession(be, old(link.dev.disk), qs)
  {
    hide Ready, DirectSession, SessionTalk, DirectCall, CallTalk, SafeCall, ServedSoFar, SaidSoFar;
    ghost var d, heard := link.dev.disk, link.talk.Heard();
    ghost var whole, total := DirectSession(be, d, qs), heard + SessionTalk(be, d, qs);
    var compressBuff := new byte[1024];
    var left := qs;
    answers := [];
    SessionStart(be, d, qs, heard);
    while left != []
      invariant Ready(be, link)
      invariant forall q :: q in left ==> q.Valid()
      invariant ServedSoFar(whole, be, link.dev.disk, left, answers)
      invariant SaidSoFar(total, be, link.dev.disk, left, link.talk.Heard())
      decreases |left|
    {
      SessionStep(whole, be, link.dev.disk, left, answers);
      TalkStep(total, be, link.dev.disk, left, link.talk.Heard());
      var a := Call(be, link, left[0], compressBuff);
      answers := answers + [a];
      left := left[1..];
    }
    SessionEnd(whole, be, link.dev.disk, answers);
    TalkEnd(total, be, link.dev.disk, link.talk.Heard());
  }

  lemma SessionStart<D>(be: Backend<D>, d: D, qs: seq<Request>, heard: seq<byte>)
    ensures ServedSoFar(DirectSession(be, d, qs), be, d, qs, [])
    ensures SafeSession(be, d, qs) ==> SaidSoFar(heard + SessionTalk(be, d, qs), be, d, qs, heard)
  {
    var s := DirectSession(be, d, qs);
    assert [] + s.answers == s.answers;
  }

  // ------------------------------------------------------------ a plain array

  /** An array of sectors, blank where never written, with some unreadable and unwritable places. */
  datatype Plain = Plain(cells: map<(nat, nat), Sector>, bad: set<(nat, nat)>) {
    function Cell(unit: nat, lbn: nat): Sector {
      if (unit, lbn) in cells then cells[(unit, lbn)] else Zeros(512)
    }
  }

  function PlainGet(d: Plain, unit: byte, lbn: nat): (Plain, byte, Sector) {
    (d, if (unit, lbn) in d.bad then 1 else 0, d.Cell(unit, lbn))
  }

  function PlainPut(d: Plain, unit: byte, lbn: nat, x: Sector): (Plain, byte) {
    if (unit, lbn) in d.bad then (d, 1) else (Plain(d.cells[(unit as nat, lbn) := x], d.bad), 0)
  }

  function PlainBackend(): Backend<Plain> {
    Backend(PlainGet, PlainPut, (d: Plain) => 0xffff, (d: Plain, unit: byte) => 0x1_0000)
  }

  /** How many of the count blocks from lbn on come before the first bad one. */
  function GoodRun(d: Plain, unit: nat, lbn: nat, count: nat): (n: nat)
    ensures n <= count
    ensures forall l :: lbn <= l < lbn + n ==> (unit, l) !in d.bad
    ensures n < count ==> (unit, lbn + n) in d.bad
    decreases count
  {
    if count == 0 || (unit, lbn) in d.bad then 0 else 1 + GoodRun(d, unit, lbn + 1, count - 1)
  }

  function Cells(d: Plain, unit: nat, lbn: nat, n: nat): (xs: seq<Sector>)
    ensures |xs| == n && forall j: nat :: j < n ==> xs[j] == d.Cell(unit, lbn + j)
  {
    if n == 0 then [] else Cells(d, unit, lbn, n - 1) + [d.Cell(unit, lbn + n - 1)]
  }

  lemma CellsFirst(d: Plain, unit: nat, lbn: nat, n: nat)
    requires n > 0
    ensures Cells(d, unit, lbn, n) == [d.Cell(unit, lbn)] + Cells(d, unit, lbn + 1, n - 1)
  {
    var xs, ys := Cells(d, unit, lbn, n), Cells(d, unit, lbn + 1, n - 1);
    forall j | 1 <= j < n ensures xs[j] == ys[j - 1] {
      assert ys[j - 1] == d.Cell(unit, lbn + 1 + (j - 1));
    }
  }

  // DirectRead and DirectWrite on the plain array, without the indirection of a Backend.

  function ReadCells(d: Plain, unit: byte, lbn: nat, count: nat): Reads<Plain>
    decreases count
  {
    if count == 0 then Reads(d, [], true)
    else if (unit, lbn) in d.bad then Reads(d, [], false)
    else
      var r := ReadCells(d, unit, lbn + 1, count - 1);
      Reads(r.disk, [d.Cell(unit, lbn)] + r.blocks, r.ok)
  }

  function WriteCells(d: Plain, unit: byte, lbn: nat, blocks: seq<Sector>): Writes<Plain>
    decreases |blocks|
  {
    if blocks == [] then Writes(d, true)
    else if (unit, lbn) in d.bad then Writes(d, false)
    else WriteCells(PlainPut(d, unit, lbn, blocks[0]).0, unit, lbn + 1, blocks[1..])
  }

  lemma {:induction false} DirectIsReadCells(d: Plain, unit: nat, lbn: nat, count: nat)
    requires lbn + count <= 0x1_0000
    ensures DirectRead(PlainBackend(), d, unit, lbn, count) == ReadCells(d, unit % 256, lbn, count)
    decreases count
  {
    if count > 0 {
      assert PlainBackend().read(d, unit % 256, lbn) == PlainGet(d, unit % 256, lbn);
      if count > 1 { DirectIsReadCells(d, unit, lbn + 1, count - 1); }
    }
  }

  lemma {:induction false} DirectIsWriteCells(d: Plain, unit: nat, lbn: nat, blocks: seq<Sector>)
    requires lbn + |blocks| <= 0x1_0000
    ensures DirectWrite(PlainBackend(), d, unit, lbn, blocks) == WriteCells(d, unit % 256, lbn, blocks)
    decreases |blocks|
  {
    if blocks != [] {
      assert PlainBackend().write(d, unit % 256, lbn, blocks[0]) == PlainPut(d, unit % 256, lbn, blocks[0]);
      if |blocks| > 1 {
        DirectIsWriteCells(PlainPut(d, unit % 256, lbn, blocks[0]).0, unit, lbn + 1, blocks[1..]);
      }
    }
  }

  lemma {:induction false} ReadCellsGoodRun(d: Plain, unit: byte, lbn: nat, count: nat)
    ensures var n := GoodRun(d, unit, lbn, count);
            ReadCells(d, unit, lbn, count) == Reads(d, Cells(d, unit, lbn, n), n == count)
    decreases count
  {
    if count > 0 && (unit as nat, lbn) !in d.bad {
      hide Cells;
      CellsFirst(d, unit, lbn, GoodRun(d, unit, lbn, count));
      ReadCellsGoodRun(d, unit, lbn + 1, count - 1);
    }
  }

  /** The cells of e are those of d with blocks[..n] laid over lbn, lbn + 1, ... of one unit. */
  ghost predicate Overlaid(e: Plain, d: Plain, unit: nat, lbn: nat, blocks: seq<Sector>, n: nat)
    requires n <= |blocks|
  {
    forall u: nat, l: nat ::
      e.Cell(u, l) == if u == unit && lbn <= l < lbn + n then blocks[l - lbn] else d.Cell(u, l)
  }

  lemma PlainPutBad(d: Plain, unit: byte, lbn: nat, x: Sector)
    ensures PlainPut(d, unit, lbn, x).0.bad == d.bad
  {
  }

  lemma OverlaidMore(e: Plain, d: Plain, d1: Plain, unit: byte, lbn: nat, blocks: seq<Sector>,
      rest: seq<Sector>, n: nat)
    requires blocks != [] && rest == blocks[1..] && n <= |rest| && (unit as nat, lbn) !in d.bad
    requires d1 == PlainPut(d, unit, lbn, blocks[0]).0 && Overlaid(e, d1, unit, lbn + 1, rest, n)
    ensures Overlaid(e, d, unit, lbn, blocks, n + 1)
  {
  }

  lemma {:induction false} WriteCellsGoodRun(d: Plain, unit: byte, lbn: nat, blocks: seq<Sector>)
    ensures var n := GoodRun(d, unit, lbn, |blocks|);
            var w := WriteCells(d, unit, lbn, blocks);
            w.ok == (n == |blocks|) && w.disk.bad == d.bad && Overlaid(w.disk, d, unit, lbn, blocks, n)
    decreases |blocks|
  {
    if blocks != [] && (unit as nat, lbn) !in d.bad {
      hide Overlaid, PlainPut;
      var d1 := PlainPut(d, unit, lbn, blocks[0]).0;
      assert d1.bad == d.bad by { PlainPutBad(d, unit, lbn, blocks[0]); }
      SameGoodRun(d, d1, unit, lbn + 1, |blocks| - 1);
      var rest := blocks[1..];
      assert |rest| == |blocks| - 1;
      WriteCellsGoodRun(d1, unit, lbn + 1, rest);
      var w, n := WriteCells(d1, unit, lbn + 1, rest), GoodRun(d1, unit, lbn + 1, |rest|);
      assert WriteCells(d, unit, lbn, blocks) == w && GoodRun(d, unit, lbn, |blocks|) == n + 1;
      OverlaidMore(w.disk, d, d1, unit, lbn, blocks, rest, n);
    }
  }

  /** Reading gives the cells up to the first bad block and fails exactly if there is one. */
  lemma PlainRead(d: Plain, unit: nat, lbn: nat, count: nat)
    requires lbn + count <= 0x1_0000
    ensures var n := GoodRun(d, unit % 256, lbn, count);
            DirectRead(PlainBackend(), d, unit, lbn, count) == Reads(d, Cells(d, unit % 256, lbn, n), n == count)
  {
    DirectIsReadCells(d, unit, lbn, count);
    ReadCellsGoodRun(d, unit % 256, lbn, count);
  }

  /** Writing stores the blocks before the first bad one and leaves every other cell alone. */
  lemma PlainWrite(d: Plain, unit: nat, lbn: nat, blocks: seq<Sector>)
    requires lbn + |blocks| <= 0x1_0000
    ensures var n := GoodRun(d, unit % 256, lbn, |blocks|);
            var w := DirectWrite(PlainBackend(), d, unit, lbn, blocks);
            w.ok == (n == |blocks|) && w.disk.bad == d.bad && Overlaid(w.disk, d, unit % 256, lbn, blocks, n)
  {
    DirectIsWriteCells(d, unit, lbn, blocks);
    WriteCellsGoodRun(d, unit % 256, lbn, blocks);
  }

  lemma {:induction false} SameGoodRun(d: Plain, e: Plain, unit: nat, lbn: nat, count: nat)
    requires d.bad == e.bad
    ensures GoodRun(d, unit, lbn, count) == GoodRun(e, unit, lbn, count)
    decreases count
  {
    if count > 0 && (unit, lbn) !in d.bad { SameGoodRun(d, e, unit, lbn + 1, count - 1); }
  }

  /** A write followed by a read of the same blocks returns them, if no block is bad. */
  lemma ReadBackWritten(d: Plain, unit: nat, lbn: nat, blocks: seq<Sector>)
    requires lbn + |blocks| <= 0x1_0000 && GoodRun(d, unit % 256, lbn, |blocks|) == |blocks|
    ensures var w := DirectWrite(PlainBackend(), d, unit, lbn, blocks);
            w.ok && DirectRead(PlainBackend(), w.disk, unit, lbn, |blocks|) == Reads(w.disk, blocks, true)
  {
    PlainWrite(d, unit, lbn, blocks);
    var d1 := DirectWrite(PlainBackend(), d, unit, lbn, blocks).disk;
    SameGoodRun(d, d1, unit % 256, lbn, |blocks|);
    PlainRead(d1, unit, lbn, |blocks|);
    var xs := Cells(d1, unit % 256, lbn, |blocks|);
    forall j | 0 <= j < |blocks| ensures xs[j] == blocks[j] {
      assert xs[j] == d1.Cell(unit % 256, lbn + j);
    }
  }

  // ------------------------------------------------ what a caller is told, call by call

  /** The j-th block of a call: the block number wraps at 16 bits, the unit goes out as a byte. */
  function Place(unit: nat, lbn: nat, j: nat): (nat, nat) {
    (unit % 256, (lbn + j) % 65536)
  }

  ghost predicate AllGood(d: Plain, unit: nat, lbn: nat, n: nat) {
    forall j: nat :: j < n ==> Place(unit, lbn, j) !in d.bad
  }

  /** All blocks are good and xs are their cells, or one is bad and the call failed; nothing changed. */
  ghost predicate ReadAnswered(d: Plain, unit: nat, lbn: nat, count: nat, a: Answer, d': Plain) {
    && d' == d
    && (AllGood(d, unit, lbn, count) ==>
          && a.Data? && |a.blocks| == count
          && forall j: nat :: j < count ==> a.blocks[j] == d.Cell(Place(unit, lbn, j).0, Place(unit, lbn, j).1))
    && (!AllGood(d, unit, lbn, count) ==> a == Failed)
  }

  /** Block j is the last one at its place. */
  ghost predicate LastAt(unit: nat, lbn: nat, j: nat, n: nat) {
    j < n && forall i: nat :: j < i < n ==> Place(unit, lbn, i) != Place(unit, lbn, j)
  }

  /** No block has that place. */
  ghost predicate Misses(unit: nat, lbn: nat, n: nat, k: (nat, nat)) {
    forall j: nat :: j < n ==> Place(unit, lbn, j) != k
  }

  /** Blocks before block n have been stored, a later one over an earlier one, and nothing else. */
  ghost predicate StoredUpTo(d: Plain, unit: nat, lbn: nat, xs: seq<Sector>, n: nat, d': Plain)
    requires n <= |xs|
  {
    && d'.bad == d.bad
    && (forall j: nat :: LastAt(unit, lbn, j, n) ==>
          d'.Cell(Place(unit, lbn, j).0, Place(unit, lbn, j).1) == xs[j])
    && (forall u: nat, l: nat :: Misses(unit, lbn, n, (u, l)) ==> d'.Cell(u, l) == d.Cell(u, l))
  }

  /** The blocks before the first bad one are stored, and the caller is told whether there is one. */
  ghost predicate WriteAnswered(d: Plain, unit: nat, lbn: nat, xs: seq<Sector>, a: Answer, d': Plain) {
    exists n: nat ::
      && n <= |xs| && AllGood(d, unit, lbn, n) && (n < |xs| ==> Place(unit, lbn, n) in d.bad)
      && a == (if n == |xs| then Done else Failed) && StoredUpTo(d, unit, lbn, xs, n, d')
  }

  ghost predicate CallAnswered(d: Plain, q: Request, a: Answer, d': Plain) {
    match q
    case ReadBlocks(unit, lbn, count) => ReadAnswered(d, unit, lbn, count, a, d')
    case WriteBlocks(unit, lbn, xs) => WriteAnswered(d, unit, lbn, xs, a, d')
  }

  lemma PlaceNext(unit: nat, lbn: nat, j: nat)
    ensures Place(unit, NextBlock(lbn), j) == Place(unit, lbn, j + 1)
  {
  }

  lemma AllGoodFirst(d: Plain, unit: nat, lbn: nat, n: nat)
    requires n > 0
    ensures AllGood(d, unit, lbn, n) <==>
              Place(unit, lbn, 0) !in d.bad && AllGood(d, unit, NextBlock(lbn), n - 1)
  {
    forall j: nat ensures Place(unit, NextBlock(lbn), j) == Place(unit, lbn, j + 1) { PlaceNext(unit, lbn, j); }
    hide Place;
    if AllGood(d, unit, NextBlock(lbn), n - 1) && Place(unit, lbn, 0) !in d.bad {
      forall j: nat | j < n ensures Place(unit, lbn, j) !in d.bad {
        if j > 0 { assert Place(unit, NextBlock(lbn), j - 1) !in d.bad; }
      }
    }
  }

  lemma {:induction false} ReadIsAnswered(d: Plain, unit: nat, lbn: nat, count: nat)
    requires lbn < 0x1_0000
    ensures var r := DirectRead(PlainBackend(), d, unit, lbn, count);
            ReadAnswered(d, unit, lbn, count, if r.ok then Data(r.blocks) else Failed, r.disk)
    decreases count
  {
    var be := PlainBackend();
    if count > 0 {
      assert be.read(d, unit % 256, lbn) == PlainGet(d, unit % 256, lbn) && Place(unit, lbn, 0) == (unit % 256, lbn);
      AllGoodFirst(d, unit, lbn, count);
      if Place(unit, lbn, 0) !in d.bad {
        ReadIsAnswered(d, unit, NextBlock(lbn), count - 1);
        forall j: nat | j > 0 ensures Place(unit, NextBlock(lbn), j - 1) == Place(unit, lbn, j) {
          PlaceNext(unit, lbn, j - 1);
        }
        var x, r := d.Cell(unit % 256, lbn), DirectRead(be, d, unit, NextBlock(lbn), count - 1);
        assert DirectRead(be, d, unit, lbn, count) == Reads(r.disk, [x] + r.blocks, r.ok);
        ReadMore(d, unit, lbn, count, x, r);
      }
    }
  }

  lemma ReadMore(d: Plain, unit: nat, lbn: nat, count: nat, x: Sector, r: Reads<Plain>)
    requires count > 0 && lbn < 0x1_0000 && Place(unit, lbn, 0) !in d.bad && x == d.Cell(unit % 256, lbn)
    requires ReadAnswered(d, unit, NextBlock(lbn), count - 1, if r.ok then Data(r.blocks) else Failed, r.disk)
    ensures ReadAnswered(d, unit, lbn, count, if r.ok then Data([x] + r.blocks) else Failed, r.disk)
  {
    AllGoodFirst(d, unit, lbn, count);
    if AllGood(d, unit, lbn, count) {
      hide Plain.Cell, AllGood, NextBlock;
      var xs := [x] + r.blocks;
      forall j: nat | j < count ensures xs[j] == d.Cell(Place(unit, lbn, j).0, Place(unit, lbn, j).1) {
        if j > 0 {
          assert PlaceShifts(unit, lbn, j) by { ShiftPlace(unit, lbn, j); }
          assert xs[j] == r.blocks[j - 1];
        }
      }
    }
  }

  ghost predicate PlaceShifts(unit: nat, lbn: nat, j: nat)
    requires j > 0
  {
    Place(unit, NextBlock(lbn), j - 1) == Place(unit, lbn, j)
  }

  lemma ShiftPlace(unit: nat, lbn: nat, j: nat)
    requires j > 0
    ensures PlaceShifts(unit, lbn, j)
  {
    PlaceNext(unit, lbn, j - 1);
  }

  /** What the first block of a write does by itself. */
  lemma PutFirst(d: Plain, unit: nat, lbn: nat, x: Sector)
    requires lbn < 0x1_0000 && (unit % 256, lbn) !in d.bad
    ensures var d1, k := PlainPut(d, unit % 256, lbn, x).0, Place(unit, lbn, 0);
            && d1.bad == d.bad && d1.Cell(k.0, k.1) == x
            && forall u: nat, l: nat :: (u, l) != k ==> d1.Cell(u, l) == d.Cell(u, l)
  {
  }

  lemma LastShifts(unit: nat, lbn: nat, j: nat, n: nat)
    requires LastAt(unit, lbn, j, n + 1)
    ensures j > 0 ==> LastAt(unit, NextBlock(lbn), j - 1, n)
    ensures j == 0 ==> Misses(unit, NextBlock(lbn), n, Place(unit, lbn, 0))
  {
    forall i: nat ensures Place(unit, NextBlock(lbn), i) == Place(unit, lbn, i + 1) { PlaceNext(unit, lbn, i); }
    hide Place, NextBlock;
  }

  lemma MissShifts(unit: nat, lbn: nat, n: nat, k: (nat, nat))
    requires Misses(unit, lbn, n + 1, k)
    ensures Misses(unit, NextBlock(lbn), n, k) && Place(unit, lbn, 0) != k
  {
    forall i: nat ensures Place(unit, NextBlock(lbn), i) == Place(unit, lbn, i + 1) { PlaceNext(unit, lbn, i); }
    hide Place, NextBlock;
  }

  lemma StoredFirst(d: Plain, d1: Plain, unit: nat, lbn: nat, xs: seq<Sector>, n: nat, d': Plain)
    requires xs != [] && n < |xs| && lbn < 0x1_0000 && (unit % 256, lbn) !in d.bad
    requires d1 == PlainPut(d, unit % 256, lbn, xs[0]).0 && StoredUpTo(d1, unit, NextBlock(lbn), xs[1..], n, d')
    ensures StoredUpTo(d, unit, lbn, xs, n + 1, d')
  {
    PutFirst(d, unit, lbn, xs[0]);
    hide Place, Plain.Cell, PlainPut, NextBlock, LastAt, Misses;
    forall j: nat | LastAt(unit, lbn, j, n + 1)
      ensures d'.Cell(Place(unit, lbn, j).0, Place(unit, lbn, j).1) == xs[j]
    {
      LastShifts(unit, lbn, j, n);
      if j > 0 { PlaceNext(unit, lbn, j - 1); }
    }
    forall u: nat, l: nat | Misses(unit, lbn, n + 1, (u, l)) ensures d'.Cell(u, l) == d.Cell(u, l) {
      MissShifts(unit, lbn, n, (u, l));
    }
  }

  lemma {:induction false} WriteIsAnswered(d: Plain, unit: nat, lbn: nat, xs: seq<Sector>)
    requires lbn < 0x1_0000
    ensures var w := DirectWrite(PlainBackend(), d, unit, lbn, xs);
            WriteAnswered(d, unit, lbn, xs, if w.ok then Done else Failed, w.disk)
    decreases |xs|
  {
    hide StoredUpTo, AllGood;
    var be := PlainBackend();
    if xs == [] {
      NothingStored(d, unit, lbn, xs);
    } else {
      assert be.write(d, unit % 256, lbn, xs[0]) == PlainPut(d, unit % 256, lbn, xs[0]);
      assert Place(unit, lbn, 0) == (unit % 256, lbn);
      if Place(unit, lbn, 0) in d.bad {
        NothingStored(d, unit, lbn, xs);
      } else {
        var d1, next, rest := PlainPut(d, unit % 256, lbn, xs[0]).0, NextBlock(lbn), xs[1..];
        WriteIsAnswered(d1, unit, next, rest);
        var w := DirectWrite(be, d1, unit, next, rest);
        var a := if w.ok then Done else Failed;
        var n: nat :| n <= |rest| && AllGood(d1, unit, next, n) && (n < |rest| ==> Place(unit, next, n) in d1.bad)
          && a == (if n == |rest| then Done else Failed) && StoredUpTo(d1, unit, next, rest, n, w.disk);
        StoredFirst(d, d1, unit, lbn, xs, n, w.disk);
        AllGoodFirst(d, unit, lbn, n + 1);
        SameGood(d, d1, unit, next, n);
        PlaceNext(unit, lbn, n);
      }
    }
  }

  lemma SameGood(d: Plain, d1: Plain, unit: nat, lbn: nat, n: nat)
    requires d1.bad == d.bad
    ensures AllGood(d1, unit, lbn, n) <==> AllGood(d, unit, lbn, n)
  {
  }

  lemma NothingStored(d: Plain, unit: nat, lbn: nat, xs: seq<Sector>)
    ensures AllGood(d, unit, lbn, 0) && StoredUpTo(d, unit, lbn, xs, 0, d)
  {
  }

  /**
    What the caller is told on a plain array, call by call over a whole run: a read of good blocks
    returns their contents, a write of good blocks is done, and every call that meets a bad block
    reports a failure, after the blocks before that one have been stored.
   */
  lemma {:induction false} SessionAnswered(d: Plain, qs: seq<Request>) returns (ds: seq<Plain>)
    requires forall q :: q in qs ==> q.Valid()
    ensures var s := DirectSession(PlainBackend(), d, qs);
            && |ds| == |qs| + 1 && ds[0] == d && ds[|qs|] == s.disk && |s.answers| == |qs|
            && forall k :: 0 <= k < |qs| ==> CallAnswered(ds[k], qs[k], s.answers[k], ds[k + 1])
    decreases |qs|
  {
    hide ReadAnswered, WriteAnswered, DirectRead, DirectWrite;
    if qs == [] {
      ds := [d];
    } else {
      var q, be := qs[0], PlainBackend();
      assert q in qs && q.Valid();
      match q {
        case ReadBlocks(unit, lbn, count) => ReadIsAnswered(d, unit, lbn, count);
        case WriteBlocks(unit, lbn, xs) => WriteIsAnswered(d, unit, lbn, xs);
      }
      var c := DirectCall(be, d, q);
      assert CallAnswered(d, q, c.answer, c.disk);
      hide DirectCall, CallAnswered;
      var rest := SessionAnswered(c.disk, qs[1..]);
      ds := [d] + rest;
      var s := DirectSession(be, d, qs);
      forall k | 0 <= k < |qs| ensures CallAnswered(ds[k], qs[k], s.answers[k], ds[k + 1]) {
        if k > 0 { assert qs[k] == qs[1..][k - 1] && ds[k] == rest[k - 1]; }
      }
    }
  }
}
