// The small in-memory block stores: pico/diskfake.c behind the server, and the FAKE_LPT branch
// of dos/SDPP10/LPTSTORE.C in place of it. Both search a table of stored blocks and fall back to
// default contents.
module BlockStore {
  import opened Bytes
  import opened Line
  import opened Protocol
  import opened Host
  import opened Session

  type Key = (nat, nat)
  type Cells = map<Key, Sector>

  /** The contents of a block never stored; boot and fat0 are the tables of block0.h and block4.h. */
  datatype Defaults = Defaults(boot: Sector, fat0: Sector) {
    function At(lbn: nat): Sector {
      if lbn == 0 then boot else if lbn == 4 || lbn == 68 then fat0 else Zeros(512)
    }
  }

  function Get(df: Defaults, m: Cells, unit: nat, lbn: nat): Sector {
    if (unit, lbn) in m then m[(unit, lbn)] else df.At(lbn)
  }

  /** A store of max blocks drops a new block silently when it is full. */
  function Put(m: Cells, max: nat, unit: nat, lbn: nat, x: Sector): Cells {
    if (unit, lbn) in m || |m| < max then m[(unit, lbn) := x] else m
  }

  /** What the first n table entries say. */
  function Table(units: seq<nat>, nrs: seq<nat>, blocks: seq<Sector>, n: nat): Cells
    requires n <= |units| && n <= |nrs| && n <= |blocks|
  {
    if n == 0 then map[] else Table(units, nrs, blocks, n - 1)[(units[n - 1], nrs[n - 1]) := blocks[n - 1]]
  }

  ghost predicate Distinct(units: seq<nat>, nrs: seq<nat>, n: nat)
    requires n <= |units| && n <= |nrs|
  {
    forall i, j :: 0 <= i < j < n ==> units[i] != units[j] || nrs[i] != nrs[j]
  }

  lemma {:induction false} TableHas(units: seq<nat>, nrs: seq<nat>, blocks: seq<Sector>, n: nat, i: nat)
    requires i < n <= |units| && n <= |nrs| && n <= |blocks| && Distinct(units, nrs, n)
    ensures var m := Table(units, nrs, blocks, n);
            (units[i], nrs[i]) in m && m[(units[i], nrs[i])] == blocks[i]
  {
    if i < n - 1 {
      TableHas(units, nrs, blocks, n - 1, i);
    }
  }

  lemma {:induction false} TableOnly(units: seq<nat>, nrs: seq<nat>, blocks: seq<Sector>, n: nat, k: Key)
    requires n <= |units| && n <= |nrs| && n <= |blocks| && k in Table(units, nrs, blocks, n)
    ensures exists i :: 0 <= i < n && units[i] == k.0 && nrs[i] == k.1
  {
    if k != (units[n - 1], nrs[n - 1]) {
      TableOnly(units, nrs, blocks, n - 1, k);
    }
  }

  lemma {:induction false} TableSize(units: seq<nat>, nrs: seq<nat>, blocks: seq<Sector>, n: nat)
    requires n <= |units| && n <= |nrs| && n <= |blocks| && Distinct(units, nrs, n)
    ensures |Table(units, nrs, blocks, n)| == n
  {
    if n > 0 {
      TableSize(units, nrs, blocks, n - 1);
      var k := (units[n - 1], nrs[n - 1]);
      if k in Table(units, nrs, blocks, n - 1) {
        TableOnly(units, nrs, blocks, n - 1, k);
      }
    }
  }

  lemma {:induction false} TableLocal(u: seq<nat>, v: seq<nat>, b: seq<Sector>,
      u': seq<nat>, v': seq<nat>, b': seq<Sector>, n: nat)
    requires n <= |u| && n <= |v| && n <= |b| && n <= |u'| && n <= |v'| && n <= |b'|
    requires u[..n] == u'[..n] && v[..n] == v'[..n] && b[..n] == b'[..n]
    ensures Table(u, v, b, n) == Table(u', v', b', n)
  {
    if n > 0 {
      assert u[n - 1] == u[..n][n - 1] == u'[..n][n - 1] == u'[n - 1];
      assert v[n - 1] == v[..n][n - 1] == v'[..n][n - 1] == v'[n - 1];
      assert b[n - 1] == b[..n][n - 1] == b'[..n][n - 1] == b'[n - 1];
      assert u[..n - 1] == u[..n][..n - 1] && v[..n - 1] == v[..n][..n - 1] && b[..n - 1] == b[..n][..n - 1];
      assert u'[..n - 1] == u'[..n][..n - 1] && v'[..n - 1] == v'[..n][..n - 1] && b'[..n - 1] == b'[..n][..n - 1];
      TableLocal(u, v, b, u', v', b', n - 1);
    }
  }

  /** Overwriting entry j of the table overwrites its key. */
  lemma {:induction false} TableUpdate(u: seq<nat>, v: seq<nat>, b: seq<Sector>, n: nat, j: nat, x: Sector)
    requires j < n <= |u| && n <= |v| && n <= |b| && Distinct(u, v, n)
    ensures Table(u, v, b[j := x], n) == Table(u, v, b, n)[(u[j], v[j]) := x]
  {
    if j < n - 1 {
      TableUpdate(u, v, b, n - 1, j, x);
    } else {
      assert b[j := x][..n - 1] == b[..n - 1];
      TableLocal(u, v, b[j := x], u, v, b, n - 1);
    }
  }

  lemma StillDistinct(u: seq<nat>, v: seq<nat>, b: seq<Sector>, n: nat, unit: nat, lbn: nat)
    requires n < |u| && n < |v| && n < |b| && Distinct(u, v, n)
    ensures Distinct(u[n := unit], v[n := lbn], n + 1) <==> (unit, lbn) !in Table(u, v, b, n)
  {
    var u', v' := u[n := unit], v[n := lbn];
    if (unit, lbn) in Table(u, v, b, n) {
      TableOnly(u, v, b, n, (unit, lbn));
      var i :| 0 <= i < n && u[i] == unit && v[i] == lbn;
      assert u'[i] == u'[n] && v'[i] == v'[n];
    } else {
      forall i | 0 <= i < n ensures u[i] != unit || v[i] != lbn { TableHas(u, v, b, n, i); }
    }
  }

  /** One store: max is 200 in diskfake.c and 50 in the driver's fake. */
  class Store {
    const df: Defaults
    const max: nat
    const blocks: array<Sector>
    const blockNr: array<nat>
    const blockUnit: array<nat>
    var nrBlocks: nat

    ghost predicate Valid()
      reads this, blockNr, blockUnit
    {
      && blocks.Length == max && blockNr.Length == max && blockUnit.Length == max
      && blockNr != blockUnit && nrBlocks <= max
      && Distinct(blockUnit[..], blockNr[..], nrBlocks)
      && forall i :: 0 <= i < nrBlocks ==> blockUnit[i] < 256
    }

    ghost function View(): Cells
      reads this, blocks, blockNr, blockUnit
      requires Valid()
    {
      Table(blockUnit[..], blockNr[..], blocks[..], nrBlocks)
    }

    constructor (df: Defaults, max: nat)
      ensures Valid() && this.df == df && this.max == max && View() == map[]
      ensures fresh(blocks) && fresh(blockNr) && fresh(blockUnit)
    {
      this.df, this.max, nrBlocks := df, max, 0;
      blocks := new Sector[max](_ => Zeros(512));
      blockNr := new nat[max];
      blockUnit := new nat[max];
    }

    /** The linear search both files open with. */
    method Find(unit: nat, lbn: nat) returns (j: nat)
      requires Valid()
      ensures j <= nrBlocks
      ensures j < nrBlocks ==> (unit, lbn) in View() && View()[(unit, lbn)] == blocks[j]
      ensures j < nrBlocks ==> blockUnit[j] == unit && blockNr[j] == lbn
      ensures j == nrBlocks ==> (unit, lbn) !in View()
      ensures j == nrBlocks ==> forall i :: 0 <= i < nrBlocks ==> blockUnit[i] != unit || blockNr[i] != lbn
      ensures |View()| == nrBlocks
    {
      TableSize(blockUnit[..], blockNr[..], blocks[..], nrBlocks);
      j := 0;
      while j < nrBlocks
        invariant j <= nrBlocks
        invariant forall i :: 0 <= i < j ==> blockUnit[i] != unit || blockNr[i] != lbn
      {
        if blockUnit[j] == unit && blockNr[j] == lbn {
          TableHas(blockUnit[..], blockNr[..], blocks[..], nrBlocks, j);
          return;
        }
        j := j + 1;
      }
      if (unit, lbn) in View() {
        TableOnly(blockUnit[..], blockNr[..], blocks[..], nrBlocks, (unit, lbn));
      }
    }

    /** disk_read_sector, and the body of the fake LPTRead's loop. */
    method ReadSector(unit: nat, lbn: nat) returns (x: Sector)
      requires Valid()
      ensures x == Get(df, View(), unit, lbn)
    {
      var j := Find(unit, lbn);
      if j < nrBlocks {
        x := blocks[j];
      } else {
        x := df.At(lbn);
      }
    }

    /** disk_write_sector, and the body of the fake LPTWrite's loop. Unit and block number are
        stored in 8 and 16 bits. A unit of more than 8 bits is never found: its block is stored
        again under the low byte, and the keys stay unique only if that one is new or there is
        no room. */
    method WriteSector(unit: nat, lbn: nat, x: Sector)
      requires Valid() && lbn < 0x1_0000
      modifies this, blocks, blockNr, blockUnit
      ensures unit < 256 ==> Valid() && View() == Put(old(View()), max, unit, lbn, x)
      ensures unit >= 256 ==> (Valid() <==> old(nrBlocks) == max || (unit % 256, lbn) !in old(View()))
      ensures unit >= 256 ==> nrBlocks == if old(nrBlocks) < max then old(nrBlocks) + 1 else max
    {
      ghost var u, v, b := blockUnit[..], blockNr[..], blocks[..];
      var j := Find(unit, lbn);
      if j < nrBlocks {
        TableUpdate(u, v, b, nrBlocks, j, x);
        blocks[j] := x;
        assert blocks[..] == b[j := x] && blockUnit[..] == u && blockNr[..] == v;
      } else if nrBlocks < max {
        AppendEntry(unit, lbn, x);
      }
    }

    method AppendEntry(unit: nat, lbn: nat, x: Sector)
      requires Valid() && lbn < 0x1_0000 && nrBlocks < max
      modifies this, blocks, blockNr, blockUnit
      ensures nrBlocks == old(nrBlocks) + 1
      ensures Valid() <==> (unit % 256, lbn) !in old(View())
      ensures Valid() ==> View() == old(View())[(unit % 256, lbn) := x]
    {
      ghost var u, v, b, n, k := blockUnit[..], blockNr[..], blocks[..], nrBlocks, unit % 256;
      blocks[nrBlocks] := x;
      blockUnit[nrBlocks] := unit % 256;
      blockNr[nrBlocks] := lbn % 0x1_0000;
      nrBlocks := nrBlocks + 1;
      assert blockUnit[..] == u[n := k] && blockNr[..] == v[n := lbn] && blocks[..] == b[n := x];
      TableLocal(u[n := k], v[n := lbn], b[n := x], u, v, b, n);
      StillDistinct(u, v, b, n, k, lbn);
    }

    /** The fake LPTRead: count sectors from block lbn on, whose number wraps at 16 bits. */
    method FakeRead(unit: nat, lbn: nat, buffer: array<byte>, count: nat) returns (ret: nat)
      requires Valid() && lbn < 0x1_0000 && 512 * count <= buffer.Length
      modifies buffer
      ensures Valid() && View() == old(View()) && ret == RES_OK
      ensures Filled(buffer[..], old(buffer[..]), StoreReads(df, View(), unit, lbn, count))
    {
      ghost var m, before := View(), buffer[..];
      ghost var whole := StoreReads(df, m, unit, lbn, count);
      ghost var got: seq<Sector>, left := [], count;
      assert [] + whole == whole;
      var at, i := lbn, 0;
      while i < count
        invariant 0 <= i <= count && |got| == i && left == count - i && at < 0x1_0000 && Valid() && View() == m
        invariant CopiedSoFar(whole, df, m, unit, at, left, got)
        invariant Filled(buffer[..], before, got)
      {
        var x := ReadSector(unit, at);
        CopyStep(whole, df, m, unit, at, left, got);
        FilledMore(buffer[..], before, got, x);
        StoreAt(buffer, 512 * i, x);
        got, left := got + [x], left - 1;
        i, at := i + 1, NextBlock(at);
      }
      assert got + [] == got;
      ret := RES_OK;
    }

    /** The fake LPTWrite. */
    method FakeWrite(unit: nat, lbn: nat, buffer: array<byte>, count: nat) returns (ret: nat)
      requires Valid() && unit < 256 && lbn < 0x1_0000 && 512 * count <= buffer.Length
      modifies this, blocks, blockNr, blockUnit
      ensures Valid() && ret == RES_OK
      ensures View() == StoreWrites(old(View()), max, unit, lbn, Sectors(old(buffer[..]), count))
    {
      ghost var xs := Sectors(buffer[..], count);
      ghost var whole := StoreWrites(View(), max, unit, lbn, xs);
      var at, i := lbn, 0;
      while i < count
        invariant 0 <= i <= count && at < 0x1_0000 && Valid() && buffer[..] == old(buffer[..])
        invariant whole == StoreWrites(View(), max, unit, at, xs[i..])
      {
        assert xs[i] == buffer[..][512 * i..512 * i + 512] == buffer[512 * i..512 * i + 512];
        assert xs[i..][0] == xs[i] && xs[i..][1..] == xs[i + 1..];
        WriteSector(unit, at, buffer[512 * i..512 * i + 512]);
        i, at := i + 1, NextBlock(at);
      }
      ret := RES_OK;
    }
  }

  method StoreAt(buffer: array<byte>, at: nat, x: Sector)
    requires at + 512 <= buffer.Length
    modifies buffer
    ensures buffer[..] == Patch(old(buffer[..]), at, x)
  {
    forall k | 0 <= k < 512 { buffer[at + k] := x[k]; }
  }

  function StoreReads(df: Defaults, m: Cells, unit: nat, lbn: nat, count: nat): seq<Sector>
    decreases count
  {
    if count == 0 then []
    else [Get(df, m, unit, lbn)] + StoreReads(df, m, unit, NextBlock(lbn), count - 1)
  }

  /** got is the start of whole, and left blocks from block lbn on are the rest. */
  ghost predicate CopiedSoFar(whole: seq<Sector>, df: Defaults, m: Cells, unit: nat, lbn: nat, left: nat,
      got: seq<Sector>)
  {
    whole == got + StoreReads(df, m, unit, lbn, left)
  }

  lemma CopyStep(whole: seq<Sector>, df: Defaults, m: Cells, unit: nat, lbn: nat, left: nat, got: seq<Sector>)
    requires left > 0 && CopiedSoFar(whole, df, m, unit, lbn, left, got)
    ensures CopiedSoFar(whole, df, m, unit, NextBlock(lbn), left - 1, got + [Get(df, m, unit, lbn)])
  {
    var x, rest := Get(df, m, unit, lbn), StoreReads(df, m, unit, NextBlock(lbn), left - 1);
    assert got + ([x] + rest) == got + [x] + rest;
  }

  function StoreWrites(m: Cells, max: nat, unit: nat, lbn: nat, xs: seq<Sector>): Cells
    decreases |xs|
  {
    if xs == [] then m
    else StoreWrites(Put(m, max, unit, lbn, xs[0]), max, unit, NextBlock(lbn), xs[1..])
  }

  function ReadStored(df: Defaults, m: Cells, unit: byte, lbn: nat): (Cells, byte, Sector) {
    (m, 0, Get(df, m, unit, lbn))
  }

  function WriteStored(max: nat, m: Cells, unit: byte, lbn: nat, x: Sector): (Cells, byte) {
    (Put(m, max, unit, lbn, x), 0)
  }

  /** A store of the given size as the disk behind the server. */
  function StoreBackend(df: Defaults, max: nat): Backend<Cells> {
    Backend(
      (m: Cells, unit: byte, lbn: nat) => ReadStored(df, m, unit, lbn),
      (m: Cells, unit: byte, lbn: nat, x: Sector) => WriteStored(max, m, unit, lbn, x),
      (m: Cells) => 0xffff,
      (m: Cells, unit: byte) => 0x1_0000)
  }

  lemma {:induction false} DirectStoreRead(df: Defaults, max: nat, m: Cells, unit: nat, lbn: nat, count: nat)
    ensures DirectRead(StoreBackend(df, max), m, unit, lbn, count)
         == Reads(m, StoreReads(df, m, unit % 256, lbn, count), true)
    decreases count
  {
    if count > 0 {
      assert StoreBackend(df, max).read(m, unit % 256, lbn) == ReadStored(df, m, unit % 256, lbn);
      DirectStoreRead(df, max, m, unit, NextBlock(lbn), count - 1);
    }
  }

  lemma {:induction false} DirectStoreWrite(df: Defaults, max: nat, m: Cells, unit: nat, lbn: nat, xs: seq<Sector>)
    ensures DirectWrite(StoreBackend(df, max), m, unit, lbn, xs)
         == Writes(StoreWrites(m, max, unit % 256, lbn, xs), true)
    decreases |xs|
  {
    if xs != [] {
      assert StoreBackend(df, max).write(m, unit % 256, lbn, xs[0]) == WriteStored(max, m, unit % 256, lbn, xs[0]);
      DirectStoreWrite(df, max, Put(m, max, unit % 256, lbn, xs[0]), unit, NextBlock(lbn), xs[1..]);
    }
  }

  // ------------------------------------------------------- the two builds agree

  /** The blocks a run of calls writes. */
  function Touched(qs: seq<Request>): set<Key>
    decreases |qs|
  {
    if qs == [] then {} else TouchedBy(qs[0]) + Touched(qs[1..])
  }

  function TouchedBy(q: Request): set<Key> {
    if q.ReadBlocks? then {} else KeysFrom(q.unit % 256, q.lbn, |q.blocks|)
  }

  function KeysFrom(unit: nat, lbn: nat, n: nat): set<Key>
    decreases n
  {
    if n == 0 then {} else {(unit, lbn)} + KeysFrom(unit, NextBlock(lbn), n - 1)
  }

  /** A store of size max that has been asked to hold exactly the keys t. */
  ghost predicate Filling(m: Cells, max: nat, t: set<Key>) {
    m.Keys <= t && |m| <= max && (|m| == max || m.Keys == t)
  }

  lemma PutFills(m: Cells, max: nat, t: set<Key>, unit: nat, lbn: nat, x: Sector)
    requires Filling(m, max, t)
    ensures Filling(Put(m, max, unit, lbn, x), max, t + {(unit, lbn)})
  {
    var m' := Put(m, max, unit, lbn, x);
    if (unit, lbn) in m {
      assert m'.Keys == m.Keys;
    } else if |m| < max {
      assert m'.Keys == m.Keys + {(unit, lbn)};
    }
  }

  lemma KeysFirst(t: set<Key>, unit: nat, lbn: nat, n: nat)
    requires n > 0
    ensures t + KeysFrom(unit, lbn, n) == t + {(unit, lbn)} + KeysFrom(unit, NextBlock(lbn), n - 1)
  {
  }

  lemma {:induction false} WritesFill(m: Cells, max: nat, t: set<Key>, unit: nat, lbn: nat, xs: seq<Sector>)
    requires Filling(m, max, t)
    ensures Filling(StoreWrites(m, max, unit, lbn, xs), max, t + KeysFrom(unit, lbn, |xs|))
    decreases |xs|
  {
    if xs == [] {
      assert t + {} == t;
    } else {
      PutFills(m, max, t, unit, lbn, xs[0]);
      KeysFirst(t, unit, lbn, |xs|);
      var m1, rest := Put(m, max, unit, lbn, xs[0]), xs[1..];
      WritesFill(m1, max, t + {(unit, lbn)}, unit, NextBlock(lbn), rest);
      assert |rest| == |xs| - 1;
      assert StoreWrites(m, max, unit, lbn, xs) == StoreWrites(m1, max, unit, NextBlock(lbn), rest);
    }
  }

  function CallStored(m: Cells, max: nat, q: Request): Cells {
    if q.ReadBlocks? then m else StoreWrites(m, max, q.unit % 256, q.lbn, q.blocks)
  }

  lemma DirectStoreCall(df: Defaults, max: nat, m: Cells, q: Request)
    ensures DirectCall(StoreBackend(df, max), m, q) ==
            Called(CallStored(m, max, q),
                   if q.WriteBlocks? then Done else Data(StoreReads(df, m, q.unit % 256, q.lbn, q.count)))
  {
    match q
    case ReadBlocks(unit, lbn, count) => DirectStoreRead(df, max, m, unit, lbn, count);
    case WriteBlocks(unit, lbn, blocks) => DirectStoreWrite(df, max, m, unit, lbn, blocks);
  }

  /** One call of the driver built with FAKE_LPT. */
  method FakeCall(store: Store, q: Request) returns (a: Answer)
    requires store.Valid() && q.Valid() && q.unit < 256
    modifies store, store.blocks, store.blockNr, store.blockUnit
    ensures store.Valid()
    ensures Called(store.View(), a) == DirectCall(StoreBackend(store.df, store.max), old(store.View()), q)
  {
    hide DirectRead, DirectWrite, DirectCall, StoreReads, StoreWrites;
    DirectStoreCall(store.df, store.max, store.View(), q);
    match q {
      case ReadBlocks(unit, lbn, count) =>
        var xs := FakeReadCall(store, unit, lbn, count);
        a := Data(xs);
      case WriteBlocks(unit, lbn, blocks) =>
        var buffer := CallersBuffer(blocks);
        var ret := store.FakeWrite(unit, lbn, buffer, |blocks|);
        a := Done;
    }
  }

  method FakeReadCall(store: Store, unit: nat, lbn: nat, count: nat) returns (xs: seq<Sector>)
    requires store.Valid() && lbn < 0x1_0000
    ensures xs == StoreReads(store.df, store.View(), unit, lbn, count)
  {
    var buffer := new byte[512 * count];
    StoreReadsLength(store.df, store.View(), unit, lbn, count);
    var ret := store.FakeRead(unit, lbn, buffer, count);
    FlatSectors(buffer[..], StoreReads(store.df, store.View(), unit, lbn, count));
    xs := Sectors(buffer[..], count);
  }

  lemma {:induction false} StoreReadsLength(df: Defaults, m: Cells, unit: nat, lbn: nat, count: nat)
    ensures |StoreReads(df, m, unit, lbn, count)| == count
    decreases count
  {
    if count > 0 { StoreReadsLength(df, m, unit, NextBlock(lbn), count - 1); }
  }

  /** A run of calls of the driver built with FAKE_LPT. */
  method FakeSession(store: Store, qs: seq<Request>) returns (answers: seq<Answer>)
    requires store.Valid() && forall q :: q in qs ==> q.Valid() && q.unit < 256
    modifies store, store.blocks, store.blockNr, store.blockUnit
    ensures store.Valid()
    ensures Served(store.View(), answers) == DirectSession(StoreBackend(store.df, store.max), old(store.View()), qs)
  {
    ghost var be := StoreBackend(store.df, store.max);
    ghost var whole := DirectSession(be, store.View(), qs);
    var left := qs;
    answers := [];
    assert ServedSoFar(whole, be, store.View(), left, answers);
    hide DirectSession, DirectCall, ServedSoFar, StoreBackend, Store.View, Store.Valid;
    while left != []
      invariant store.Valid() && forall q :: q in left ==> q.Valid() && q.unit < 256
      invariant ServedSoFar(whole, be, store.View(), left, answers)
      decreases |left|
    {
      SessionStep(whole, be, store.View(), left, answers);
      var a := FakeCall(store, left[0]);
      answers := answers + [a];
      left := left[1..];
    }
    SessionEnd(whole, be, store.View(), answers);
  }

  lemma {:induction false} SessionFills(df: Defaults, max: nat, m: Cells, t: set<Key>, qs: seq<Request>)
    requires Filling(m, max, t)
    ensures Filling(DirectSession(StoreBackend(df, max), m, qs).disk, max, t + Touched(qs))
    decreases |qs|
  {
    hide Filling, DirectCall, CallStored, TouchedBy, StoreBackend;
    if qs == [] {
      assert t + {} == t;
    } else {
      var q := qs[0];
      DirectStoreCall(df, max, m, q);
      CallFills(m, max, t, q);
      SessionFills(df, max, CallStored(m, max, q), t + TouchedBy(q), qs[1..]);
      assert t + TouchedBy(q) + Touched(qs[1..]) == t + Touched(qs);
    }
  }

  lemma CallFills(m: Cells, max: nat, t: set<Key>, q: Request)
    requires Filling(m, max, t)
    ensures Filling(CallStored(m, max, q), max, t + TouchedBy(q))
  {
    hide StoreWrites, KeysFrom;
    if q.WriteBlocks? { WritesFill(m, max, t, q.unit % 256, q.lbn, q.blocks); } else { assert t + {} == t; }
  }

  lemma SubsetSize(a: set<Key>, b: set<Key>)
    requires a <= b
    ensures |a| <= |b| && (|a| == |b| ==> a == b)
  {
    assert b == a + (b - a);
    assert |b| == |a| + |b - a|;
    if |a| == |b| { assert b - a == {}; }
  }

  lemma PutsAgree(m: Cells, max: nat, max': nat, all: set<Key>, unit: nat, lbn: nat, x: Sector)
    requires max <= max' && m.Keys + {(unit, lbn)} <= all && |all| <= max
    ensures Put(m, max, unit, lbn, x) == Put(m, max', unit, lbn, x)
    ensures Put(m, max, unit, lbn, x).Keys == m.Keys + {(unit, lbn)}
  {
    var k := (unit, lbn);
    SubsetSize(m.Keys + {k}, all);
    SubsetSize(m.Keys, m.Keys + {k});
    assert |m| == |m.Keys|;
    if k !in m { assert k !in m.Keys && k in m.Keys + {k}; }
  }

  lemma KeysWithin(t: set<Key>, all: set<Key>, unit: nat, lbn: nat, n: nat)
    requires n > 0 && t + KeysFrom(unit, lbn, n) <= all
    ensures t + {(unit, lbn)} <= all && t + {(unit, lbn)} + KeysFrom(unit, NextBlock(lbn), n - 1) <= all
  {
    KeysFirst(t, unit, lbn, n);
  }

  /** While everything asked for fits in both stores they do the same. */
  lemma {:induction false} WritesAgree(m: Cells, max: nat, max': nat, all: set<Key>, unit: nat, lbn: nat,
      xs: seq<Sector>)
    requires max <= max' && |all| <= max && m.Keys + KeysFrom(unit, lbn, |xs|) <= all
    ensures StoreWrites(m, max, unit, lbn, xs) == StoreWrites(m, max', unit, lbn, xs)
    decreases |xs|
  {
    if xs != [] {
      var m1 := Put(m, max, unit, lbn, xs[0]);
      KeysWithin(m.Keys, all, unit, lbn, |xs|);
      PutsAgree(m, max, max', all, unit, lbn, xs[0]);
      assert |xs[1..]| == |xs| - 1;
      WritesAgree(m1, max, max', all, unit, NextBlock(lbn), xs[1..]);
    }
  }

  lemma CallsAgree(m: Cells, max: nat, max': nat, all: set<Key>, q: Request)
    requires max <= max' && |all| <= max && m.Keys + TouchedBy(q) <= all
    ensures CallStored(m, max, q) == CallStored(m, max', q)
    ensures CallStored(m, max, q).Keys <= m.Keys + TouchedBy(q)
  {
    if q.WriteBlocks? {
      WritesAgree(m, max, max', all, q.unit % 256, q.lbn, q.blocks);
      SubsetSize(m.Keys, all);
      assert |m| == |m.Keys|;
      WritesFill(m, max, m.Keys, q.unit % 256, q.lbn, q.blocks);
    }
  }

  lemma {:induction false} SessionsAgree(df: Defaults, max: nat, max': nat, m: Cells, all: set<Key>,
      qs: seq<Request>)
    requires max <= max' && |all| <= max && m.Keys + Touched(qs) <= all
    ensures DirectSession(StoreBackend(df, max), m, qs) == DirectSession(StoreBackend(df, max'), m, qs)
    decreases |qs|
  {
    if qs != [] {
      DirectStoreCall(df, max, m, qs[0]);
      DirectStoreCall(df, max', m, qs[0]);
      CallsAgree(m, max, max', all, qs[0]);
      SessionsAgree(df, max, max', CallStored(m, max, qs[0]), all, qs[1..]);
    }
  }

  const FAKE_BLOCKS := 50
  const DISKFAKE_BLOCKS := 200

  /**
    The driver built with FAKE_LPT and the real driver over diskfake, both starting empty: they
    end with the same table exactly when the run writes at most 50 different blocks, and then
    every answer along the way was the same too.
   */
  lemma TwoBuildsAgreeIff(df: Defaults, qs: seq<Request>)
    ensures var fake := DirectSession(StoreBackend(df, FAKE_BLOCKS), map[], qs);
            var device := DirectSession(StoreBackend(df, DISKFAKE_BLOCKS), map[], qs);
            && (fake.disk == device.disk <==> |Touched(qs)| <= 50)
            && (|Touched(qs)| <= 50 ==> fake == device)
  {
    var fake := DirectSession(StoreBackend(df, FAKE_BLOCKS), map[], qs).disk;
    var device := DirectSession(StoreBackend(df, DISKFAKE_BLOCKS), map[], qs).disk;
    var none: Cells := map[];
    assert none.Keys + Touched(qs) == {} + Touched(qs) == Touched(qs);
    if |Touched(qs)| <= FAKE_BLOCKS {
      SessionsAgree(df, FAKE_BLOCKS, DISKFAKE_BLOCKS, none, Touched(qs), qs);
    } else {
      SessionFills(df, FAKE_BLOCKS, none, {}, qs);
      SessionFills(df, DISKFAKE_BLOCKS, none, {}, qs);
      assert |fake| <= 50 && (|device| == 200 || device.Keys == Touched(qs));
      assert |device| == |device.Keys|;
    }
  }

  // -------------------------------------------- when the answers are the same

  datatype BlockWrite = BlockWrite(key: Key, data: Sector)

  function WritesFrom(unit: nat, lbn: nat, xs: seq<Sector>): seq<BlockWrite>
    decreases |xs|
  {
    if xs == [] then [] else [BlockWrite((unit, lbn), xs[0])] + WritesFrom(unit, NextBlock(lbn), xs[1..])
  }

  /** The block writes a call asks for, in order. */
  function CallWrites(q: Request): seq<BlockWrite> {
    if q.ReadBlocks? then [] else WritesFrom(q.unit % 256, q.lbn, q.blocks)
  }

  /** An empty store of size max after block writes ws. */
  function PutAll(max: nat, ws: seq<BlockWrite>): Cells {
    if ws == [] then map[]
    else
      var w := ws[|ws| - 1];
      Put(PutAll(max, ws[..|ws| - 1]), max, w.key.0, w.key.1, w.data)
  }

  /** The blocks written, each once, in the order of their first write. */
  function FirstWrites(ws: seq<BlockWrite>): (ks: seq<Key>) {
    if ws == [] then []
    else
      var ks, k := FirstWrites(ws[..|ws| - 1]), ws[|ws| - 1].key;
      if k in ks then ks else ks + [k]
  }

  function LastWrite(ws: seq<BlockWrite>, k: Key): Option<Sector> {
    if ws == [] then None
    else if ws[|ws| - 1].key == k then Some(ws[|ws| - 1].data)
    else LastWrite(ws[..|ws| - 1], k)
  }

  /** The blocks a store of size max keeps: the first max of them. */
  function Kept(max: nat, ws: seq<BlockWrite>): seq<Key> {
    var ks := FirstWrites(ws);
    if |ks| <= max then ks else ks[..max]
  }

  /** What a store of size max shows of block k after ws. */
  function Shown(df: Defaults, max: nat, ws: seq<BlockWrite>, k: Key): Sector {
    if k in Kept(max, ws) && LastWrite(ws, k).Some? then LastWrite(ws, k).value else df.At(k.1)
  }

  /** The table holds exactly the kept blocks, with what was last written to them. */
  ghost predicate TableIs(m: Cells, max: nat, ws: seq<BlockWrite>) {
    && |m| == |Kept(max, ws)|
    && (forall k :: k in m <==> k in Kept(max, ws))
    && (forall k :: k in m ==> LastWrite(ws, k) == Some(m[k]))
  }

  lemma {:induction false} StoreKeepsFirst(max: nat, ws: seq<BlockWrite>)
    ensures TableIs(PutAll(max, ws), max, ws)
  {
    if ws != [] {
      var before, w := ws[..|ws| - 1], ws[|ws| - 1];
      StoreKeepsFirst(max, before);
      KeptNext(max, ws, before, w);
      PutNext(PutAll(max, before), max, w);
      var m, m' := PutAll(max, before), PutAll(max, ws);
      forall k | k in m' ensures LastWrite(ws, k) == Some(m'[k]) {
        if k != w.key { assert k in m && m'[k] == m[k]; }
      }
    }
  }

  lemma KeptNext(max: nat, ws: seq<BlockWrite>, before: seq<BlockWrite>, w: BlockWrite)
    requires ws != [] && before == ws[..|ws| - 1] && w == ws[|ws| - 1]
    ensures Kept(max, ws) ==
              if w.key in Kept(max, before) || |Kept(max, before)| >= max then Kept(max, before)
              else Kept(max, before) + [w.key]
  {
    var ks := FirstWrites(before);
    if w.key !in ks && |ks| >= max { assert (ks + [w.key])[..max] == ks[..max]; }
  }

  lemma PutNext(m: Cells, max: nat, w: BlockWrite)
    ensures var m' := Put(m, max, w.key.0, w.key.1, w.data);
            if w.key in m || |m| < max then m' == m[w.key := w.data] && |m'| == |m| + (if w.key in m then 0 else 1)
            else m' == m
  {
    assert (w.key.0, w.key.1) == w.key;
    var m' := m[w.key := w.data];
    assert m'.Keys == m.Keys + {w.key} && |m'| == |m'.Keys| && |m| == |m.Keys|;
    if w.key in m { assert m'.Keys == m.Keys; } else { assert |m.Keys + {w.key}| == |m.Keys| + 1; }
  }

  lemma StoreShows(df: Defaults, max: nat, ws: seq<BlockWrite>, k: Key)
    ensures Get(df, PutAll(max, ws), k.0, k.1) == Shown(df, max, ws, k)
  {
    StoreKeepsFirst(max, ws);
    assert (k.0, k.1) == k;
  }

  lemma PutLast(max: nat, ws: seq<BlockWrite>, w: BlockWrite)
    ensures PutAll(max, ws + [w]) == Put(PutAll(max, ws), max, w.key.0, w.key.1, w.data)
  {
    hide Put;
    assert (ws + [w])[..|ws|] == ws;
  }

  lemma {:induction false} StoreWritesPut(max: nat, ws: seq<BlockWrite>, unit: nat, lbn: nat, xs: seq<Sector>)
    ensures StoreWrites(PutAll(max, ws), max, unit, lbn, xs) == PutAll(max, ws + WritesFrom(unit, lbn, xs))
    decreases |xs|
  {
    hide Put, PutAll;
    if xs == [] {
      assert ws + [] == ws;
    } else {
      var w := BlockWrite((unit, lbn), xs[0]);
      PutLast(max, ws, w);
      StoreWritesPut(max, ws + [w], unit, NextBlock(lbn), xs[1..]);
      var rest := WritesFrom(unit, NextBlock(lbn), xs[1..]);
      assert ws + ([w] + rest) == ws + [w] + rest;
    }
  }

  lemma CallPuts(max: nat, ws: seq<BlockWrite>, q: Request)
    ensures CallStored(PutAll(max, ws), max, q) == PutAll(max, ws + CallWrites(q))
  {
    if q.ReadBlocks? {
      assert ws + [] == ws;
    } else {
      StoreWritesPut(max, ws, q.unit % 256, q.lbn, q.blocks);
    }
  }

  lemma {:induction false} ReadsEqualIff(df: Defaults, a: Cells, b: Cells, unit: nat, lbn: nat, count: nat)
    ensures StoreReads(df, a, unit, lbn, count) == StoreReads(df, b, unit, lbn, count)
       <==> forall k :: k in KeysFrom(unit, lbn, count) ==> Get(df, a, k.0, k.1) == Get(df, b, k.0, k.1)
    decreases count
  {
    if count > 0 {
      var x, xs := Get(df, a, unit, lbn), StoreReads(df, a, unit, NextBlock(lbn), count - 1);
      var y, ys := Get(df, b, unit, lbn), StoreReads(df, b, unit, NextBlock(lbn), count - 1);
      ReadsEqualIff(df, a, b, unit, NextBlock(lbn), count - 1);
      assert ([x] + xs)[0] == x && ([x] + xs)[1..] == xs && ([y] + ys)[0] == y && ([y] + ys)[1..] == ys;
      var k0 := (unit, lbn);
      assert k0 in KeysFrom(unit, lbn, count);
    }
  }

  /** After ws both builds show the same block k: it is not one that only the device still keeps,
      or it was last written with its default contents. */
  predicate SeenAlike(df: Defaults, ws: seq<BlockWrite>, k: Key) {
    k in Kept(DISKFAKE_BLOCKS, ws) && k !in Kept(FAKE_BLOCKS, ws) ==> LastWrite(ws, k) == Some(df.At(k.1))
  }

  lemma SeenAlikeIff(df: Defaults, ws: seq<BlockWrite>, k: Key)
    ensures Get(df, PutAll(FAKE_BLOCKS, ws), k.0, k.1) == Get(df, PutAll(DISKFAKE_BLOCKS, ws), k.0, k.1)
       <==> SeenAlike(df, ws, k)
  {
    StoreShows(df, FAKE_BLOCKS, ws, k);
    StoreShows(df, DISKFAKE_BLOCKS, ws, k);
    StoreKeepsFirst(DISKFAKE_BLOCKS, ws);
    var fake, device := Kept(FAKE_BLOCKS, ws), Kept(DISKFAKE_BLOCKS, ws);
    assert fake <= device;
    if k in fake { assert k in device; }
    if k in device { assert k in PutAll(DISKFAKE_BLOCKS, ws); }
  }

  /** Every block that a read asks for is seen alike at that moment; ws has been written before. */
  ghost predicate ReadsSeenAlike(df: Defaults, ws: seq<BlockWrite>, qs: seq<Request>)
    decreases |qs|
  {
    qs == [] ||
    (CallSeenAlike(df, ws, qs[0]) && ReadsSeenAlike(df, ws + CallWrites(qs[0]), qs[1..]))
  }

  ghost predicate CallSeenAlike(df: Defaults, ws: seq<BlockWrite>, q: Request) {
    q.ReadBlocks? ==> forall k :: k in KeysFrom(q.unit % 256, q.lbn, q.count) ==> SeenAlike(df, ws, k)
  }

  lemma CallAnswersAgreeIff(df: Defaults, ws: seq<BlockWrite>, q: Request)
    ensures var a := DirectCall(StoreBackend(df, FAKE_BLOCKS), PutAll(FAKE_BLOCKS, ws), q).answer;
            var b := DirectCall(StoreBackend(df, DISKFAKE_BLOCKS), PutAll(DISKFAKE_BLOCKS, ws), q).answer;
            a == b <==> CallSeenAlike(df, ws, q)
  {
    hide DirectRead, DirectWrite, Kept, LastWrite, SeenAlike, Get;
    var fake, device := PutAll(FAKE_BLOCKS, ws), PutAll(DISKFAKE_BLOCKS, ws);
    DirectStoreCall(df, FAKE_BLOCKS, fake, q);
    DirectStoreCall(df, DISKFAKE_BLOCKS, device, q);
    if q.ReadBlocks? {
      ReadsEqualIff(df, fake, device, q.unit % 256, q.lbn, q.count);
      forall k | k in KeysFrom(q.unit % 256, q.lbn, q.count)
        ensures Get(df, fake, k.0, k.1) == Get(df, device, k.0, k.1) <==> SeenAlike(df, ws, k)
      {
        SeenAlikeIff(df, ws, k);
      }
    }
  }

  lemma {:induction false} AnswersAgreeFrom(df: Defaults, ws: seq<BlockWrite>, qs: seq<Request>)
    ensures DirectSession(StoreBackend(df, FAKE_BLOCKS), PutAll(FAKE_BLOCKS, ws), qs).answers
         == DirectSession(StoreBackend(df, DISKFAKE_BLOCKS), PutAll(DISKFAKE_BLOCKS, ws), qs).answers
       <==> ReadsSeenAlike(df, ws, qs)
    decreases |qs|
  {
    hide DirectCall, CallSeenAlike, PutAll, CallWrites, CallStored;
    if qs != [] {
      var q, rest := qs[0], qs[1..];
      var fake, device := PutAll(FAKE_BLOCKS, ws), PutAll(DISKFAKE_BLOCKS, ws);
      CallAnswersAgreeIff(df, ws, q);
      DirectStoreCall(df, FAKE_BLOCKS, fake, q);
      DirectStoreCall(df, DISKFAKE_BLOCKS, device, q);
      CallPuts(FAKE_BLOCKS, ws, q);
      CallPuts(DISKFAKE_BLOCKS, ws, q);
      AnswersAgreeFrom(df, ws + CallWrites(q), rest);
      var be, ce := StoreBackend(df, FAKE_BLOCKS), StoreBackend(df, DISKFAKE_BLOCKS);
      HeadsAndTails(DirectCall(be, fake, q).answer,
                    DirectSession(be, CallStored(fake, FAKE_BLOCKS, q), rest).answers,
                    DirectCall(ce, device, q).answer,
                    DirectSession(ce, CallStored(device, DISKFAKE_BLOCKS, q), rest).answers);
    }
  }

  lemma HeadsAndTails(a: Answer, s: seq<Answer>, b: Answer, t: seq<Answer>)
    ensures [a] + s == [b] + t <==> a == b && s == t
  {
    if [a] + s == [b] + t { assert a == ([a] + s)[0] && s == ([a] + s)[1..] && t == ([b] + t)[1..]; }
  }

  /**
    The two builds give the same answers along a run if and only if no read asks for a block that
    was first written 51st to 200th and last written with something else than its default.
   */
  lemma AnswersAgreeIff(df: Defaults, qs: seq<Request>)
    ensures DirectSession(StoreBackend(df, FAKE_BLOCKS), map[], qs).answers
         == DirectSession(StoreBackend(df, DISKFAKE_BLOCKS), map[], qs).answers
       <==> ReadsSeenAlike(df, [], qs)
  {
    AnswersAgreeFrom(df, [], qs);
    var none: Cells := map[];
    assert PutAll(FAKE_BLOCKS, []) == none == PutAll(DISKFAKE_BLOCKS, []);
  }

  /** Every read, of however many blocks, finds the same in both stores. */
  ghost predicate SameReads(df: Defaults, a: Cells, b: Cells) {
    forall unit: nat, lbn: nat, count: nat ::
      StoreReads(df, a, unit, lbn, count) == StoreReads(df, b, unit, lbn, count)
  }

  ghost predicate SameShown(df: Defaults, a: Cells, b: Cells, ks: set<Key>) {
    forall k :: k in ks ==> Get(df, a, k.0, k.1) == Get(df, b, k.0, k.1)
  }

  lemma SameReadsIff(df: Defaults, a: Cells, b: Cells, ks: set<Key>)
    requires a.Keys <= ks && b.Keys <= ks
    ensures SameReads(df, a, b) <==> SameShown(df, a, b, ks)
  {
    if SameShown(df, a, b, ks) {
      forall unit: nat, lbn: nat, count: nat
        ensures StoreReads(df, a, unit, lbn, count) == StoreReads(df, b, unit, lbn, count)
      {
        hide StoreReads, KeysFrom;
        ReadsEqualIff(df, a, b, unit, lbn, count);
        forall k: Key ensures Get(df, a, k.0, k.1) == Get(df, b, k.0, k.1) {
          if k !in ks { assert k !in a.Keys && k !in b.Keys && (k.0, k.1) == k; }
        }
      }
    }
    if SameReads(df, a, b) {
      forall k | k in ks ensures Get(df, a, k.0, k.1) == Get(df, b, k.0, k.1) {
        hide Get;
        OneRead(df, a, k);
        OneRead(df, b, k);
      }
    }
  }

  /** The block writes that a run asks for. */
  function RunWrites(qs: seq<Request>): seq<BlockWrite>
    decreases |qs|
  {
    if qs == [] then [] else CallWrites(qs[0]) + RunWrites(qs[1..])
  }

  lemma {:induction false} RunPuts(df: Defaults, max: nat, ws: seq<BlockWrite>, qs: seq<Request>)
    ensures DirectSession(StoreBackend(df, max), PutAll(max, ws), qs).disk == PutAll(max, ws + RunWrites(qs))
    decreases |qs|
  {
    hide PutAll, DirectCall, CallStored, CallWrites, StoreBackend;
    if qs == [] {
      assert ws + [] == ws;
    } else {
      var w := CallWrites(qs[0]);
      DirectStoreCall(df, max, PutAll(max, ws), qs[0]);
      CallPuts(max, ws, qs[0]);
      RunPuts(df, max, ws + w, qs[1..]);
      assert ws + w + RunWrites(qs[1..]) == ws + RunWrites(qs);
    }
  }

  /** After a run, all further reads get the same answers from both builds if and only if each block
      written is one that both still keep, or neither, or was last written with its default. */
  lemma FurtherReadsAgreeIff(df: Defaults, qs: seq<Request>)
    ensures var fake := DirectSession(StoreBackend(df, FAKE_BLOCKS), map[], qs).disk;
            var device := DirectSession(StoreBackend(df, DISKFAKE_BLOCKS), map[], qs).disk;
            SameReads(df, fake, device) <==> forall k :: k in Touched(qs) ==> SeenAlike(df, RunWrites(qs), k)
  {
    hide DirectSession, SameReads, PutAll, SeenAlike, Get, Touched;
    var ws := RunWrites(qs);
    var fake, device := PutAll(FAKE_BLOCKS, ws), PutAll(DISKFAKE_BLOCKS, ws);
    assert PutAll(FAKE_BLOCKS, []) == map[] == PutAll(DISKFAKE_BLOCKS, []) by { NothingPut(); }
    assert [] + ws == ws && {} + Touched(qs) == Touched(qs);
    RunPuts(df, FAKE_BLOCKS, [], qs);
    RunPuts(df, DISKFAKE_BLOCKS, [], qs);
    SessionFills(df, FAKE_BLOCKS, map[], {}, qs);
    SessionFills(df, DISKFAKE_BLOCKS, map[], {}, qs);
    SameReadsIff(df, fake, device, Touched(qs));
    forall k | k in Touched(qs)
      ensures Get(df, fake, k.0, k.1) == Get(df, device, k.0, k.1) <==> SeenAlike(df, ws, k)
    {
      SeenAlikeIff(df, ws, k);
    }
  }

  lemma NothingPut()
    ensures PutAll(FAKE_BLOCKS, []) == map[] == PutAll(DISKFAKE_BLOCKS, [])
  {
  }

  lemma OneRead(df: Defaults, m: Cells, k: Key)
    ensures StoreReads(df, m, k.0, k.1, 1) == [Get(df, m, k.0, k.1)]
  {
    assert StoreReads(df, m, k.0, NextBlock(k.1), 0) == [];
  }

  // ------------------------------------------------- blocks that were never written

  /** Boot sector b in block 0, FAT sector f in blocks 4 and 68, zeros elsewhere. */
  predicate Initially(b: Sector, f: Sector, lbn: nat, x: Sector) {
    if lbn == 0 then x == b else if lbn == 4 || lbn == 68 then x == f else forall k :: 0 <= k < 512 ==> x[k] == 0
  }

  /** After any run, a block that the run did not write, of any unit, is read as it was initially. */
  lemma UnwrittenIsDefault(b: Sector, f: Sector, max: nat, qs: seq<Request>, unit: nat, lbn: nat)
    requires lbn < 65536 && (unit % 256, lbn) !in Touched(qs)
    ensures var be := StoreBackend(Defaults(b, f), max);
            var a := DirectCall(be, DirectSession(be, map[], qs).disk, ReadBlocks(unit, lbn, 1)).answer;
            a.Data? && |a.blocks| == 1 && Initially(b, f, lbn, a.blocks[0])
  {
    hide DirectSession, DirectCall, StoreReads, Touched, Get, Defaults.At, StoreBackend, CallStored, Initially;
    var df, k := Defaults(b, f), (unit % 256, lbn);
    var m := DirectSession(StoreBackend(df, max), map[], qs).disk;
    SessionFills(df, max, map[], {}, qs);
    assert {} + Touched(qs) == Touched(qs);
    assert k !in m.Keys;
    DirectStoreCall(df, max, m, ReadBlocks(unit, lbn, 1));
    OneRead(df, m, k);
    MissingIsDefault(b, f, m, k);
  }

  lemma MissingIsDefault(b: Sector, f: Sector, m: Cells, k: Key)
    requires k !in m.Keys
    ensures Initially(b, f, k.1, Get(Defaults(b, f), m, k.0, k.1))
  {
    assert (k.0, k.1) == k;
  }

  /** Over diskfake a query of the drives is answered 00 00 ff ff, one of a size 00 01 00 00. */
  lemma FakeQueries(df: Defaults, max: nat, m: Cells, buff: Sector, u: byte)
    ensures FeedAll(StoreBackend(df, max), Device(Idle, buff, m), [1]).out == [0, 0, 0xff, 0xff]
    ensures FeedAll(StoreBackend(df, max), Device(Idle, buff, m), [2, u]).out == [0, 1, 0, 0]
  {
    hide Fold, Split32;
    QueriesOnWire(StoreBackend(df, max), Device(Idle, buff, m), u, 0, 0, 0xff, 0xff);
    QueriesOnWire(StoreBackend(df, max), Device(Idle, buff, m), u, 0, 1, 0, 0);
  }

  // ------------------------------------------------- further runs tell them apart

  /** The driver can ask for block k. */
  predicate Askable(k: Key) { k.0 < 256 && k.1 < 0x1_0000 }

  lemma {:induction false} WritesAskable(unit: nat, lbn: nat, xs: seq<Sector>)
    requires unit < 256 && lbn < 0x1_0000
    ensures forall w :: w in WritesFrom(unit, lbn, xs) ==> Askable(w.key)
    decreases |xs|
  {
    if xs != [] { WritesAskable(unit, NextBlock(lbn), xs[1..]); }
  }

  lemma {:induction false} RunAskable(qs: seq<Request>)
    requires forall q :: q in qs ==> q.Valid()
    ensures forall w :: w in RunWrites(qs) ==> Askable(w.key)
    decreases |qs|
  {
    if qs != [] {
      assert qs[0] in qs && qs[0].Valid() && forall q :: q in qs[1..] ==> q in qs;
      if qs[0].WriteBlocks? { WritesAskable(qs[0].unit % 256, qs[0].lbn, qs[0].blocks); }
      RunAskable(qs[1..]);
    }
  }

  lemma {:induction false} FirstWritesAreKeys(ws: seq<BlockWrite>)
    requires forall w :: w in ws ==> Askable(w.key)
    ensures forall i, j :: 0 <= i < j < |FirstWrites(ws)| ==> FirstWrites(ws)[i] != FirstWrites(ws)[j]
    ensures forall k :: k in FirstWrites(ws) ==> Askable(k)
  {
    if ws != [] {
      assert ws[|ws| - 1] in ws && forall w :: w in ws[..|ws| - 1] ==> w in ws;
      FirstWritesAreKeys(ws[..|ws| - 1]);
    }
  }

  lemma {:induction false} CountKeys(unit: nat, lbn: nat, n: nat)
    requires lbn + n <= 0x1_0000
    ensures |KeysFrom(unit, lbn, n)| == n
    ensures forall k :: k in KeysFrom(unit, lbn, n) ==> lbn <= k.1 < 0x1_0000
    decreases n
  {
    if n == 1 {
      assert KeysFrom(unit, NextBlock(lbn), 0) == {};
    } else if n > 1 {
      CountKeys(unit, lbn + 1, n - 1);
      assert (unit, lbn) !in KeysFrom(unit, lbn + 1, n - 1);
    }
  }

  /** 51 blocks in a row leave more than 50 blocks written. */
  lemma ManyWritten(ws: seq<BlockWrite>, xs: seq<Sector>)
    requires |xs| == 51
    ensures |FirstWrites(ws + WritesFrom(0, 0, xs))| >= 51
  {
    hide PutAll, StoreWrites, WritesFrom, FirstWrites;
    var m := PutAll(51, ws);
    StoreKeepsFirst(51, ws);
    assert |m| == |m.Keys|;
    WritesFill(m, 51, m.Keys, 0, 0, xs);
    StoreWritesPut(51, ws, 0, 0, xs);
    StoreKeepsFirst(51, ws + WritesFrom(0, 0, xs));
    CountKeys(0, 0, 51);
    SubsetSize(KeysFrom(0, 0, 51), m.Keys + KeysFrom(0, 0, 51));
    var m' := PutAll(51, ws + WritesFrom(0, 0, xs));
    assert |m'| == |m'.Keys|;
  }

  function NotDefault(df: Defaults, lbn: nat): (x: Sector)
    ensures x != df.At(lbn)
  {
    df.At(lbn)[0 := if df.At(lbn)[0] == 0 then 1 else 0]
  }

  /** Once more than 50 blocks are written, the 51st is stored by the device only. */
  lemma WrittenOnDeviceOnly(df: Defaults, ws: seq<BlockWrite>, x: Sector)
    requires |FirstWrites(ws)| >= 51 && (forall w :: w in ws ==> Askable(w.key))
    requires x != df.At(FirstWrites(ws)[50].1)
    ensures !SeenAlike(df, ws + [BlockWrite(FirstWrites(ws)[50], x)], FirstWrites(ws)[50])
  {
    FirstWritesAreKeys(ws);
    var ks, k := FirstWrites(ws), FirstWrites(ws)[50];
    var ws' := ws + [BlockWrite(k, x)];
    assert ws'[..|ws'| - 1] == ws;
    assert FirstWrites(ws') == ks && LastWrite(ws', k) == Some(x);
    var n := if |ks| < 200 then |ks| else 200;
    assert ks[..n][50] == k && k in ks[..n];
    assert k !in ks[..50];
  }

  lemma OneWrite(k: Key, x: Sector)
    requires Askable(k)
    ensures CallWrites(WriteBlocks(k.0, k.1, [x])) == [BlockWrite(k, x)]
  {
    assert (k.0, k.1) == k && [x][1..] == [];
    assert WritesFrom(k.0, k.1, [x]) == [BlockWrite(k, x)] + WritesFrom(k.0, NextBlock(k.1), []) == [BlockWrite(k, x)];
  }

  lemma OneReadTells(df: Defaults, ws: seq<BlockWrite>, k: Key)
    requires Askable(k) && !SeenAlike(df, ws, k)
    ensures !ReadsSeenAlike(df, ws, [ReadBlocks(k.0, k.1, 1)])
  {
    hide SeenAlike;
    var q := ReadBlocks(k.0, k.1, 1);
    assert (k.0, k.1) == k && k in KeysFrom(k.0 % 256, k.1, 1);
    assert !CallSeenAlike(df, ws, q) && [q][0] == q;
  }

  lemma {:induction false} SeenAlikeAfter(df: Defaults, ws: seq<BlockWrite>, qs: seq<Request>, more: seq<Request>)
    requires ReadsSeenAlike(df, ws, qs + more)
    ensures ReadsSeenAlike(df, ws + RunWrites(qs), more)
    decreases |qs|
  {
    hide CallSeenAlike, CallWrites;
    if qs == [] {
      assert qs + more == more && ws + [] == ws;
    } else {
      assert (qs + more)[0] == qs[0] && (qs + more)[1..] == qs[1..] + more;
      SeenAlikeAfter(df, ws + CallWrites(qs[0]), qs[1..], more);
      assert ws + CallWrites(qs[0]) + RunWrites(qs[1..]) == ws + RunWrites(qs);
    }
  }

  /** No run makes the two builds alike for good: write 51 blocks, write the 51st of all blocks ever
      written once more, and read that one. */
  lemma FurtherRunCanDiffer(df: Defaults, qs: seq<Request>) returns (more: seq<Request>)
    requires forall q :: q in qs ==> q.Valid()
    ensures forall q :: q in more ==> q.Valid()
    ensures DirectSession(StoreBackend(df, FAKE_BLOCKS), map[], qs + more).answers
         != DirectSession(StoreBackend(df, DISKFAKE_BLOCKS), map[], qs + more).answers
  {
    hide DirectSession, StoreBackend, SeenAlike, FirstWrites, WritesFrom, KeysFrom;
    var ws, xs := RunWrites(qs), seq(51, i => Zeros(512));
    var q0 := WriteBlocks(0, 0, xs);
    var ws1 := ws + CallWrites(q0);
    RunAskable(qs);
    WritesAskable(0, 0, xs);
    ManyWritten(ws, xs);
    FirstWritesAreKeys(ws1);
    var k := FirstWrites(ws1)[50];
    var x := NotDefault(df, k.1);
    var q1, q2 := WriteBlocks(k.0, k.1, [x]), ReadBlocks(k.0, k.1, 1);
    WrittenOnDeviceOnly(df, ws1, x);
    OneWrite(k, x);
    OneReadTells(df, ws1 + [BlockWrite(k, x)], k);
    more := [q0, q1, q2];
    assert more[1..] == [q1, q2] && [q1, q2][1..] == [q2];
    assert [] + ws == ws;
    if ReadsSeenAlike(df, [], qs + more) { SeenAlikeAfter(df, [], qs, more); }
    AnswersAgreeIff(df, qs + more);
  }

  /** The two builds run side by side on the same calls: the fake driver on its own store, the
      real one against the server over diskfake. */
  method RunBothBuilds(df: Defaults, qs: seq<Request>, buff: Sector) returns (fake: seq<Answer>, device: seq<Answer>)
    requires SafeSession(StoreBackend(df, DISKFAKE_BLOCKS), map[], qs)
    requires forall q :: q in qs ==> q.Valid() && q.unit < 256
    ensures fake == device <==> ReadsSeenAlike(df, [], qs)
    ensures |Touched(qs)| <= 50 ==> fake == device
    ensures device == DirectSession(StoreBackend(df, 200), map[], qs).answers
  {
    hide DirectSession, SafeSession, ReadsSeenAlike;
    AnswersAgreeIff(df, qs);
    TwoBuildsAgreeIff(df, qs);
    var store := new Store(df, FAKE_BLOCKS);
    fake := FakeSession(store, qs);
    var be := StoreBackend(df, DISKFAKE_BLOCKS);
    var none: Cells := map[];
    var link := new Link(Server(be), Device(Idle, buff, none));
    device := RunSession(be, link, qs);
  }
}
