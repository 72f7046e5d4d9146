// The zero-run sector codec: LPTCompress and LPTDecompress
// (pico/lptprotocol.c, dos/SDPP10/LPTSTORE.C and fs/comp.c hold identical copies).
//
// A run of 1..256 zero bytes travels as the pair 00, length-1; every other byte
// travels as itself.
module Codec {
  import opened Bytes

  // ---------------------------------------------------------------- encoding

  /** Length of the run of zeros at the head of s, counted up to cap. */
  function ZeroRun(s: seq<byte>, cap: nat): (n: nat)
    ensures n <= cap && n <= |s|
    ensures n > 0 <==> s != [] && cap > 0 && s[0] == 0
  {
    if s == [] || cap == 0 || s[0] != 0 then 0 else 1 + ZeroRun(s[1..], cap - 1)
  }

  /** It is all zeros, and as long as it can be. */
  lemma {:induction false} ZeroRunIsMaximal(s: seq<byte>, cap: nat)
    ensures var n := ZeroRun(s, cap);
            (forall k :: 0 <= k < n ==> s[k] == 0) && (n < cap && n < |s| ==> s[n] != 0)
  {
    if s != [] && cap > 0 && s[0] == 0 {
      ZeroRunIsMaximal(s[1..], cap - 1);
    }
  }

  /** The run-length code, defined run by run without any counter. */
  function Encode(s: seq<byte>): seq<byte>
    decreases |s|
  {
    if s == [] then []
    else if s[0] != 0 then [s[0]] + Encode(s[1..])
    else
      var n := ZeroRun(s, 256);
      [0, n - 1] + Encode(s[n..])
  }

  /** A run of n <= 256 zeros and the byte that ends it, in numbers. */
  lemma RunInNumbers(n: nat, b: byte, t: seq<byte>)
    requires 1 <= n <= 256 && b != 0
    ensures Encode(Zeros(n) + [b] + t) == [0, n - 1, b] + Encode(t)
  {
    var s := Zeros(n) + [b] + t;
    ZeroRunIsMaximal(s, 256);
    var m := ZeroRun(s, 256);
    assert s[n] == b && forall k :: 0 <= k < n ==> s[k] == 0;
    assert m == n;
    assert s[n..] == [b] + t;
    hide Encode, ZeroRun;
    EncodeRun(s);
    EncodeByte(b, t);
  }

  /** What one input byte makes the encoder write when a run of c zeros is open. */
  function Piece(c: byte, b: byte): seq<byte> {
    if b == 0 then
      if c == 0 then [0] else if c == 255 then [255] else []
    else if c == 0 then [b]
    else [c - 1, b]
  }

  function NextRun(c: byte, b: byte): byte {
    if b == 0 && c != 255 then c + 1 else 0
  }

  /** What the encoder has written, and the run it has open, after a prefix of its input. */
  datatype Scan = Scan(out: seq<byte>, run: byte)

  function ScanAll(p: seq<byte>): Scan {
    if p == [] then Scan([], 0)
    else
      var st, b := ScanAll(p[..|p| - 1]), p[|p| - 1];
      Scan(st.out + Piece(st.run, b), NextRun(st.run, b))
  }

  /** The rest of an encoding when a run of c zeros is already open before t. */
  function Resume(c: byte, t: seq<byte>): seq<byte> {
    if c == 0 then Encode(t)
    else
      var n := ZeroRun(t, 256 - c);
      [c as int + n - 1] + Encode(t[n..])
  }

  lemma ZeroRunFirst(b: byte, t: seq<byte>, cap: nat)
    requires cap > 0
    ensures ZeroRun([b] + t, cap) == if b == 0 then 1 + ZeroRun(t, cap - 1) else 0
  {
    assert ([b] + t)[1..] == t;
  }

  lemma DropFirst(b: byte, t: seq<byte>, n: nat)
    requires n <= |t|
    ensures ([b] + t)[1 + n..] == t[n..]
  {
  }

  lemma EncodeByte(b: byte, t: seq<byte>)
    requires b != 0
    ensures Encode([b] + t) == [b] + Encode(t)
  {
    assert ([b] + t)[1..] == t;
  }

  lemma EncodeRun(s: seq<byte>)
    requires s != [] && s[0] == 0
    ensures Encode(s) == [0, ZeroRun(s, 256) - 1] + Encode(s[ZeroRun(s, 256)..])
  {
  }

  lemma ResumeRun(c: byte, s: seq<byte>)
    requires c != 0
    ensures Resume(c, s) == [c as int + ZeroRun(s, 256 - c) - 1] + Encode(s[ZeroRun(s, 256 - c)..])
  {
  }

  lemma Cons(x: byte, y: byte, rest: seq<byte>)
    ensures [x, y] + rest == [x] + ([y] + rest)
    ensures [] + rest == rest
  {
  }

  /** A zero opens a run, ... */
  lemma OpenRun(t: seq<byte>)
    ensures Resume(0, [0] + t) == [0] + Resume(1, t)
  {
    var n := ZeroRun(t, 255);
    ZeroRunFirst(0, t, 256);
    DropFirst(0, t, n);
    EncodeRun([0] + t);
    ResumeRun(1, t);
    Cons(0, n, Encode(t[n..]));
  }

  /** ... goes on with it, ... */
  lemma ExtendRun(c: byte, t: seq<byte>)
    requires 0 < c < 255
    ensures Resume(c, [0] + t) == Resume(c + 1, t)
  {
    hide ZeroRun, Encode, Resume;
    var n := ZeroRun(t, 255 - c);
    ZeroRunFirst(0, t, 256 - c);
    DropFirst(0, t, n);
    ResumeRun(c, [0] + t);
    ResumeRun(c + 1, t);
  }

  /** ... or fills it; ... */
  lemma FillRun(t: seq<byte>)
    ensures Resume(255, [0] + t) == [255] + Encode(t)
  {
    ZeroRunFirst(0, t, 1);
    ResumeRun(255, [0] + t);
    DropFirst(0, t, 0);
    assert t[0..] == t;
  }

  /** ... any other byte closes it. */
  lemma CloseByte(c: byte, b: byte, t: seq<byte>)
    requires c != 0 && b != 0
    ensures Resume(c, [b] + t) == [c - 1] + Encode([b] + t)
  {
    ZeroRunFirst(b, t, 256 - c);
    ResumeRun(c, [b] + t);
    assert ([b] + t)[0..] == [b] + t;
  }

  lemma ResumeStep(c: byte, b: byte, t: seq<byte>)
    ensures Resume(c, [b] + t) == Piece(c, b) + Resume(NextRun(c, b), t)
  {
    if b == 0 {
      if c == 0 { OpenRun(t); } else if c == 255 { FillRun(t); } else { ExtendRun(c, t); Cons(0, 0, Resume(c + 1, t)); }
    } else {
      EncodeByte(b, t);
      if c != 0 {
        CloseByte(c, b, t);
        Cons(c - 1, b, Encode(t));
      }
    }
  }

  lemma ResumeEnd(c: byte)
    ensures Resume(c, []) == if c == 0 then [] else [c - 1]
  {
    if c != 0 { assert ZeroRun([], 256 - c) == 0; }
  }

  /** The encoder's left-to-right scan, cut anywhere, agrees with the run-by-run code. */
  lemma {:induction false} ScanMatchesEncode(p: seq<byte>, t: seq<byte>)
    ensures Encode(p + t) == ScanAll(p).out + Resume(ScanAll(p).run, t)
    decreases |p|
  {
    if p == [] {
      assert p + t == t;
    } else {
      var q, b := p[..|p| - 1], p[|p| - 1];
      assert p + t == q + ([b] + t);
      ScanMatchesEncode(q, [b] + t);
      ResumeStep(ScanAll(q).run, b, t);
    }
  }

  /** An encoding is never shorter than the bytes the scan has already written. */
  lemma ScanIsPrefix(s: seq<byte>, i: nat)
    requires i <= |s|
    ensures |ScanAll(s[..i]).out| <= |Encode(s)|
  {
    ScanMatchesEncode(s[..i], s[i..]);
    assert s[..i] + s[i..] == s;
  }

  /** Size bounds of the code: at best 128 to 1, at worst 3 bytes for 2. */
  lemma {:induction false} EncodeBounds(s: seq<byte>)
    ensures |s| <= 128 * |Encode(s)|
    ensures 2 * |Encode(s)| <= 3 * |s| + 1
    ensures s != [] && s[0] != 0 ==> 2 * |Encode(s)| <= 3 * |s|
    decreases |s|
  {
    if s == [] {
    } else if s[0] != 0 {
      EncodeBounds(s[1..]);
    } else {
      EncodeBounds(s[ZeroRun(s, 256)..]);
    }
  }

  /** The encoder reports failure by 0; a success is at least 4, so 0 is unambiguous. */
  function CompressedSize(s: Sector): (n: nat)
    ensures n != 0 ==> 4 <= n < 512
    ensures n == 0 <==> |Encode(s)| >= 512
  {
    EncodeBounds(s);
    if |Encode(s)| < 512 then |Encode(s)| else 0
  }

  /** The one situation in which an encoder iteration writes cell 512: 511 bytes out,
      a run open, and a nonzero byte next. */
  predicate WritesCell512(s: seq<byte>) {
    exists i :: 0 <= i < |s| && WritesCell512At(s, i)
  }

  predicate WritesCell512At(s: seq<byte>, i: nat)
    requires i < |s|
  {
    var st := ScanAll(s[..i]);
    |st.out| == 511 && st.run > 0 && s[i] != 0
  }

  /** An output of n cells holds all that the encoder writes for s. */
  predicate RoomFor(n: nat, s: seq<byte>) {
    n >= 513 || (n == 512 && !WritesCell512(s))
  }

  /**
    LPTCompress. The loop tests the limit only after an iteration, which may write two bytes:
    cell 512 is touched exactly when WritesCell512, and then the output must have it.
   */
  method Compress(out: array<byte>, data: array<byte>, from: nat) returns (r: nat)
    requires out != data && from + 512 <= data.Length && RoomFor(out.Length, data[from..from + 512])
    modifies out
    ensures r == CompressedSize(data[from..from + 512])
    ensures r != 0 ==> out[..r] == Encode(data[from..from + 512])
    ensures forall k :: 513 <= k < out.Length ==> out[k] == old(out[k])
    ensures WritesCell512(data[from..from + 512]) ==> r == 0 && out[512] != 0
    ensures out.Length > 512 && !WritesCell512(data[from..from + 512]) ==> out[512] == old(out[512])
  {
    ghost var s: Sector := data[from..from + 512];
    var c;
    r, c := ScanSector(out, data, from, s);
    if r >= 512 { return 0; }
    ScanEnd(s);
    NeverWritesCell512(s);
    r := CloseRun(out, r, c);
    r := if r >= 512 then 0 else r;
  }

  /** The encoder's loop: all 512 bytes, or up to the one that passes the limit. */
  method ScanSector(out: array<byte>, data: array<byte>, from: nat, ghost s: Sector) returns (r: nat, c: byte)
    requires out != data && from + 512 <= data.Length && s == data[from..from + 512] && RoomFor(out.Length, s)
    modifies out
    ensures r <= 513 && r <= out.Length
    ensures forall k :: 512 <= k < out.Length && r <= k ==> out[k] == old(out[k])
    ensures r < 512 ==> Scan(out[..r], c) == ScanAll(s) && StaysBelow(s, 512)
    ensures r >= 512 ==> |Encode(s)| >= 512 && (r == 513 <==> WritesCell512(s)) && (r == 513 ==> out[512] != 0)
  {
    var i: nat := 0;
    r, c := 0, 0;
    while i < 512
      invariant i <= 512 && r < 512
      invariant Scan(out[..r], c) == ScanAll(s[..i]) && StaysBelow(s, i)
      invariant forall k :: 512 <= k < out.Length ==> out[k] == old(out[k])
    {
      ScanStep(s, i);
      PieceFits(s, i);
      assert data[from + i] == s[i];
      r, c := CompressByte(out, r, c, data[from + i]);
      if r >= 512 {
        OverrunDecided(s, i);
        assert out[..r] == ScanAll(s[..i + 1]).out;
        return;
      }
      i := i + 1;
    }
    assert s[..512] == s;
  }

  /** The body of the encoder's loop: one input byte, at most two output bytes. */
  method CompressByte(out: array<byte>, r0: nat, c0: byte, b: byte) returns (r: nat, c: byte)
    requires r0 + |Piece(c0, b)| <= out.Length
    modifies out
    ensures r == r0 + |Piece(c0, b)| && c == NextRun(c0, b)
    ensures out[..r] == old(out[..r0]) + Piece(c0, b)
    ensures forall k :: r <= k < out.Length ==> out[k] == old(out[k])
  {
    r, c := r0, c0;
    if b == 0 {
      if c == 0 {
        out[r] := 0;
        r, c := r + 1, c + 1;
      } else if c == 255 {
        out[r] := 0xff;
        r, c := r + 1, 0;
      } else {
        c := c + 1;
      }
    } else {
      if c != 0 {
        out[r] := c - 1;
        r, c := r + 1, 0;
      }
      out[r] := b;
      r := r + 1;
    }
  }

  /** A run still open at the end of the sector is closed. */
  method CloseRun(out: array<byte>, r0: nat, c: byte) returns (r: nat)
    requires r0 < 512 <= out.Length
    modifies out
    ensures r <= 512 && out[..r] == old(out[..r0]) + (if c == 0 then [] else [c - 1])
    ensures forall k :: r <= k < out.Length ==> out[k] == old(out[k])
  {
    r := r0;
    if c != 0 {
      out[r] := c - 1;
      r := r + 1;
    }
  }

  /** No iteration before position i finds the situation of WritesCell512. */
  predicate StaysBelow(s: seq<byte>, i: nat)
    requires i <= |s|
    decreases i
  {
    i == 0 || (StaysBelow(s, i - 1) && !WritesCell512At(s, i - 1))
  }

  lemma {:induction false} StaysBelowAll(s: seq<byte>, i: nat)
    requires i <= |s| && StaysBelow(s, i)
    ensures forall k :: 0 <= k < i ==> !WritesCell512At(s, k)
    decreases i
  {
    if i > 0 { StaysBelowAll(s, i - 1); }
  }

  lemma ScanStep(s: seq<byte>, i: nat)
    requires i < |s|
    ensures var st := ScanAll(s[..i]);
            ScanAll(s[..i + 1]) == Scan(st.out + Piece(st.run, s[i]), NextRun(st.run, s[i]))
    ensures StaysBelow(s, i) && !WritesCell512At(s, i) ==> StaysBelow(s, i + 1)
  {
    assert s[..i + 1][..i] == s[..i] && s[..i + 1][i] == s[i];
  }

  /** While 512 bytes are not reached, the next piece fits in 513 cells, or in 512. */
  lemma PieceFits(s: seq<byte>, i: nat)
    requires i < |s| && |ScanAll(s[..i]).out| < 512
    ensures var st := ScanAll(s[..i]);
            |st.out| + |Piece(st.run, s[i])| <= if WritesCell512At(s, i) then 513 else 512
  {
  }

  lemma ScanEnd(s: seq<byte>)
    ensures var st := ScanAll(s);
            Encode(s) == if st.run == 0 then st.out else st.out + [st.run - 1]
  {
    var st := ScanAll(s);
    ScanMatchesEncode(s, []);
    ResumeEnd(st.run);
    assert s + [] == s && st.out + [] == st.out;
  }

  lemma NeverWritesCell512(s: seq<byte>)
    requires StaysBelow(s, |s|)
    ensures !WritesCell512(s)
  {
    StaysBelowAll(s, |s|);
  }

  // When an iteration passes the limit, it has written 513 bytes exactly in the situation
  // of WritesCell512, and no later iteration could meet it.
  lemma OverrunDecided(s: seq<byte>, i: nat)
    requires i < |s| && |ScanAll(s[..i]).out| < 512 <= |ScanAll(s[..i + 1]).out| && StaysBelow(s, i)
    ensures |Encode(s)| >= 512
    ensures var w := ScanAll(s[..i + 1]).out;
            |w| == (if WritesCell512(s) then 513 else 512) && (WritesCell512(s) ==> w[512] != 0)
  {
    ScanIsPrefix(s, i + 1);
    ScanStep(s, i);
    StaysBelowAll(s, i);
    forall k | i < k < |s| ensures !WritesCell512At(s, k) {
      ScanGrows(s, i + 1, k);
    }
    assert WritesCell512(s) <==> WritesCell512At(s, i);
  }

  lemma {:induction false} ScanGrows(s: seq<byte>, i: nat, j: nat)
    requires i <= j <= |s|
    ensures |ScanAll(s[..i]).out| <= |ScanAll(s[..j]).out|
  {
    if i < j {
      ScanGrows(s, i, j - 1);
      assert s[..j][..j - 1] == s[..j - 1];
    }
  }

  /** n pairs 00 01. */
  function Pairs(n: nat): (s: seq<byte>)
    ensures |s| == 2 * n
    ensures forall k :: 0 <= k < 2 * n ==> s[k] == k % 2
  {
    seq(2 * n, k => k % 2)
  }

  lemma ScanByte(p: seq<byte>, b: byte)
    ensures ScanAll(p + [b]) == Scan(ScanAll(p).out + Piece(ScanAll(p).run, b), NextRun(ScanAll(p).run, b))
  {
    hide Piece, NextRun;
    assert (p + [b])[..|p|] == p;
  }

  lemma PairsMore(n: nat)
    ensures Pairs(n + 1) == Pairs(n) + [0] + [1]
  {
    var s, t := Pairs(n + 1), Pairs(n) + [0] + [1];
    forall k | 0 <= k < 2 * n + 2 ensures s[k] == t[k] {
      if k < 2 * n { assert t[k] == Pairs(n)[k]; }
    }
  }

  lemma ScanPair(p: seq<byte>)
    requires ScanAll(p).run == 0
    ensures var st := ScanAll(p + [0] + [1]); |st.out| == |ScanAll(p).out| + 3 && st.run == 0
  {
    hide ScanAll;
    ScanByte(p, 0);
    ScanByte(p + [0], 1);
  }

  lemma NoPairs()
    ensures ScanAll(Pairs(0)) == Scan([], 0)
  {
    assert Pairs(0) == [];
  }

  lemma {:induction false} ScanPairs(n: nat)
    ensures |ScanAll(Pairs(n)).out| == 3 * n && ScanAll(Pairs(n)).run == 0
  {
    hide ScanAll, Pairs;
    if n == 0 {
      NoPairs();
    } else {
      ScanPairs(n - 1);
      PairsMore(n - 1);
      ScanPair(Pairs(n - 1));
    }
  }

  /** Cell 512 really is written for some sector: the alternation of 00 and 01. */
  lemma AlternatingSectorWritesCell512()
    ensures |Pairs(256)| == 512 && WritesCell512(Pairs(256))
  {
    var s := Pairs(256);
    ScanPairs(170);
    assert s[..341][..340] == Pairs(170);
    assert s[..341][340] == 340 % 2 == 0;
    assert s[341] == 341 % 2 == 1;
    assert WritesCell512At(s, 341);
  }

  // ---------------------------------------------------------------- decoding

  /** The decoder's test: byte i is a run length when exactly one 00 precedes it. */
  predicate IsCount(d: seq<byte>, i: nat)
    requires i < |d|
  {
    i > 0 && d[i - 1] == 0 && !(i > 1 && d[i - 2] == 0)
  }

  function RunLength(b: byte): nat {
    b as int + 1
  }

  function Emit(d: seq<byte>, i: nat): seq<byte>
    requires i < |d|
  {
    if IsCount(d, i) then Zeros(RunLength(d[i])) else if d[i] != 0 then [d[i]] else []
  }

  /** All the bytes the two-byte lookbehind yields from position i on. */
  function Lookbehind(d: seq<byte>, i: nat): seq<byte>
    requires i <= |d|
    decreases |d| - i
  {
    if i == |d| then [] else Emit(d, i) + Lookbehind(d, i + 1)
  }

  /** The same stream read by a parser that knows whether a marker is pending. */
  function Parse(t: seq<byte>): seq<byte>
    decreases |t|
  {
    if t == [] then []
    else if t[0] != 0 then [t[0]] + Parse(t[1..])
    else if |t| == 1 then []
    else Zeros(RunLength(t[1])) + Parse(t[2..])
  }

  /** No token 00 00 is followed by 00 and at least one more byte. */
  predicate Unambiguous(t: seq<byte>)
    decreases |t|
  {
    if t == [] then true
    else if t[0] != 0 then Unambiguous(t[1..])
    else if |t| == 1 then true
    else !(t[1] == 0 && |t| >= 4 && t[2] == 0) && Unambiguous(t[2..])
  }

  /** After two zeros the lookbehind can only skip zeros: what it emits next is not a zero. */
  lemma {:induction false} AfterTwoZeros(d: seq<byte>, i: nat)
    requires 2 <= i <= |d| && d[i - 1] == 0 && d[i - 2] == 0
    ensures Lookbehind(d, i) == [] || Lookbehind(d, i)[0] != 0
    decreases |d| - i
  {
    if i < |d| && d[i] == 0 {
      AfterTwoZeros(d, i + 1);
      assert Emit(d, i) == [];
      assert Lookbehind(d, i) == Lookbehind(d, i + 1);
    }
  }

  /** A boundary between tokens as both decoders see it. */
  predicate Boundary(d: seq<byte>, i: nat)
    requires i <= |d|
  {
    (i > 0 && d[i - 1] == 0) ==> i > 1 && d[i - 2] == 0 && (i < |d| && d[i] == 0 ==> i + 1 == |d|)
  }

  lemma LiteralStep(d: seq<byte>, i: nat)
    requires i < |d| && Boundary(d, i) && d[i] != 0
    ensures Lookbehind(d, i) == [d[i]] + Lookbehind(d, i + 1) && Boundary(d, i + 1)
    ensures Parse(d[i..]) == [d[i]] + Parse(d[i + 1..])
    ensures Unambiguous(d[i..]) <==> Unambiguous(d[i + 1..])
  {
    assert d[i..][1..] == d[i + 1..];
  }

  lemma RunStep(d: seq<byte>, i: nat)
    requires i + 1 < |d| && Boundary(d, i) && d[i] == 0
    ensures var z := Zeros(RunLength(d[i + 1]));
            Lookbehind(d, i) == z + Lookbehind(d, i + 2) && Parse(d[i..]) == z + Parse(d[i + 2..])
    ensures Unambiguous(d[i..]) <==> Boundary(d, i + 2) && Unambiguous(d[i + 2..])
  {
    var t, z := d[i..], Zeros(RunLength(d[i + 1]));
    assert t[1] == d[i + 1] && t[2..] == d[i + 2..];
    assert Emit(d, i) == [] && Emit(d, i + 1) == z;
    assert Lookbehind(d, i) == Lookbehind(d, i + 1) == z + Lookbehind(d, i + 2);
    assert |t| >= 3 ==> t[2] == d[i + 2];
  }

  lemma LastByte(d: seq<byte>, i: nat)
    requires i == |d| || (i + 1 == |d| && d[i] == 0 && Boundary(d, i))
    ensures Lookbehind(d, i) == [] && Parse(d[i..]) == [] && Unambiguous(d[i..])
  {
    if i < |d| { assert Emit(d, i) == [] && Lookbehind(d, i + 1) == []; }
  }

  /** Where a token 00 00 is followed by 00 and more, the two decoders part. */
  lemma PartAfterTwoZeros(d: seq<byte>, i: nat)
    requires 2 <= i <= |d| && d[i - 2] == 0 && Boundary(d, i - 2) && !Boundary(d, i)
    ensures Lookbehind(d, i) != Parse(d[i..])
  {
    assert d[i - 1] == 0 && i + 1 < |d| && d[i] == 0;
    AfterTwoZeros(d, i);
    assert Parse(d[i..])[0] == 0;
  }

  lemma {:induction false} LookbehindFrom(d: seq<byte>, i: nat)
    requires i <= |d| && Boundary(d, i)
    ensures Lookbehind(d, i) == Parse(d[i..]) <==> Unambiguous(d[i..])
    decreases |d| - i
  {
    hide Lookbehind, Parse, Unambiguous, Boundary;
    if i == |d| || (i + 1 == |d| && d[i] == 0) {
      LastByte(d, i);
    } else if d[i] != 0 {
      LiteralStep(d, i);
      LookbehindFrom(d, i + 1);
      SamePrefix([d[i]], Lookbehind(d, i + 1), Parse(d[i + 1..]));
    } else {
      RunStep(d, i);
      SamePrefix(Zeros(RunLength(d[i + 1])), Lookbehind(d, i + 2), Parse(d[i + 2..]));
      if Boundary(d, i + 2) { LookbehindFrom(d, i + 2); } else { PartAfterTwoZeros(d, i + 2); }
    }
  }

  lemma SamePrefix(z: seq<byte>, a: seq<byte>, b: seq<byte>)
    ensures z + a == z + b <==> a == b
  {
    if z + a == z + b {
      assert a == (z + a)[|z|..] && b == (z + b)[|z|..];
    }
  }

  /** The stateless decoder and the stateful parser agree on exactly the unambiguous streams. */
  lemma LookbehindIsParserIff(d: seq<byte>)
    ensures Lookbehind(d, 0) == Parse(d) <==> Unambiguous(d)
  {
    LookbehindFrom(d, 0);
    assert d[0..] == d;
  }

  /** A concrete stream on which they disagree: 00 00 00 05. */
  lemma LookbehindCanDiffer()
    ensures Lookbehind([0, 0, 0, 5], 0) != Parse([0, 0, 0, 5])
  {
    var d: seq<byte> := [0, 0, 0, 5];
    LookbehindIsParserIff(d);
    assert !Unambiguous(d);
  }

  /** The encoder never starts a run directly after a single-zero token. */
  lemma {:induction false} EncodeUnambiguous(s: seq<byte>)
    ensures Unambiguous(Encode(s))
    decreases |s|
  {
    if s == [] {
    } else if s[0] != 0 {
      EncodeUnambiguous(s[1..]);
      assert Encode(s)[1..] == Encode(s[1..]);
    } else {
      var n := ZeroRun(s, 256);
      EncodeUnambiguous(s[n..]);
      assert Encode(s)[2..] == Encode(s[n..]);
    }
  }

  lemma {:induction false} ParseEncode(s: seq<byte>)
    ensures Parse(Encode(s)) == s
    decreases |s|
  {
    if s == [] {
    } else if s[0] != 0 {
      ParseEncode(s[1..]);
      assert Encode(s)[1..] == Encode(s[1..]);
      assert s == [s[0]] + s[1..];
    } else {
      var n := ZeroRun(s, 256);
      ParseEncode(s[n..]);
      assert Encode(s)[2..] == Encode(s[n..]);
      ZeroRunIsMaximal(s, 256);
      assert s == Zeros(n) + s[n..];
    }
  }

  /** Decoding undoes encoding, for inputs of every length. */
  lemma DecodeEncode(s: seq<byte>)
    ensures Lookbehind(Encode(s), 0) == s
  {
    EncodeUnambiguous(s);
    LookbehindIsParserIff(Encode(s));
    ParseEncode(s);
  }

  /** What the decoder stores: everything up to the first run that would pass 512 bytes. */
  datatype Stored = Stored(bytes: seq<byte>, complete: bool)

  function Decode(d: seq<byte>, i: nat, done: seq<byte>): Stored
    requires i <= |d|
    decreases |d| - i
  {
    if i == |d| then Stored(done, true)
    else if IsCount(d, i) && |done| + RunLength(d[i]) > 512 then Stored(done, false)
    else Decode(d, i + 1, done + Emit(d, i))
  }

  lemma {:induction false} DecodeWithinLimit(d: seq<byte>, i: nat, done: seq<byte>)
    requires i <= |d| && |done| + |Lookbehind(d, i)| <= 512
    ensures Decode(d, i, done) == Stored(done + Lookbehind(d, i), true)
    decreases |d| - i
  {
    if i < |d| {
      DecodeWithinLimit(d, i + 1, done + Emit(d, i));
      assert done + Lookbehind(d, i) == done + Emit(d, i) + Lookbehind(d, i + 1);
    } else {
      assert done + [] == done;
    }
  }

  lemma {:induction false} DecodeExtends(d: seq<byte>, i: nat, done: seq<byte>)
    requires i <= |d|
    ensures done <= Decode(d, i, done).bytes
    decreases |d| - i
  {
    if i < |d| && !(IsCount(d, i) && |done| + RunLength(d[i]) > 512) {
      DecodeExtends(d, i + 1, done + Emit(d, i));
    }
  }

  /** The sector round trip: a compressed sector decodes to itself and the 512 guard stays silent. */
  lemma SectorRoundTrip(s: Sector)
    ensures Decode(Encode(s), 0, []) == Stored(s, true)
  {
    DecodeEncode(s);
    DecodeWithinLimit(Encode(s), 0, []);
    assert [] + s == s;
  }

  /** LPTDecompress, storing from index at on. Nothing bounds literals, so the caller must
      provide room for all that is stored. */
  method Decompress(out: array<byte>, at: nat, data: array<byte>, len: nat) returns (r: nat)
    requires out != data && len <= data.Length
    requires at + |Decode(data[..len], 0, []).bytes| <= out.Length
    modifies out
    ensures var w := Decode(data[..len], 0, []);
            r == (if w.complete then |w.bytes| else 0) && out[at..at + |w.bytes|] == w.bytes
    ensures var n := |Decode(data[..len], 0, []).bytes|;
            forall k :: 0 <= k < out.Length && !(at <= k < at + n) ==> out[k] == old(out[k])
  {
    ghost var d := data[..len];
    ghost var w := Decode(d, 0, []);
    r := 0;
    var i: nat := 0;
    assert out[at..at] == [];
    while i < len
      invariant i <= len && d == data[..len]
      invariant at + r <= at + |w.bytes| <= out.Length
      invariant w == Decode(d, i, out[at..at + r])
      invariant forall k :: 0 <= k < out.Length && !(at <= k < at + r) ==> out[k] == old(out[k])
    {
      ghost var done := out[at..at + r];
      if !PastLimit(d, i, r) { DecodeExtends(d, i + 1, done + Emit(d, i)); }
      var full;
      r, full := DecodeByte(out, at, r, data, i, d);
      if full { return 0; }
      i := i + 1;
    }
  }

  /** Byte i is a count that would take the output past 512 bytes. */
  predicate PastLimit(d: seq<byte>, i: nat, r: nat)
    requires i < |d|
  {
    IsCount(d, i) && r + RunLength(d[i]) > 512
  }

  /** The body of the decoder's loop. */
  method DecodeByte(out: array<byte>, at: nat, r: nat, data: array<byte>, i: nat, ghost d: seq<byte>)
    returns (r': nat, full: bool)
    requires out != data && i < |d| <= data.Length && d == data[..|d|] && at + r <= out.Length
    requires !PastLimit(d, i, r) ==> at + r + |Emit(d, i)| <= out.Length
    modifies out
    ensures full <==> PastLimit(d, i, r)
    ensures full ==> out[..] == old(out[..])
    ensures !full ==> r' == r + |Emit(d, i)| && out[at..at + r'] == old(out[at..at + r]) + Emit(d, i)
    ensures !full ==> forall k :: 0 <= k < out.Length && !(at + r <= k < at + r') ==> out[k] == old(out[k])
  {
    r', full := r, false;
    if i > 0 && data[i - 1] == 0 && !(i > 1 && data[i - 2] == 0) {
      var c := RunLength(data[i]);
      if r + c > 512 { return r, true; }
      StoreZeros(out, at + r, c);
      r' := r + c;
    } else if data[i] != 0 {
      out[at + r] := data[i];
      r' := r + 1;
    }
  }

  /** The decoder's inner loop: c zeros from index at on. */
  method StoreZeros(out: array<byte>, at: nat, c: nat)
    requires at + c <= out.Length
    modifies out
    ensures forall k :: 0 <= k < out.Length ==> out[k] == if at <= k < at + c then 0 else old(out[k])
  {
    var left := c;
    while left > 0
      invariant 0 <= left <= c
      invariant forall k :: 0 <= k < out.Length ==>
        out[k] == if at <= k < at + (c - left) then 0 else old(out[k])
    {
      out[at + c - left] := 0;
      left := left - 1;
    }
  }
}
