// The sector loop of fs/comp.c: a file goes through the codec and back, sector by sector.
module FileHarness {
  import opened Bytes
  import opened Codec

  /** A file open for reading, as fread and feof see it: the end is noticed only by a read that
      comes up short. */
  class InFile {
    const content: seq<byte>
    var pos: nat
    var eof: bool

    ghost predicate Valid()
      reads this
    {
      pos <= |content| && (eof ==> pos == |content|)
    }

    constructor (content: seq<byte>)
      ensures Valid() && this.content == content && pos == 0 && !eof
    {
      this.content, pos, eof := content, 0, false;
    }

    method Read(a: array<byte>) returns (n: nat)
      requires Valid()
      modifies this`pos, this`eof, a
      ensures Valid() && n <= a.Length && old(pos) + n == pos
      ensures a[..n] == content[old(pos)..pos] && a[n..] == old(a[n..])
      ensures eof <==> old(eof) || n < a.Length
    {
      ghost var before := a[..];
      n := 0;
      while n < a.Length && pos < |content|
        invariant n <= a.Length && pos <= |content| && pos == old(pos) + n && eof == old(eof)
        invariant a[..n] == content[old(pos)..pos] && a[n..] == before[n..]
      {
        a[n] := content[pos];
        assert a[..n + 1] == a[..n] + [content[pos]];
        assert a[n + 1..] == before[n..][1..];
        n, pos := n + 1, pos + 1;
      }
      eof := eof || n < a.Length;
    }
  }

  method Clear(a: array<byte>)
    modifies a
    ensures a[..] == Zeros(a.Length)
  {
    for i := 0 to a.Length
      invariant forall k :: 0 <= k < i ==> a[k] == 0
    {
      a[i] := 0;
    }
  }

  /** One sector compressed and, if that worked, decompressed again in place. */
  method ThroughCodec(data: array<byte>, cdata: array<byte>)
    requires data != cdata && data.Length == 512 && cdata.Length == 512 && !WritesCell512(data[..])
    modifies data, cdata
    ensures data[..] == old(data[..])
  {
    hide Encode, Decode, WritesCell512;
    ghost var x: Sector := data[..];
    assert data[0..0 + 512] == x;
    var c := Compress(cdata, data, 0);
    if c != 0 {
      Clear(data);
      SectorRoundTrip(x);
      var r := Decompress(data, 0, cdata, c);
      assert data[..] == data[0..0 + 512];
    }
  }

  /** The sector of round k: what is left of the file, up to 512 bytes, and zeros. */
  function Round(content: seq<byte>, k: nat): Sector
    requires 512 * k <= |content|
  {
    var end := if 512 * k + 512 <= |content| then 512 * k + 512 else |content|;
    content[512 * k..end] + Zeros(512 * k + 512 - end)
  }

  /** No round makes the encoder write past the 512 bytes of cdata. */
  ghost predicate RoundsFit(content: seq<byte>) {
    forall k: nat :: 512 * k <= |content| ==> !WritesCell512(Round(content, k))
  }

  /** A file for which the harness does: the 512 bytes 00 01 00 01 ... */
  lemma HarnessCanOverrun()
    ensures !RoundsFit(Pairs(256))
  {
    AlternatingSectorWritesCell512();
    assert Round(Pairs(256), 0) == Pairs(256);
  }

  /**
    Whatever its length, the file comes out as it went in: the zero padding of the last sector
    is not written, and a file of whole sectors costs one more, empty round. Only files that
    overrun the harness's own buffer are excepted.
   */
  method CopyFile(f: InFile) returns (output: seq<byte>, rounds: nat)
    requires f.Valid() && f.pos == 0 && !f.eof && RoundsFit(f.content)
    modifies f
    ensures output == f.content && rounds == |f.content| / 512 + 1
  {
    var data, cdata := new byte[512], new byte[512];
    output, rounds := [], 0;
    while !f.eof
      invariant f.Valid() && output == f.content[..f.pos]
      invariant if f.eof then rounds == f.pos / 512 + 1 else f.pos == 512 * rounds
      decreases !f.eof, |f.content| - f.pos
    {
      Clear(data);
      Clear(cdata);
      var a := f.Read(data);
      ghost var got := data[..a];
      assert data[..] == got + Zeros(512)[a..] == Round(f.content, rounds);
      ThroughCodec(data, cdata);
      assert data[..a] == data[..][..a] == got;
      output := output + data[..a];
      rounds := rounds + 1;
    }
  }
}
