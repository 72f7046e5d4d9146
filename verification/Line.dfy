// A line that carries bytes in order between a host and a reactive machine.
module Line {
  import opened Bytes
  import opened Handshake

  /** A machine after receiving some bytes, and what it has sent in answer to them. */
  datatype Reaction<S> = Reaction(dev: S, out: seq<byte>)

  type Machine<!S> = (S, byte) -> Reaction<S>

  /** Any reactive machine fed a string of bytes. */
  function Fold<S>(step: Machine<S>, dev: S, bytes: seq<byte>): Reaction<S>
    decreases |bytes|
  {
    if bytes == [] then Reaction(dev, [])
    else
      var n := |bytes| - 1;
      var r := Fold(step, dev, bytes[..n]);
      var f := step(r.dev, bytes[n]);
      Reaction(f.dev, r.out + f.out)
  }

  lemma {:induction false} FoldSplits<S>(
    step: Machine<S>, dev: S, a: seq<byte>, b: seq<byte>)
    ensures var r1 := Fold(step, dev, a);
            var r2 := Fold(step, r1.dev, b);
            Fold(step, dev, a + b) == Reaction(r2.dev, r1.out + r2.out)
    decreases |b|
  {
    if b == [] {
      assert a + b == a;
    } else {
      var n := |b| - 1;
      FoldSplits(step, dev, a, b[..n]);
      assert (a + b)[..|a| + n] == a + b[..n];
      assert (a + b)[|a| + n] == b[n];
    }
  }

  /** After a silent first part of k bytes, the rest is answered as if on its own. */
  lemma FoldTail<S>(step: Machine<S>, dev: S, xs: seq<byte>, k: nat)
    requires k <= |xs| && Fold(step, dev, xs[..k]).out == []
    ensures Fold(step, dev, xs) == Fold(step, Fold(step, dev, xs[..k]).dev, xs[k..])
  {
    var a, b := xs[..k], xs[k..];
    assert xs == a + b;
    FoldSplits(step, dev, a, b);
    var out := Fold(step, Fold(step, dev, a).dev, b).out;
    assert [] + out == out;
  }

  lemma FoldGrows<S>(step: Machine<S>, dev: S, xs: seq<byte>, ys: seq<byte>)
    requires xs <= ys
    ensures Fold(step, dev, xs).out <= Fold(step, dev, ys).out
  {
    assert ys == xs + ys[|xs|..];
    FoldSplits(step, dev, xs, ys[|xs|..]);
  }

  /** The machine answers nothing before byte n of a request; what it says never gets less, so it
      is enough to look at the bytes before that one. */
  predicate Silent<S>(step: Machine<S>, dev: S, xs: seq<byte>, n: nat)
    requires n <= |xs| + 1
  {
    n == 0 || Fold(step, dev, xs[..n - 1]).out == []
  }

  lemma SilentAt<S>(step: Machine<S>, dev: S, xs: seq<byte>, n: nat, k: nat)
    requires k < n <= |xs| + 1 && Silent(step, dev, xs, n)
    ensures Fold(step, dev, xs[..k]).out == []
  {
    FoldGrows(step, dev, xs[..k], xs[..n - 1]);
  }

  lemma SilentConcat<S>(step: Machine<S>, dev: S, a: seq<byte>, b: seq<byte>)
    requires Silent(step, dev, a, |a| + 1) && Silent(step, Fold(step, dev, a).dev, b, |b|) && b != []
    ensures Silent(step, dev, a + b, |a + b|)
  {
    var c := b[..|b| - 1];
    assert a[..|a|] == a && (a + b)[..|a + b| - 1] == a + c;
    FoldSplits(step, dev, a, c);
  }

  /**
    The two sides are in step along a script: whenever the host speaks, the server has nothing
    left to say; whenever the host listens, the server has already produced that very byte.
   */
  ghost predicate Synchronous<S>(step: Machine<S>, start: S, t: seq<Op>)
    decreases |t|
  {
    t == [] || (Synchronous(step, start, t[..|t| - 1]) && InStepAt(step, start, t, |t| - 1))
  }

  ghost predicate InStepAt<S>(step: Machine<S>, start: S, t: seq<Op>, k: nat)
    requires k < |t|
  {
    var out := Fold(step, start, DeviceBytes(t[..k])).out;
    match t[k]
    case ToDevice(_) => out == HostBytes(t[..k])
    case ToHost(b) => HostBytes(t[..k]) + [b] <= out
  }

  lemma {:induction false} SynchronousAt<S>(step: Machine<S>, start: S, t: seq<Op>, k: nat)
    requires Synchronous(step, start, t) && k < |t|
    ensures InStepAt(step, start, t, k)
    decreases |t|
  {
    hide Fold;
    var n := |t| - 1;
    if k < n {
      SynchronousAt(step, start, t[..n], k);
      assert t[..n][..k] == t[..k];
    }
  }

  lemma SynchronousNext<S>(step: Machine<S>, start: S, t: seq<Op>, op: Op)
    requires Synchronous(step, start, t)
    requires var out := Fold(step, start, DeviceBytes(t)).out;
             match op case ToDevice(_) => out == HostBytes(t) case ToHost(b) => HostBytes(t) + [b] <= out
    ensures Synchronous(step, start, t + [op])
  {
    assert (t + [op])[..|t|] == t;
  }

  lemma BytesSnoc(t: seq<Op>, op: Op)
    ensures HostBytes(t + [op]) == HostBytes(t) + (if op.ToHost? then [op.b] else [])
    ensures DeviceBytes(t + [op]) == DeviceBytes(t) + (if op.ToDevice? then [op.b] else [])
  {
    assert (t + [op])[..|t|] == t;
  }

  lemma FoldSnoc<S>(step: Machine<S>, dev: S, xs: seq<byte>, b: byte)
    ensures var r := Fold(step, dev, xs);
            var f := step(r.dev, b);
            Fold(step, dev, xs + [b]) == Reaction(f.dev, r.out + f.out)
  {
    assert (xs + [b])[..|xs|] == xs;
  }

  /**
    What has passed over a line: trace is all of it, base is what the device had heard when the
    current exchange began, mark is the device at that moment, and sent and received are the
    bytes of the exchange so far.
   */
  datatype Talk<S> = Talk(trace: seq<Op>, base: seq<byte>, mark: S, sent: seq<byte>, received: seq<byte>) {
    function Wrote(b: byte): Talk<S> {
      this.(trace := trace + [ToDevice(b)], sent := sent + [b])
    }

    function Got(b: byte): Talk<S> {
      this.(trace := trace + [ToHost(b)], received := received + [b])
    }

    /** All the host has sent. */
    function Heard(): seq<byte> { base + sent }
  }

  /** What the server has sent, since start and since mark, is what has been read plus what waits. */
  ghost predicate Accounted<S>(step: Machine<S>, start: S, t: Talk<S>, dev: S, pending: seq<byte>) {
    && Fold(step, start, DeviceBytes(t.trace)) == Reaction(dev, HostBytes(t.trace) + pending)
    && Fold(step, t.mark, t.sent) == Reaction(dev, t.received + pending)
    && Synchronous(step, start, t.trace) && DeviceBytes(t.trace) == t.Heard()
  }

  /** The conversation grows by a byte to the machine, which has nothing left to say. */
  lemma WroteTrace<S>(step: Machine<S>, start: S, t: seq<Op>, dev: S, b: byte)
    requires Fold(step, start, DeviceBytes(t)) == Reaction(dev, HostBytes(t)) && Synchronous(step, start, t)
    ensures var f, t' := step(dev, b), t + [ToDevice(b)];
            && Fold(step, start, DeviceBytes(t')) == Reaction(f.dev, HostBytes(t') + f.out)
            && DeviceBytes(t') == DeviceBytes(t) + [b]
    ensures Synchronous(step, start, t + [ToDevice(b)])
  {
    SynchronousNext(step, start, t, ToDevice(b));
    BytesSnoc(t, ToDevice(b));
    FoldSnoc(step, start, DeviceBytes(t), b);
    assert HostBytes(t) + [] == HostBytes(t);
  }

  lemma WriteAccounted<S>(step: Machine<S>, start: S, t: Talk<S>, dev: S, b: byte)
    requires Accounted(step, start, t, dev, [])
    ensures var f := step(dev, b);
            Accounted(step, start, t.Wrote(b), f.dev, f.out)
  {
    assert HostBytes(t.trace) + [] == HostBytes(t.trace) && t.received + [] == t.received;
    WroteTrace(step, start, t.trace, dev, b);
    FoldSnoc(step, t.mark, t.sent, b);
    assert t.base + t.sent + [b] == t.base + (t.sent + [b]);
  }

  lemma ReadAccounted<S>(step: Machine<S>, start: S, t: Talk<S>, dev: S, pending: seq<byte>)
    requires Accounted(step, start, t, dev, pending) && pending != []
    ensures Accounted(step, start, t.Got(pending[0]), dev, pending[1..])
  {
    var b := pending[0];
    assert HostBytes(t.trace) + pending == HostBytes(t.trace) + [b] + pending[1..];
    assert t.received + pending == t.received + [b] + pending[1..];
    SynchronousNext(step, start, t.trace, ToHost(b));
    BytesSnoc(t.trace, ToHost(b));
    assert DeviceBytes(t.trace + [ToHost(b)]) == DeviceBytes(t.trace);
  }

  /**
    The line. The host may write only when nothing is waiting to be read, and read only when
    something is: anything else would leave both sides polling.
   */
  class Link<S> {
    const step: Machine<S>
    var dev: S
    var pending: seq<byte>

    ghost const start: S
    ghost var talk: Talk<S>

    ghost predicate Valid()
      reads this
    {
      Accounted(step, start, talk, dev, pending)
    }

    constructor (step: Machine<S>, dev: S)
      ensures Valid() && pending == [] && this.step == step && this.dev == dev && start == dev
      ensures talk == Talk([], [], dev, [], [])
    {
      this.step, this.dev, this.pending := step, dev, [];
      this.start, this.talk := dev, Talk([], [], dev, [], []);
    }

    /** A new exchange. */
    ghost method Mark()
      requires Valid() && pending == []
      modifies this`talk
      ensures Valid() && talk == Talk(old(talk.trace), old(talk.Heard()), dev, [], [])
    {
      assert talk.Heard() + [] == talk.Heard();
      talk := Talk(talk.trace, talk.Heard(), dev, [], []);
    }

    method WriteByte(b: byte)
      requires Valid() && pending == []
      modifies this
      ensures Valid() && talk == old(talk).Wrote(b)
    {
      WriteAccounted(step, start, talk, dev, b);
      var f := step(dev, b);
      dev, pending := f.dev, f.out;
      talk := talk.Wrote(b);
    }

    method ReadByte() returns (b: byte)
      requires Valid() && pending != []
      modifies this`pending, this`talk
      ensures Valid() && b == old(pending)[0] && pending == old(pending)[1..] && talk == old(talk).Got(b)
    {
      ReadAccounted(step, start, talk, dev, pending);
      b := pending[0];
      pending := pending[1..];
      talk := talk.Got(b);
    }

    /** The first n bytes of request r have been sent in this exchange, and heard in silence. */
    ghost predicate Sending(x: Talk<S>, r: seq<byte>, n: nat)
      reads this
    {
      && n <= |r| && Silent(step, x.mark, r, |r|)
      && talk == Talk(talk.trace, x.base, x.mark, r[..n], [])
    }

    /** write_byte of byte k of request r; x is the talk at the start of the exchange. */
    method WriteNext(b: byte, ghost x: Talk<S>, ghost r: seq<byte>, ghost k: nat)
      requires Valid() && k < |r| && Sending(x, r, k) && b == r[k]
      modifies this
      ensures Valid() && Sending(x, r, k + 1)
    {
      hide Fold, Silent, Synchronous, DeviceBytes, HostBytes;
      SilentAt(step, talk.mark, r, |r|, k);
      assert talk.received + pending == pending;
      WriteByte(b);
      assert r[..k] + [b] == r[..k + 1];
    }

    /** A loop of n read_byte calls into a[at..]. */
    method ReadBytes(a: array<byte>, at: nat, n: nat)
      requires Valid() && n <= |pending| && at + n <= a.Length
      modifies this`pending, this`talk, a
      ensures Valid() && talk.Heard() == old(talk.Heard())
      ensures pending == old(pending)[n..] && a[at..at + n] == old(pending)[..n]
      ensures forall k :: 0 <= k < a.Length && !(at <= k < at + n) ==> a[k] == old(a[k])
    {
      hide Accounted;
      ghost var e := pending;
      var i := 0;
      while i < n
        invariant 0 <= i <= n && Valid() && talk.Heard() == old(talk.Heard())
        invariant pending == e[i..] && a[at..at + i] == e[..i]
        invariant forall k :: 0 <= k < a.Length && !(at <= k < at + i) ==> a[k] == old(a[k])
      {
        var b := ReadByte();
        a[at + i] := b;
        assert a[at..at + i + 1] == a[at..at + i] + [b];
        assert e[..i + 1] == e[..i] + [b];
        i := i + 1;
      }
    }

    /** A loop of n write_byte calls over a[at..], the bytes of request r from m on. */
    method WriteBytes(a: array<byte>, at: nat, n: nat, ghost x: Talk<S>, ghost r: seq<byte>, ghost m: nat)
      requires Valid() && m + n <= |r| && Sending(x, r, m)
      requires at + n <= a.Length && a[at..at + n] == r[m..m + n]
      modifies this
      ensures Valid() && Sending(x, r, m + n)
    {
      hide Accounted, Silent;
      var i := 0;
      while i < n
        invariant 0 <= i <= n && Valid() && Sending(x, r, m + i)
      {
        assert a[at + i] == a[at..at + n][i] == r[m..m + n][i];
        WriteNext(a[at + i], x, r, m + i);
        i := i + 1;
      }
    }
  }
}
