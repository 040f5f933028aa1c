/**
 The bounded window over a forward-only source, in examples/pcapng2parquet: fill, consume, grow.
 Whatever the calls, the window holds exactly the source's bytes from its base on.
 */
module Windows {
  import opened Bits

  /** A sequential source. It can return fewer bytes than asked for, but only at the end none at all. */
  class Source {
    const data: bytes
    const most: nat -> nat    // how many more than one byte a read at a position returns at most
    var pos: nat

    constructor (data: bytes, most: nat -> nat)
      ensures this.data == data && this.most == most && pos == 0
    {
      this.data, this.most, pos := data, most, 0;
    }

    ghost predicate Valid()
      reads this
    {
      pos <= |data|
    }

    method Read(dst: array<byte>, at: nat, n: nat) returns (got: nat)
      requires Valid() && at + n <= dst.Length
      modifies this`pos, dst
      ensures Valid() && pos == old(pos) + got && got <= n
      ensures got == 0 <==> n == 0 || old(pos) == |data|
      ensures dst[..at] == old(dst[..at]) && dst[at..at + got] == data[old(pos)..pos]
    {
      got := if n < |data| - pos then n else |data| - pos;
      if 1 + most(pos) < got { got := 1 + most(pos); }
      var from := pos;
      forall i | 0 <= i < got {
        dst[at + i] := data[from + i];
      }
      pos := pos + got;
      assert dst[..at] == old(dst[..at]);
    }
  }

  class Window {
    const source: Source
    var buf: array<byte>
    var valid: nat
    var base: nat
    var eof: bool

    /** The window is the source's bytes from `base` to where the source has been read to. */
    ghost predicate Valid()
      reads this, buf, source
    {
      && source.Valid()
      && buf.Length >= 1 && valid <= buf.Length
      && base + valid == source.pos
      && buf[..valid] == source.data[base..base + valid]
      && (eof ==> source.pos == |source.data|)
    }

    constructor (source: Source, capacity: nat)
      requires source.Valid() && source.pos == 0
      ensures this.source == source && fresh(buf) && Valid() && base == 0 && valid == 0 && !eof
    {
      this.source := source;
      buf := new byte[if capacity == 0 then 1 else capacity](_ => 0);
      valid, base, eof := 0, 0, false;
    }

    predicate Full()
      reads this
    {
      valid == buf.Length
    }

    /** Top the buffer up: afterwards it is full, or the source is at its end. */
    method Fill()
      requires Valid()
      modifies this`valid, this`eof, buf, source
      ensures Valid() && base == old(base) && valid >= old(valid)
      ensures Full() || eof
      ensures source.pos >= old(source.pos)
      ensures old(valid) < buf.Length && !old(eof) ==> source.pos > old(source.pos) || eof
      ensures old(eof) ==> eof && valid == old(valid)
    {
      while valid < buf.Length && !eof
        invariant Valid() && base == old(base) && valid >= old(valid) && buf == old(buf)
        invariant source.pos >= old(source.pos)
        invariant source.pos == old(source.pos) ==> eof || valid == old(valid)
        invariant old(eof) ==> eof && valid == old(valid)
        decreases |source.data| - source.pos, !eof
      {
        Top();
      }
    }

    /** One read, as large as there is room for; none at all means the end. */
    method Top()
      requires Valid() && valid < buf.Length && !eof
      modifies this`valid, this`eof, buf, source
      ensures Valid() && base == old(base) && valid >= old(valid)
      ensures eof == (source.pos == old(source.pos)) && source.pos >= old(source.pos)
      ensures eof ==> valid == old(valid)
    {
      ghost var was := buf[..valid];
      var got := source.Read(buf, valid, buf.Length - valid);
      assert buf[..valid + got] == was + buf[valid..valid + got];
      valid := valid + got;
      if got == 0 { eof := true; }
    }

    /** Drop the first `n` bytes, at most what there is, and move the rest down. */
    method Consume(n: nat)
      requires Valid()
      modifies this`valid, this`base, buf
      ensures Valid()
      ensures var m := if n < old(valid) then n else old(valid);
        base == old(base) + m && valid == old(valid) - m && buf[..valid] == old(buf[..valid])[m..]
    {
      var m := if n > valid then valid else n;
      forall i | 0 <= i < valid - m {
        buf[i] := buf[i + m];
      }
      valid := valid - m;
      base := base + m;
      assert buf[..valid] == old(buf[..valid])[m..];
    }

    /** Double the capacity; the bytes stay. */
    method Grow()
      requires Valid()
      modifies this`buf
      ensures Valid() && fresh(buf) && buf.Length == 2 * old(buf.Length) && buf[..valid] == old(buf[..valid])
    {
      var more := new byte[2 * buf.Length](_ => 0);
      forall i | 0 <= i < buf.Length {
        more[i] := buf[i];
      }
      assert more[..valid] == buf[..valid];
      buf := more;
    }
  }
}
