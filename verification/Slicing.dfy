/**
 The converter's scan loop over the window, and its --drop/--count slicing by global packet index, in
 examples/pcapng2parquet. However the capture falls into windows, the packets kept are the same.
 */
module Slicing {
  import opened Bits
  import opened Windows

  /** One past the largest 64-bit number. */
  const U64: nat := 0x1_0000_0000_0000_0000

  /** The slice asked for; the largest 64-bit `take` stands for all packets. */
  datatype Args = Args(drop: nat, take: nat) {
    predicate Valid() { drop < U64 && take < U64 }
    predicate Unlimited() { take == U64 - 1 }
    /** `drop + take`, as 64 bits give it. */
    function End(): nat { if drop + take < U64 then drop + take else (drop + take) % U64 }
    /** The early stop after a window. */
    predicate Done(pid: nat) { !Unlimited() && pid >= End() }
  }

  /** The packet ids from `lo` up to `hi`. */
  function Ids(lo: nat, hi: nat): seq<nat> {
    if lo < hi then Ids(lo, hi - 1) + [hi - 1] else []
  }

  lemma {:induction false} IdsAt(lo: nat, hi: nat)
    ensures |Ids(lo, hi)| == if lo < hi then hi - lo else 0
    ensures forall k :: 0 <= k < |Ids(lo, hi)| ==> Ids(lo, hi)[k] == lo + k
  {
    if lo < hi { IdsAt(lo, hi - 1); }
  }

  /** Of `n` packets from id `g0` on, the first that is kept and one past the last. */
  function Low(a: Args, g0: nat, n: nat): (lo: nat)
    ensures lo <= n
  {
    if a.drop > g0 then Min(a.drop - g0, n) else 0
  }

  function High(a: Args, g0: nat, n: nat): (hi: nat)
    ensures hi <= n
  {
    var hi := if a.Unlimited() then n else if a.End() > g0 then Min(a.End() - g0, n) else 0;
    if hi < Low(a, g0, n) then Low(a, g0, n) else hi
  }

  /** What a full run would keep of `total` packets. */
  function Wanted(a: Args, total: nat): seq<nat> {
    Ids(Min(a.drop, total), if a.Unlimited() then total else Min(a.drop + a.take, total))
  }

  function Total(ns: seq<nat>): nat {
    if ns == [] then 0 else Total(ns[..|ns| - 1]) + ns[|ns| - 1]
  }

  /** The ids that windows of these many packets emit. */
  function Sliced(a: Args, ns: seq<nat>): seq<nat> {
    if ns == [] then [] else
      var g0, n := Total(ns[..|ns| - 1]), ns[|ns| - 1];
      Sliced(a, ns[..|ns| - 1]) + Ids(g0 + Low(a, g0, n), g0 + High(a, g0, n))
  }

  lemma {:induction false} IdsJoin(a: nat, b: nat, c: nat)
    requires a <= b <= c
    ensures Ids(a, b) + Ids(b, c) == Ids(a, c)
  {
    if b < c {
      IdsJoin(a, b, c - 1);
      assert Ids(a, b) + (Ids(b, c - 1) + [c - 1]) == Ids(a, b) + Ids(b, c - 1) + [c - 1];
    }
  }

  predicate Fits64(a: Args) { a.Unlimited() || a.drop + a.take < U64 }

  /** Where the sum fits, the windows together keep exactly the ids asked for, in order and each once. */
  lemma {:induction false} SlicedIsWanted(a: Args, ns: seq<nat>)
    requires a.Valid() && Fits64(a)
    ensures Sliced(a, ns) == Wanted(a, Total(ns))
  {
    if ns != [] {
      SlicedIsWanted(a, ns[..|ns| - 1]);
      WantedGrows(a, Total(ns[..|ns| - 1]), ns[|ns| - 1]);
    } else {
      assert Wanted(a, 0) == [];
    }
  }

  lemma {:induction false} WantedGrows(a: Args, g0: nat, n: nat)
    requires a.Valid() && Fits64(a)
    ensures Wanted(a, g0) + Ids(g0 + Low(a, g0, n), g0 + High(a, g0, n)) == Wanted(a, g0 + n)
  {
    if a.drop <= g0 && (a.Unlimited() || a.End() > g0) { IdsJoin(a.drop, g0, g0 + High(a, g0, n)); }
  }

  lemma {:induction false} SlicedGrows(a: Args, ns: seq<nat>, n: nat)
    ensures Total(ns + [n]) == Total(ns) + n
    ensures Sliced(a, ns + [n]) == Sliced(a, ns) + Ids(Total(ns) + Low(a, Total(ns), n), Total(ns) + High(a, Total(ns), n))
  {
    assert (ns + [n])[..|ns|] == ns;
  }

  /** Where it does not fit, the end wraps below the start and nothing is ever kept. */
  lemma {:induction false} WrappedIsEmpty(a: Args, ns: seq<nat>)
    requires a.Valid() && !Fits64(a)
    ensures Sliced(a, ns) == []
  {
    if ns != [] { WrappedIsEmpty(a, ns[..|ns| - 1]); }
  }

  /** So the slice is right exactly if `drop + take` fits 64 bits, or there is nothing to keep anyway. */
  lemma {:induction false} SlicedIff(a: Args, ns: seq<nat>)
    requires a.Valid()
    ensures Sliced(a, ns) == Wanted(a, Total(ns)) <==> Fits64(a) || Total(ns) <= a.drop
  {
    if Fits64(a) { SlicedIsWanted(a, ns); } else { WrappedIsEmpty(a, ns); }
  }

  /** The early stop loses nothing: windows after it would emit nothing. */
  lemma {:induction false} EarlyStop(a: Args, ns: seq<nat>, more: seq<nat>)
    requires a.Valid() && a.Done(Total(ns))
    ensures Sliced(a, ns + more) == Sliced(a, ns) && Total(ns + more) >= Total(ns)
  {
    if more == [] {
      assert ns + more == ns;
    } else {
      assert (ns + more)[..|ns + more| - 1] == ns + more[..|more| - 1];
      EarlyStop(a, ns, more[..|more| - 1]);
    }
  }

  lemma {:induction false} WantedStitch(drop: nat, t1: nat, t2: nat, total: nat)
    requires drop + t1 + t2 < U64 - 1
    ensures Wanted(Args(drop, t1), total) + Wanted(Args(drop + t1, t2), total) == Wanted(Args(drop, t1 + t2), total)
  {
    IdsJoin(Min(drop, total), Min(drop + t1, total), Min(drop + t1 + t2, total));
  }

  /** Adjacent slices, each over windows of its own, concatenate to the slice that covers both. */
  lemma {:induction false} SlicesStitch(drop: nat, t1: nat, t2: nat, ns1: seq<nat>, ns2: seq<nat>, ns: seq<nat>)
    requires drop + t1 + t2 < U64 - 1 && Total(ns1) == Total(ns2) == Total(ns)
    ensures Sliced(Args(drop, t1), ns1) + Sliced(Args(drop + t1, t2), ns2) == Sliced(Args(drop, t1 + t2), ns)
  {
    SlicedIsWanted(Args(drop, t1), ns1);
    SlicedIsWanted(Args(drop + t1, t2), ns2);
    SlicedIsWanted(Args(drop, t1 + t2), ns);
    WantedStitch(drop, t1, t2, Total(ns));
  }

  /** The last slice may be the one without a count: from `drop + t1` to the end of the capture. */
  lemma {:induction false} SlicesStitchToEnd(drop: nat, t1: nat, ns1: seq<nat>, ns2: seq<nat>, ns: seq<nat>)
    requires drop + t1 < U64 - 1 && Total(ns1) == Total(ns2) == Total(ns)
    ensures Sliced(Args(drop, t1), ns1) + Sliced(Args(drop + t1, U64 - 1), ns2) == Sliced(Args(drop, U64 - 1), ns)
  {
    var total := Total(ns);
    SlicedIsWanted(Args(drop, t1), ns1);
    SlicedIsWanted(Args(drop + t1, U64 - 1), ns2);
    SlicedIsWanted(Args(drop, U64 - 1), ns);
    IdsJoin(Min(drop, total), Min(drop + t1, total), total);
  }

  // ---- the stream of blocks -------------------------------------------------------------------

  /** A capture as a chain of blocks: where the block at a position ends, if it is complete, and what it is. */
  datatype Stream = Stream(size: nat, next: nat -> Option<nat>, packet: nat -> bool) {
    ghost predicate Valid() { forall b: nat :: next(b).Some? ==> b < next(b).value <= size }
    function Weight(b: nat): nat { if packet(b) then 1 else 0 }
  }

  /** From `b`, whole blocks with `k` packets among them lead to `c`. */
  ghost predicate Leads(st: Stream, b: nat, c: nat, k: int)
    requires st.Valid()
    decreases st.size - b
  {
    if b == c then k == 0 else
      st.next(b).Some? && b < st.size && st.next(b).value <= c && Leads(st, st.next(b).value, c, k - st.Weight(b))
  }

  /** How many packets the complete blocks from `b` on hold. */
  ghost function PacketsFrom(st: Stream, b: nat): nat
    requires st.Valid()
    decreases st.size - b
  {
    if st.next(b).None? || b >= st.size then 0 else st.Weight(b) + PacketsFrom(st, st.next(b).value)
  }

  lemma {:induction false} LeadsCounts(st: Stream, b: nat, c: nat, k: int)
    requires st.Valid() && Leads(st, b, c, k)
    ensures k >= 0 && PacketsFrom(st, b) == k + PacketsFrom(st, c)
    decreases st.size - b
  {
    if b != c { LeadsCounts(st, st.next(b).value, c, k - st.Weight(b)); }
  }

  /** What scanning a window reports. */
  datatype Scan = Scan(packets: nat, consumed: nat)

  /**
   A scanner consumes whole blocks from the front of the window and counts their packets. It can
   stop short of what is there; once the source has ended it must not while a complete block remains.
   */
  ghost predicate Scanner(st: Stream, data: bytes, scan: (nat, bytes, bool) -> Scan) {
    && st.Valid() && st.size == |data|
    && forall b: nat, w: bytes, eof: bool :: b + |w| <= |data| && w == data[b..b + |w|] && (eof ==> b + |w| == |data|) ==>
         var r := scan(b, w, eof);
         && r.consumed <= |w|
         && Leads(st, b, b + r.consumed, r.packets)
         && (eof && r.consumed == 0 ==> st.next(b).None?)
  }

  class Converter {
    const args: Args
    var globalPid: nat
    var ids: seq<nat>       // the ids of the rows written so far
    ghost var windows: seq<nat>

    constructor (args: Args)
      ensures this.args == args && globalPid == 0 && ids == [] && windows == []
    {
      this.args, globalPid, ids, windows := args, 0, [], [];
    }

    ghost predicate Valid()
      reads this
    {
      args.Valid() && globalPid == Total(windows) && ids == Sliced(args, windows)
    }

    /** `process_window`: the slice of one window's packets. */
    method ProcessWindow(total: nat)
      requires Valid()
      modifies this
      ensures Valid() && windows == old(windows) + [total]
    {
      SlicedGrows(args, windows, total);
      windows := windows + [total];
      if total == 0 { return; }
      var lo, hi := Bounds(globalPid, total);
      Keep(globalPid + lo, globalPid + hi);
      globalPid := globalPid + total;
    }

    method Bounds(g0: nat, total: nat) returns (lo: nat, hi: nat)
      ensures lo == Low(args, g0, total) && hi == High(args, g0, total) && lo <= hi
    {
      lo, hi := 0, total;
      if args.drop > g0 { lo := Min(args.drop - g0, total); }
      if !args.Unlimited() {
        var end := args.End();
        hi := if end > g0 then Min(end - g0, total) else 0;
      }
      if hi < lo { hi := lo; }
    }

    /** Write a row for each of the ids. */
    method Keep(lo: nat, hi: nat)
      requires lo <= hi
      modifies this`ids
      ensures ids == old(ids) + Ids(lo, hi)
    {
      var id := lo;
      while id < hi
        invariant lo <= id <= hi && ids == old(ids) + Ids(lo, id)
      {
        ids, id := ids + [id], id + 1;
      }
    }

    /**
     `run`: whatever the window's capacity and the source's reads, the loop ends and the ids kept are
     those that the whole capture's packets would give.
     */
    method Run(source: Source, capacity: nat, scan: (nat, bytes, bool) -> Scan, ghost st: Stream)
      requires Valid() && windows == [] && source.Valid() && source.pos == 0 && Scanner(st, source.data, scan)
      modifies this, source
      ensures Valid()
      ensures Fits64(args) ==> ids == Wanted(args, PacketsFrom(st, 0))
    {
      ghost var all := PacketsFrom(st, 0);
      var win := new Window(source, capacity);
      win.Fill();
      var stop := false;
      while win.valid > 0 && !stop
        invariant Valid() && win.Valid() && win.source == source && fresh(win) && fresh(win.buf)
        invariant stop || win.Full() || win.eof
        invariant globalPid + PacketsFrom(st, win.base) == all
        invariant stop ==> PacketsFrom(st, win.base) == 0 || args.Done(globalPid)
        decreases !stop, |source.data| - win.base, !win.eof, |source.data| - source.pos
      {
        stop := Turn(win, scan, st, all);
      }
      Stopped(args, windows, PacketsFrom(st, win.base), all);
    }

    /** One turn of the loop. */
    method Turn(win: Window, scan: (nat, bytes, bool) -> Scan, ghost st: Stream, ghost all: nat) returns (stop: bool)
      requires Valid() && win.Valid() && (win.Full() || win.eof) && win.valid > 0
      requires Scanner(st, win.source.data, scan) && globalPid + PacketsFrom(st, win.base) == all
      modifies this, win, win.buf, win.source
      ensures Valid() && win.Valid() && (win.buf == old(win.buf) || fresh(win.buf))
      ensures globalPid + PacketsFrom(st, win.base) == all
      ensures stop ==> PacketsFrom(st, win.base) == 0 || args.Done(globalPid)
      ensures !stop ==> win.Full() || win.eof
      ensures !stop && win.base == old(win.base) ==> !old(win.eof) && (win.eof || win.source.pos > old(win.source.pos))
      ensures !stop ==> win.base >= old(win.base)
    {
      var r := Look(win, scan, st);
      if r.consumed == 0 {
        if win.eof { return true; }
        Wait(win);
        return false;
      }
      ProcessWindow(r.packets);
      stop := args.Done(globalPid);
      Leave(win, r.consumed, stop);
    }
  }

  /** Leave the packets behind, and read on unless this was the last window. */
  method Leave(win: Window, n: nat, stop: bool)
    requires win.Valid() && 0 < n <= win.valid
    modifies win`valid, win`base, win`eof, win.buf, win.source
    ensures win.Valid() && (stop || win.Full() || win.eof) && win.base == old(win.base) + n
  {
    win.Consume(n);
    if !stop { win.Fill(); }
  }

  /** A single block larger than the window: make room and read on. */
  method Wait(win: Window)
    requires win.Valid() && win.Full() && !win.eof
    modifies win`buf, win`valid, win`eof, win.buf, win.source
    ensures win.Valid() && (win.Full() || win.eof) && win.base == old(win.base)
    ensures win.eof || win.source.pos > old(win.source.pos)
    ensures win.buf != old(win.buf) ==> fresh(win.buf)
  {
    win.Grow();
    win.Fill();
  }

  /** Scan the window's bytes. */
  method Look(win: Window, scan: (nat, bytes, bool) -> Scan, ghost st: Stream) returns (r: Scan)
    requires win.Valid() && Scanner(st, win.source.data, scan)
    ensures r.consumed <= win.valid && PacketsFrom(st, win.base) == r.packets + PacketsFrom(st, win.base + r.consumed)
    ensures win.eof && r.consumed == 0 ==> PacketsFrom(st, win.base) == 0
  {
    var w := win.buf[..win.valid];
    r := scan(win.base, w, win.eof);
    assert w == win.source.data[win.base..win.base + |w|];
    LeadsCounts(st, win.base, win.base + r.consumed, r.packets);
  }

  /** At the end of the loop, what has not been seen does not matter. */
  lemma {:induction false} Stopped(a: Args, ns: seq<nat>, rest: nat, all: nat)
    requires a.Valid() && (rest == 0 || a.Done(Total(ns))) && all == Total(ns) + rest
    ensures Fits64(a) ==> Sliced(a, ns) == Wanted(a, all)
  {
    if Fits64(a) { SlicedIsWanted(a, ns); }
  }
}
