/** kernel/pipe.c: the ring buffer with 32-bit counters.  Every byte moved is one step under the
    pipe's lock, so runs of steps cover every interleaving of the pieces of pipewrite and piperead
    between their sleeps. */
module PipeBuf {
  import opened RingIndex

  const PIPESIZE := 512
  const WRAP := 0x1_0000_0000                 // nread and nwrite are 32 bits

  /** sent and received: every byte ever put in and taken out. */
  datatype State = State(data: seq<int>, nread: nat, nwrite: nat, sent: seq<int>, received: seq<int>)

  predicate Full(s: State) { s.nwrite == (s.nread + PIPESIZE) % WRAP }
  predicate Empty(s: State) { s.nread == s.nwrite }

  function Wrote(s: State, ch: int): State
    requires |s.data| == PIPESIZE
  {
    s.(data := s.data[s.nwrite % PIPESIZE := ch], nwrite := (s.nwrite + 1) % WRAP, sent := s.sent + [ch])
  }

  function Read(s: State): State
    requires |s.data| == PIPESIZE
  {
    s.(nread := (s.nread + 1) % WRAP, received := s.received + [s.data[s.nread % PIPESIZE]])
  }

  datatype Event = WriteByte(ch: int) | ReadByte

  predicate Next(s: State, e: Event, t: State) {
    |s.data| == PIPESIZE && match e
    case WriteByte(ch) => !Full(s) && t == Wrote(s, ch)
    case ReadByte => !Empty(s) && t == Read(s)
  }

  predicate Init(s: State) { |s.data| == PIPESIZE && s.nread == s.nwrite == 0 && s.sent == [] && s.received == [] }

  ghost predicate Held(s: State, k: nat) {
    |s.data| == PIPESIZE && |s.received| <= k < |s.sent| ==> s.data[k % PIPESIZE] == s.sent[k]
  }

  /** What has been received is a prefix of what was sent, the rest is in the ring, and the
      counters are the two lengths modulo 2^32. */
  ghost predicate Inv(s: State) {
    && |s.data| == PIPESIZE && s.received <= s.sent && |s.sent| <= |s.received| + PIPESIZE
    && s.nread == |s.received| % WRAP && s.nwrite == |s.sent| % WRAP
    && forall k {:trigger Held(s, k)} :: Held(s, k)
  }

  // ----- The counters -----

  lemma FullIff(r: nat, w: nat)
    requires r <= w <= r + PIPESIZE
    ensures w % WRAP == (r % WRAP + PIPESIZE) % WRAP <==> w == r + PIPESIZE
  {
    assert (r % WRAP + PIPESIZE) % WRAP == (r + PIPESIZE) % WRAP;
  }

  lemma EmptyIff(r: nat, w: nat)
    requires r <= w <= r + PIPESIZE
    ensures r % WRAP == w % WRAP <==> r == w
  {
  }

  /** The counters tell full and empty apart also when they have wrapped, and their modular
      distance is the number of bytes in the pipe. */
  lemma CountersTell(s: State)
    requires Inv(s)
    ensures Full(s) <==> |s.sent| - |s.received| == PIPESIZE
    ensures Empty(s) <==> |s.sent| == |s.received|
    ensures (s.nwrite - s.nread) % WRAP == |s.sent| - |s.received| <= PIPESIZE
  {
    FullIff(|s.received|, |s.sent|);
    EmptyIff(|s.received|, |s.sent|);
    Distance(|s.received|, |s.sent|);
  }

  lemma Distance(r: nat, w: nat)
    requires r <= w <= r + PIPESIZE
    ensures (w % WRAP - r % WRAP) % WRAP == w - r
  {
    if w % WRAP >= r % WRAP {
      assert w / WRAP == r / WRAP;
    } else {
      assert w / WRAP == r / WRAP + 1;
    }
  }

  // ----- Steps -----

  lemma WriteKeeps(s: State, ch: int)
    requires Inv(s) && !Full(s)
    ensures Inv(Wrote(s, ch))
  {
    CountersTell(s);
    NextIndex(|s.sent|, WRAP);
    SlotOf(|s.sent|, PIPESIZE, WRAP, 8388608);
    var t := Wrote(s, ch);
    forall k: nat ensures Held(t, k) {
      assert Held(s, k);
      if |s.received| <= k < |s.sent| { SlotsApart(k, |s.sent|, PIPESIZE); }
    }
  }

  lemma ReadKeeps(s: State)
    requires Inv(s) && !Empty(s)
    ensures Inv(Read(s)) && Read(s).received == s.sent[..|s.received| + 1]
  {
    CountersTell(s);
    NextIndex(|s.received|, WRAP);
    SlotOf(|s.received|, PIPESIZE, WRAP, 8388608);
    assert Held(s, |s.received|);
    assert s.sent[..|s.received| + 1] == s.sent[..|s.received|] + [s.sent[|s.received|]];
    forall k: nat ensures Held(Read(s), k) { assert Held(s, k); }
  }

  ghost predicate Run(states: seq<State>, events: seq<Event>) {
    && |states| == |events| + 1 && Init(states[0])
    && forall n :: 0 <= n < |events| ==> Next(states[n], events[n], states[n + 1])
  }

  lemma {:induction false} RunInv(states: seq<State>, events: seq<Event>, n: nat)
    requires Run(states, events) && n <= |events|
    ensures Inv(states[n])
  {
    if n == 0 {
      forall k: nat ensures Held(states[0], k) { }
    } else {
      RunInv(states, events, n - 1);
      assert Next(states[n - 1], events[n - 1], states[n]);
      match events[n - 1]
      case WriteByte(ch) => WriteKeeps(states[n - 1], ch);
      case ReadByte => ReadKeeps(states[n - 1]);
    }
  }

  /** The bytes the writers put in, in order, and how many the readers took. */
  function PutIn(es: seq<Event>): seq<int> {
    if es == [] then []
    else match es[|es| - 1]
      case WriteByte(ch) => PutIn(es[..|es| - 1]) + [ch]
      case ReadByte => PutIn(es[..|es| - 1])
  }

  function TakenOut(es: seq<Event>): nat {
    if es == [] then 0 else TakenOut(es[..|es| - 1]) + if es[|es| - 1].ReadByte? then 1 else 0
  }

  lemma {:induction false} Histories(states: seq<State>, events: seq<Event>, n: nat)
    requires Run(states, events) && n <= |events|
    ensures states[n].sent == PutIn(events[..n]) && |states[n].received| == TakenOut(events[..n])
  {
    if n > 0 {
      Histories(states, events, n - 1);
      assert Next(states[n - 1], events[n - 1], states[n]);
      assert events[..n][..n - 1] == events[..n - 1];
    }
  }

  /** In every interleaving the k bytes read are the first k bytes written, none lost, repeated or
      reordered, and the modular distance of the counters is the number of bytes in between, at most 512. */
  lemma Fifo(states: seq<State>, events: seq<Event>, n: nat)
    requires Run(states, events) && n <= |events|
    ensures TakenOut(events[..n]) <= |PutIn(events[..n])| <= TakenOut(events[..n]) + 512
    ensures states[n].received == PutIn(events[..n])[..TakenOut(events[..n])]
    ensures (states[n].nwrite - states[n].nread) % WRAP == |PutIn(events[..n])| - TakenOut(events[..n])
  {
    RunInv(states, events, n);
    CountersTell(states[n]);
    Histories(states, events, n);
  }

  ghost predicate Can(s: State, e: Event) { exists t :: Next(s, e, t) }

  /** In every interleaving a writer is held up exactly by 512 bytes in the pipe, a reader exactly by none. */
  lemma HeldUp(states: seq<State>, events: seq<Event>, n: nat, ch: int)
    requires Run(states, events) && n <= |events|
    ensures Can(states[n], WriteByte(ch)) <==> |PutIn(events[..n])| < TakenOut(events[..n]) + 512
    ensures Can(states[n], ReadByte) <==> TakenOut(events[..n]) < |PutIn(events[..n])|
  {
    Fifo(states, events, n);
    Histories(states, events, n);
    RunInv(states, events, n);
    CanMove(states[n], ch);
  }

  lemma CanMove(s: State, ch: int)
    requires Inv(s)
    ensures Can(s, WriteByte(ch)) <==> |s.sent| < |s.received| + 512
    ensures Can(s, ReadByte) <==> |s.received| < |s.sent|
  {
    CountersTell(s);
    if !Full(s) { assert Next(s, WriteByte(ch), Wrote(s, ch)); }
    if !Empty(s) { assert Next(s, ReadByte, Read(s)); }
  }

  // ----- The loops -----

  datatype WriteResult = Done | WouldSleep | NoReader

  class Pipe {
    var data: array<int>
    var nread: nat
    var nwrite: nat
    var readopen: bool
    var writeopen: bool
    ghost var sent: seq<int>
    ghost var received: seq<int>

    ghost function Now(): State
      reads this, data
    {
      State(data[..], nread, nwrite, sent, received)
    }

    constructor ()
      ensures Init(Now()) && Inv(Now()) && readopen && writeopen && fresh(data)
    {
      data := new int[PIPESIZE];
      nread, nwrite, sent, received := 0, 0, [], [];
      readopen, writeopen := true, true;
      new;
      ghost var s := Now();
      forall k: nat ensures Held(s, k) { }
    }

    /** pipewrite from byte i until everything is in or the pipe is full. */
    method Write(bytes: seq<int>, from: nat, killed: bool) returns (i: nat, res: WriteResult)
      requires Inv(Now()) && from <= |bytes|
      modifies this, data
      ensures Inv(Now()) && data == old(data) && from <= i <= |bytes|
      ensures sent == old(sent) + bytes[from..i] && received == old(received)
      ensures res == Done <==> i == |bytes|
      ensures res != Done ==> |sent| == |received| + 512
      ensures res == NoReader ==> !readopen || killed
      ensures res == WouldSleep ==> readopen && !killed
      ensures readopen == old(readopen) && writeopen == old(writeopen)
    {
      i := from;
      while i < |bytes|
        invariant from <= i <= |bytes| && Inv(Now()) && data == old(data) && sent == old(sent) + bytes[from..i]
        invariant received == old(received)
        invariant readopen == old(readopen) && writeopen == old(writeopen)
      {
        CountersTell(Now());
        if nwrite == (nread + PIPESIZE) % WRAP {
          return i, if !readopen || killed then NoReader else WouldSleep;
        }
        WriteKeeps(Now(), bytes[i]);
        ghost var s := Now();
        data[nwrite % PIPESIZE] := bytes[i];
        nwrite := (nwrite + 1) % WRAP;
        sent := sent + [bytes[i]];
        assert Now() == Wrote(s, bytes[i]);
        i := i + 1;
      }
      res := Done;
    }

    /** piperead's copy loop: up to n bytes, fewer when the pipe runs empty. */
    method ReadUpTo(n: nat) returns (out: seq<int>)
      requires Inv(Now())
      modifies this
      ensures Inv(Now()) && data == old(data) && sent == old(sent) && received == old(received) + out
      ensures |out| == if n <= |sent| - |old(received)| then n else |sent| - |old(received)|
      ensures readopen == old(readopen) && writeopen == old(writeopen)
    {
      out := [];
      while |out| < n
        invariant |out| <= n && Inv(Now()) && data == old(data) && sent == old(sent) && received == old(received) + out
        invariant readopen == old(readopen) && writeopen == old(writeopen)
        decreases n - |out|
      {
        CountersTell(Now());
        if nread == nwrite { break; }
        ReadKeeps(Now());
        ghost var s := Now();
        var ch := data[nread % PIPESIZE];
        nread := (nread + 1) % WRAP;
        received := received + [ch];
        assert Now() == Read(s);
        out := out + [ch];
      }
    }

    /** pipeclose: true when the page is to be freed, once both ends are closed. */
    method Close(writable: bool) returns (freed: bool)
      modifies this`readopen, this`writeopen
      ensures readopen == (writable && old(readopen)) && writeopen == (!writable && old(writeopen))
      ensures freed <==> !readopen && !writeopen
    {
      if writable { writeopen := false; } else { readopen := false; }
      freed := !readopen && !writeopen;
    }
  }
}
