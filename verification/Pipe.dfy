/** The ring of kernel/pipe.c: 512 bytes and two 32-bit counters that wrap around. */
module PipeRing {
  const PIPESIZE: nat := 512
  const WRAP: nat := 0x1_0000_0000

  type Byte = b: int | 0 <= b < 256

  datatype Ring = Ring(data: seq<Byte>, nread: nat, nwrite: nat)

  function Count(r: Ring): nat { (r.nwrite - r.nread) % WRAP }

  predicate RingOk(r: Ring) { |r.data| == PIPESIZE && r.nread < WRAP && r.nwrite < WRAP && Count(r) <= PIPESIZE }

  /** The bytes in the pipe, oldest first. */
  function Queue(r: Ring): (q: seq<Byte>)
    requires RingOk(r)
    ensures |q| == Count(r)
  {
    seq(Count(r), k requires k >= 0 => r.data[(r.nread + k) % PIPESIZE])
  }

  /** nwrite == nread + PIPESIZE in unsigned arithmetic. */
  predicate Full(r: Ring) { r.nwrite == (r.nread + PIPESIZE) % WRAP }

  predicate Empty(r: Ring) { r.nread == r.nwrite }

  function Put(r: Ring, ch: Byte): Ring
    requires |r.data| == PIPESIZE
  {
    Ring(r.data[r.nwrite % PIPESIZE := ch], r.nread, (r.nwrite + 1) % WRAP)
  }

  function Take(r: Ring): Ring { r.(nread := (r.nread + 1) % WRAP) }

  /** The two tests on the counters say how much is in the pipe. */
  lemma CountTests(r: Ring)
    requires RingOk(r)
    ensures Full(r) <==> |Queue(r)| == PIPESIZE
    ensures Empty(r) <==> Queue(r) == []
  {
  }

  lemma PutCount(nread: nat, nwrite: nat)
    requires nread < WRAP && nwrite < WRAP && nwrite != (nread + PIPESIZE) % WRAP && (nwrite - nread) % WRAP <= PIPESIZE
    ensures ((nwrite + 1) % WRAP - nread) % WRAP == (nwrite - nread) % WRAP + 1 <= PIPESIZE
  {
  }

  lemma PutQueue(r: Ring, ch: Byte)
    requires RingOk(r) && !Full(r)
    ensures RingOk(Put(r, ch)) && Queue(Put(r, ch)) == Queue(r) + [ch]
  {
    var r1 := Put(r, ch);
    PutCount(r.nread, r.nwrite);
    var q, q1 := Queue(r), Queue(r1);
    forall k: nat | k < |q1| ensures q1[k] == (q + [ch])[k] { SlotOf(r, k); }
  }

  /** A counter names the same slot before and after it wraps: 512 divides 2^32. */
  lemma SameSlot(x: nat)
    ensures (x % WRAP) % PIPESIZE == x % PIPESIZE
  {
    var q := x / WRAP;
    assert x == x % WRAP + PIPESIZE * (0x80_0000 * q);
  }

  lemma OtherSlot(x: nat, d: nat)
    requires 0 < d < PIPESIZE
    ensures (x + d) % PIPESIZE != x % PIPESIZE
  {
  }

  lemma CountEnds(nread: nat, nwrite: nat)
    requires nread < WRAP && nwrite < WRAP
    ensures (nread + (nwrite - nread) % WRAP) % WRAP == nwrite
  {
  }

  /** Slot nread + k is the one that is written next only when k bytes are in the pipe. */
  lemma SlotOf(r: Ring, k: nat)
    requires RingOk(r) && k <= Count(r) < PIPESIZE
    ensures (r.nread + k) % PIPESIZE == r.nwrite % PIPESIZE <==> k == Count(r)
  {
    var c := Count(r);
    CountEnds(r.nread, r.nwrite);
    SameSlot(r.nread + c);
    if k < c { OtherSlot(r.nread + k, c - k); }
  }

  lemma TakeCount(nread: nat, nwrite: nat)
    requires nread < WRAP && nwrite < WRAP && nread != nwrite
    ensures (nwrite - nread) % WRAP == (nwrite - (nread + 1) % WRAP) % WRAP + 1
  {
  }

  lemma TakeSlot(nread: nat, k: nat)
    ensures (nread + (k + 1)) % PIPESIZE == ((nread + 1) % WRAP + k) % PIPESIZE
  {
    SameSlot(nread + 1);
    var a, b := nread + 1, (nread + 1) % WRAP;
    assert a % PIPESIZE == b % PIPESIZE;
    assert (a + k) % PIPESIZE == (b + k) % PIPESIZE by {
      assert a == PIPESIZE * (a / PIPESIZE) + a % PIPESIZE && b == PIPESIZE * (b / PIPESIZE) + b % PIPESIZE;
      assert a + k == b + k + PIPESIZE * (a / PIPESIZE - b / PIPESIZE);
    }
  }

  lemma TakeQueue(r: Ring)
    requires RingOk(r) && !Empty(r)
    ensures RingOk(Take(r)) && Queue(r) == [r.data[r.nread % PIPESIZE]] + Queue(Take(r))
  {
    var r1 := Take(r);
    TakeCount(r.nread, r.nwrite);
    var q, q1 := Queue(r), Queue(r1);
    forall k: nat | k < |q1| ensures q[k + 1] == q1[k] { TakeSlot(r.nread, k); }
    assert q[0] == r.data[r.nread % PIPESIZE];
    assert q == [q[0]] + q1;
  }

  /** How the loop of pipewrite() ends, or is interrupted: all bytes written, no reader left, killed,
      no room, or copyin() failed. */
  datatype Exit = Done | Closed | Killed | Blocked | Fault

  datatype Wrote = Wrote(ring: Ring, i: nat, exit: Exit)

  /** The loop of pipewrite() from byte i on, while it holds the lock. killed() answers true from round
      `kill` on, and copyin() fails at byte `bad`. */
  function WriteLoop(r: Ring, open: bool, buf: seq<Byte>, i: nat, kill: nat, bad: nat): Wrote
    requires RingOk(r)
    decreases |buf| - i
  {
    if i >= |buf| then Wrote(r, i, Done)
    else if !open then Wrote(r, i, Closed)
    else if kill <= i then Wrote(r, i, Killed)
    else if Full(r) then Wrote(r, i, Blocked)
    else if i == bad then Wrote(r, i, Fault)
    else
      PutQueue(r, buf[i]);
      WriteLoop(Put(r, buf[i]), open, buf, i + 1, kill, bad)
  }

  /** The loop appends the bytes it passes, in order, and stops for want of room only when the pipe is full. */
  lemma {:induction false} WriteLoopAppends(r: Ring, open: bool, buf: seq<Byte>, i: nat, kill: nat, bad: nat)
    requires RingOk(r) && i <= |buf|
    ensures var w := WriteLoop(r, open, buf, i, kill, bad);
            && RingOk(w.ring) && i <= w.i <= |buf| && Queue(w.ring) == Queue(r) + buf[i..w.i]
            && (w.exit.Done? <==> w.i == |buf|) && (w.exit.Blocked? ==> open && Full(w.ring))
            && (w.exit.Closed? ==> !open && w.i == i) && (w.exit.Killed? ==> kill <= w.i) && (w.exit.Fault? ==> w.i == bad)
            && (w.i > i ==> open)
    decreases |buf| - i
  {
    if i < |buf| && open && i < kill && !Full(r) && i != bad {
      PutQueue(r, buf[i]);
      WriteLoopAppends(Put(r, buf[i]), open, buf, i + 1, kill, bad);
      var w := WriteLoop(r, open, buf, i, kill, bad);
      assert buf[i..w.i] == [buf[i]] + buf[i + 1..w.i];
    }
  }

  /** The loop stops because of the kill exactly if nothing stops it before byte `kill`. */
  lemma {:induction false} WriteLoopKilled(r: Ring, open: bool, buf: seq<Byte>, i: nat, kill: nat, bad: nat)
    requires RingOk(r) && i <= |buf|
    ensures var w := WriteLoop(r, open, buf, i, kill, bad);
            && (w.exit.Killed? && w.i > i <==>
                open && i < kill < |buf| && Count(r) + (kill - i) <= PIPESIZE && !(i <= bad < kill))
            && (w.exit.Killed? && w.i == i <==> open && kill <= i < |buf|)
    decreases |buf| - i
  {
    CountTests(r);
    if i < |buf| && open && i < kill && !Full(r) && i != bad {
      PutQueue(r, buf[i]);
      WriteLoopAppends(Put(r, buf[i]), open, buf, i + 1, kill, bad);
      WriteLoopKilled(Put(r, buf[i]), open, buf, i + 1, kill, bad);
      assert |Queue(Put(r, buf[i]))| == |Queue(r)| + 1;
    }
  }

  /** From byte i on, with `count` bytes in the pipe, byte k is reached: there is room up to it, and neither a kill nor a
      failed copy comes before. */
  predicate Reaches(count: nat, open: bool, i: nat, k: nat, kill: nat, bad: nat) {
    i <= k && (i == k || (open && k <= kill && !(i <= bad < k) && count + (k - i) <= PIPESIZE))
  }

  /** Where and why the loop stops, without running it. */
  ghost predicate StopsAt(count: nat, open: bool, n: nat, i: nat, kill: nat, bad: nat, j: nat, exit: Exit) {
    && Reaches(count, open, i, j, kill, bad)
    && match exit
       case Done => j == n
       case Closed => j == i < n && !open
       case Killed => j < n && open && kill <= j
       case Blocked => j < n && open && j < kill && count + (j - i) == PIPESIZE
       case Fault => j < n && open && j < kill && count + (j - i) < PIPESIZE && j == bad
  }

  lemma {:induction false} WriteLoopStops(r: Ring, open: bool, buf: seq<Byte>, i: nat, kill: nat, bad: nat)
    requires RingOk(r) && i <= |buf|
    ensures var w := WriteLoop(r, open, buf, i, kill, bad);
            StopsAt(|Queue(r)|, open, |buf|, i, kill, bad, w.i, w.exit)
    decreases |buf| - i
  {
    CountTests(r);
    if i < |buf| && open && i < kill && !Full(r) && i != bad {
      PutQueue(r, buf[i]);
      WriteLoopStops(Put(r, buf[i]), open, buf, i + 1, kill, bad);
      assert |Queue(Put(r, buf[i]))| == |Queue(r)| + 1;
    }
  }

  /** Only one answer fits. */
  lemma StopsOnce(count: nat, open: bool, n: nat, i: nat, kill: nat, bad: nat, j: nat, exit: Exit, j1: nat, exit1: Exit)
    requires i <= n && count <= PIPESIZE
    requires StopsAt(count, open, n, i, kill, bad, j, exit) && StopsAt(count, open, n, i, kill, bad, j1, exit1)
    ensures j == j1 && exit == exit1
  {
  }

  datatype WasRead = WasRead(ring: Ring, out: seq<Byte>, fault: bool)

  /** The copy loop of piperead(): at most n bytes; copyout() fails at byte `bad`. */
  function ReadLoop(r: Ring, n: nat, out: seq<Byte>, bad: nat): WasRead
    requires RingOk(r)
    decreases n - |out|
  {
    if |out| >= n || Empty(r) then WasRead(r, out, false)
    else if |out| == bad then WasRead(r, out, true)
    else
      TakeQueue(r);
      ReadLoop(Take(r), n, out + [r.data[r.nread % PIPESIZE]], bad)
  }

  /** The loop takes bytes off the front, in order, as many as are asked for if they are there. */
  lemma {:induction false} ReadLoopTakes(r: Ring, n: nat, out: seq<Byte>, bad: nat)
    requires RingOk(r) && |out| <= n
    ensures var d := ReadLoop(r, n, out, bad);
            && RingOk(d.ring) && out <= d.out && out + Queue(r) == d.out + Queue(d.ring)
            && |d.out| <= n && (!d.fault ==> |d.out| == n || Empty(d.ring)) && (d.fault ==> |d.out| == bad)
    decreases n - |out|
  {
    if |out| < n && !Empty(r) && |out| != bad {
      TakeQueue(r);
      var ch := r.data[r.nread % PIPESIZE];
      ReadLoopTakes(Take(r), n, out + [ch], bad);
      assert out + Queue(r) == out + [ch] + Queue(Take(r));
    }
  }

  /** It takes exactly the bytes there are, up to n and to the first that cannot be copied. */
  lemma {:induction false} ReadLoopGives(r: Ring, n: nat, out: seq<Byte>, bad: nat)
    requires RingOk(r) && |out| <= n
    ensures var d := ReadLoop(r, n, out, bad);
            var k := if n - |out| < |Queue(r)| then n - |out| else |Queue(r)|;
            if |out| <= bad < |out| + k then d.fault && d.out == out + Queue(r)[..bad - |out|]
            else !d.fault && d.out == out + Queue(r)[..k]
    decreases n - |out|
  {
    CountTests(r);
    if |out| < n && !Empty(r) && |out| != bad {
      TakeQueue(r);
      ReadLoopGives(Take(r), n, out + [r.data[r.nread % PIPESIZE]], bad);
    }
  }

  /** The buffer and counters of a pipe, with the two loops that run under its lock. */
  class Buffer {
    const data: array<Byte>
    var nread: nat
    var nwrite: nat

    ghost predicate Valid()
      reads this, data
    {
      data.Length == PIPESIZE && RingOk(Contents())
    }

    ghost function Contents(): Ring
      reads this, data
    {
      Ring(data[..], nread, nwrite)
    }

    constructor ()
      ensures Valid() && fresh(data) && Queue(Contents()) == []
    {
      data := new Byte[PIPESIZE](_ => 0);
      nread, nwrite := 0, 0;
    }

    method Write(buf: seq<Byte>, from: nat, open: bool, kill: nat, bad: nat) returns (i: nat, exit: Exit)
      requires Valid() && from <= |buf|
      modifies this, data
      ensures Valid() && Wrote(Contents(), i, exit) == old(WriteLoop(Contents(), open, buf, from, kill, bad))
    {
      i := from;
      ghost var r0 := Contents();
      while i < |buf|
        invariant Valid() && from <= i <= |buf|
        invariant WriteLoop(Contents(), open, buf, i, kill, bad) == WriteLoop(r0, open, buf, from, kill, bad)
      {
        if !open { return i, Closed; }
        if kill <= i { return i, Killed; }
        if nwrite == (nread + PIPESIZE) % WRAP { return i, Blocked; }
        if i == bad { return i, Fault; }
        PutQueue(Contents(), buf[i]);
        ghost var next := Put(Contents(), buf[i]);
        data[nwrite % PIPESIZE] := buf[i];
        nwrite := (nwrite + 1) % WRAP;
        assert Contents() == next;
        i := i + 1;
      }
      exit := Done;
    }

    method Read(n: nat, bad: nat) returns (out: seq<Byte>, fault: bool)
      requires Valid()
      modifies this`nread
      ensures Valid() && WasRead(Contents(), out, fault) == old(ReadLoop(Contents(), n, [], bad))
    {
      out := [];
      ghost var r0 := Contents();
      while |out| < n
        invariant Valid() && |out| <= n
        invariant ReadLoop(Contents(), n, out, bad) == ReadLoop(r0, n, [], bad)
      {
        if nread == nwrite { return out, false; }
        var ch := data[nread % PIPESIZE];
        if |out| == bad { return out, true; }
        TakeQueue(Contents());
        nread := (nread + 1) % WRAP;
        out := out + [ch];
      }
      fault := false;
    }
  }
}

/** Readers and writers of one pipe. A step is one critical section under pi->lock, one call of sleep(),
    a close of an end, or a kill. wakeup() is part of the section that calls it: who waits on a channel
    of the pipe got there under the same lock. */
module Pipe {
  import opened PipeRing

  datatype Chan = NoChan | OnRead | OnWrite      // p->chan: neither, &pi->nread, &pi->nwrite

  datatype Pc =
    | Idle
    | Write(buf: seq<Byte>, i: nat)          // about to take the lock in pipewrite(), i bytes are written
    | WriteDropped(buf: seq<Byte>, i: nat)   // has called sleep_prepare() and dropped the lock
    | Read(n: nat)
    | ReadDropped(n: nat)

  /** A process, with all the bytes it has put into the pipe and got from it, and its last return value. */
  datatype Thread = Thread(pc: Pc, chan: Chan, asleep: bool, sent: seq<Byte>, got: seq<Byte>, ret: int)

  datatype Tagged = Tagged(who: nat, ch: Byte)

  datatype State = State(ring: Ring, readopen: bool, writeopen: bool, threads: seq<Thread>,
                         written: seq<Tagged>, read: seq<Tagged>)

  datatype Step =
    | StartWrite(t: nat, buf: seq<Byte>)
    | StartRead(t: nat, n: nat)
    | WriteSection(t: nat, kill: nat, bad: nat)
    | ReadSection(t: nat, killed: bool, bad: nat)
    | Sleep(t: nat)
    | Close(writable: bool)
    | Kill(t: nat)

  predicate Enabled(s: State, e: Step) {
    match e
    case StartWrite(t, _) => t < |s.threads| && s.threads[t].pc.Idle?
    case StartRead(t, _) => t < |s.threads| && s.threads[t].pc.Idle?
    case WriteSection(t, kill, _) => t < |s.threads| && s.threads[t].pc.Write? && !s.threads[t].asleep
    case ReadSection(t, _, _) => t < |s.threads| && s.threads[t].pc.Read? && !s.threads[t].asleep
    case Sleep(t) => t < |s.threads| && (s.threads[t].pc.WriteDropped? || s.threads[t].pc.ReadDropped?)
    case Close(_) => true
    case Kill(t) => t < |s.threads|
  }

  /** wakeup() of kernel/proc.c. */
  function Woken(ts: seq<Thread>, chan: Chan): (r: seq<Thread>)
    ensures |r| == |ts|
    ensures forall i: nat :: i < |ts| ==>
      r[i] == if ts[i].chan == chan then ts[i].(chan := NoChan, asleep := false) else ts[i]
  {
    seq(|ts|, i requires 0 <= i < |ts| => if ts[i].chan == chan then ts[i].(chan := NoChan, asleep := false) else ts[i])
  }

  function Tag(t: nat, bytes: seq<Byte>): (r: seq<Tagged>)
    ensures |r| == |bytes| && forall k: nat :: k < |r| ==> r[k] == Tagged(t, bytes[k])
  {
    seq(|bytes|, k requires 0 <= k < |bytes| => Tagged(t, bytes[k]))
  }

  function Bytes(log: seq<Tagged>): (r: seq<Byte>)
    ensures |r| == |log| && forall k: nat :: k < |r| ==> r[k] == log[k].ch
  {
    seq(|log|, k requires 0 <= k < |log| => log[k].ch)
  }

  /** What process t has to do with a log. */
  function Of(log: seq<Tagged>, t: nat): seq<Byte> {
    if log == [] then []
    else if log[|log| - 1].who == t then Of(log[..|log| - 1], t) + [log[|log| - 1].ch]
    else Of(log[..|log| - 1], t)
  }

  /** What pipewrite() or piperead() returns when it stops after i bytes. */
  function Returned(i: nat, fault: bool): int { if fault && i == 0 then -1 else i }

  /** One section of pipewrite(): the loop, then either a return or a wait for room. */
  function WriteStep(s: State, t: nat, kill: nat, bad: nat): State
    requires RingOk(s.ring) && Enabled(s, WriteSection(t, kill, bad)) && s.threads[t].pc.i <= |s.threads[t].pc.buf|
  {
    var me := s.threads[t];
    var buf, i := me.pc.buf, me.pc.i;
    WriteLoopAppends(s.ring, s.readopen, buf, i, kill, bad);
    var w := WriteLoop(s.ring, s.readopen, buf, i, kill, bad);
    var sent := me.sent + buf[i..w.i];
    var s1 := s.(ring := w.ring, written := s.written + Tag(t, buf[i..w.i]));
    match w.exit
    case Closed => s1.(threads := s.threads[t := me.(pc := Idle, sent := sent, ret := -1)])
    case Killed => s1.(threads := s.threads[t := me.(pc := Idle, sent := sent, ret := -1)])
    case Blocked => s1.(threads := Woken(s.threads, OnRead)[t := me.(pc := WriteDropped(buf, w.i), chan := OnWrite, sent := sent)])
    case _ => s1.(threads := Woken(s.threads[t := me.(pc := Idle, sent := sent, ret := Returned(w.i, w.exit.Fault?))], OnRead))
  }

  function ReadStep(s: State, t: nat, killed: bool, bad: nat): State
    requires RingOk(s.ring) && Enabled(s, ReadSection(t, killed, bad))
  {
    var me := s.threads[t];
    if Empty(s.ring) && s.writeopen then
      if killed then s.(threads := s.threads[t := me.(pc := Idle, ret := -1)])
      else s.(threads := s.threads[t := me.(pc := ReadDropped(me.pc.n), chan := OnRead)])
    else
      var d := ReadLoop(s.ring, me.pc.n, [], bad);
      var me1 := me.(pc := Idle, got := me.got + d.out, ret := Returned(|d.out|, d.fault));
      s.(ring := d.ring, read := s.read + Tag(t, d.out), threads := Woken(s.threads[t := me1], OnWrite))
  }

  /** sleep() of kernel/proc.c. */
  function SleepStep(s: State, t: nat): State
    requires Enabled(s, Sleep(t))
  {
    var me := s.threads[t];
    var pc := if me.pc.WriteDropped? then Write(me.pc.buf, me.pc.i) else Read(me.pc.n);
    s.(threads := s.threads[t := me.(pc := pc, asleep := me.chan != NoChan)])
  }

  function Apply(s: State, e: Step): State
    requires Ok(s) && Enabled(s, e)
  {
    match e
    case StartWrite(t, buf) => s.(threads := s.threads[t := s.threads[t].(pc := Write(buf, 0))])
    case StartRead(t, n) => s.(threads := s.threads[t := s.threads[t].(pc := Read(n))])
    case WriteSection(t, kill, bad) => assert ThreadOk(s, t); WriteStep(s, t, kill, bad)
    case ReadSection(t, killed, bad) => ReadStep(s, t, killed, bad)
    case Sleep(t) => SleepStep(s, t)
    case Close(writable) =>
      if writable then s.(writeopen := false, threads := Woken(s.threads, OnRead))
      else s.(readopen := false, threads := Woken(s.threads, OnWrite))
    case Kill(t) => s.(threads := s.threads[t := s.threads[t].(asleep := false)])
  }

  predicate Writes(pc: Pc) { pc.Write? || pc.WriteDropped? }

  predicate MeOk(me: Thread, written: seq<Byte>, read: seq<Byte>) {
    && written == me.sent && read == me.got
    && (Writes(me.pc) ==> me.pc.i <= |me.pc.buf| && me.pc.i <= |me.sent| && me.sent[|me.sent| - me.pc.i..] == me.pc.buf[..me.pc.i])
    && (me.asleep ==> (me.pc.Write? && me.chan == OnWrite) || (me.pc.Read? && me.chan == OnRead))
    && (me.pc.WriteDropped? ==> me.chan != OnRead) && (me.pc.ReadDropped? ==> me.chan != OnWrite)
  }

  predicate ThreadOk(s: State, t: nat)
    requires t < |s.threads|
  {
    MeOk(s.threads[t], Of(s.written, t), Of(s.read, t))
  }

  /** The bytes read and the bytes in the ring are the bytes written, in order. */
  predicate Ok(s: State) {
    && RingOk(s.ring) && Bytes(s.written) == Bytes(s.read) + Queue(s.ring)
    && (forall t: nat :: t < |s.threads| ==> ThreadOk(s, t))
  }

  ghost predicate Init(s: State) {
    && s.readopen && s.writeopen && s.written == [] && s.read == [] && RingOk(s.ring) && Empty(s.ring)
    && forall t: nat :: t < |s.threads| ==> s.threads[t] == Thread(Idle, NoChan, false, [], [], 0)
  }

  lemma {:induction false} OfTagged(log: seq<Tagged>, t: nat, bytes: seq<Byte>, u: nat)
    ensures Of(log + Tag(t, bytes), u) == Of(log, u) + (if u == t then bytes else [])
    decreases |bytes|
  {
    if bytes == [] {
      assert log + Tag(t, bytes) == log;
    } else {
      var n := |bytes| - 1;
      var all := log + Tag(t, bytes);
      assert all[..|all| - 1] == log + Tag(t, bytes[..n]) && all[|all| - 1] == Tagged(t, bytes[n]);
      OfTagged(log, t, bytes[..n], u);
      assert bytes == bytes[..n] + [bytes[n]];
    }
  }

  lemma BytesTagged(log: seq<Tagged>, t: nat, bytes: seq<Byte>)
    ensures Bytes(log + Tag(t, bytes)) == Bytes(log) + bytes
  {
  }

  lemma FoldOk(s: State)
    requires RingOk(s.ring) && Bytes(s.written) == Bytes(s.read) + Queue(s.ring)
    requires forall t: nat :: t < |s.threads| ==> ThreadOk(s, t)
    ensures Ok(s)
  {
  }

  lemma RingOf(s: State)
    requires Ok(s)
    ensures RingOk(s.ring) && Bytes(s.written) == Bytes(s.read) + Queue(s.ring)
  {
  }

  lemma OkAt(s: State, t: nat)
    requires Ok(s) && t < |s.threads|
    ensures RingOk(s.ring) && Bytes(s.written) == Bytes(s.read) + Queue(s.ring) && ThreadOk(s, t)
  {
  }

  /** A writer after a section that took it from byte i to byte j. */
  lemma WriterOk(me: Thread, j: nat, me1: Thread, read: seq<Byte>)
    requires MeOk(me, me.sent, read) && me.pc.Write? && me.pc.i <= j <= |me.pc.buf|
    requires me1.sent == me.sent + me.pc.buf[me.pc.i..j] && me1.got == me.got && !me1.asleep
    requires me1.pc.Idle? || (me1.pc == WriteDropped(me.pc.buf, j) && me1.chan == OnWrite)
    ensures MeOk(me1, me1.sent, read)
  {
    var buf, i := me.pc.buf, me.pc.i;
    var put := buf[i..j];
    assert me1.sent[|me1.sent| - j..] == me.sent[|me.sent| - i..] + put;
    assert buf[..j] == buf[..i] + put;
  }

  lemma WriteThread(s: State, t: nat, kill: nat, bad: nat, u: nat)
    requires Ok(s) && Enabled(s, WriteSection(t, kill, bad)) && u < |s.threads|
    ensures |Apply(s, WriteSection(t, kill, bad)).threads| == |s.threads| && ThreadOk(Apply(s, WriteSection(t, kill, bad)), u)
  {
    hide Queue, RingOk, Of, Bytes, Ok, WriteLoop, MeOk;
    OkAt(s, t);
    OkAt(s, u);
    StartOk(s, t);
    var me := s.threads[t];
    WriteLoopAppends(s.ring, s.readopen, me.pc.buf, me.pc.i, kill, bad);
    var w := WriteLoop(s.ring, s.readopen, me.pc.buf, me.pc.i, kill, bad);
    var s1 := WriteStep(s, t, kill, bad);
    OfTagged(s.written, t, me.pc.buf[me.pc.i..w.i], u);
    if u == t {
      WriterOk(me, w.i, s1.threads[t], me.got);
    } else {
      assert Of(s1.written, u) == Of(s.written, u);
      WokenOk(s.threads[u], s1.threads[u], Of(s.written, u), Of(s.read, u));
    }
  }

  lemma StartOk(s: State, t: nat)
    requires t < |s.threads| && ThreadOk(s, t)
    ensures Of(s.written, t) == s.threads[t].sent && Of(s.read, t) == s.threads[t].got
    ensures Writes(s.threads[t].pc) ==> s.threads[t].pc.i <= |s.threads[t].pc.buf|
  {
  }

  /** Waking a process changes nothing but its channel and its sleep. */
  lemma WokenOk(me: Thread, me1: Thread, written: seq<Byte>, read: seq<Byte>)
    requires MeOk(me, written, read)
    requires me1 == me || me1 == me.(chan := NoChan, asleep := false) || me1 == me.(asleep := false)
    ensures MeOk(me1, written, read)
  {
  }

  lemma WriteKeepsOk(s: State, t: nat, kill: nat, bad: nat)
    requires Ok(s) && Enabled(s, WriteSection(t, kill, bad))
    ensures Ok(Apply(s, WriteSection(t, kill, bad)))
  {
    hide Queue, RingOk, Of, Bytes, Ok, WriteLoop, MeOk, ThreadOk;
    OkAt(s, t);
    StartOk(s, t);
    var me := s.threads[t];
    WriteLoopAppends(s.ring, s.readopen, me.pc.buf, me.pc.i, kill, bad);
    var w := WriteLoop(s.ring, s.readopen, me.pc.buf, me.pc.i, kill, bad);
    var put := me.pc.buf[me.pc.i..w.i];
    BytesTagged(s.written, t, put);
    var s1 := Apply(s, WriteSection(t, kill, bad));
    assert Bytes(s.read) + Queue(s.ring) + put == Bytes(s.read) + (Queue(s.ring) + put);
    forall u: nat | u < |s1.threads| ensures ThreadOk(s1, u) { WriteThread(s, t, kill, bad, u); }
    FoldOk(s1);
  }

  lemma ReadThread(s: State, t: nat, killed: bool, bad: nat, u: nat)
    requires Ok(s) && Enabled(s, ReadSection(t, killed, bad)) && u < |s.threads|
    ensures |Apply(s, ReadSection(t, killed, bad)).threads| == |s.threads| && ThreadOk(Apply(s, ReadSection(t, killed, bad)), u)
  {
    hide Queue, RingOk, Of, Bytes, Ok, ReadLoop;
    OkAt(s, t);
    OkAt(s, u);
    var me := s.threads[t];
    OfTagged(s.read, t, ReadLoop(s.ring, me.pc.n, [], bad).out, u);
  }

  lemma ReadKeepsOk(s: State, t: nat, killed: bool, bad: nat)
    requires Ok(s) && Enabled(s, ReadSection(t, killed, bad))
    ensures Ok(Apply(s, ReadSection(t, killed, bad)))
  {
    hide Queue, RingOk, Of, Bytes, Ok, ReadLoop, MeOk, ThreadOk;
    OkAt(s, t);
    var me := s.threads[t];
    ReadLoopTakes(s.ring, me.pc.n, [], bad);
    var d := ReadLoop(s.ring, me.pc.n, [], bad);
    assert [] + Queue(s.ring) == Queue(s.ring);
    BytesTagged(s.read, t, d.out);
    assert Bytes(s.read) + (d.out + Queue(d.ring)) == Bytes(s.read) + d.out + Queue(d.ring);
    var s1 := Apply(s, ReadSection(t, killed, bad));
    forall u: nat | u < |s1.threads| ensures ThreadOk(s1, u) { ReadThread(s, t, killed, bad, u); }
    FoldOk(s1);
  }

  lemma OtherThread(s: State, e: Step, u: nat)
    requires Ok(s) && Enabled(s, e) && !e.WriteSection? && !e.ReadSection? && u < |s.threads|
    ensures |Apply(s, e).threads| == |s.threads| && ThreadOk(Apply(s, e), u)
  {
    hide Queue, RingOk, Of, Bytes, Ok;
    OkAt(s, u);
  }

  lemma OtherKeepsOk(s: State, e: Step)
    requires Ok(s) && Enabled(s, e) && !e.WriteSection? && !e.ReadSection?
    ensures Ok(Apply(s, e))
  {
    hide Queue, RingOk, Of, Bytes, Ok, MeOk, ThreadOk;
    RingOf(s);
    var s1 := Apply(s, e);
    forall u: nat | u < |s1.threads| ensures ThreadOk(s1, u) { SameThreads(s, e); OtherThread(s, e, u); }
    FoldOk(s1);
  }

  lemma SameThreads(s: State, e: Step)
    requires Ok(s) && Enabled(s, e)
    ensures |Apply(s, e).threads| == |s.threads|
  {
    hide RingOk, Of, Bytes, Queue, MeOk, Ok;
  }

  lemma StepKeepsOk(s: State, e: Step)
    requires Ok(s) && Enabled(s, e)
    ensures Ok(Apply(s, e)) && |Apply(s, e).threads| == |s.threads|
  {
    SameThreads(s, e);
    hide Ok, Apply;
    match e
    case WriteSection(t, kill, bad) => WriteKeepsOk(s, t, kill, bad);
    case ReadSection(t, killed, bad) => ReadKeepsOk(s, t, killed, bad);
    case _ => OtherKeepsOk(s, e);
  }

  ghost predicate RunOk(s: State, es: seq<Step>)
    requires Ok(s)
    decreases es
  {
    es != [] ==> Enabled(s, es[0]) && (StepKeepsOk(s, es[0]); RunOk(Apply(s, es[0]), es[1..]))
  }

  ghost function After(s: State, es: seq<Step>): (r: State)
    requires Ok(s) && RunOk(s, es)
    ensures Ok(r) && |r.threads| == |s.threads|
    decreases es
  {
    if es == [] then s else StepKeepsOk(s, es[0]); After(Apply(s, es[0]), es[1..])
  }

  lemma InitOk(s: State)
    requires Init(s)
    ensures Ok(s) && NoStuck(s)
  {
    CountTests(s.ring);
    forall t: nat | t < |s.threads| ensures ThreadOk(s, t) { assert s.threads[t] == Thread(Idle, NoChan, false, [], [], 0); }
  }

  /** In every run, what was read is a prefix of what was written and the rest is in the ring. A writer's
      bytes enter in its own order, a reader's come out in order, and each byte goes to one reader. */
  lemma Fifo(s: State, es: seq<Step>)
    requires Init(s) && (InitOk(s); RunOk(s, es))
    ensures (InitOk(s);
             var r := After(s, es);
             && Bytes(r.read) <= Bytes(r.written) && |r.written| - |r.read| <= PIPESIZE
             && (forall t: nat :: t < |r.threads| ==> Of(r.written, t) == r.threads[t].sent && Of(r.read, t) == r.threads[t].got))
  {
    InitOk(s);
    var r := After(s, es);
    forall t: nat | t < |r.threads| ensures Of(r.written, t) == r.threads[t].sent && Of(r.read, t) == r.threads[t].got {
      assert ThreadOk(r, t);
    }
  }

  /** The answer of pipewrite() that stops at byte j. */
  function WriteResult(n: nat, j: nat, exit: Exit): int
    requires !exit.Blocked?
  {
    match exit
    case Done => n
    case Fault => if j == 0 then -1 else j
    case _ => -1
  }

  /** What a section of pipewrite() answers: it stops at byte j for the reason there is. All bytes written, the count; a
      closed end or a kill, -1; copyin() failed, the bytes before, or -1 if there are none; no room, no answer yet. The
      bytes up to j are in the pipe, and what it counts are the first bytes of buf. */
  ghost predicate WriteAnswers(s: State, t: nat, kill: nat, bad: nat, s1: State, j: nat, exit: Exit)
    requires RingOk(s.ring) && Enabled(s, WriteSection(t, kill, bad))
  {
    var me := s.threads[t];
    var buf := me.pc.buf;
    && StopsAt(|Queue(s.ring)|, s.readopen, |buf|, me.pc.i, kill, bad, j, exit) && me.pc.i <= j <= |buf| && t < |s1.threads|
    && s1.written == s.written + Tag(t, buf[me.pc.i..j]) && s1.read == s.read
    && var me1 := s1.threads[t];
       && me1.sent == me.sent + buf[me.pc.i..j]
       && (if exit.Blocked? then me1.pc == WriteDropped(buf, j) else me1.pc.Idle? && me1.ret == WriteResult(|buf|, j, exit))
       && (me1.pc.Idle? && me1.ret >= 0 ==> CountsFirst(me1, buf))
  }

  /** What was sent last are as many bytes of buf as the answer says. */
  predicate CountsFirst(me: Thread, buf: seq<Byte>) {
    0 <= me.ret <= |me.sent| && me.ret <= |buf| && me.sent[|me.sent| - me.ret..] == buf[..me.ret]
  }

  /** What a section of piperead() answers: -1 if it is killed while the pipe is empty and open, else the bytes that are there,
      up to n and to the first that cannot be copied, or -1 if that is the first of all. */
  ghost predicate ReadAnswers(s: State, t: nat, killed: bool, bad: nat, s1: State)
    requires RingOk(s.ring) && Enabled(s, ReadSection(t, killed, bad))
  {
    var me, q := s.threads[t], Queue(s.ring);
    var k := if me.pc.n < |q| then me.pc.n else |q|;
    && t < |s1.threads| && s1.written == s.written
    && var me1 := s1.threads[t];
       if q == [] && s.writeopen then
         && s1.read == s.read && me1.got == me.got
         && (if killed then me1.pc.Idle? && me1.ret == -1 else me1.pc == ReadDropped(me.pc.n))
       else
         var m := if bad < k then bad else k;
         && me1.pc.Idle? && me1.ret == (if bad == 0 < k then -1 else m)
         && me1.got == me.got + q[..m] && s1.read == s.read + Tag(t, q[..m])
  }

  lemma SentLast(me: Thread, j: nat, me1: Thread, read: seq<Byte>)
    requires MeOk(me, me.sent, read) && me.pc.Write? && me.pc.i <= j <= |me.pc.buf|
    requires me1.sent == me.sent + me.pc.buf[me.pc.i..j] && me1.ret == j
    ensures CountsFirst(me1, me.pc.buf)
  {
    var buf, i := me.pc.buf, me.pc.i;
    var put := buf[i..j];
    assert me1.sent[|me1.sent| - j..] == me.sent[|me.sent| - i..] + put;
    assert buf[..j] == buf[..i] + put;
  }

  lemma WriteMeets(s: State, t: nat, kill: nat, bad: nat) returns (j: nat, exit: Exit)
    requires Ok(s) && Enabled(s, WriteSection(t, kill, bad))
    ensures WriteAnswers(s, t, kill, bad, Apply(s, WriteSection(t, kill, bad)), j, exit)
  {
    hide Queue, RingOk, Of, Bytes, Ok, WriteLoop, StopsAt, CountsFirst, MeOk, Tag;
    OkAt(s, t);
    StartOk(s, t);
    var me, s1 := s.threads[t], Apply(s, WriteSection(t, kill, bad));
    WriteLoopStops(s.ring, s.readopen, me.pc.buf, me.pc.i, kill, bad);
    WriteLoopAppends(s.ring, s.readopen, me.pc.buf, me.pc.i, kill, bad);
    var w := WriteLoop(s.ring, s.readopen, me.pc.buf, me.pc.i, kill, bad);
    j, exit := w.i, w.exit;
    if s1.threads[t].pc.Idle? && s1.threads[t].ret >= 0 { SentLast(me, j, s1.threads[t], me.got); }
  }

  lemma ReadMeets(s: State, t: nat, killed: bool, bad: nat)
    requires Ok(s) && Enabled(s, ReadSection(t, killed, bad))
    ensures ReadAnswers(s, t, killed, bad, Apply(s, ReadSection(t, killed, bad)))
  {
    hide Of, Bytes, Queue, ReadLoop, RingOk, MeOk, Ok, Tag, Empty;
    RingOf(s);
    CountTests(s.ring);
    var me := s.threads[t];
    ReadLoopGives(s.ring, me.pc.n, [], bad);
    var d := ReadLoop(s.ring, me.pc.n, [], bad);
    assert d.out == Queue(s.ring)[..|d.out|];
  }

  /** A read that returns answers 0 exactly if nothing was asked for or the pipe is empty and closed for writing, and -1 exactly
      if it was killed while empty and open, or the first byte could not be copied. */
  lemma ReadCases(s: State, t: nat, killed: bool, bad: nat, s1: State)
    requires RingOk(s.ring) && Enabled(s, ReadSection(t, killed, bad)) && ReadAnswers(s, t, killed, bad, s1) && s1.threads[t].pc.Idle?
    ensures var q, n, ret := Queue(s.ring), s.threads[t].pc.n, s1.threads[t].ret;
            && (ret == 0 <==> (if s.writeopen then q != [] && n == 0 else q == [] || n == 0))
            && (ret == -1 <==> (q == [] && s.writeopen && killed) || (q != [] && n > 0 && bad == 0))
            && (ret >= 0 ==> ret <= |q| && s1.threads[t].got == s.threads[t].got + q[..ret])
  {
  }

  /** So it is in every run. */
  lemma WritesAnswer(s: State, es: seq<Step>, t: nat, kill: nat, bad: nat) returns (j: nat, exit: Exit)
    requires Init(s) && (InitOk(s); RunOk(s, es) && Enabled(After(s, es), WriteSection(t, kill, bad)))
    ensures (InitOk(s);
             WriteAnswers(After(s, es), t, kill, bad, Apply(After(s, es), WriteSection(t, kill, bad)), j, exit))
  {
    hide Ok, Apply, RunOk, After, WriteAnswers, Enabled;
    InitOk(s);
    j, exit := WriteMeets(After(s, es), t, kill, bad);
  }

  lemma ReadsAnswer(s: State, es: seq<Step>, t: nat, killed: bool, bad: nat)
    requires Init(s) && (InitOk(s); RunOk(s, es) && Enabled(After(s, es), ReadSection(t, killed, bad)))
    ensures (InitOk(s);
             ReadAnswers(After(s, es), t, killed, bad, Apply(After(s, es), ReadSection(t, killed, bad))))
  {
    hide Ok, Apply, RunOk, After, ReadAnswers, Enabled;
    InitOk(s);
    ReadMeets(After(s, es), t, killed, bad);
  }

  /** A reader that sleeps, or is on the way to it, and nobody has woken. */
  predicate WaitsToRead(me: Thread) { me.chan == OnRead && (me.pc.ReadDropped? || me.asleep) }

  predicate WaitsToWrite(me: Thread) { me.chan == OnWrite && (me.pc.WriteDropped? || me.asleep) }

  /** Readers wait only for an empty pipe with a writer's end, writers only for a full one with a reader's. */
  predicate NoStuck(s: State) {
    forall t: nat :: t < |s.threads| ==>
      && (WaitsToRead(s.threads[t]) ==> Empty(s.ring) && s.writeopen)
      && (WaitsToWrite(s.threads[t]) ==> Full(s.ring) && s.readopen)
  }

  /** The step is a writer that is killed with bytes both written and left to write, before it runs out of
      room or faults, while a reader waits. */
  predicate Abandons(s: State, e: Step)
    requires Enabled(s, e)
  {
    && e.WriteSection? && s.readopen
    && (var pc := s.threads[e.t].pc;
        && pc.i < e.kill < |pc.buf| && Count(s.ring) + (e.kill - pc.i) <= PIPESIZE && !(pc.i <= e.bad < e.kill))
    && exists u: nat :: u < |s.threads| && WaitsToRead(s.threads[u])
  }

  lemma WriteKeepsNoStuck(s: State, t: nat, kill: nat, bad: nat)
    requires Ok(s) && NoStuck(s) && Enabled(s, WriteSection(t, kill, bad))
    ensures NoStuck(Apply(s, WriteSection(t, kill, bad))) <==> !Abandons(s, WriteSection(t, kill, bad))
  {
    assert ThreadOk(s, t);
    var me := s.threads[t];
    var w := WriteLoop(s.ring, s.readopen, me.pc.buf, me.pc.i, kill, bad);
    WriteLoopAppends(s.ring, s.readopen, me.pc.buf, me.pc.i, kill, bad);
    CountTests(s.ring);
    CountTests(w.ring);
    WriteLoopKilled(s.ring, s.readopen, me.pc.buf, me.pc.i, kill, bad);
    var s1 := WriteStep(s, t, kill, bad);
    if w.i == me.pc.i { SameQueue(s.ring, w.ring, s.readopen, me.pc.buf, me.pc.i, kill, bad); }
    if Abandons(s, WriteSection(t, kill, bad)) {
      var u: nat :| u < |s.threads| && WaitsToRead(s.threads[u]);
      assert s1.threads[u] == s.threads[u];
    } else {
      forall u: nat | u < |s1.threads| ensures WaitsToRead(s1.threads[u]) ==> Empty(s1.ring) && s1.writeopen {
        assert ThreadOk(s, u);
      }
      forall u: nat | u < |s1.threads| ensures WaitsToWrite(s1.threads[u]) ==> Full(s1.ring) && s1.readopen {
        assert ThreadOk(s, u);
      }
    }
  }

  lemma SameQueue(r: Ring, r1: Ring, open: bool, buf: seq<Byte>, i: nat, kill: nat, bad: nat)
    requires RingOk(r) && i <= |buf| && WriteLoop(r, open, buf, i, kill, bad).ring == r1
    requires WriteLoop(r, open, buf, i, kill, bad).i == i
    ensures r1 == r
  {
    if i < |buf| && open && i < kill && !Full(r) && i != bad {
      PutQueue(r, buf[i]);
      WriteLoopAppends(Put(r, buf[i]), open, buf, i + 1, kill, bad);
    }
  }

  lemma ReadKeepsNoStuck(s: State, t: nat, killed: bool, bad: nat)
    requires Ok(s) && NoStuck(s) && Enabled(s, ReadSection(t, killed, bad))
    ensures NoStuck(Apply(s, ReadSection(t, killed, bad)))
  {
    var s1 := ReadStep(s, t, killed, bad);
    ReadLoopTakes(s.ring, s.threads[t].pc.n, [], bad);
    CountTests(s.ring);
    CountTests(s1.ring);
    forall u: nat | u < |s1.threads| ensures WaitsToRead(s1.threads[u]) ==> Empty(s1.ring) && s1.writeopen {
      assert ThreadOk(s, u);
    }
    forall u: nat | u < |s1.threads| ensures WaitsToWrite(s1.threads[u]) ==> Full(s1.ring) && s1.readopen {
      assert ThreadOk(s, u);
    }
  }

  /** One step keeps everybody woken, exactly unless a killed writer abandons waiting readers. */
  lemma StepKeepsNoStuck(s: State, e: Step)
    requires Ok(s) && NoStuck(s) && Enabled(s, e)
    ensures NoStuck(Apply(s, e)) <==> !Abandons(s, e)
  {
    match e
    case WriteSection(t, kill, bad) => WriteKeepsNoStuck(s, t, kill, bad);
    case ReadSection(t, killed, bad) => ReadKeepsNoStuck(s, t, killed, bad);
    case _ =>
      var s1 := Apply(s, e);
      forall u: nat | u < |s1.threads| ensures
        && (WaitsToRead(s1.threads[u]) ==> Empty(s1.ring) && s1.writeopen)
        && (WaitsToWrite(s1.threads[u]) ==> Full(s1.ring) && s1.readopen) { assert ThreadOk(s, u); }
  }

  /** pipeclose() closes one end for good and leaves nobody waiting for what can no longer come. */
  lemma CloseWakes(s: State, writable: bool)
    requires Ok(s)
    ensures var s1 := Apply(s, Close(writable));
            && s1.ring == s.ring && s1.written == s.written && s1.read == s.read && |s1.threads| == |s.threads|
            && s1.writeopen == (s.writeopen && !writable) && s1.readopen == (s.readopen && writable)
            && (forall t: nat :: t < |s1.threads| ==> !(if writable then WaitsToRead(s1.threads[t]) else WaitsToWrite(s1.threads[t])))
  {
    hide Ok;
  }

  /** An end that is closed stays closed. */
  lemma StaysClosed(s: State, e: Step)
    requires Ok(s) && Enabled(s, e)
    ensures (!s.readopen ==> !Apply(s, e).readopen) && (!s.writeopen ==> !Apply(s, e).writeopen)
    ensures !e.Close? ==> Apply(s, e).readopen == s.readopen && Apply(s, e).writeopen == s.writeopen
  {
    hide Ok;
    if e.WriteSection? { OkAt(s, e.t); } else { RingOf(s); }
  }

  /** No step of the run is a killed writer that abandons readers. */
  ghost predicate NoneAbandoned(s: State, es: seq<Step>)
    requires Ok(s) && RunOk(s, es)
    decreases es
  {
    es != [] ==> !Abandons(s, es[0]) && (StepKeepsOk(s, es[0]); NoneAbandoned(Apply(s, es[0]), es[1..]))
  }

  /** Nobody sleeps on a pipe that could serve them. */
  lemma {:induction false} NobodyStuck(s: State, es: seq<Step>)
    requires Ok(s) && NoStuck(s) && RunOk(s, es) && NoneAbandoned(s, es)
    ensures NoStuck(After(s, es))
    decreases es
  {
    if es != [] {
      StepKeepsOk(s, es[0]);
      StepKeepsNoStuck(s, es[0]);
      NobodyStuck(Apply(s, es[0]), es[1..]);
    }
  }

  /** No writer of the run finds itself killed. */
  ghost predicate NoKills(s: State, es: seq<Step>)
    requires Ok(s) && RunOk(s, es)
    decreases es
  {
    es != [] ==>
      && (es[0].WriteSection? ==> es[0].kill >= |s.threads[es[0].t].pc.buf|)
      && (StepKeepsOk(s, es[0]); NoKills(Apply(s, es[0]), es[1..]))
  }

  lemma {:induction false} NoKillsNoneAbandoned(s: State, es: seq<Step>)
    requires Ok(s) && RunOk(s, es) && NoKills(s, es)
    ensures NoneAbandoned(s, es)
    decreases es
  {
    if es != [] {
      StepKeepsOk(s, es[0]);
      NoKillsNoneAbandoned(Apply(s, es[0]), es[1..]);
    }
  }

  /** In every run of a new pipe in which no writer is killed, nobody sleeps, or is on the way to it, on a
      pipe that could serve them. */
  lemma NobodyStuckWithoutKills(s: State, es: seq<Step>, t: nat)
    requires Init(s) && (InitOk(s); RunOk(s, es) && NoKills(s, es) && t < |After(s, es).threads|)
    ensures (InitOk(s);
             var r := After(s, es);
             && (WaitsToRead(r.threads[t]) ==> Queue(r.ring) == [] && r.writeopen)
             && (WaitsToWrite(r.threads[t]) ==> |Queue(r.ring)| == PIPESIZE && r.readopen))
  {
    InitOk(s);
    NoKillsNoneAbandoned(s, es);
    NobodyStuck(s, es);
    var r := After(s, es);
    RingOf(r);
    CountTests(r.ring);
  }

  lemma RunCons(s: State, e: Step, es: seq<Step>)
    requires Ok(s) && Enabled(s, e) && Ok(Apply(s, e)) && RunOk(Apply(s, e), es)
    ensures RunOk(s, [e] + es) && After(s, [e] + es) == After(Apply(s, e), es)
  {
    hide Ok, Enabled, Apply;
    var all := [e] + es;
    assert all[0] == e && all[1..] == es;
  }

  lemma ReaderFallsAsleep(s: State, es: seq<Step>)
    requires Init(s) && |s.threads| == 2
    ensures Ok(s)
    ensures var s1 := s.(threads := [Thread(Read(1), OnRead, true, [], [], 0), s.threads[1]]);
            && Ok(s1)
            && (RunOk(s1, es) ==>
                  && RunOk(s, [StartRead(0, 1)] + ([ReadSection(0, false, 0)] + ([Sleep(0)] + es)))
                  && After(s, [StartRead(0, 1)] + ([ReadSection(0, false, 0)] + ([Sleep(0)] + es))) == After(s1, es))
  {
    InitOk(s);
    hide Ok, RunOk, After, RingOk;
    assert s.threads[0] == Thread(Idle, NoChan, false, [], [], 0);
    var s1 := s.(threads := [Thread(Read(1), NoChan, false, [], [], 0), s.threads[1]]);
    var s2 := s.(threads := [Thread(ReadDropped(1), OnRead, false, [], [], 0), s.threads[1]]);
    var s3 := s.(threads := [Thread(Read(1), OnRead, true, [], [], 0), s.threads[1]]);
    StepKeepsOk(s, StartRead(0, 1));
    assert Apply(s, StartRead(0, 1)) == s1;
    StepKeepsOk(s1, ReadSection(0, false, 0));
    assert Apply(s1, ReadSection(0, false, 0)) == s2;
    StepKeepsOk(s2, Sleep(0));
    assert Apply(s2, Sleep(0)) == s3;
    if RunOk(s3, es) {
      RunCons(s2, Sleep(0), es);
      RunCons(s1, ReadSection(0, false, 0), [Sleep(0)] + es);
      RunCons(s, StartRead(0, 1), [ReadSection(0, false, 0)] + ([Sleep(0)] + es));
    }
  }

  lemma WriterIsKilled(s: State)
    requires Ok(s) && Empty(s.ring) && s.readopen && |s.threads| == 2 && s.threads[0].asleep
    requires s.threads[1] == Thread(Idle, NoChan, false, [], [], 0)
    ensures var es := [StartWrite(1, [7, 8]), WriteSection(1, 1, 9)];
            RunOk(s, es) && After(s, es).threads[0].asleep && !Empty(After(s, es).ring)
  {
    var e1, e2 := StartWrite(1, [7, 8]), WriteSection(1, 1, 9);
    StepKeepsOk(s, e1);
    var s1 := Apply(s, e1);
    OneByte(s.ring);
    StepKeepsOk(s1, e2);
    var s2 := Apply(s1, e2);
    assert RunOk(s2, []) && After(s2, []) == s2;
    RunCons(s1, e2, []);
    RunCons(s, e1, [e2]);
    assert [e1, e2] == [e1] + [e2] && [e2] == [e2] + [];
  }

  lemma OneByte(r: Ring)
    requires RingOk(r) && Empty(r)
    ensures WriteLoop(r, true, [7, 8], 0, 1, 9) == Wrote(Put(r, 7), 1, Killed) && !Empty(Put(r, 7))
  {
    CountTests(r);
    PutQueue(r, 7);
    CountTests(Put(r, 7));
  }

  /** A reader left asleep on a pipe with a byte in it: the writer was killed after the first of its two bytes. */
  lemma KilledWriterAbandons(s: State) returns (es: seq<Step>)
    requires Init(s) && |s.threads| == 2
    ensures Ok(s) && RunOk(s, es) && After(s, es).threads[0].asleep && !Empty(After(s, es).ring)
  {
    ReaderFallsAsleep(s, []);
    var s1 := s.(threads := [Thread(Read(1), OnRead, true, [], [], 0), s.threads[1]]);
    var tail := [StartWrite(1, [7, 8]), WriteSection(1, 1, 9)];
    assert s.threads[1] == Thread(Idle, NoChan, false, [], [], 0);
    WriterIsKilled(s1);
    ReaderFallsAsleep(s, tail);
    es := [StartRead(0, 1)] + ([ReadSection(0, false, 0)] + ([Sleep(0)] + tail));
  }
}
