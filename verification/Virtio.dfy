/** Processes in virtio_disk_rw(), the interrupt handler and a device that completes requests in any
    order. A step is one critical section under vdisk_lock, one round of the interrupt handler, one
    call of sleep(), or an action of the device on the memory it shares with the driver. */
module Virtio {
  import opened Options
  import FsSpec
  import opened Virtq

  const SECTORS: nat := FsSpec.BSIZE / 512                     // sectors of a block

  /** What a block holds, sector by sector. */
  type Contents = d: seq<int> | |d| == SECTORS witness seq(SECTORS, j => 0)

  datatype Buf = Buf(blockno: nat, data: Contents, busy: bool) // busy is b->disk

  /** What the caller of virtio_disk_rw() put into the buffer. */
  datatype Ask = Ask(blockno: nat, data: Contents)

  /** Where a request is: in the available ring, with the device, in the used ring (served as number m),
      or seen by the interrupt handler. */
  datatype Phase = Queued | Taken | Reported(m: nat) | Seen(m: nat)

  datatype Pc =
    | Idle
    | Want(b: nat, write: bool, ask: Ask)                              // about to look for descriptors
    | Fly(b: nat, write: bool, ask: Ask, d: Three, id: nat, phase: Phase)      // has submitted request number id

  datatype Chan = NoChan | OnFree | OnBuf(b: nat)              // neither, &disk.free[0], b

  /** dropped: has called sleep_prepare() and released the lock, but not called sleep() yet. */
  datatype Thread = Thread(pc: Pc, chan: Chan, dropped: bool, asleep: bool)

  /** What the device did for request id, and which block the buffer of that request was for. */
  datatype Event = Event(id: nat, write: bool, sector: nat, data: Contents, blockno: nat)

  /** The driver, the buffers, the disk, the device's place in the available ring and its requests, the
      processes; then who owns each descriptor and uses each buffer (-1 is nobody), who submitted each
      request, how many the device fetched, what it served, how much of that the handler has seen, when
      each request was served (-1 is not yet), and the requests whose caller has returned. */
  datatype State = State(q: Driver, bufs: seq<Buf>, disk: map<nat, int>, devIdx: nat, taken: set<nat>, threads: seq<Thread>,
                         own: seq<int>, user: seq<int>, submitted: seq<nat>, fetched: nat, served: seq<Event>, seen: nat,
                         at: seq<int>, done: set<nat>)

  predicate Sized(s: State) {
    && Shape(s.q) && |s.own| == NUM && |s.user| == |s.bufs| && |s.at| == |s.submitted| && s.devIdx < IDX
    && s.fetched <= |s.submitted| && s.seen <= |s.served|
  }

  /** The sectors from `sector` on. */
  function Block(disk: map<nat, int>, sector: nat): Contents {
    seq<int>(SECTORS, j requires 0 <= j < SECTORS => if sector + j in disk then disk[sector + j] else 0)
  }

  function Store(disk: map<nat, int>, sector: nat, data: Contents): map<nat, int> {
    disk[sector := data[0]][sector + 1 := data[1]]
  }

  function Woken(ts: seq<Thread>, chan: Chan): (r: seq<Thread>)
    ensures |r| == |ts|
    ensures forall i: nat :: i < |ts| ==>
      r[i] == if ts[i].chan == chan then ts[i].(chan := NoChan, asleep := false) else ts[i]
  {
    seq(|ts|, i requires 0 <= i < |ts| => if ts[i].chan == chan then ts[i].(chan := NoChan, asleep := false) else ts[i])
  }

  datatype Step =
    | Start(t: nat, b: nat, write: bool, blockno: nat, data: Contents)  // the holder of buffer b calls virtio_disk_rw()
    | Rw(t: nat)                                                   // tries to get descriptors and submit
    | Sleep(t: nat)
    | Recheck(t: nat)                                              // looks at b->disk again
    | Fetch                                                        // the device takes the next available entry
    | Complete(h: nat)                                             // the device serves chain h and reports it
    | Intr                                                         // one round of virtio_disk_intr()
    | Kill(t: nat)

  predicate Awake(me: Thread) { !me.dropped && !me.asleep }

  predicate Enabled(s: State, e: Step)
    requires Sized(s)
  {
    match e
    case Start(t, b, _, _, _) => t < |s.threads| && s.threads[t].pc.Idle? && b < |s.bufs| && s.user[b] == -1
    case Rw(t) => t < |s.threads| && s.threads[t].pc.Want? && Awake(s.threads[t]) && s.threads[t].pc.b < |s.bufs|
    case Sleep(t) => t < |s.threads| && s.threads[t].dropped
    case Recheck(t) =>
      t < |s.threads| && s.threads[t].pc.Fly? && Awake(s.threads[t]) && s.threads[t].pc.b < |s.bufs| && Spread(s.threads[t].pc.d)
    case Fetch => s.devIdx != s.q.availIdx
    case Complete(h) => h in s.taken
    case Intr => s.q.usedSeen != s.q.usedIdx
    case Kill(t) => t < |s.threads|
  }

  function StartStep(s: State, t: nat, b: nat, write: bool, blockno: nat, data: Contents): State
    requires Sized(s) && Enabled(s, Start(t, b, write, blockno, data))
  {
    s.(bufs := s.bufs[b := Buf(blockno, data, false)], user := s.user[b := t],
       threads := s.threads[t := s.threads[t].(pc := Want(b, write, Ask(blockno, data)))])
  }

  /** Fewer than three descriptors are free: what alloc3_desc() took goes back, and the process waits. */
  function Refused(s: State, t: nat): State
    requires Sized(s) && Enabled(s, Rw(t))
  {
    var woken := if FirstFree(s.q.free, 0) < 0 then s.threads else Woken(s.threads, OnFree);
    s.(q := GaveBack(s.q), threads := woken[t := s.threads[t].(chan := OnFree, dropped := true)])
  }

  /** The request goes out on descriptors d, and the process waits for it. */
  function Submitted(s: State, t: nat, d: Three): State
    requires Sized(s) && Enabled(s, Rw(t)) && Spread(d)
  {
    var me := s.threads[t];
    var b := me.pc.b;
    var me1 := me.(pc := Fly(b, me.pc.write, me.pc.ask, d, |s.submitted|, Queued), chan := OnBuf(b), dropped := true);
    s.(q := Publish(Format(s.q, b, me.pc.write, s.bufs[b].blockno, d), d.d0), bufs := s.bufs[b := s.bufs[b].(busy := true)],
       threads := s.threads[t := me1], own := s.own[d.d0 := t][d.d1 := t][d.d2 := t],
       submitted := s.submitted + [t], at := s.at + [-1])
  }

  function RwStep(s: State, t: nat): State
    requires Sized(s) && Enabled(s, Rw(t))
  {
    match Alloc3(s.q.free)
    case None => Refused(s, t)
    case Some(d) => Submitted(s, t, d)
  }

  function RecheckStep(s: State, t: nat): State
    requires Sized(s) && Enabled(s, Recheck(t))
  {
    var me := s.threads[t];
    if s.bufs[me.pc.b].busy then
      s.(threads := s.threads[t := me.(chan := OnBuf(me.pc.b), dropped := true)])
    else
      var d := me.pc.d;
      s.(q := Freed(s.q, d), threads := Woken(s.threads[t := me.(pc := Idle)], OnFree),
         own := s.own[d.d0 := -1][d.d1 := -1][d.d2 := -1], user := s.user[me.pc.b := -1], done := s.done + {me.pc.id})
  }

  /** Process t's request moves on. */
  function Mark(ts: seq<Thread>, t: int, phase: Phase): (r: seq<Thread>)
    ensures |r| == |ts|
  {
    if 0 <= t < |ts| && ts[t].pc.Fly? then ts[t := ts[t].(pc := ts[t].pc.(phase := phase))] else ts
  }

  function FetchStep(s: State): State
    requires Sized(s) && Enabled(s, Fetch)
  {
    var t: int := if s.fetched < |s.submitted| then s.submitted[s.fetched] else -1;
    s.(devIdx := (s.devIdx + 1) % IDX, taken := s.taken + {s.q.avail[s.devIdx % NUM]},
       fetched := if s.fetched < |s.submitted| then s.fetched + 1 else s.fetched, threads := Mark(s.threads, t, Taken))
  }

  /** What the device finds when it follows the links from descriptor h: the command, the buffer, and
      whose status byte to write. */
  datatype Access = Access(op: Op, b: nat, status: nat)

  function Follow(q: Driver, bufs: nat, h: nat): Option<Access>
    requires Shape(q)
  {
    if !(h < NUM && q.desc[h].addr.Header? && q.desc[h].addr.i < NUM && q.desc[h].more && q.desc[h].next < NUM) then None else
    var data := q.desc[q.desc[h].next];
    var op := q.ops[q.desc[h].addr.i];
    if !(data.addr.Data? && data.addr.b < bufs && data.len == FsSpec.BSIZE && data.devWrites == !op.write && data.more && data.next < NUM)
    then None else
    var status := q.desc[data.next];
    if !(status.addr.Status? && status.addr.i < NUM && status.devWrites && !status.more) then None
    else Some(Access(op, data.addr.b, status.addr.i))
  }

  /** The request that owns chain h. */
  function IdOf(s: State, h: nat): int
    requires Sized(s)
  {
    if h < NUM && 0 <= s.own[h] < |s.threads| && s.threads[s.own[h]].pc.Fly? then s.threads[s.own[h]].pc.id else -1
  }

  /** The device does what the chain says, and reports it; a malformed chain is ignored. */
  function CompleteStep(s: State, h: nat): State
    requires Sized(s) && Enabled(s, Complete(h))
  {
    var a := Follow(s.q, |s.bufs|, h);
    if a.None? || !(0 <= IdOf(s, h) < |s.at|) then s.(taken := s.taken - {h}) else
    var Access(op, b, status) := a.value;
    var data := if op.write then s.bufs[b].data else Block(s.disk, op.sector);
    var id := IdOf(s, h);
    s.(taken := s.taken - {h}, disk := if op.write then Store(s.disk, op.sector, data) else s.disk,
       bufs := s.bufs[b := s.bufs[b].(data := data)],
       q := s.q.(info := s.q.info[status := s.q.info[status].(status := 0)],
                 used := s.q.used[s.q.usedIdx % NUM := h], usedIdx := (s.q.usedIdx + 1) % IDX),
       served := s.served + [Event(id, op.write, op.sector, data, s.bufs[b].blockno)], at := s.at[id := |s.served|],
       threads := Mark(s.threads, s.own[h], Reported(|s.served|)))
  }

  /** One round of virtio_disk_intr(); an entry that is not EntryOk would be a panic or a stray write. */
  function IntrStep(s: State): State
    requires Sized(s) && Enabled(s, Intr)
  {
    var h := s.q.used[s.q.usedSeen % NUM];
    var seen := if s.seen < |s.served| then s.seen + 1 else s.seen;
    if !EntryOk(s.q, |s.bufs|, s.q.usedSeen) then s else
    var b := EntryBuf(s.q, s.q.usedSeen);
    s.(q := s.q.(usedSeen := (s.q.usedSeen + 1) % IDX), seen := seen, bufs := s.bufs[b := s.bufs[b].(busy := false)],
       threads := Woken(Mark(s.threads, s.own[h], Seen(s.seen)), OnBuf(b)))
  }

  function Apply(s: State, e: Step): State
    requires Sized(s) && Enabled(s, e)
  {
    match e
    case Start(t, b, write, blockno, data) => StartStep(s, t, b, write, blockno, data)
    case Rw(t) => RwStep(s, t)
    case Sleep(t) =>
      s.(threads := s.threads[t := s.threads[t].(dropped := false, asleep := s.threads[t].chan != NoChan)])
    case Recheck(t) => RecheckStep(s, t)
    case Fetch => FetchStep(s)
    case Complete(h) => CompleteStep(s, h)
    case Intr => IntrStep(s)
    case Kill(t) => s.(threads := s.threads[t := s.threads[t].(asleep := false)])
  }

  /** The three descriptors as virtio_disk_rw() filled them in. */
  predicate Filled(q: Driver, b: nat, write: bool, blockno: nat, d: Three)
    requires Shape(q)
  {
    && Spread(d) && q.desc[d.d0] == Desc(Header(d.d0), 16, true, false, d.d1)
    && q.desc[d.d1] == Desc(Data(b), FsSpec.BSIZE, true, !write, d.d2) && q.desc[d.d2] == Desc(Status(d.d0), 1, false, true, 0)
    && q.info[d.d0].b == b && q.ops[d.d0] == Op(write, Sector(blockno))
  }

  predicate PhaseOk(s: State, pc: Pc)
    requires Sized(s) && pc.Fly? && pc.id < |s.at| && pc.d.d0 < NUM && pc.b < |s.bufs|
  {
    match pc.phase
    case Queued => s.fetched <= pc.id && s.q.avail[pc.id % NUM] == pc.d.d0 && s.at[pc.id] == -1
    case Taken => pc.id < s.fetched && pc.d.d0 in s.taken && s.at[pc.id] == -1
    case Reported(m) =>
      && pc.id < s.fetched && s.seen <= m < |s.served| && s.at[pc.id] == m && s.q.used[m % NUM] == pc.d.d0
      && s.q.info[pc.d.d0].status == 0
    case Seen(m) => pc.id < s.fetched && m < s.seen && s.at[pc.id] == m
  }

  predicate ThreadOk(s: State, t: nat)
    requires Sized(s) && t < |s.threads|
  {
    var pc := s.threads[t].pc;
    && (!pc.Idle? ==> pc.b < |s.bufs| && s.user[pc.b] == t)
    && (pc.Want? ==> !s.bufs[pc.b].busy)
    && (pc.Fly? ==>
          && Filled(s.q, pc.b, pc.write, s.bufs[pc.b].blockno, pc.d)
          && s.own[pc.d.d0] == s.own[pc.d.d1] == s.own[pc.d.d2] == t
          && pc.id < |s.submitted| && s.submitted[pc.id] == t && pc.id !in s.done
          && s.bufs[pc.b].busy == !pc.phase.Seen? && PhaseOk(s, pc))
  }

  predicate Served(pc: Pc) { pc.Fly? && (pc.phase.Reported? || pc.phase.Seen?) }

  /** What the device did for a request is what was asked for, and what the buffer holds. */
  predicate ResultOk(s: State, t: nat)
    requires Sized(s) && t < |s.threads|
  {
    var pc := s.threads[t].pc;
    && (pc.Fly? && pc.b < |s.bufs| && Served(pc) && pc.phase.m < |s.served| ==>
          s.served[pc.phase.m] == Event(pc.id, pc.write, Sector(s.bufs[pc.b].blockno), s.bufs[pc.b].data, s.bufs[pc.b].blockno))
    && (!pc.Idle? && pc.b < |s.bufs| ==>
          s.bufs[pc.b].blockno == pc.ask.blockno && (pc.write || !Served(pc) ==> s.bufs[pc.b].data == pc.ask.data))
  }

  /** Nobody waits for what is there. */
  predicate WaitOk(s: State, t: nat)
    requires Sized(s) && t < |s.threads|
  {
    var me := s.threads[t];
    && (me.asleep ==> me.chan != NoChan)
    && (me.asleep || me.dropped ==> !me.pc.Idle?)
    && ((me.asleep || me.dropped) && me.chan == OnFree ==> me.pc.Want? && Alloc3(s.q.free).None?)
    && ((me.asleep || me.dropped) && me.chan.OnBuf? ==> me.pc.Fly? && me.chan.b == me.pc.b < |s.bufs| && s.bufs[me.pc.b].busy)
  }

  predicate OwnOk(s: State, i: nat)
    requires Sized(s) && i < NUM
  {
    && (s.q.free[i] <==> s.own[i] == -1)
    && (!s.q.free[i] ==> 0 <= s.own[i] < |s.threads| && s.threads[s.own[i]].pc.Fly? && Has(s.threads[s.own[i]].pc.d, i))
  }

  predicate UserOk(s: State, b: nat)
    requires Sized(s) && b < |s.bufs|
  {
    if s.user[b] == -1 then !s.bufs[b].busy
    else 0 <= s.user[b] < |s.threads| && !s.threads[s.user[b]].pc.Idle? && s.threads[s.user[b]].pc.b == b
  }

  predicate TakenOk(s: State, h: nat)
    requires Sized(s)
  {
    && h < NUM && 0 <= s.own[h] < |s.threads| && s.threads[s.own[h]].pc.Fly?
    && s.threads[s.own[h]].pc.phase == Taken && s.threads[s.own[h]].pc.d.d0 == h
  }

  /** A request is done, or its caller is still in virtio_disk_rw() with it. */
  predicate IdOk(s: State, id: nat)
    requires Sized(s) && id < |s.submitted|
  {
    && -1 <= s.at[id] < |s.served| && (s.at[id] >= 0 ==> s.served[s.at[id]].id == id)
    && (if id in s.done then id < s.fetched && 0 <= s.at[id] < s.seen
        else s.submitted[id] < |s.threads| && s.threads[s.submitted[id]].pc.Fly? && s.threads[s.submitted[id]].pc.id == id)
  }

  predicate ServedOk(s: State, m: nat)
    requires Sized(s) && m < |s.served|
  {
    s.served[m].id < |s.submitted| && s.at[s.served[m].id] == m
  }

  predicate IndexOk(s: State)
    requires Sized(s)
  {
    && s.q.availIdx == |s.submitted| % IDX && s.devIdx == s.fetched % IDX
    && s.q.usedIdx == |s.served| % IDX && s.q.usedSeen == s.seen % IDX
  }

  predicate Inv(s: State) {
    && Sized(s) && IndexOk(s)
    && (forall t: nat :: t < |s.threads| ==> ThreadOk(s, t))
    && (forall i: nat :: i < NUM ==> OwnOk(s, i))
    && (forall b: nat :: b < |s.bufs| ==> UserOk(s, b))
    && (forall h: nat :: h in s.taken ==> TakenOk(s, h))
    && (forall id: nat :: id < |s.submitted| ==> IdOk(s, id))
    && (forall m: nat :: m < |s.served| ==> ServedOk(s, m))
    && (forall id: nat :: id in s.done ==> id < |s.submitted|)
  }

  /** Request id is submitted and its caller has not returned. */
  predicate InFlight(s: State, id: nat) { id < |s.submitted| && id !in s.done }

  lemma SizedAt(s: State)
    requires Inv(s)
    ensures Sized(s) && IndexOk(s)
  {
  }

  lemma FlightAt(s: State, id: nat)
    requires Inv(s) && InFlight(s, id)
    ensures s.submitted[id] < |s.threads| && s.threads[s.submitted[id]].pc.Fly? && s.threads[s.submitted[id]].pc.id == id
    ensures ThreadOk(s, s.submitted[id])
  {
    assert IdOk(s, id);
  }

  /** The descriptors of request id. */
  function DescOf(s: State, id: nat): Three
    requires Inv(s) && InFlight(s, id)
  {
    FlightAt(s, id);
    s.threads[s.submitted[id]].pc.d
  }

  lemma DescAt(s: State, id: nat)
    requires Inv(s) && InFlight(s, id)
    ensures var d := DescOf(s, id);
            && Spread(d) && !s.q.free[d.d0] && !s.q.free[d.d1] && !s.q.free[d.d2]
            && IdOf(s, d.d0) == IdOf(s, d.d1) == IdOf(s, d.d2) == id
  {
    FlightAt(s, id);
    var d := DescOf(s, id);
    assert OwnOk(s, d.d0) && OwnOk(s, d.d1) && OwnOk(s, d.d2);
  }

  predicate Distinct(ids: seq<nat>) { forall j: nat, k: nat :: j < k < |ids| ==> ids[j] != ids[k] }

  lemma AddThree(a: set<nat>, d: Three)
    requires Spread(d) && d.d0 !in a && d.d1 !in a && d.d2 !in a
    ensures |a + {d.d0, d.d1, d.d2}| == |a| + 3
  {
    assert a + {d.d0, d.d1, d.d2} == a + {d.d0} + {d.d1} + {d.d2};
  }

  predicate AllOf(s: State, a: set<nat>, ids: seq<nat>)
    requires Sized(s)
  {
    forall i: nat :: i in a ==> i < NUM && !s.q.free[i] && IdOf(s, i) in ids
  }

  lemma ThreeMore(s: State, a: set<nat>, rest: seq<nat>, id: nat)
    requires Inv(s) && AllOf(s, a, rest) && InFlight(s, id) && id !in rest
    ensures var d := DescOf(s, id);
            |a + {d.d0, d.d1, d.d2}| == |a| + 3 && AllOf(s, a + {d.d0, d.d1, d.d2}, [id] + rest)
  {
    hide Inv, InFlight, IdOf, DescOf;
    SizedAt(s);
    DescAt(s, id);
    AddThree(a, DescOf(s, id));
  }

  /** Requests in flight own three descriptors each, no two the same: a is the set of all of them. */
  lemma {:induction false} ThreeEach(s: State, ids: seq<nat>) returns (a: set<nat>)
    requires Inv(s) && Distinct(ids) && forall k: nat :: k < |ids| ==> InFlight(s, ids[k])
    ensures |a| == 3 * |ids| && AllOf(s, a, ids)
  {
    hide Inv, InFlight, IdOf, DescOf, Sized;
    SizedAt(s);
    a := {};
    if ids == [] {
      assert AllOf(s, a, ids);
    } else {
      var rest := ids[1..];
      assert forall k: nat :: k < |rest| ==> rest[k] == ids[k + 1];
      hide AllOf;
      a := ThreeEach(s, rest);
      ThreeMore(s, a, rest, ids[0]);
      var d := DescOf(s, ids[0]);
      a := a + {d.d0, d.d1, d.d2};
      assert ids == [ids[0]] + rest;
    }
  }

  lemma {:induction false} Below(a: set<nat>, n: nat)
    requires forall i: nat :: i in a ==> i < n
    ensures |a| <= n
    decreases n
  {
    if n == 0 {
      assert a == {};
    } else {
      Below(a - {n - 1}, n - 1);
      assert |a| <= |a - {n - 1}| + 1 by { assert a <= (a - {n - 1}) + {n - 1}; Subset(a, (a - {n - 1}) + {n - 1}); }
    }
  }

  /** At most two requests are in flight at a time. */
  lemma AtMostTwo(s: State, ids: seq<nat>)
    requires Inv(s) && Distinct(ids) && forall k: nat :: k < |ids| ==> InFlight(s, ids[k])
    ensures |ids| <= 2
  {
    var a := ThreeEach(s, ids);
    Below(a, NUM);
  }

  lemma QueuedAt(s: State, id: nat)
    requires Inv(s) && s.fetched <= id < |s.submitted|
    ensures InFlight(s, id) && s.submitted[id] < |s.threads| && s.threads[s.submitted[id]].pc.Fly?
    ensures s.threads[s.submitted[id]].pc.id == id && s.threads[s.submitted[id]].pc.phase == Queued
    ensures s.q.avail[id % NUM] == s.threads[s.submitted[id]].pc.d.d0
  {
    assert IdOk(s, id);
    FlightAt(s, id);
  }

  lemma ReportedAt(s: State, m: nat)
    requires Inv(s) && s.seen <= m < |s.served|
    ensures var id := s.served[m].id;
            && InFlight(s, id) && s.submitted[id] < |s.threads| && s.threads[s.submitted[id]].pc.Fly?
            && s.threads[s.submitted[id]].pc.id == id && s.threads[s.submitted[id]].pc.phase == Reported(m)
            && s.q.used[m % NUM] == s.threads[s.submitted[id]].pc.d.d0
  {
    assert ServedOk(s, m);
    var id := s.served[m].id;
    assert IdOk(s, id);
    FlightAt(s, id);
  }

  /** Neither ring holds more than two entries that the other side has not looked at. */
  lemma RingsNotOverrun(s: State)
    requires Inv(s)
    ensures |s.submitted| - s.fetched <= 2 && |s.served| - s.seen <= 2
  {
    hide Inv, InFlight;
    assert s.fetched <= |s.submitted| && s.seen <= |s.served| by { SizedAt(s); }
    var queued := seq<nat>(|s.submitted| - s.fetched, k requires 0 <= k => s.fetched + k);
    forall k: nat | k < |queued| ensures InFlight(s, queued[k]) { QueuedAt(s, s.fetched + k); }
    AtMostTwo(s, queued);
    var reported := seq<nat>(|s.served| - s.seen, k requires 0 <= k < |s.served| - s.seen => s.served[s.seen + k].id);
    forall k: nat | k < |reported| ensures InFlight(s, reported[k]) { ReportedAt(s, s.seen + k); }
    forall j: nat, k: nat | j < k < |reported| ensures reported[j] != reported[k] {
      ServedAt(s, s.seen + j);
      ServedAt(s, s.seen + k);
    }
    AtMostTwo(s, reported);
  }

  lemma ServedAt(s: State, m: nat)
    requires Inv(s) && m < |s.served|
    ensures ServedOk(s, m)
  {
  }

  lemma ThreadAt(s: State, t: nat)
    requires Inv(s) && t < |s.threads|
    ensures ThreadOk(s, t)
  {
  }

  lemma OwnAt(s: State, i: nat)
    requires Inv(s) && i < NUM
    ensures OwnOk(s, i)
  {
  }

  lemma UserAt(s: State, b: nat)
    requires Inv(s) && b < |s.bufs|
    ensures UserOk(s, b)
  {
  }

  lemma TakenAt(s: State, h: nat)
    requires Inv(s) && h in s.taken
    ensures TakenOk(s, h)
  {
  }

  lemma IdAt(s: State, id: nat)
    requires Inv(s) && id < |s.submitted|
    ensures IdOk(s, id)
  {
  }

  lemma DoneAt(s: State, id: nat)
    requires Inv(s) && id in s.done
    ensures id < |s.submitted|
  {
  }

  lemma FoldInv(s: State)
    requires Sized(s) && IndexOk(s)
    requires forall t: nat :: t < |s.threads| ==> ThreadOk(s, t)
    requires forall i: nat :: i < NUM ==> OwnOk(s, i)
    requires forall b: nat :: b < |s.bufs| ==> UserOk(s, b)
    requires forall h: nat :: h in s.taken ==> TakenOk(s, h)
    requires forall id: nat :: id < |s.submitted| ==> IdOk(s, id)
    requires forall m: nat :: m < |s.served| ==> ServedOk(s, m)
    requires forall id: nat :: id in s.done ==> id < |s.submitted|
    ensures Inv(s)
  {
  }

  /** Only channels and sleep change. */
  predicate SamePcs(ts: seq<Thread>, ts1: seq<Thread>) { |ts| == |ts1| && forall t: nat :: t < |ts| ==> ts1[t].pc == ts[t].pc }

  lemma SleepersKeepInv(s: State, s1: State)
    requires Inv(s) && s1 == s.(threads := s1.threads) && SamePcs(s.threads, s1.threads)
    ensures Inv(s1)
  {
    hide Inv;
    SizedAt(s);
    forall t: nat | t < |s1.threads| ensures ThreadOk(s1, t) { ThreadAt(s, t); }
    forall i: nat | i < NUM ensures OwnOk(s1, i) { OwnAt(s, i); }
    forall b: nat | b < |s1.bufs| ensures UserOk(s1, b) { UserAt(s, b); }
    forall h: nat | h in s1.taken ensures TakenOk(s1, h) { TakenAt(s, h); }
    forall id: nat | id < |s1.submitted| ensures IdOk(s1, id) { IdAt(s, id); }
    forall m: nat | m < |s1.served| ensures ServedOk(s1, m) { ServedAt(s, m); }
    forall id: nat | id in s1.done ensures id < |s1.submitted| { DoneAt(s, id); }
    FoldInv(s1);
  }

  lemma StartKeepsInv(s: State, t: nat, b: nat, write: bool, blockno: nat, data: Contents)
    requires Inv(s) && Enabled(s, Start(t, b, write, blockno, data))
    ensures Inv(StartStep(s, t, b, write, blockno, data))
  {
    hide Inv;
    SizedAt(s);
    var s1 := StartStep(s, t, b, write, blockno, data);
    forall u: nat | u < |s1.threads| ensures ThreadOk(s1, u) { ThreadAt(s, u); }
    forall i: nat | i < NUM ensures OwnOk(s1, i) { OwnAt(s, i); }
    forall c: nat | c < |s1.bufs| ensures UserOk(s1, c) { UserAt(s, c); }
    forall h: nat | h in s1.taken ensures TakenOk(s1, h) { TakenAt(s, h); }
    forall id: nat | id < |s1.submitted| ensures IdOk(s1, id) { IdAt(s, id); }
    forall m: nat | m < |s1.served| ensures ServedOk(s1, m) { ServedAt(s, m); }
    forall id: nat | id in s1.done ensures id < |s1.submitted| { DoneAt(s, id); }
    FoldInv(s1);
  }

  lemma OtherSlot(a: nat, b: nat)
    requires a < b < a + NUM
    ensures a % NUM != b % NUM
  {
  }

  lemma GaveBackKeepsInv(s: State)
    requires Inv(s)
    ensures Sized(s) && Inv(s.(q := GaveBack(s.q)))
  {
    hide Inv, FirstFree;
    SizedAt(s);
    var s1 := s.(q := GaveBack(s.q));
    hide GaveBack;
    forall t: nat | t < |s1.threads| ensures ThreadOk(s1, t) {
      ThreadAt(s, t);
      var pc := s.threads[t].pc;
      if pc.Fly? { OwnAt(s, pc.d.d0); OwnAt(s, pc.d.d1); OwnAt(s, pc.d.d2); }
    }
    forall i: nat | i < NUM ensures OwnOk(s1, i) { OwnAt(s, i); }
    forall b: nat | b < |s1.bufs| ensures UserOk(s1, b) { UserAt(s, b); }
    forall h: nat | h in s1.taken ensures TakenOk(s1, h) { TakenAt(s, h); }
    forall id: nat | id < |s1.submitted| ensures IdOk(s1, id) { IdAt(s, id); }
    forall m: nat | m < |s1.served| ensures ServedOk(s1, m) { ServedAt(s, m); }
    forall id: nat | id in s1.done ensures id < |s1.submitted| { DoneAt(s, id); }
    FoldInv(s1);
  }

  predicate CanSubmit(s: State, t: nat, d: Three) {
    Inv(s) && Enabled(s, Rw(t)) && Spread(d) && s.q.free[d.d0] && s.q.free[d.d1] && s.q.free[d.d2]
  }

  lemma SubmittedMine(s: State, t: nat, d: Three)
    requires CanSubmit(s, t, d)
    ensures Sized(Submitted(s, t, d)) && ThreadOk(Submitted(s, t, d), t)
  {
    hide Inv;
    SizedAt(s);
    SameEntry(|s.submitted|);
    ThreadAt(s, t);
    DoneHere(s, |s.submitted|);
  }

  lemma SubmittedOther(s: State, t: nat, d: Three, u: nat)
    requires CanSubmit(s, t, d) && u < |s.threads| && u != t
    ensures Sized(Submitted(s, t, d)) && ThreadOk(Submitted(s, t, d), u)
  {
    hide Inv;
    SizedAt(s);
    RingsNotOverrun(s);
    SameEntry(|s.submitted|);
    ThreadAt(s, t);
    ThreadAt(s, u);
    var pc := s.threads[u].pc;
    if pc.Fly? {
      OwnAt(s, pc.d.d0);
      OwnAt(s, pc.d.d1);
      OwnAt(s, pc.d.d2);
      if pc.phase.Queued? { OtherSlot(pc.id, |s.submitted|); }
    }
  }

  lemma SubmittedRest(s: State, t: nat, d: Three)
    requires CanSubmit(s, t, d)
    ensures var s1 := Submitted(s, t, d);
            && Sized(s1) && IndexOk(s1)
            && (forall i: nat :: i < NUM ==> OwnOk(s1, i))
            && (forall b: nat :: b < |s1.bufs| ==> UserOk(s1, b))
  {
    hide Inv;
    SizedAt(s);
    var s1 := Submitted(s, t, d);
    forall i: nat | i < NUM ensures OwnOk(s1, i) { OwnAt(s, i); }
    forall b: nat | b < |s1.bufs| ensures UserOk(s1, b) { UserAt(s, b); ThreadAt(s, t); }
  }

  lemma SubmittedTaken(s: State, t: nat, d: Three, h: nat)
    requires CanSubmit(s, t, d) && h in s.taken
    ensures Sized(Submitted(s, t, d)) && TakenOk(Submitted(s, t, d), h)
  {
    hide Inv;
    SizedAt(s);
    TakenAt(s, h);
    OwnAt(s, h);
  }

  lemma SubmittedKeepsInv(s: State, t: nat, d: Three)
    requires CanSubmit(s, t, d)
    ensures Inv(Submitted(s, t, d))
  {
    hide Inv, ThreadOk, OwnOk, UserOk, TakenOk, IndexOk;
    SizedAt(s);
    SubmittedRest(s, t, d);
    var s1 := Submitted(s, t, d);
    forall u: nat | u < |s1.threads| ensures ThreadOk(s1, u) {
      if u == t { SubmittedMine(s, t, d); } else { SubmittedOther(s, t, d, u); }
    }
    forall h: nat | h in s1.taken ensures TakenOk(s1, h) { SubmittedTaken(s, t, d, h); }
    forall id: nat | id < |s1.submitted| ensures IdOk(s1, id) { if id < |s.submitted| { IdAt(s, id); } DoneHere(s, id); }
    forall m: nat | m < |s1.served| ensures ServedOk(s1, m) { ServedAt(s, m); }
    forall id: nat | id in s1.done ensures id < |s1.submitted| { DoneAt(s, id); }
    FoldInv(s1);
  }

  lemma RwKeepsInv(s: State, t: nat)
    requires Inv(s) && Enabled(s, Rw(t))
    ensures Inv(RwStep(s, t))
  {
    hide Inv, Alloc3, GaveBack;
    SizedAt(s);
    match Alloc3(s.q.free)
    case None =>
      GaveBackKeepsInv(s);
      SleepersKeepInv(s.(q := GaveBack(s.q)), Refused(s, t));
    case Some(d) => SubmittedKeepsInv(s, t, d);
  }

  lemma DoneHere(s: State, id: nat)
    requires Inv(s)
    ensures id in s.done ==> id < |s.submitted|
  {
  }

  /** What Recheck does when the request has been seen. */
  predicate CanReturn(s: State, t: nat) {
    Inv(s) && Enabled(s, Recheck(t)) && !s.bufs[s.threads[t].pc.b].busy
  }

  lemma ReturnThread(s: State, t: nat, u: nat)
    requires CanReturn(s, t) && u < |s.threads|
    ensures Sized(RecheckStep(s, t)) && ThreadOk(RecheckStep(s, t), u)
  {
    hide Inv;
    SizedAt(s);
    ThreadAt(s, t);
    ThreadAt(s, u);
  }

  lemma ReturnRest(s: State, t: nat)
    requires CanReturn(s, t)
    ensures var s1 := RecheckStep(s, t);
            && Sized(s1) && IndexOk(s1)
            && (forall i: nat :: i < NUM ==> OwnOk(s1, i))
            && (forall b: nat :: b < |s1.bufs| ==> UserOk(s1, b))
            && (forall h: nat :: h in s1.taken ==> TakenOk(s1, h))
  {
    hide Inv;
    SizedAt(s);
    ThreadAt(s, t);
    var s1 := RecheckStep(s, t);
    forall i: nat | i < NUM ensures OwnOk(s1, i) { OwnAt(s, i); }
    forall b: nat | b < |s1.bufs| ensures UserOk(s1, b) { UserAt(s, b); }
    forall h: nat | h in s1.taken ensures TakenOk(s1, h) { TakenAt(s, h); OwnAt(s, h); }
  }

  lemma ReturnKeepsInv(s: State, t: nat)
    requires CanReturn(s, t)
    ensures Inv(RecheckStep(s, t))
  {
    hide Inv, OwnOk, UserOk, TakenOk, IndexOk;
    SizedAt(s);
    ReturnRest(s, t);
    ThreadAt(s, t);
    var s1 := RecheckStep(s, t);
    forall id: nat | id < |s1.submitted| ensures IdOk(s1, id) { IdAt(s, id); }
    hide ThreadOk;
    forall u: nat | u < |s1.threads| ensures ThreadOk(s1, u) { ReturnThread(s, t, u); }
    forall m: nat | m < |s1.served| ensures ServedOk(s1, m) { ServedAt(s, m); }
    forall id: nat | id in s1.done ensures id < |s1.submitted| { DoneHere(s, id); }
    FoldInv(s1);
  }

  lemma IndexBehind(a: nat, b: nat)
    requires a <= b < a + IDX
    ensures a % IDX == b % IDX <==> a == b
  {
  }

  /** The device's next available entry is the head of the oldest request it has not fetched. */
  lemma FetchFinds(s: State)
    requires Inv(s) && Enabled(s, Fetch)
    ensures s.fetched < |s.submitted| && s.submitted[s.fetched] < |s.threads|
    ensures var pc := s.threads[s.submitted[s.fetched]].pc;
            pc.Fly? && pc.id == s.fetched && pc.phase == Queued && s.q.avail[s.devIdx % NUM] == pc.d.d0
  {
    hide Inv;
    SizedAt(s);
    RingsNotOverrun(s);
    IndexBehind(s.fetched, |s.submitted|);
    SameEntry(s.fetched);
    QueuedAt(s, s.fetched);
  }

  lemma FetchThread(s: State, u: nat)
    requires Inv(s) && Enabled(s, Fetch) && u < |s.threads|
    ensures Sized(FetchStep(s)) && |FetchStep(s).threads| == |s.threads| && ThreadOk(FetchStep(s), u)
  {
    hide Inv;
    SizedAt(s);
    FetchFinds(s);
    ThreadAt(s, s.submitted[s.fetched]);
    ThreadAt(s, u);
  }

  lemma FetchRest(s: State)
    requires Inv(s) && Enabled(s, Fetch)
    ensures var s1 := FetchStep(s);
            && Sized(s1)
            && (forall i: nat :: i < NUM ==> OwnOk(s1, i))
            && (forall b: nat :: b < |s1.bufs| ==> UserOk(s1, b))
            && (forall h: nat :: h in s1.taken ==> TakenOk(s1, h))
  {
    hide Inv;
    SizedAt(s);
    FetchFinds(s);
    ThreadAt(s, s.submitted[s.fetched]);
    var s1 := FetchStep(s);
    forall i: nat | i < NUM ensures OwnOk(s1, i) { OwnAt(s, i); }
    forall b: nat | b < |s1.bufs| ensures UserOk(s1, b) { UserAt(s, b); }
    forall h: nat | h in s1.taken ensures TakenOk(s1, h) { if h in s.taken { TakenAt(s, h); } }
  }

  lemma FetchKeepsInv(s: State)
    requires Inv(s) && Enabled(s, Fetch)
    ensures Inv(FetchStep(s))
  {
    hide Inv, ThreadOk, OwnOk, UserOk, TakenOk;
    SizedAt(s);
    FetchFinds(s);
    FetchRest(s);
    var s1 := FetchStep(s);
    forall u: nat | u < |s1.threads| ensures ThreadOk(s1, u) { FetchThread(s, u); }
    forall id: nat | id < |s1.submitted| ensures IdOk(s1, id) { IdAt(s, id); }
    forall m: nat | m < |s1.served| ensures ServedOk(s1, m) { ServedAt(s, m); }
    forall id: nat | id in s1.done ensures id < |s1.submitted| { DoneAt(s, id); }
    FoldInv(s1);
  }

  /** The device finds the command and the buffer of the process that submitted the chain. */
  lemma DeviceFinds(s: State, h: nat)
    requires Inv(s) && h in s.taken
    ensures h < NUM && 0 <= s.own[h] < |s.threads|
    ensures var pc := s.threads[s.own[h]].pc;
            && pc.Fly? && pc.phase == Taken && pc.d.d0 == h && pc.b < |s.bufs| && pc.id < |s.at| && IdOf(s, h) == pc.id
            && Follow(s.q, |s.bufs|, h) == Some(Access(Op(pc.write, Sector(s.bufs[pc.b].blockno)), pc.b, h))
  {
    hide Inv;
    SizedAt(s);
    TakenAt(s, h);
    ThreadAt(s, s.own[h]);
  }

  lemma CompleteThread(s: State, h: nat, u: nat)
    requires Inv(s) && Enabled(s, Complete(h)) && u < |s.threads|
    ensures Sized(CompleteStep(s, h)) && |CompleteStep(s, h).threads| == |s.threads| && ThreadOk(CompleteStep(s, h), u)
  {
    hide Inv, Follow, Block, Store, Sector;
    SizedAt(s);
    RingsNotOverrun(s);
    DeviceFinds(s, h);
    SameEntry(|s.served|);
    ThreadAt(s, s.own[h]);
    ThreadAt(s, u);
    var pc := s.threads[u].pc;
    if pc.Fly? && pc.phase.Reported? { OtherSlot(pc.phase.m, |s.served|); }
    if pc.Fly? { IdAt(s, pc.id); }
  }

  lemma CompleteRest(s: State, h: nat)
    requires Inv(s) && Enabled(s, Complete(h))
    ensures var s1 := CompleteStep(s, h);
            && Sized(s1) && IndexOk(s1)
            && (forall i: nat :: i < NUM ==> OwnOk(s1, i))
            && (forall b: nat :: b < |s1.bufs| ==> UserOk(s1, b))
            && (forall g: nat :: g in s1.taken ==> TakenOk(s1, g))
  {
    hide Inv, Follow, Block, Store, Sector, Filled;
    SizedAt(s);
    DeviceFinds(s, h);
    ThreadAt(s, s.own[h]);
    var s1 := CompleteStep(s, h);
    forall i: nat | i < NUM ensures OwnOk(s1, i) { OwnAt(s, i); }
    forall b: nat | b < |s1.bufs| ensures UserOk(s1, b) { UserAt(s, b); }
    forall g: nat | g in s1.taken ensures TakenOk(s1, g) { TakenAt(s, g); }
  }

  lemma CompleteIds(s: State, h: nat)
    requires Inv(s) && Enabled(s, Complete(h))
    ensures var s1 := CompleteStep(s, h);
            && Sized(s1)
            && (forall id: nat :: id < |s1.submitted| ==> IdOk(s1, id))
            && (forall m: nat :: m < |s1.served| ==> ServedOk(s1, m))
  {
    hide Inv, Follow, Block, Store, Sector;
    SizedAt(s);
    DeviceFinds(s, h);
    ThreadAt(s, s.own[h]);
    var s1 := CompleteStep(s, h);
    forall id: nat | id < |s1.submitted| ensures IdOk(s1, id) { IdAt(s, id); }
    forall m: nat | m < |s1.served| ensures ServedOk(s1, m) { if m < |s.served| { ServedAt(s, m); } }
  }

  lemma CompleteKeepsInv(s: State, h: nat)
    requires Inv(s) && Enabled(s, Complete(h))
    ensures Inv(CompleteStep(s, h))
  {
    hide Inv, ThreadOk, OwnOk, UserOk, TakenOk, IdOk, ServedOk, IndexOk, Follow;
    SizedAt(s);
    CompleteRest(s, h);
    CompleteIds(s, h);
    var s1 := CompleteStep(s, h);
    forall u: nat | u < |s1.threads| ensures ThreadOk(s1, u) { CompleteThread(s, h, u); }
    forall id: nat | id in s1.done ensures id < |s1.submitted| { DoneAt(s, id); }
    FoldInv(s1);
  }

  /** Every entry that the handler looks at is that of a request in flight, with status 0 and its own
      buffer, which is still marked as with the disk: the panic is not reached and no write is stray. */
  lemma IntrFinds(s: State)
    requires Inv(s) && Enabled(s, Intr)
    ensures s.seen < |s.served| && EntryOk(s.q, |s.bufs|, s.q.usedSeen)
    ensures var h := s.q.used[s.q.usedSeen % NUM];
            && h < NUM && 0 <= s.own[h] < |s.threads| && s.threads[s.own[h]].pc.Fly? && s.threads[s.own[h]].pc.b < |s.bufs|
            && s.threads[s.own[h]].pc.phase == Reported(s.seen) && s.threads[s.own[h]].pc.d.d0 == h
            && EntryBuf(s.q, s.q.usedSeen) == s.threads[s.own[h]].pc.b && s.bufs[s.threads[s.own[h]].pc.b].busy
  {
    hide Inv;
    SizedAt(s);
    RingsNotOverrun(s);
    IndexBehind(s.seen, |s.served|);
    SameEntry(s.seen);
    ReportedAt(s, s.seen);
    ThreadAt(s, s.submitted[s.served[s.seen].id]);
  }

  lemma IntrThread(s: State, u: nat)
    requires Inv(s) && Enabled(s, Intr) && u < |s.threads|
    ensures Sized(IntrStep(s)) && |IntrStep(s).threads| == |s.threads| && ThreadOk(IntrStep(s), u)
  {
    hide Inv, EntryOk, EntryBuf;
    SizedAt(s);
    IntrFinds(s);
    var t := s.own[s.q.used[s.q.usedSeen % NUM]];
    ThreadAt(s, t);
    ThreadAt(s, u);
    var pc := s.threads[u].pc;
    if pc.Fly? && pc.phase.Reported? { IdAt(s, pc.id); }
  }

  lemma IntrOwn(s: State, i: nat)
    requires Inv(s) && Enabled(s, Intr) && i < NUM
    ensures Sized(IntrStep(s)) && OwnOk(IntrStep(s), i)
  {
    hide Inv, EntryOk, EntryBuf;
    SizedAt(s);
    IntrFinds(s);
    OwnAt(s, i);
  }

  lemma IntrUser(s: State, b: nat)
    requires Inv(s) && Enabled(s, Intr) && b < |IntrStep(s).bufs|
    ensures Sized(IntrStep(s)) && UserOk(IntrStep(s), b)
  {
    hide Inv, EntryOk, EntryBuf;
    SizedAt(s);
    IntrFinds(s);
    UserAt(s, b);
  }

  lemma IntrRest(s: State)
    requires Inv(s) && Enabled(s, Intr)
    ensures var s1 := IntrStep(s);
            && Sized(s1) && IndexOk(s1)
            && (forall i: nat :: i < NUM ==> OwnOk(s1, i))
            && (forall b: nat :: b < |s1.bufs| ==> UserOk(s1, b))
  {
    hide Inv, EntryOk, EntryBuf, OwnOk, UserOk;
    SizedAt(s);
    IntrFinds(s);
    var s1 := IntrStep(s);
    forall i: nat | i < NUM ensures OwnOk(s1, i) { IntrOwn(s, i); }
    forall b: nat | b < |s1.bufs| ensures UserOk(s1, b) { IntrUser(s, b); }
  }

  lemma IntrKeepsInv(s: State)
    requires Inv(s) && Enabled(s, Intr)
    ensures Inv(IntrStep(s))
  {
    hide Inv, ThreadOk, EntryOk, EntryBuf, OwnOk, UserOk, IndexOk;
    SizedAt(s);
    IntrFinds(s);
    IntrRest(s);
    var s1 := IntrStep(s);
    forall u: nat | u < |s1.threads| ensures ThreadOk(s1, u) { IntrThread(s, u); }
    forall h: nat | h in s1.taken ensures TakenOk(s1, h) { TakenAt(s, h); }
    forall id: nat | id < |s1.submitted| ensures IdOk(s1, id) { IdAt(s, id); }
    forall m: nat | m < |s1.served| ensures ServedOk(s1, m) { ServedAt(s, m); }
    forall id: nat | id in s1.done ensures id < |s1.submitted| { DoneAt(s, id); }
    FoldInv(s1);
  }

  lemma StepKeepsInv(s: State, e: Step)
    requires Inv(s) && Enabled(s, e)
    ensures Inv(Apply(s, e))
  {
    hide Inv, StartStep, RwStep, FetchStep, CompleteStep, IntrStep;
    SizedAt(s);
    match e
    case Start(t, b, write, blockno, data) => StartKeepsInv(s, t, b, write, blockno, data);
    case Rw(t) => RwKeepsInv(s, t);
    case Sleep(t) => SleepersKeepInv(s, Apply(s, e));
    case Recheck(t) =>
      if s.bufs[s.threads[t].pc.b].busy { SleepersKeepInv(s, RecheckStep(s, t)); } else { ReturnKeepsInv(s, t); }
    case Fetch => FetchKeepsInv(s);
    case Complete(h) => CompleteKeepsInv(s, h);
    case Intr => IntrKeepsInv(s);
    case Kill(t) => SleepersKeepInv(s, Apply(s, e));
  }

  /** A disk that serves one event after the other. */
  function Replay(disk: map<nat, int>, events: seq<Event>): map<nat, int> {
    if events == [] then disk else
    var before := Replay(disk, events[..|events| - 1]);
    var e := events[|events| - 1];
    if e.write then Store(before, e.sector, e.data) else before
  }

  /** The disk is what the events served one by one make of it, and a read got what was there. */
  predicate DiskOk(s: State, disk0: map<nat, int>) {
    && s.disk == Replay(disk0, s.served)
    && (forall m: nat :: m < |s.served| && !s.served[m].write ==>
          s.served[m].data == Block(Replay(disk0, s.served[..m]), s.served[m].sector))
    && (forall m: nat :: m < |s.served| ==> s.served[m].sector == Sector(s.served[m].blockno))
  }

  lemma OnlyCompleteServes(s: State, e: Step)
    requires Inv(s) && Enabled(s, e) && !e.Complete?
    ensures Apply(s, e).disk == s.disk && Apply(s, e).served == s.served
  {
    hide Inv, Alloc3, GaveBack, EntryOk, EntryBuf, Format, Publish, Freed, Woken, Mark;
  }

  lemma CompleteServes(s: State, h: nat, disk0: map<nat, int>)
    requires Inv(s) && Enabled(s, Complete(h)) && DiskOk(s, disk0)
    ensures DiskOk(CompleteStep(s, h), disk0)
  {
    hide Inv, Follow, Block, Store, Sector;
    SizedAt(s);
    DeviceFinds(s, h);
    var s1 := CompleteStep(s, h);
    var n := |s.served|;
    assert s1.served[..n] == s.served;
    forall m: nat | m < |s1.served| && !s1.served[m].write
      ensures s1.served[m].data == Block(Replay(disk0, s1.served[..m]), s1.served[m].sector)
    {
      if m < n { assert s1.served[..m] == s.served[..m]; }
    }
  }

  lemma DiskStep(s: State, e: Step, disk0: map<nat, int>)
    requires Inv(s) && Enabled(s, e) && DiskOk(s, disk0)
    ensures DiskOk(Apply(s, e), disk0)
  {
    if e.Complete? { CompleteServes(s, e.h, disk0); } else { OnlyCompleteServes(s, e); }
  }

  /** What a step must find of process u to keep it. */
  predicate Waits(s: State, u: nat) { Inv(s) && u < |s.threads| && WaitOk(s, u) && ResultOk(s, u) }

  lemma StartWaits(s: State, t: nat, b: nat, write: bool, blockno: nat, data: Contents, u: nat)
    requires Waits(s, u) && Enabled(s, Start(t, b, write, blockno, data))
    ensures var s1 := StartStep(s, t, b, write, blockno, data);
            Sized(s1) && u < |s1.threads| && WaitOk(s1, u) && ResultOk(s1, u)
  {
    hide Inv, Alloc3, Filled;
    SizedAt(s);
    ThreadAt(s, u);
  }

  lemma RefusedWaits(s: State, t: nat, u: nat)
    requires Waits(s, u) && Enabled(s, Rw(t)) && Alloc3(s.q.free).None?
    ensures var s1 := Refused(s, t);
            Sized(s1) && u < |s1.threads| && WaitOk(s1, u) && ResultOk(s1, u)
  {
    hide Inv, Alloc3, GaveBack, FirstFree;
    SizedAt(s);
  }

  lemma SubmittedWaits(s: State, t: nat, d: Three, u: nat)
    requires Waits(s, u) && Enabled(s, Rw(t)) && Alloc3(s.q.free) == Some(d)
    ensures var s1 := Submitted(s, t, d);
            Sized(s1) && u < |s1.threads| && WaitOk(s1, u) && ResultOk(s1, u)
  {
    hide Inv, Alloc3, Filled;
    SizedAt(s);
    ThreadAt(s, t);
    ThreadAt(s, u);
  }

  lemma ReturnWaits(s: State, t: nat, u: nat)
    requires Waits(s, u) && Enabled(s, Recheck(t))
    ensures var s1 := RecheckStep(s, t);
            Sized(s1) && u < |s1.threads| && WaitOk(s1, u) && ResultOk(s1, u)
  {
    hide Inv, Alloc3, Filled;
    SizedAt(s);
    ThreadAt(s, u);
  }

  lemma FetchWaits(s: State, u: nat)
    requires Waits(s, u) && Enabled(s, Fetch)
    ensures var s1 := FetchStep(s);
            Sized(s1) && u < |s1.threads| && WaitOk(s1, u) && ResultOk(s1, u)
  {
    hide Inv, Alloc3, Filled;
    SizedAt(s);
    FetchFinds(s);
  }

  lemma CompleteWaits(s: State, h: nat, u: nat)
    requires Waits(s, u) && Enabled(s, Complete(h))
    ensures var s1 := CompleteStep(s, h);
            Sized(s1) && u < |s1.threads| && WaitOk(s1, u) && ResultOk(s1, u)
  {
    hide Inv, Alloc3, Filled, Follow;
    SizedAt(s);
    DeviceFinds(s, h);
    ThreadAt(s, u);
    ThreadAt(s, s.own[h]);
  }

  lemma IntrWaits(s: State, u: nat)
    requires Waits(s, u) && Enabled(s, Intr)
    ensures var s1 := IntrStep(s);
            Sized(s1) && u < |s1.threads| && WaitOk(s1, u) && ResultOk(s1, u)
  {
    hide Inv, Alloc3, Filled, EntryOk, EntryBuf;
    SizedAt(s);
    IntrFinds(s);
    ThreadAt(s, u);
    ThreadAt(s, s.own[s.q.used[s.q.usedSeen % NUM]]);
  }

  lemma StepWaits(s: State, e: Step, u: nat)
    requires Waits(s, u) && Enabled(s, e)
    ensures var s1 := Apply(s, e);
            Sized(s1) && u < |s1.threads| && WaitOk(s1, u) && ResultOk(s1, u)
  {
    hide Inv, Alloc3, StartStep, Refused, Submitted, RecheckStep, FetchStep, CompleteStep, IntrStep;
    SizedAt(s);
    match e
    case Start(t, b, write, blockno, data) => StartWaits(s, t, b, write, blockno, data, u);
    case Rw(t) => if Alloc3(s.q.free).None? { RefusedWaits(s, t, u); } else { SubmittedWaits(s, t, Alloc3(s.q.free).value, u); }
    case Sleep(t) =>
    case Recheck(t) => ReturnWaits(s, t, u);
    case Fetch => FetchWaits(s, u);
    case Complete(h) => CompleteWaits(s, h, u);
    case Intr => IntrWaits(s, u);
    case Kill(t) =>
  }

  /** All that every step keeps, on a disk that held disk0 at first. */
  ghost predicate All(s: State, disk0: map<nat, int>) {
    Inv(s) && DiskOk(s, disk0) && forall t: nat :: t < |s.threads| ==> Waits(s, t)
  }

  ghost predicate Init(s: State) {
    && Sized(s) && s.submitted == [] && s.served == [] && s.done == {} && s.taken == {}
    && s.q.availIdx == s.q.usedIdx == s.q.usedSeen == s.devIdx == 0
    && (forall i: nat :: i < NUM ==> s.q.free[i] && s.own[i] == -1)
    && (forall b: nat :: b < |s.bufs| ==> !s.bufs[b].busy && s.user[b] == -1)
    && (forall t: nat :: t < |s.threads| ==> s.threads[t] == Thread(Idle, NoChan, false, false))
  }

  lemma InitAll(s: State)
    requires Init(s)
    ensures All(s, s.disk)
  {
  }

  lemma StepKeepsAll(s: State, e: Step, disk0: map<nat, int>)
    requires All(s, disk0) && Enabled(s, e)
    ensures All(Apply(s, e), disk0)
  {
    hide Inv, DiskOk, Apply;
    SizedAt(s);
    StepKeepsInv(s, e);
    DiskStep(s, e, disk0);
    var s1 := Apply(s, e);
    forall t: nat | t < |s1.threads| ensures Waits(s1, t) { SameThreads(s, e); StepWaits(s, e, t); }
  }

  lemma SameThreads(s: State, e: Step)
    requires Inv(s) && Enabled(s, e)
    ensures |Apply(s, e).threads| == |s.threads|
  {
    hide Inv, Alloc3, GaveBack, EntryOk, EntryBuf, Format, Publish, Freed, Follow;
  }

  ghost predicate RunOk(s: State, es: seq<Step>, disk0: map<nat, int>)
    requires All(s, disk0)
    decreases es
  {
    es != [] ==> Enabled(s, es[0]) && (StepKeepsAll(s, es[0], disk0); RunOk(Apply(s, es[0]), es[1..], disk0))
  }

  ghost function After(s: State, es: seq<Step>, disk0: map<nat, int>): (r: State)
    requires All(s, disk0) && RunOk(s, es, disk0)
    ensures All(r, disk0)
    decreases es
  {
    if es == [] then s else StepKeepsAll(s, es[0], disk0); After(Apply(s, es[0]), es[1..], disk0)
  }

  /** A descriptor is free, or one of the three of one request in flight and of no other. */
  lemma DescriptorsOwned(s: State, i: nat)
    requires Inv(s) && i < NUM
    ensures s.q.free[i] <==> forall id: nat :: InFlight(s, id) ==> !Has(DescOf(s, id), i)
    ensures forall a: nat, b: nat :: InFlight(s, a) && InFlight(s, b) && Has(DescOf(s, a), i) && Has(DescOf(s, b), i) ==> a == b
  {
    hide Inv, InFlight, DescOf, IdOf;
    SizedAt(s);
    forall a: nat, b: nat | InFlight(s, a) && InFlight(s, b) && Has(DescOf(s, a), i) && Has(DescOf(s, b), i) ensures a == b {
      DescAt(s, a);
      DescAt(s, b);
    }
    forall id: nat | InFlight(s, id) && Has(DescOf(s, id), i) ensures !s.q.free[i] { DescAt(s, id); }
    if !s.q.free[i] { OwnerFlies(s, i); }
  }

  lemma OwnerFlies(s: State, i: nat)
    requires Inv(s) && i < NUM && !s.q.free[i]
    ensures exists id: nat :: InFlight(s, id) && Has(DescOf(s, id), i)
  {
    OwnAt(s, i);
    ThreadAt(s, s.own[i]);
    var id := s.threads[s.own[i]].pc.id;
    assert InFlight(s, id) && DescOf(s, id) == s.threads[s.own[i]].pc.d;
  }

  /** No request is served twice; a request whose caller has returned was served, and every other one
      still has its caller. */
  lemma ExactlyOnce(s: State, id: nat)
    requires Inv(s) && id < |s.submitted|
    ensures forall m: nat, n: nat :: m < |s.served| && n < |s.served| && s.served[m].id == s.served[n].id ==> m == n
    ensures id in s.done ==> exists m: nat :: m < s.seen && s.served[m].id == id
    ensures id !in s.done ==> s.submitted[id] < |s.threads| && s.threads[s.submitted[id]].pc.Fly?
                              && s.threads[s.submitted[id]].pc.id == id
  {
    hide Inv;
    SizedAt(s);
    IdAt(s, id);
    if id in s.done { assert s.at[id] < s.seen && s.served[s.at[id]].id == id; }
    forall m: nat, n: nat | m < |s.served| && n < |s.served| && s.served[m].id == s.served[n].id ensures m == n {
      ServedAt(s, m);
      ServedAt(s, n);
    }
  }

  /** Two blocks that cannot be told apart by their sectors: the product is cut to 32 bits. */
  predicate SamePlace(b: nat, c: nat) { b % 0x8000_0000 == c % 0x8000_0000 }

  /** Blocks share a sector exactly if their numbers are the same below 2^31, and then all. */
  lemma SectorsMeet(b: nat, c: nat)
    ensures SamePlace(b, c) ==> Sector(b) == Sector(c)
    ensures !SamePlace(b, c) ==> Sector(b) + SECTORS <= Sector(c) || Sector(c) + SECTORS <= Sector(b)
  {
    hide Sector;
    SectorIs(b);
    SectorIs(c);
  }

  lemma SectorIs(b: nat)
    ensures Sector(b) == 2 * (b % 0x8000_0000)
  {
  }

  /** What block b holds after these events: the data of the last write to it, or what it held at first. */
  function LastWritten(first: Contents, events: seq<Event>, b: nat): Contents {
    if events == [] then first
    else
      var e := events[|events| - 1];
      if e.write && SamePlace(e.blockno, b) then e.data else LastWritten(first, events[..|events| - 1], b)
  }

  /** What is served for other blocks does not matter for block b. */
  lemma {:induction false} ReplayBlock(disk0: map<nat, int>, events: seq<Event>, b: nat)
    requires forall m: nat :: m < |events| ==> events[m].sector == Sector(events[m].blockno)
    ensures Block(Replay(disk0, events), Sector(b)) == LastWritten(Block(disk0, Sector(b)), events, b)
  {
    if events != [] {
      var e := events[|events| - 1];
      ReplayBlock(disk0, events[..|events| - 1], b);
      SectorsMeet(e.blockno, b);
      if e.write { StoreBlock(Replay(disk0, events[..|events| - 1]), e.sector, e.data, Sector(b)); }
    }
  }

  lemma StoreBlock(disk: map<nat, int>, sector: nat, data: Contents, other: nat)
    ensures other == sector ==> Block(Store(disk, sector, data), other) == data
    ensures sector + SECTORS <= other || other + SECTORS <= sector ==> Block(Store(disk, sector, data), other) == Block(disk, other)
  {
  }

  /** virtio_disk_rw() returns when the device has served the request, once. A write has put the caller's data into the block
      the caller asked for; after a read the buffer holds what the last write served for that block put there, or what it held
      at first, whatever was served for other blocks. */
  lemma CallerIsServed(s: State, t: nat, disk0: map<nat, int>)
    requires All(s, disk0) && Enabled(s, Recheck(t)) && !s.bufs[s.threads[t].pc.b].busy
    ensures var pc := s.threads[t].pc;
            var b := pc.ask.blockno;
            exists m: nat :: m < |s.served| && s.served[m].id == pc.id && s.served[m].write == pc.write && s.served[m].blockno == b
              && s.served[m].data == s.bufs[pc.b].data
              && s.bufs[pc.b].data == (if pc.write then pc.ask.data else LastWritten(Block(disk0, Sector(b)), s.served[..m], b))
  {
    hide Inv, Filled;
    SizedAt(s);
    ThreadAt(s, t);
    assert Waits(s, t);
    var pc := s.threads[t].pc;
    var m := pc.phase.m;
    assert s.served[m] == Event(pc.id, pc.write, Sector(s.bufs[pc.b].blockno), s.bufs[pc.b].data, s.bufs[pc.b].blockno);
    ReplayBlock(disk0, s.served[..m], pc.ask.blockno);
  }

  /** The disk itself, block by block. */
  lemma DiskByBlocks(s: State, disk0: map<nat, int>, b: nat)
    requires All(s, disk0)
    ensures Block(s.disk, Sector(b)) == LastWritten(Block(disk0, Sector(b)), s.served, b)
  {
    ReplayBlock(disk0, s.served, b);
  }

  /** A round of the interrupt handler ends exactly one wait: that for the buffer of the next request that the device reported. */
  lemma IntrEndsWait(s: State) returns (t: nat)
    requires Inv(s) && Enabled(s, Intr)
    ensures var s1 := IntrStep(s);
            && s.q.used[s.q.usedSeen % NUM] < NUM && t == s.own[s.q.used[s.q.usedSeen % NUM]] && t < |s.threads| == |s1.threads| && s.threads[t].pc.Fly? && s.threads[t].pc.b < |s.bufs| == |s1.bufs|
            && s1.threads[t].pc == s.threads[t].pc.(phase := Seen(s.seen)) && s1.seen == s.seen + 1
            && s1.bufs == s.bufs[s.threads[t].pc.b := s.bufs[s.threads[t].pc.b].(busy := false)]
            && (forall u: nat :: u < |s.threads| && s.threads[u].chan == OnBuf(s.threads[t].pc.b) ==> s1.threads[u].chan == NoChan && !s1.threads[u].asleep)
            && (forall u: nat :: u < |s.threads| && u != t && s.threads[u].chan != OnBuf(s.threads[t].pc.b) ==> s1.threads[u] == s.threads[u])
  {
    hide Inv, EntryOk, EntryBuf;
    SizedAt(s);
    IntrFinds(s);
    t := s.own[s.q.used[s.q.usedSeen % NUM]];
  }

  /** virtio_disk_rw() returns exactly when the buffer is not busy any more: its descriptors are free again, and all who wait for
      descriptors are awake. */
  lemma ReturnFrees(s: State, t: nat)
    requires Inv(s) && Enabled(s, Recheck(t))
    ensures var s1, pc := RecheckStep(s, t), s.threads[t].pc;
            && (s1.threads[t].pc.Idle? <==> !s.bufs[pc.b].busy)
            && (s.bufs[pc.b].busy ==> s1.threads[t].dropped && s1.threads[t].chan == OnBuf(pc.b))
            && (!s.bufs[pc.b].busy ==>
                  && pc.id in s1.done && s1.user[pc.b] == -1 && s1.bufs == s.bufs
                  && (forall i: nat :: i < NUM ==> (s1.q.free[i] <==> s.q.free[i] || Has(pc.d, i)))
                  && (forall u: nat :: u < |s1.threads| ==> s1.threads[u].chan != OnFree))
  {
    hide Inv;
    SizedAt(s);
    ThreadAt(s, t);
  }

  /** Who waits for descriptors waits because fewer than three are free, and who waits for a buffer
      because its request is in flight and not seen yet. */
  lemma NobodyStuck(s: State, t: nat, disk0: map<nat, int>)
    requires All(s, disk0) && t < |s.threads| && (s.threads[t].asleep || s.threads[t].dropped)
    ensures s.threads[t].chan == OnFree ==> |FreeSet(s.q.free)| < 3
    ensures s.threads[t].chan.OnBuf? ==> s.threads[t].pc.Fly? && !s.threads[t].pc.phase.Seen?
    ensures s.threads[t].asleep ==> s.threads[t].chan != NoChan
  {
    hide Inv, Filled, Alloc3;
    assert Waits(s, t);
    ThreadAt(s, t);
    Alloc3Iff(s.q.free);
  }

  /** In every run from boot, at most two requests are in either ring, the device executes requests one after
      the other on the disk, and each at most once. */
  lemma RunSafe(s: State, es: seq<Step>)
    requires Init(s) && (InitAll(s); RunOk(s, es, s.disk))
    ensures (InitAll(s);
             var r := After(s, es, s.disk);
             && |r.submitted| - r.fetched <= 2 && |r.served| - r.seen <= 2 && r.disk == Replay(s.disk, r.served)
             && (forall m: nat, n: nat :: m < |r.served| && n < |r.served| && r.served[m].id == r.served[n].id ==> m == n))
  {
    hide Inv, DiskOk;
    InitAll(s);
    var r := After(s, es, s.disk);
    RingsNotOverrun(r);
    assert r.disk == Replay(s.disk, r.served) by { DiskIs(r, s.disk); }
    forall m: nat, n: nat | m < |r.served| && n < |r.served| && r.served[m].id == r.served[n].id ensures m == n {
      ServedAt(r, m);
      ServedAt(r, n);
    }
  }

  lemma DiskIs(s: State, disk0: map<nat, int>)
    requires DiskOk(s, disk0)
    ensures s.disk == Replay(disk0, s.served)
  {
  }
}
