/** The block cache over an asynchronous disk (bio.c, ide.c), as interleaved steps of any number of processes and of
    disk interrupts. A step is what runs between taking and releasing bcache.lock or idelock. */
module BlockCache {
  import opened BufferList

  /** What a process is doing. snap is the data that its bwrite was given. */
  datatype Op =
    | Idle
    // in bget, awake or (on != -1) asleep on a buffer
    | Getting(key: Key, on: int)
    // before iderw takes idelock
    | Starting(b: int, snap: Block)
    // in iderw's wait loop
    | Waiting(b: int, asleep: bool, snap: Block)
    // in the panic of bget
    | Halted

  /** What the disk has been told to do: a write is told its data when it is started. */
  datatype Command = NoCommand | ReadSector(key: Key) | WriteSector(key: Key, data: Block)

  datatype State = State(
    bufs: seq<Buf>, order: seq<int>, queue: seq<int>, command: Command, disk: map<Key, Block>,
    ops: seq<Op>,
    // who holds each buffer, -1 if nobody; whether its holder has changed its data since it was last on disk
    holder: seq<int>, touched: seq<bool>,
    // when each buffer was last released, and the completed bwrites
    stamp: seq<int>, clock: int, log: seq<(Key, Block)>)

  datatype Action =
    | Bread(p: int, key: Key)
    | BgetPass(p: int)
    | IderwStart(p: int)
    | IderwResume(p: int)
    | Modify(p: int, b: int, data: Block)
    | Bwrite(p: int, b: int)
    | Brelse(p: int, b: int)
    | Interrupt

  ghost predicate Initial(s: State, n: int, np: int, disk: map<Key, Block>) {
    && 0 < n && |s.bufs| == n && |s.ops| == np
    && (forall b :: 0 <= b < n ==>
      s.bufs[b].key == Key(NODEV, 0) && !s.bufs[b].busy && !s.bufs[b].valid && !s.bufs[b].dirty)
    && s.order == seq(n, k => n - 1 - k) && s.queue == [] && s.command == NoCommand && s.disk == disk
    && (forall p :: 0 <= p < np ==> s.ops[p] == Idle)
    && s.holder == seq(n, _ => -1) && s.touched == seq(n, _ => false)
    && s.stamp == seq(n, b => b) && s.clock == n && s.log == []
  }

  /** idestart for the buffer at the front of the queue. */
  function Started(bufs: seq<Buf>, queue: seq<int>): Command {
    if queue == [] || !(0 <= queue[0] < |bufs|) then NoCommand
    else
      var b := bufs[queue[0]];
      if b.dirty then WriteSector(b.key, b.data) else ReadSector(b.key)
  }

  /** wakeup(b): those asleep on b run again. */
  function Woken(ops: seq<Op>, b: int): (r: seq<Op>)
    ensures |r| == |ops|
  {
    seq(|ops|, p requires 0 <= p < |ops| => WokenOp(ops[p], b))
  }

  function WokenOp(op: Op, b: int): Op {
    match op
    case Getting(key, on) => if on == b then Getting(key, -1) else op
    case Waiting(c, asleep, snap) => if c == b then Waiting(c, false, snap) else op
    case _ => op
  }

  predicate Runs(s: State, p: int) {
    0 <= p < |s.ops|
  }

  /** p holds b and is not inside the cache code. */
  predicate Has(s: State, p: int, b: int) {
    Runs(s, p) && s.ops[p] == Idle && 0 <= b < |s.bufs| && |s.holder| == |s.touched| == |s.stamp| == |s.bufs| &&
      s.holder[b] == p
  }

  ghost predicate Enabled(s: State, a: Action) {
    match a
    case Bread(p, key) => Runs(s, p) && s.ops[p] == Idle && key in s.disk && key.dev != NODEV
    case BgetPass(p) => Runs(s, p) && s.ops[p].Getting? && s.ops[p].on == -1
    case IderwStart(p) => Runs(s, p) && s.ops[p].Starting?
    case IderwResume(p) => Runs(s, p) && s.ops[p].Waiting? && !s.ops[p].asleep
    case Modify(p, b, data) => Has(s, p, b)
    case Bwrite(p, b) => Has(s, p, b)
    // the rule of use: what was changed is written before the buffer is given up
    case Brelse(p, b) => Has(s, p, b) && !s.touched[b]
    case Interrupt => true
  }

  ghost predicate Shaped(s: State) {
    && |s.holder| == |s.touched| == |s.stamp| == |s.bufs|
    && IsRing(s.order, |s.bufs|)
    && (forall k :: 0 <= k < |s.queue| ==> 0 <= s.queue[k] < |s.bufs|)
    && (forall p :: 0 <= p < |s.ops| && (s.ops[p].Starting? || s.ops[p].Waiting?) ==> 0 <= s.ops[p].b < |s.bufs|)
    && (s.command.ReadSector? ==> s.command.key in s.disk)
  }

  ghost function Next(s: State, a: Action): State
    requires Shaped(s) && Enabled(s, a)
  {
    match a
    case Bread(p, key) => s.(ops := s.ops[p := Getting(key, -1)])
    case BgetPass(p) => AfterBget(s, p, BgetSpec(s.order, s.bufs, s.ops[p].key))
    case IderwStart(p) => AfterStart(s, p)
    case IderwResume(p) => AfterResume(s, p)
    case Modify(p, b, data) => s.(bufs := s.bufs[b := s.bufs[b].(data := data)], touched := s.touched[b := true])
    case Bwrite(p, b) => s.(bufs := s.bufs[b := s.bufs[b].(dirty := true)], touched := s.touched[b := false],
      ops := s.ops[p := Starting(b, s.bufs[b].data)])
    case Brelse(p, b) => AfterBrelse(s, b)
    case Interrupt => if s.queue == [] then s else AfterInterrupt(s)
  }

  /** bget returns a buffer and bread looks at B_VALID, or bget goes to sleep, or it panics. */
  ghost function AfterBget(s: State, p: int, g: Got): State
    requires Shaped(s) && 0 <= p < |s.ops| && s.ops[p].Getting? && g == BgetSpec(s.order, s.bufs, s.ops[p].key)
  {
    match g
    case Cached(b) =>
      s.(bufs := BgetBufs(s.bufs, s.ops[p].key, g), holder := s.holder[b := p],
         ops := s.ops[p := if s.bufs[b].valid then Idle else Starting(b, s.bufs[b].data)])
    case Recycled(b) =>
      s.(bufs := BgetBufs(s.bufs, s.ops[p].key, g), holder := s.holder[b := p],
        ops := s.ops[p := Starting(b, s.bufs[b].data)])
    case MustSleep(b) => s.(ops := s.ops[p := Getting(s.ops[p].key, b)])
    case NoBuffers => s.(ops := s.ops[p := Halted])
  }

  /** iderw up to its first sleep. */
  ghost function AfterStart(s: State, p: int): State
    requires Shaped(s) && 0 <= p < |s.ops| && s.ops[p].Starting?
  {
    var b := s.ops[p].b;
    var queue := s.queue + [b];
    s.(queue := queue, command := if queue[0] == b && s.queue == [] then Started(s.bufs, queue) else s.command,
       ops := s.ops[p := Waiting(b, !(s.bufs[b].valid && !s.bufs[b].dirty), s.ops[p].snap)])
  }

  ghost function AfterResume(s: State, p: int): State
    requires Shaped(s) && 0 <= p < |s.ops| && s.ops[p].Waiting?
  {
    var b := s.ops[p].b;
    s.(ops := s.ops[p := if s.bufs[b].valid && !s.bufs[b].dirty then Idle else Waiting(b, true, s.ops[p].snap)])
  }

  ghost function AfterBrelse(s: State, b: int): State
    requires Shaped(s) && 0 <= b < |s.bufs|
  {
    s.(order := MoveToFront(s.order, b), bufs := s.bufs[b := s.bufs[b].(busy := false)], holder := s.holder[b := -1],
       stamp := s.stamp[b := s.clock], clock := s.clock + 1, ops := Woken(s.ops, b))
  }

  /** ideintr, with the effect that the disk's command has had. */
  ghost function AfterInterrupt(s: State): State
    requires Shaped(s) && s.queue != []
  {
    var b := s.queue[0];
    var queue := s.queue[1..];
    var data := if !s.bufs[b].dirty && s.command.ReadSector? then s.disk[s.command.key] else s.bufs[b].data;
    var bufs := s.bufs[b := Buf(s.bufs[b].key, s.bufs[b].busy, true, false, data)];
    s.(bufs := bufs, queue := queue, command := Started(bufs, queue), ops := Woken(s.ops, b),
       disk := if s.command.WriteSector? then s.disk[s.command.key := s.command.data] else s.disk,
       log := if s.bufs[b].dirty then s.log + [(s.bufs[b].key, Snap(s, b))] else s.log)
  }

  /** The data given to the bwrite that waits for b. */
  ghost function Snap(s: State, b: int): Block
    requires |s.holder| == |s.bufs| && 0 <= b < |s.bufs|
  {
    var p := s.holder[b];
    if 0 <= p < |s.ops| && s.ops[p].Waiting? then s.ops[p].snap else []
  }

  // ----- What every run keeps

  /** The disk after the completed bwrites. */
  function Written(disk: map<Key, Block>, log: seq<(Key, Block)>): map<Key, Block> {
    if log == [] then disk else Written(disk, log[..|log| - 1])[log[|log| - 1].0 := log[|log| - 1].1]
  }

  /** The stages of a buffer's life, by who holds it and what that process is doing. */
  ghost predicate BufOk(s: State, b: int)
    requires Shaped(s) && 0 <= b < |s.bufs|
  {
    var x, p := s.bufs[b], s.holder[b];
    && (x.busy <==> p != -1)
    && (x.key.dev != NODEV ==> x.key in s.disk)
    && (p == -1 ==> !x.dirty && !s.touched[b] && b !in s.queue && (x.valid ==> OnDisk(s, b)))
    && (p != -1 ==> 0 <= p < |s.ops| && x.key.dev != NODEV && HeldOk(s, b))
  }

  ghost predicate OnDisk(s: State, b: int)
    requires 0 <= b < |s.bufs|
  {
    s.bufs[b].key in s.disk && s.bufs[b].data == s.disk[s.bufs[b].key]
  }

  ghost predicate HeldOk(s: State, b: int)
    requires Shaped(s) && 0 <= b < |s.bufs| && 0 <= s.holder[b] < |s.ops|
  {
    var x, op := s.bufs[b], s.ops[s.holder[b]];
    if op.Starting? && op.b == b then
      b !in s.queue && Asking(x, op.snap) && !s.touched[b]
    else if op.Waiting? && op.b == b && b in s.queue then
      Asking(x, op.snap) && !s.touched[b]
    else
      && b !in s.queue && x.valid && !x.dirty && (!s.touched[b] ==> OnDisk(s, b))
      && (op.Waiting? && op.b == b ==> !op.asleep && !s.touched[b])
  }

  /** iderw has something to do: a read into a buffer without data, or a write of snap. */
  predicate Asking(x: Buf, snap: Block) {
    if x.dirty then x.valid && x.data == snap else !x.valid
  }

  ghost predicate OpOk(s: State, p: int)
    requires Shaped(s) && 0 <= p < |s.ops|
  {
    match s.ops[p]
    case Getting(key, on) => key in s.disk && key.dev != NODEV && (on != -1 ==> 0 <= on < |s.bufs| && s.bufs[on].busy)
    case Starting(b, snap) => s.holder[b] == p
    case Waiting(b, asleep, snap) => s.holder[b] == p
    case _ => true
  }

  ghost predicate OneBufferEach(s: State) {
    forall b, c ::
      0 <= b < |s.bufs| && 0 <= c < |s.bufs| && s.bufs[b].key == s.bufs[c].key && s.bufs[b].key.dev != NODEV ==> b == c
  }

  /** The ring is in the order of release, the latest first. */
  ghost predicate ByRelease(s: State)
    requires |s.stamp| == |s.bufs| && IsRing(s.order, |s.bufs|)
  {
    && (forall i, j :: 0 <= i < j < |s.order| ==> s.stamp[s.order[i]] > s.stamp[s.order[j]])
    && (forall b :: 0 <= b < |s.bufs| ==> s.stamp[b] < s.clock)
  }

  ghost predicate Inv(s: State, disk0: map<Key, Block>) {
    && Shaped(s)
    && Distinct(s.queue)
    && (forall b :: 0 <= b < |s.bufs| ==> BufOk(s, b))
    && (forall p :: 0 <= p < |s.ops| ==> OpOk(s, p))
    && OneBufferEach(s)
    && ByRelease(s)
    && s.command == Started(s.bufs, s.queue)
    && s.disk == Written(disk0, s.log)
  }
}
