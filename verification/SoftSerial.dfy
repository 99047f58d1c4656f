/** The receive ring of the software serial port: the receive interrupt may fire between any two
    memory accesses of the main program. */
module SoftSerial {
  const SIZE: nat := 64

  /** Where the main program is; each step makes one access to the shared indices or the buffer. */
  datatype Main =
    | Idle
    | ReadHead                      // read: the index of the oldest byte is compared ...
    | ReadTail(h: nat)              // ... with the index of the next free place
    | FetchIndex                    // read: the index again
    | Fetch(i: nat)                 // the byte
    | BumpIndex(d: bv8)             // the index once more
    | Publish(d: bv8, h: nat)       // and the new index
    | AvailableTail
    | AvailableHead(t: nat)

  datatype Result = Nothing | NoData | Data(d: bv8) | Count(n: nat)

  /** The shared variables, and the history since the ring was last emptied: the bytes taken
      from the line, those handed out, and how many were dropped. */
  datatype State = State(buffer: seq<bv8>, head: nat, tail: nat, active: nat, main: Main, result: Result,
                         accepted: seq<bv8>, returned: seq<bv8>, arrived: nat)

  /** Object 0 stands for none. */
  datatype Event = Receive(d: bv8) | StartRead(id: nat) | StartAvailable(id: nat) | Flush(id: nat) | Tick

  function Emptied(s: State): State {
    s.(head := 0, tail := 0, accepted := [], returned := [], arrived := 0)
  }

  /** The interrupt: a byte is saved unless the place after the next free one is the oldest byte's. */
  function Received(s: State, d: bv8): State {
    if s.active == 0 then s
    else if (s.tail + 1) % SIZE != s.head && s.tail < |s.buffer| then
      s.(buffer := s.buffer[s.tail := d], tail := (s.tail + 1) % SIZE, accepted := s.accepted + [d],
          arrived := s.arrived + 1)
    else s.(arrived := s.arrived + 1)
  }

  /** A newly activated object never has data; an active one goes on to the first access. */
  function Started(s: State, id: nat, first: Main, none: Result): State {
    if s.active != id then Emptied(s).(active := id, result := none) else s.(main := first, result := Nothing)
  }

  function Stepped(s: State): State {
    match s.main
    case Idle => s
    case ReadHead => s.(main := ReadTail(s.head))
    case ReadTail(h) => if h == s.tail then s.(main := Idle, result := NoData) else s.(main := FetchIndex)
    case FetchIndex => s.(main := Fetch(s.head))
    case Fetch(i) => if i < |s.buffer| then s.(main := BumpIndex(s.buffer[i])) else s
    case BumpIndex(d) => s.(main := Publish(d, s.head))
    case Publish(d, h) => s.(main := Idle, head := (h + 1) % SIZE, result := Data(d), returned := s.returned + [d])
    case AvailableTail => s.(main := AvailableHead(s.tail))
    case AvailableHead(t) => s.(main := Idle, result := Count((t + SIZE - s.head) % SIZE))
  }

  /** The main program starts a call only after the one before it; interrupts come at any time. */
  function Step(s: State, e: Event): State {
    match e
    case Receive(d) => Received(s, d)
    case StartRead(id) => if s.main.Idle? then Started(s, id, ReadHead, NoData) else s
    case StartAvailable(id) => if s.main.Idle? then Started(s, id, AvailableTail, Count(0)) else s
    case Flush(id) => if s.main.Idle? && s.active == id then Emptied(s) else s
    case Tick => Stepped(s)
  }

  function Run(s: State, events: seq<Event>): State
    decreases |events|
  {
    if events == [] then s else Run(Step(s, events[0]), events[1..])
  }

  function Start(buffer: seq<bv8>): State {
    State(buffer, 0, 0, 0, Idle, Nothing, [], [], 0)
  }

  /** How many bytes wait, under the published index. */
  function Pending(s: State): int {
    |s.accepted| - |s.returned|
  }

  // ---------- the invariant ----------

  /** The indices count the bytes taken and handed out, and the buffer holds those in between. */
  ghost predicate Ring(s: State) {
    && |s.buffer| == SIZE && 0 <= Pending(s) <= SIZE - 1
    && s.head == |s.returned| % SIZE && s.tail == |s.accepted| % SIZE
    && s.returned <= s.accepted
    && forall k: nat :: |s.returned| <= k < |s.accepted| ==> s.buffer[k % SIZE] == s.accepted[k]
  }

  /** What the main program has seen still holds, whatever the interrupt did since. */
  ghost predicate Seen(s: State)
    requires Ring(s)
  {
    match s.main
    case ReadTail(h) => h == s.head
    case FetchIndex => Pending(s) > 0
    case Fetch(i) => i == s.head && Pending(s) > 0
    case BumpIndex(d) => Pending(s) > 0 && d == s.accepted[|s.returned|]
    case Publish(d, h) => Pending(s) > 0 && d == s.accepted[|s.returned|] && h == s.head
    case AvailableHead(t) => t < SIZE && (t + SIZE - s.head) % SIZE <= Pending(s)
    case _ => true
  }

  ghost predicate Inv(s: State) {
    Ring(s) && Seen(s) && |s.accepted| <= s.arrived
  }

  lemma StartInv(buffer: seq<bv8>)
    requires |buffer| == SIZE
    ensures Inv(Start(buffer))
  {
  }

  lemma NextIndex(n: nat)
    ensures (n % SIZE + 1) % SIZE == (n + 1) % SIZE
  {
  }

  /** Different places within a round of the ring are different. */
  lemma PlacesDiffer(a: nat, b: nat)
    requires a < b < a + SIZE
    ensures a % SIZE != b % SIZE
  {
  }

  lemma DistanceOf(a: nat, b: nat)
    requires a <= b < a + SIZE
    ensures (b % SIZE + SIZE - a % SIZE) % SIZE == b - a
  {
  }

  /** The test of the interrupt says exactly whether 63 bytes wait. */
  lemma FullMeans63(s: State)
    requires Ring(s)
    ensures (s.tail + 1) % SIZE == s.head <==> Pending(s) == SIZE - 1
  {
    NextIndex(|s.accepted|);
    if Pending(s) == SIZE - 1 {
      TurnsRound(|s.returned|);
    } else {
      PlacesDiffer(|s.returned|, |s.accepted| + 1);
    }
  }

  lemma TurnsRound(a: nat)
    ensures (a + SIZE) % SIZE == a % SIZE
  {
  }

  lemma ReceiveKeepsRing(s: State, d: bv8)
    requires Ring(s)
    ensures Ring(Received(s, d)) && s.head == Received(s, d).head && s.accepted <= Received(s, d).accepted
  {
    FullMeans63(s);
    var t := Received(s, d);
    if t.accepted != s.accepted {
      NextIndex(|s.accepted|);
      forall k: nat | |t.returned| <= k < |t.accepted| ensures t.buffer[k % SIZE] == t.accepted[k] {
        if k < |s.accepted| {
          PlacesDiffer(k, |s.accepted|);
        }
      }
    }
  }

  lemma ReceiveKeepsInv(s: State, d: bv8)
    requires Inv(s)
    ensures Inv(Received(s, d))
  {
    ReceiveKeepsRing(s, d);
  }

  lemma PublishKeepsRing(s: State)
    requires Ring(s) && Seen(s) && s.main.Publish?
    ensures Ring(Stepped(s))
  {
    NextIndex(|s.returned|);
    assert s.returned + [s.accepted[|s.returned|]] == s.accepted[..|s.returned| + 1];
  }

  lemma MainKeepsInv(s: State)
    requires Inv(s)
    ensures Inv(Stepped(s))
  {
    match s.main {
      case ReadTail(h) =>
        if Pending(s) == 0 {
          assert s.head == s.tail;
        }
      case Publish(d, h) => PublishKeepsRing(s);
      case AvailableTail => DistanceOf(|s.returned|, |s.accepted|);
      case _ =>
    }
  }

  lemma StepKeepsInv(s: State, e: Event)
    requires Inv(s)
    ensures Inv(Step(s, e))
  {
    match e {
      case Receive(d) => ReceiveKeepsInv(s, d);
      case Tick => MainKeepsInv(s);
      case _ =>
    }
  }

  lemma {:induction false} RunKeepsInv(s: State, events: seq<Event>)
    requires Inv(s)
    ensures Inv(Run(s, events))
    decreases |events|
  {
    if events != [] {
      StepKeepsInv(s, events[0]);
      RunKeepsInv(Step(s, events[0]), events[1..]);
    }
  }

  // ---------- the ring is a queue ----------

  /** Under every interleaving the bytes handed out since the ring was last emptied are a prefix
      of the bytes taken, and at most 63 wait. */
  lemma RingIsFifo(buffer: seq<bv8>, events: seq<Event>)
    requires |buffer| == SIZE
    ensures var s := Run(Start(buffer), events);
      s.returned <= s.accepted && Pending(s) <= 63 && |s.accepted| <= s.arrived
  {
    StartInv(buffer);
    RunKeepsInv(Start(buffer), events);
  }

  /** What a caller relies on: a queue without indices that takes a byte while fewer than 63
      wait, and a call that looks once, then removes the oldest byte in its last step. */
  datatype Stage = Resting | Opening | Looking | Taking(left: nat) | Counting | Counted(n: nat)

  datatype Queue = Queue(waiting: seq<bv8>, active: nat, stage: Stage, result: Result)

  function QueueTick(q: Queue): Queue {
    match q.stage
    case Resting => q
    case Opening => q.(stage := Looking)
    case Looking => if q.waiting == [] then q.(stage := Resting, result := NoData) else q.(stage := Taking(3))
    case Taking(left) =>
      if left > 0 then q.(stage := Taking(left - 1))
      else if q.waiting == [] then q
      else q.(waiting := q.waiting[1..], stage := Resting, result := Data(q.waiting[0]))
    case Counting => q.(stage := Counted(|q.waiting|))
    case Counted(n) => q.(stage := Resting, result := Count(n))
  }

  function QueueStarted(q: Queue, id: nat, first: Stage, none: Result): Queue {
    if q.active != id then q.(waiting := [], active := id, result := none) else q.(stage := first, result := Nothing)
  }

  function QueueStep(q: Queue, e: Event): Queue {
    match e
    case Receive(d) => if q.active != 0 && |q.waiting| < 63 then q.(waiting := q.waiting + [d]) else q
    case StartRead(id) => if q.stage.Resting? then QueueStarted(q, id, Opening, NoData) else q
    case StartAvailable(id) => if q.stage.Resting? then QueueStarted(q, id, Counting, Count(0)) else q
    case Flush(id) => if q.stage.Resting? && q.active == id then q.(waiting := []) else q
    case Tick => QueueTick(q)
  }

  function QueueRun(q: Queue, events: seq<Event>): Queue
    decreases |events|
  {
    if events == [] then q else QueueRun(QueueStep(q, events[0]), events[1..])
  }

  function StageOf(s: State): Stage {
    match s.main
    case Idle => Resting
    case ReadHead => Opening
    case ReadTail(_) => Looking
    case FetchIndex => Taking(3)
    case Fetch(_) => Taking(2)
    case BumpIndex(_) => Taking(1)
    case Publish(_, _) => Taking(0)
    case AvailableTail => Counting
    case AvailableHead(t) => if s.head < SIZE then Counted((t + SIZE - s.head) % SIZE) else Counted(0)
  }

  ghost function QueueOf(s: State): Queue
    requires Ring(s)
  {
    Queue(s.accepted[|s.returned|..], s.active, StageOf(s), s.result)
  }

  lemma ReceiveRefines(s: State, d: bv8)
    requires Inv(s)
    ensures Ring(Received(s, d)) && QueueOf(Received(s, d)) == QueueStep(QueueOf(s), Receive(d))
  {
    hide Ring;
    ReceiveKeepsRing(s, d);
    RingFacts(s);
    FullMeans63(s);
    if s.active != 0 && Pending(s) < 63 {
      assert (s.accepted + [d])[|s.returned|..] == s.accepted[|s.returned|..] + [d];
    }
  }

  lemma RingFacts(s: State)
    requires Ring(s)
    ensures |s.buffer| == SIZE && s.head < SIZE && s.tail < SIZE && 0 <= Pending(s) <= 63
  {
  }

  /** What the indices say about the bytes that wait. */
  lemma WaitingSeen(s: State)
    requires Inv(s)
    ensures |s.accepted[|s.returned|..]| == Pending(s) && (s.head == s.tail <==> Pending(s) == 0)
    ensures (s.tail + SIZE - s.head) % SIZE == Pending(s)
    ensures s.main.ReadTail? ==> s.main.h == s.head
    ensures s.main.Fetch? ==> s.main.i < |s.buffer|
    ensures s.main.Publish? ==> Pending(s) > 0 && s.main.d == s.accepted[|s.returned|]
  {
    EmptyExactly(s);
    DistanceOf(|s.returned|, |s.accepted|);
  }

  lemma TickRefines(s: State)
    requires Inv(s)
    ensures Ring(Stepped(s)) && QueueOf(Stepped(s)) == QueueTick(QueueOf(s))
  {
    hide Ring, Inv, Seen;
    InvIsRing();
    MainKeepsInv(s);
    RingFacts(s);
    WaitingSeen(s);
    if s.main.Publish? {
      assert s.accepted[|s.returned|..][1..] == s.accepted[|s.returned| + 1..];
    }
  }

  lemma StartRefines(s: State, id: nat, read: bool)
    requires Ring(s) && Ring(Emptied(s)) && s.main.Idle?
    ensures var e := if read then StartRead(id) else StartAvailable(id);
      Ring(Step(s, e)) && QueueOf(Step(s, e)) == QueueStep(QueueOf(s), e)
  {
  }

  lemma EmptiedRing(s: State)
    requires Ring(s)
    ensures Ring(Emptied(s))
  {
  }

  /** Each event does to the ring what it does to the queue. */
  lemma StepRefines(s: State, e: Event)
    requires Inv(s)
    ensures Inv(Step(s, e)) && QueueOf(Step(s, e)) == QueueStep(QueueOf(s), e)
  {
    hide Inv, Ring, Received, Stepped, QueueTick;
    InvIsRing();
    StepKeepsInv(s, e);
    EmptiedRing(s);
    match e {
      case Receive(d) => ReceiveRefines(s, d);
      case Tick => TickRefines(s);
      case StartRead(id) => if s.main.Idle? { StartRefines(s, id, true); }
      case StartAvailable(id) => if s.main.Idle? { StartRefines(s, id, false); }
      case Flush(id) =>
    }
  }

  lemma {:induction false} RunRefines(s: State, events: seq<Event>)
    requires Inv(s)
    ensures Inv(Run(s, events)) && QueueOf(Run(s, events)) == QueueRun(QueueOf(s), events)
    decreases |events|
  {
    hide Inv, QueueOf, Step, QueueStep;
    InvIsRing();
    if events != [] {
      StepRefines(s, events[0]);
      RunRefines(Step(s, events[0]), events[1..]);
    }
  }

  lemma InvIsRing()
    ensures forall s: State | Inv(s) :: Ring(s)
  {
  }

  /** Under every interleaving of the interrupt with single accesses, the bytes that wait and
      the result of every call are those of the queue. */
  lemma RingIsQueue(buffer: seq<bv8>, events: seq<Event>)
    requires |buffer| == SIZE
    ensures var s, q := Run(Start(buffer), events), QueueRun(Queue([], 0, Resting, Nothing), events);
      && Ring(s) && s.accepted == s.returned + q.waiting
      && s.result == q.result && s.active == q.active && StageOf(s) == q.stage
  {
    StartInv(buffer);
    RunRefines(Start(buffer), events);
    var s := Run(Start(buffer), events);
    assert s.accepted == s.accepted[..|s.returned|] + s.accepted[|s.returned|..];
  }

  /** A byte from the line is dropped exactly when 63 are waiting; otherwise it is taken, last. */
  lemma DropExactly(s: State, d: bv8)
    requires Inv(s) && s.active != 0
    ensures Received(s, d).accepted == if Pending(s) == 63 then s.accepted else s.accepted + [d]
    ensures Received(s, d).arrived == s.arrived + 1
  {
    FullMeans63(s);
  }

  /** A read finds nothing exactly when nothing waits at the moment it looks at the second index. */
  lemma ReadFailsExactly(s: State)
    requires Inv(s) && s.main.ReadTail?
    ensures Stepped(s).main == Idle <==> Pending(s) == 0
    ensures Pending(s) == 0 ==> Stepped(s).result == NoData
  {
    if 0 < Pending(s) {
      PlacesDiffer(|s.returned|, |s.accepted|);
    }
  }

  // ---------- the ring in memory ----------

  /** The shared variables; the calls of the main program are given the bytes that come in
      before each of their accesses. */
  class Port {
    const buffer: array<bv8>
    var head: nat
    var tail: nat
    var active: nat
    ghost var accepted: seq<bv8>
    ghost var returned: seq<bv8>
    ghost var arrived: nat

    ghost function View(): State
      reads this, buffer
    {
      State(buffer[..], head, tail, active, Idle, Nothing, accepted, returned, arrived)
    }

    ghost predicate Valid()
      reads this, buffer
    {
      Ring(View()) && |accepted| <= arrived
    }

    constructor ()
      ensures Valid() && View() == Start(buffer[..]) && fresh(buffer)
    {
      buffer := new bv8[SIZE];
      head, tail, active := 0, 0, 0;
      accepted, returned, arrived := [], [], 0;
    }

    /** The interrupt handler. */
    method Recv(d: bv8)
      requires Valid()
      modifies this`tail, this`accepted, this`arrived, buffer
      ensures Valid() && View() == Received(old(View()), d)
    {
      ReceiveKeepsRing(View(), d);
      if active == 0 {
        return;
      }
      if (tail + 1) % SIZE != head {
        buffer[tail] := d;
        tail := (tail + 1) % SIZE;
        accepted := accepted + [d];
      }
      arrived := arrived + 1;
    }

    /** What interrupts can change: bytes are taken behind those already there. */
    twostate predicate OnlyReceived()
      reads this, buffer
    {
      head == old(head) && active == old(active) && returned == old(returned) && old(accepted) <= accepted
    }

    /** Any number of interrupts. */
    method Interrupts(bytes: seq<bv8>)
      requires Valid()
      modifies this`tail, this`accepted, this`arrived, buffer
      ensures Valid() && OnlyReceived()
    {
      for i := 0 to |bytes|
        invariant Valid() && OnlyReceived()
      {
        ReceiveKeepsRing(View(), bytes[i]);
        Recv(bytes[i]);
      }
    }

    /** Making an object the active one empties the ring, with interrupts off. */
    method Activate(id: nat) returns (changed: bool)
      requires Valid()
      modifies this
      ensures Valid() && changed == (old(active) != id) && active == id
      ensures View() == if changed then Emptied(old(View())).(active := id) else old(View())
    {
      changed := active != id;
      if changed {
        head, tail := 0, 0;
        active := id;
        accepted, returned, arrived := [], [], 0;
      }
    }

    /** Reading a byte, with interrupts before every access. */
    method Read(id: nat, noise: seq<seq<bv8>>) returns (r: Result)
      requires Valid() && |noise| == 6
      modifies this, buffer
      ensures Valid() && active == id
      ensures old(active) != id ==> r == NoData && returned == []
      ensures old(active) == id ==> old(accepted) <= accepted
      ensures old(active) == id && r == NoData ==> returned == old(returned) && |old(accepted)| == |returned|
      ensures old(active) == id && r != NoData
        ==> |old(returned)| < |accepted| && r == Data(accepted[|old(returned)|]) && returned == old(returned) + [r.d]
    {
      hide Ring;
      TakenInOrder();
      var changed := Activate(id);
      if changed {
        return NoData;
      }
      Interrupts(noise[0]);
      var h := head;
      Interrupts(noise[1]);
      EmptyExactly(View());
      TakenInOrder();
      if h == tail {
        return NoData;
      }
      var d := TakeByte(noise[2..]);
      r := Data(d);
    }

    lemma TakenInOrder()
      requires Valid()
      ensures returned <= accepted
    {
    }

    /** The byte is read before the new index is published. */
    method TakeByte(noise: seq<seq<bv8>>) returns (d: bv8)
      requires Valid() && |noise| == 4 && |returned| < |accepted|
      modifies this`head, this`tail, this`accepted, this`returned, this`arrived, buffer
      ensures Valid() && active == old(active) && old(accepted) <= accepted
      ensures d == accepted[|old(returned)|] && returned == old(returned) + [d]
    {
      hide Ring;
      Interrupts(noise[0]);
      var i := head;
      Interrupts(noise[1]);
      OldestByte();
      d := buffer[i];
      Interrupts(noise[2]);
      var h := head;
      Interrupts(noise[3]);
      HandOut(d, h);
    }

    /** Publishing the new index: from now on the byte no longer waits. */
    method HandOut(d: bv8, h: nat)
      requires Valid() && Pending(View()) > 0 && d == accepted[|returned|] && h == head
      modifies this`head, this`returned
      ensures Valid() && returned == old(returned) + [d]
    {
      PublishKeepsRing(View().(main := Publish(d, h)));
      head := (h + 1) % SIZE;
      returned := returned + [d];
    }

    /** The byte the oldest index points to. */
    lemma OldestByte()
      requires Valid() && Pending(View()) > 0
      ensures head < buffer.Length && buffer[head] == accepted[|returned|]
    {
    }

    /** Counting the waiting bytes, with interrupts before both accesses. */
    method Available(id: nat, noise: seq<seq<bv8>>) returns (n: nat)
      requires Valid() && |noise| == 2
      modifies this, buffer
      ensures Valid() && active == id
      ensures old(active) != id ==> n == 0
      ensures old(active) == id ==> returned == old(returned) && |old(accepted)| <= |returned| + n <= |accepted|
    {
      var changed := Activate(id);
      if changed {
        return 0;
      }
      Interrupts(noise[0]);
      var t := tail;
      DistanceOf(|returned|, |accepted|);
      Interrupts(noise[1]);
      n := (t + SIZE - head) % SIZE;
    }

    /** Emptying the ring, for the active object only. */
    method FlushBuffer(id: nat)
      requires Valid()
      modifies this
      ensures Valid() && View() == if old(active) == id then Emptied(old(View())) else old(View())
    {
      if active == id {
        head, tail := 0, 0;
        accepted, returned, arrived := [], [], 0;
      }
    }
  }

  lemma EmptyExactly(s: State)
    requires Ring(s)
    ensures s.head == s.tail <==> Pending(s) == 0
  {
    if Pending(s) > 0 {
      PlacesDiffer(|s.returned|, |s.accepted|);
    }
  }
}
