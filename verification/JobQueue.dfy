/** The coordinator's job queue: its capacity, what a worker does with one job, and the queue with its
  callers and workers as a concurrent system. Times are milliseconds. */
module JobQueue {
  import opened Wrappers
  import opened Numerals
  import opened Ordering

  const MIN_CAPACITY := 10
  const MAX_CAPACITY := 500
  const RETRY_INTERVAL := 400
  const DEFAULT_TIMEOUT := 30_000

  // ---------------------------------------------------------------- capacity

  datatype Node = Node(live: bool, tps: real)

  function Clamp(v: int, lo: int, hi: int): int {
    if v < lo then lo else if v > hi then hi else v
  }

  function LiveTPS(n: Node): real { if n.live then n.tps else 0.0 }
  function LiveOne(n: Node): real { if n.live then 1.0 else 0.0 }

  function LiveCount(nodes: seq<Node>): nat {
    if nodes == [] then 0 else (if nodes[0].live then 1 else 0) + LiveCount(nodes[1..])
  }

  /** A slot per two tokens a second, but three slots per live node, within 10 and 500. */
  function Capacity(nodes: seq<Node>): (c: int)
    ensures MIN_CAPACITY <= c <= MAX_CAPACITY
  {
    var fromThroughput, floor := Truncate(SumBy(LiveTPS, nodes) / 2.0), 3 * LiveCount(nodes);
    Clamp(if fromThroughput < floor then floor else fromThroughput, MIN_CAPACITY, MAX_CAPACITY)
  }

  lemma {:induction false} LiveCountAppend(a: seq<Node>, b: seq<Node>)
    ensures LiveCount(a + b) == LiveCount(a) + LiveCount(b)
  {
    if a == [] {
      assert a + b == b;
    } else {
      assert (a + b)[1..] == a[1..] + b;
      LiveCountAppend(a[1..], b);
    }
  }

  lemma TPSAppend(nodes: seq<Node>, n: Node)
    ensures SumBy(LiveTPS, nodes + [n]) == SumBy(LiveTPS, nodes) + LiveTPS(n)
  {
    SumBySplit(LiveTPS, nodes + [n], |nodes|);
    assert (nodes + [n])[..|nodes|] == nodes && (nodes + [n])[|nodes|..] == [n];
  }

  /** The capacity is the larger of a slot per two tokens a second, rounded down, and three slots per
    live node, where 10 and 500 allow it. */
  method ComputeQueueCapacity(nodes: seq<Node>) returns (c: int)
    ensures c == Capacity(nodes)
  {
    var liveCount, aggregate := 0, 0.0;
    for i := 0 to |nodes|
      invariant liveCount == LiveCount(nodes[..i]) && aggregate == SumBy(LiveTPS, nodes[..i])
    {
      assert nodes[..i + 1] == nodes[..i] + [nodes[i]];
      LiveCountAppend(nodes[..i], [nodes[i]]);
      TPSAppend(nodes[..i], nodes[i]);
      if !nodes[i].live {
        continue;
      }
      liveCount := liveCount + 1;
      aggregate := aggregate + nodes[i].tps;
    }
    assert nodes[..|nodes|] == nodes;
    var cap := Truncate(aggregate / 2.0);
    if cap < liveCount * 3 {
      cap := liveCount * 3;
    }
    c := Clamp(cap, MIN_CAPACITY, MAX_CAPACITY);
  }

  lemma {:induction false} LiveCountIsSum(nodes: seq<Node>)
    ensures LiveCount(nodes) as real == SumBy(LiveOne, nodes)
  {
    if nodes != [] {
      LiveCountIsSum(nodes[1..]);
    }
  }

  lemma {:induction false} LiveIndices(nodes: seq<Node>, k: nat)
    requires k <= |nodes|
    ensures LiveCount(nodes[..k]) == |set i | 0 <= i < k && nodes[i].live|
  {
    if k > 0 {
      LiveIndices(nodes, k - 1);
      LiveCountAppend(nodes[..k - 1], [nodes[k - 1]]);
      assert nodes[..k] == nodes[..k - 1] + [nodes[k - 1]];
      var before, now := set i | 0 <= i < k - 1 && nodes[i].live, set i | 0 <= i < k && nodes[i].live;
      assert now == if nodes[k - 1].live then before + {k - 1} else before;
    }
  }

  /** What the capacity is, by the bounds that leave no other number. */
  lemma CapacityMeaning(nodes: seq<Node>)
    ensures 10 <= Capacity(nodes) <= 500
    ensures var live, tps := |set i | 0 <= i < |nodes| && nodes[i].live|, SumBy((n: Node) => if n.live then n.tps else 0.0, nodes);
      && (Capacity(nodes) < 500 ==> Capacity(nodes) >= 3 * live && Capacity(nodes) as real + 1.0 > tps / 2.0)
      && (Capacity(nodes) > 10 ==> Capacity(nodes) <= 3 * live || Capacity(nodes) as real <= tps / 2.0)
  {
    LiveIndices(nodes, |nodes|);
    assert nodes[..|nodes|] == nodes;
    SumBySame(LiveTPS, (n: Node) => if n.live then n.tps else 0.0, nodes);
  }

  /** The order in which the snapshot lists the nodes does not matter. */
  lemma CapacityIgnoresOrder(a: seq<Node>, b: seq<Node>)
    requires multiset(a) == multiset(b)
    ensures Capacity(a) == Capacity(b)
  {
    SumByPermutation(LiveTPS, a, b);
    SumByPermutation(LiveOne, a, b);
    LiveCountIsSum(a);
    LiveCountIsSum(b);
  }

  /** A node that joins never shrinks the queue of any network exactly when it is not live or does not
    claim a negative throughput. */
  lemma GrowthIff(n: Node)
    ensures (forall nodes: seq<Node> :: Capacity(nodes + [n]) >= Capacity(nodes)) <==> (n.live ==> n.tps >= 0.0)
  {
    if n.live && n.tps < 0.0 {
      var one := [Node(true, 40.0)];
      TPSAppend([], one[0]);
      assert [] + one == one;
      TPSAppend(one, n);
      LiveCountAppend(one, [n]);
      TruncateBelow((40.0 + n.tps) / 2.0, 20);
      assert Capacity(one) == 20 && Capacity(one + [n]) < 20;
    } else {
      forall nodes: seq<Node> ensures Capacity(nodes + [n]) >= Capacity(nodes) {
        TPSAppend(nodes, n);
        LiveCountAppend(nodes, [n]);
        TruncateMonotone(SumBy(LiveTPS, nodes) / 2.0, SumBy(LiveTPS, nodes + [n]) / 2.0);
      }
    }
  }

  lemma TruncateMonotone(x: real, y: real)
    requires x <= y
    ensures Truncate(x) <= Truncate(y)
  {}

  lemma TruncateBelow(x: real, n: nat)
    requires x < n as real && n > 0
    ensures Truncate(x) < n
  {}

  // ---------------------------------------------------------------- one job

  datatype Answer = Result(data: string) | DeadlineExceeded | Cancelled | ShuttingDown

  /** The result channel, with room for one answer. */
  class Slot {
    var sent: seq<Answer>

    constructor ()
      ensures sent == []
    {
      sent := [];
    }

    /** A send on a channel with room; it would block otherwise. */
    method Send(a: Answer)
      requires |sent| < 1
      modifies this
      ensures sent == old(sent) + [a]
    {
      sent := sent + [a];
    }
  }

  datatype Wakeup = CoordinatorDone | CallerDone | Timer

  /** What one turn of the retry loop meets: whether the caller has given up, how long the dispatch
    takes and what it returns, which event ends the wait, and how late the timer is. */
  datatype Turn = Turn(cancelled: bool, dispatchTime: nat, outcome: Option<string>, wakeup: Wakeup, late: nat)

  /** When turn k begins, if it does. */
  function StartOf(start: int, turn: nat -> Turn, k: nat): int {
    if k == 0 then start
    else StartOf(start, turn, k - 1) + turn(k - 1).dispatchTime + RETRY_INTERVAL + turn(k - 1).late
  }

  /** A turn that goes on to the next one. */
  predicate Retries(start: int, deadline: int, turn: nat -> Turn, k: nat) {
    StartOf(start, turn, k) <= deadline && !turn(k).cancelled && turn(k).outcome.None? && turn(k).wakeup.Timer?
  }

  /** How a turn that does not go on ends the job. */
  function Ending(start: int, deadline: int, turn: nat -> Turn, k: nat): Answer
    requires !Retries(start, deadline, turn, k)
  {
    if StartOf(start, turn, k) > deadline then DeadlineExceeded
    else if turn(k).cancelled then Cancelled
    else if turn(k).outcome.Some? then Result(turn(k).outcome.value)
    else if turn(k).wakeup.CoordinatorDone? then ShuttingDown
    else Cancelled
  }

  /** Every turn that begins in time for a caller who still waits makes one dispatch. */
  function Dispatches(start: int, deadline: int, turn: nat -> Turn, last: nat): nat {
    if StartOf(start, turn, last) <= deadline && !turn(last).cancelled then last + 1 else last
  }

  /** When the turns up to the given one began. */
  ghost function Starts(start: int, turn: nat -> Turn, last: nat): (r: seq<int>)
    ensures |r| == last + 1 && forall k :: 0 <= k <= last ==> r[k] == StartOf(start, turn, k)
  {
    seq(last + 1, k requires 0 <= k <= last => StartOf(start, turn, k))
  }

  /** `processJob`: whatever happens, it ends, and leaves exactly one answer. `starts` are the times at
    which its turns began, the last one included. */
  method ProcessJob(slot: Slot, start: int, deadline: int, turn: nat -> Turn)
    returns (dispatches: nat, ghost last: nat, ghost starts: seq<int>)
    requires slot.sent == []
    modifies slot
    ensures !Retries(start, deadline, turn, last) && forall k: nat :: k < last ==> Retries(start, deadline, turn, k)
    ensures slot.sent == [Ending(start, deadline, turn, last)]
    ensures dispatches == Dispatches(start, deadline, turn, last) && starts == Starts(start, turn, last)
    // when the turns began, and that each but the last was in time, failed, and waited for the timer
    ensures |starts| == last + 1 && starts[0] == start
    ensures forall k: nat :: k < last ==> starts[k + 1] == starts[k] + turn(k).dispatchTime + 400 + turn(k).late
    ensures forall k: nat :: k < last ==>
      starts[k] <= deadline && !turn(k).cancelled && turn(k).outcome.None? && turn(k).wakeup.Timer?
    ensures dispatches == if starts[last] <= deadline && !turn(last).cancelled then last + 1 else last
    // the data of a dispatch that succeeded, exactly if one did; and when the other answers come
    ensures forall data :: slot.sent[0] == Result(data) <==> exists k: nat :: k < dispatches && turn(k).outcome == Some(data)
    ensures slot.sent[0] == DeadlineExceeded <==> starts[last] > deadline
    ensures slot.sent[0] == ShuttingDown <==> dispatches > last && turn(last).outcome.None? && turn(last).wakeup.CoordinatorDone?
    ensures var t := turn(last);
      slot.sent[0] == Cancelled <==> starts[last] <= deadline && (t.cancelled || (t.outcome.None? && t.wakeup.CallerDone?))
  {
    var now := start;
    dispatches := 0;
    last := 0;
    while true
      invariant now == StartOf(start, turn, last) && dispatches == last && slot.sent == []
      invariant forall k: nat :: k < last ==> Retries(start, deadline, turn, k)
      decreases deadline - now + RETRY_INTERVAL
    {
      var t := turn(dispatches);
      if now > deadline {
        slot.Send(DeadlineExceeded);
        break;
      }
      if t.cancelled {
        slot.Send(Cancelled);
        break;
      }
      dispatches := dispatches + 1;
      if t.outcome.Some? {
        slot.Send(Result(t.outcome.value));
        break;
      }
      match t.wakeup {
        case CoordinatorDone =>
          slot.Send(ShuttingDown);
          break;
        case CallerDone =>
          slot.Send(Cancelled);
          break;
        case Timer =>
          now := now + t.dispatchTime + RETRY_INTERVAL + t.late;
          last := last + 1;
      }
    }
    starts := Starts(start, turn, last);
    TurnsMean(start, deadline, turn, last);
    EndingMeans(start, deadline, turn, last);
    hide Retries, Ending, Dispatches, StartOf;
  }

  lemma TurnsMean(start: int, deadline: int, turn: nat -> Turn, last: nat)
    requires forall k: nat :: k < last ==> Retries(start, deadline, turn, k)
    ensures var starts := Starts(start, turn, last);
      && starts[0] == start
      && (forall k: nat :: k < last ==> starts[k + 1] == starts[k] + turn(k).dispatchTime + 400 + turn(k).late)
      && (forall k: nat :: k < last ==>
           starts[k] <= deadline && !turn(k).cancelled && turn(k).outcome.None? && turn(k).wakeup.Timer?)
  {
    forall k: nat | k < last
      ensures Starts(start, turn, last)[k] <= deadline && !turn(k).cancelled && turn(k).outcome.None? && turn(k).wakeup.Timer?
      ensures Starts(start, turn, last)[k + 1] == Starts(start, turn, last)[k] + turn(k).dispatchTime + 400 + turn(k).late
    {
      OneTurn(start, deadline, turn, k);
      hide Retries, StartOf;
    }
    hide Retries;
  }

  lemma OneTurn(start: int, deadline: int, turn: nat -> Turn, k: nat)
    requires Retries(start, deadline, turn, k)
    ensures StartOf(start, turn, k) <= deadline && !turn(k).cancelled && turn(k).outcome.None? && turn(k).wakeup.Timer?
    ensures StartOf(start, turn, k + 1) == StartOf(start, turn, k) + turn(k).dispatchTime + 400 + turn(k).late
    ensures StartOf(start, turn, 0) == start
  {}

  /** Which answer comes when: the data of a dispatch that was made and succeeded, exactly if there is
    one. */
  lemma EndingMeans(start: int, deadline: int, turn: nat -> Turn, last: nat)
    requires !Retries(start, deadline, turn, last) && forall k: nat :: k < last ==> Retries(start, deadline, turn, k)
    ensures var a, n, t, at := Ending(start, deadline, turn, last), Dispatches(start, deadline, turn, last), turn(last), StartOf(start, turn, last);
      && n == (if at <= deadline && !t.cancelled then last + 1 else last)
      && (forall data :: a == Result(data) <==> exists k: nat :: k < n && turn(k).outcome == Some(data))
      && (a == DeadlineExceeded <==> at > deadline)
      && (a == ShuttingDown <==> n > last && t.outcome.None? && t.wakeup.CoordinatorDone?)
      && (a == Cancelled <==> at <= deadline && (t.cancelled || (t.outcome.None? && t.wakeup.CallerDone?)))
  {
    var n := Dispatches(start, deadline, turn, last);
    forall data ensures Ending(start, deadline, turn, last) == Result(data) <==> exists k: nat :: k < n && turn(k).outcome == Some(data) {
      if k: nat :| k < n && turn(k).outcome == Some(data) {
        assert k < last ==> Retries(start, deadline, turn, k);
      }
      assert n > last && turn(last).outcome == Some(data) ==> exists k: nat :: k < n && turn(k).outcome == Some(data);
    }
  }

  lemma {:induction false} TurnsTakeTime(start: int, turn: nat -> Turn, k: nat)
    ensures StartOf(start, turn, k) >= start + RETRY_INTERVAL * k
  {
    if k > 0 {
      TurnsTakeTime(start, turn, k - 1);
    }
  }

  /** The remaining time bounds the work: under the default timeout a queued job is dispatched at most
    76 times. */
  lemma DispatchesAreBounded(start: int, deadline: int, turn: nat -> Turn, last: nat)
    requires forall k: nat :: k < last ==> Retries(start, deadline, turn, k)
    ensures Dispatches(start, deadline, turn, last) > 0 ==>
      start + RETRY_INTERVAL * (Dispatches(start, deadline, turn, last) - 1) <= deadline
    ensures deadline <= start + DEFAULT_TIMEOUT ==> Dispatches(start, deadline, turn, last) <= 76
  {
    if last > 0 {
      assert Retries(start, deadline, turn, last - 1);
      TurnsTakeTime(start, turn, last - 1);
    }
    TurnsTakeTime(start, turn, last);
  }

  // ---------------------------------------------------------------- the queue as a concurrent system

  type Id = nat
  type Worker = nat

  /** The channel and the soft capacity. Each method is one atomic step; `Enqueue` is the admission of
    one caller when nothing comes between its check and its send. */
  class BoundedQueue {
    var capacity: int
    var channel: seq<Id>

    constructor (initialCapacity: int)
      ensures capacity == (if initialCapacity < 10 then 10 else if initialCapacity > 500 then 500 else initialCapacity) && channel == []
    {
      capacity, channel := Clamp(initialCapacity, MIN_CAPACITY, MAX_CAPACITY), [];
    }

    method Admits() returns (ok: bool)
      ensures ok <==> |channel| < capacity
    {
      ok := !(|channel| >= capacity);
    }

    method TrySend(id: Id) returns (sent: bool)
      modifies this`channel
      ensures sent <==> |old(channel)| < 500
      ensures channel == if sent then old(channel) + [id] else old(channel)
    {
      sent := |channel| < MAX_CAPACITY;
      if sent {
        channel := channel + [id];
      }
    }

    method Receive() returns (id: Option<Id>)
      modifies this`channel
      ensures id == if old(channel) == [] then None else Some(old(channel)[0])
      ensures channel == if old(channel) == [] then [] else old(channel)[1..]
    {
      if channel == [] {
        return None;
      }
      id := Some(channel[0]);
      channel := channel[1..];
    }

    method Retarget(nodes: seq<Node>)
      modifies this`capacity
      ensures capacity == Capacity(nodes)
    {
      capacity := ComputeQueueCapacity(nodes);
    }

    /** Returns the deadline of an admitted job. */
    method Enqueue(id: Id, timeout: int, now: int) returns (deadline: Option<int>)
      modifies this`channel
      ensures deadline.Some? <==> |old(channel)| < capacity && |old(channel)| < 500
      ensures deadline.Some? ==> deadline.value == now + if timeout <= 0 then 30_000 else timeout
      ensures channel == if deadline.Some? then old(channel) + [id] else old(channel)
    {
      var wait := timeout;
      if wait <= 0 {
        wait := DEFAULT_TIMEOUT;
      }
      var admitted := Admits();
      if !admitted {
        return None;
      }
      var sent := TrySend(id);
      if !sent {
        return None;
      }
      deadline := Some(now + wait);
    }
  }

  /** `passed` are callers between the soft capacity check and the send; `admitted` and `taken` record
    the history of the channel; `slots` are the answers not yet collected. */
  datatype Queue = Queue(capacity: int, passed: set<Id>, channel: seq<Id>, held: map<Worker, Id>,
                         answers: map<Id, Answer>, slots: set<Id>, admitted: seq<Id>, taken: seq<Id>, used: set<Id>)

  datatype Step =
    | Check(id: Id)                      // Enqueue reads the length and the capacity
    | Send(id: Id)                       // the non-blocking channel send
    | Take(worker: Worker)               // an idle worker receives
    | Deliver(worker: Worker, a: Answer) // processJob sends its answer
    | Collect(id: Id)                    // the caller receives it
    | Retarget(nodes: seq<Node>)         // the capacity follows the network

  predicate Possible(q: Queue, step: Step) {
    match step
    case Check(id) => id !in q.used
    case Send(id) => id in q.passed
    case Take(w) => w !in q.held && q.channel != []
    case Deliver(w, a) => w in q.held && q.held[w] !in q.slots
    case Collect(id) => id in q.slots
    case Retarget(_) => true
  }

  function Next(q: Queue, step: Step): Queue
    requires Possible(q, step)
  {
    match step
    case Check(id) =>
      if |q.channel| >= q.capacity then q.(used := q.used + {id})
      else q.(used := q.used + {id}, passed := q.passed + {id})
    case Send(id) =>
      if |q.channel| >= MAX_CAPACITY then q.(passed := q.passed - {id})
      else q.(passed := q.passed - {id}, channel := q.channel + [id], admitted := q.admitted + [id])
    case Take(w) =>
      q.(channel := q.channel[1..], held := q.held[w := q.channel[0]], taken := q.taken + [q.channel[0]])
    case Deliver(w, a) =>
      q.(held := q.held - {w}, answers := q.answers[q.held[w] := a], slots := q.slots + {q.held[w]})
    case Collect(id) => q.(slots := q.slots - {id})
    case Retarget(nodes) => q.(capacity := Capacity(nodes))
  }

  function Initial(capacity: int): Queue {
    Queue(Clamp(capacity, MIN_CAPACITY, MAX_CAPACITY), {}, [], map[], map[], {}, [], [], {})
  }

  ghost predicate Run(capacity: int, qs: seq<Queue>, steps: seq<Step>) {
    && |qs| == |steps| + 1 && qs[0] == Initial(capacity)
    && forall i :: 0 <= i < |steps| ==> Possible(qs[i], steps[i]) && qs[i + 1] == Next(qs[i], steps[i])
  }

  ghost predicate Reachable(q: Queue) {
    exists capacity, qs, steps :: Run(capacity, qs, steps) && q == qs[|qs| - 1]
  }

  ghost predicate Bounds(q: Queue) {
    MIN_CAPACITY <= q.capacity <= MAX_CAPACITY && |q.channel| <= MAX_CAPACITY
  }

  /** First in, first out. */
  ghost predicate Fifo(q: Queue) {
    && q.admitted == q.taken + q.channel && Distinct(q.admitted)
    && (forall id :: id in q.admitted ==> id in q.used && id !in q.passed)
    && q.passed <= q.used
  }

  ghost predicate HeldBy(q: Queue, id: Id) {
    exists w: Worker :: w in q.held && q.held[w] == id
  }

  /** A job taken from the channel is held by one worker or answered, not both. */
  ghost predicate Accounted(q: Queue) {
    && (forall id :: id in q.taken <==> HeldBy(q, id) || id in q.answers)
    && (forall w: Worker :: w in q.held ==> q.held[w] !in q.answers)
    && (forall v: Worker, w: Worker :: v in q.held && w in q.held && q.held[v] == q.held[w] ==> v == w)
    && q.slots <= q.answers.Keys
    && |q.taken| == |q.held| + |q.answers|
  }

  ghost predicate Inv(q: Queue) {
    Bounds(q) && Fifo(q) && Accounted(q)
  }

  lemma TakeFifo(q: Queue, w: Worker)
    requires Bounds(q) && Fifo(q) && Possible(q, Take(w))
    ensures Bounds(Next(q, Take(w))) && Fifo(Next(q, Take(w)))
  {
    assert q.channel == [q.channel[0]] + q.channel[1..];
    assert Next(q, Take(w)).taken + Next(q, Take(w)).channel == q.taken + q.channel;
  }

  lemma SendFifo(q: Queue, id: Id)
    requires Bounds(q) && Fifo(q) && Possible(q, Send(id))
    ensures Bounds(Next(q, Send(id))) && Fifo(Next(q, Send(id)))
  {
    var r := Next(q, Send(id));
    if |q.channel| < MAX_CAPACITY {
      assert r.admitted == r.taken + r.channel;
      assert id !in q.admitted;
    }
  }

  lemma FifoStep(q: Queue, step: Step)
    requires Bounds(q) && Fifo(q) && Possible(q, step)
    ensures Bounds(Next(q, step)) && Fifo(Next(q, step))
  {
    hide Distinct;
    match step
    case Take(w) => TakeFifo(q, w);
    case Send(id) => SendFifo(q, id);
    case Check(id) =>
    case Deliver(w, a) =>
    case Collect(id) =>
    case Retarget(nodes) =>
  }

  /** The head of the channel is with nobody else. */
  lemma HeadIsNew(q: Queue)
    requires Inv(q) && q.channel != []
    ensures q.channel[0] !in q.taken && !HeldBy(q, q.channel[0]) && q.channel[0] !in q.answers
  {
    DistinctHalves(q.taken, q.channel);
    assert q.channel[0] in q.channel;
  }

  /** Holders after worker w takes, or before it delivers. */
  lemma HoldersWith(q: Queue, r: Queue, w: Worker)
    requires w in r.held && q.held == r.held - {w}
    ensures forall j :: HeldBy(r, j) <==> HeldBy(q, j) || j == r.held[w]
  {
    forall j ensures HeldBy(r, j) <==> HeldBy(q, j) || j == r.held[w] {
      if HeldBy(q, j) {
        var v: Worker :| v in q.held && q.held[v] == j;
        assert r.held[v] == j;
      }
      if HeldBy(r, j) && j != r.held[w] {
        var v: Worker :| v in r.held && r.held[v] == j;
        assert q.held[v] == j;
      }
    }
  }

  lemma TakeAccounted(q: Queue, w: Worker)
    requires Inv(q) && Possible(q, Take(w))
    ensures Accounted(Next(q, Take(w)))
  {
    hide Fifo, Bounds;
    var r, id := Next(q, Take(w)), q.channel[0];
    HeadIsNew(q);
    forall v: Worker | v in q.held ensures q.held[v] != id {
      assert q.held[v] == id ==> HeldBy(q, id);
    }
    AddOne(q.held, w, id);
    HoldersWith(q, r, w);
    HeldAccounted(q, r, id);
  }

  lemma AddOne<K, V>(m: map<K, V>, k: K, v: V)
    requires k !in m
    ensures m[k := v] - {k} == m && |m[k := v]| == |m| + 1
  {
    assert m[k := v].Keys == m.Keys + {k};
  }

  lemma HeldAccounted(q: Queue, r: Queue, id: Id)
    requires Accounted(q) && id !in q.answers && r.answers == q.answers && r.slots == q.slots && r.taken == q.taken + [id]
    requires |r.held| == |q.held| + 1 && forall j :: HeldBy(r, j) <==> HeldBy(q, j) || j == id
    requires forall v: Worker :: v in r.held ==> r.held[v] == id || (v in q.held && r.held[v] == q.held[v])
    requires forall u: Worker, v: Worker :: u in r.held && v in r.held && r.held[u] == id == r.held[v] ==> u == v
    ensures Accounted(r)
  {
    hide HeldBy;
  }

  lemma DeliverAccounted(q: Queue, w: Worker, a: Answer)
    requires Accounted(q) && Possible(q, Deliver(w, a))
    ensures Accounted(Next(q, Deliver(w, a)))
  {
    var r, id := Next(q, Deliver(w, a)), q.held[w];
    assert r.held.Keys == q.held.Keys - {w} && r.answers.Keys == q.answers.Keys + {id};
    HoldersWith(r, q, w);
  }

  lemma InvStep(q: Queue, step: Step)
    requires Inv(q) && Possible(q, step)
    ensures Inv(Next(q, step))
  {
    hide Fifo, Bounds, Accounted;
    FifoStep(q, step);
    match step
    case Take(w) => TakeAccounted(q, w);
    case Deliver(w, a) => DeliverAccounted(q, w, a);
    case Check(id) => SameHolders(q, Next(q, step));
    case Send(id) => SameHolders(q, Next(q, step));
    case Collect(id) => SameHolders(q, Next(q, step));
    case Retarget(nodes) => SameHolders(q, Next(q, step));
  }

  lemma SameHolders(q: Queue, r: Queue)
    requires Accounted(q) && r.held == q.held && r.answers == q.answers && r.taken == q.taken && r.slots <= q.slots
    ensures Accounted(r)
  {
    forall id ensures HeldBy(r, id) <==> HeldBy(q, id) {}
  }

  lemma {:induction false} RunInv(capacity: int, qs: seq<Queue>, steps: seq<Step>, k: nat)
    requires Run(capacity, qs, steps) && k < |qs|
    ensures Inv(qs[k])
  {
    if k > 0 {
      RunInv(capacity, qs, steps, k - 1);
      InvStep(qs[k - 1], steps[k - 1]);
    } else {
      assert Accounted(qs[0]);
    }
  }

  lemma ReachableInv(q: Queue)
    requires Reachable(q)
    ensures Inv(q)
  {
    var capacity, qs, steps :| Run(capacity, qs, steps) && q == qs[|qs| - 1];
    RunInv(capacity, qs, steps, |qs| - 1);
  }

  /** Every admitted job is in exactly one place: once in the channel, with exactly one worker, or
    answered. Nothing is lost and nothing is duplicated. */
  lemma ExactlyOnePlace(q: Queue, id: Id)
    requires Reachable(q) && id in q.admitted
    ensures multiset(q.channel)[id] <= 1
    ensures id in q.channel ==> !HeldBy(q, id) && id !in q.answers
    ensures id !in q.channel ==> (HeldBy(q, id) <==> id !in q.answers)
    ensures forall v: Worker, w: Worker :: v in q.held && w in q.held && q.held[v] == id == q.held[w] ==> v == w
    ensures |q.admitted| == |q.channel| + |q.held| + |q.answers|
  {
    ReachableInv(q);
    DistinctHalves(q.taken, q.channel);
    DistinctMultiset(q.channel);
  }

  /** A worker with an answer always finds its job's slot empty: the send never blocks, and an answer
    once given is never replaced. */
  lemma WorkerNeverBlocks(q: Queue, w: Worker, a: Answer)
    requires Reachable(q) && w in q.held
    ensures Possible(q, Deliver(w, a)) && q.held[w] !in q.answers
  {
    ReachableInv(q);
  }

  lemma AnswersAreFinal(q: Queue, step: Step, id: Id)
    requires Reachable(q) && Possible(q, step) && id in q.answers
    ensures id in Next(q, step).answers && Next(q, step).answers[id] == q.answers[id]
  {
    ReachableInv(q);
  }

  /** The hard limits, and the order: jobs leave the channel in the order they were admitted. */
  lemma QueueIsBoundedFifo(q: Queue)
    requires Reachable(q)
    ensures |q.channel| <= 500 && 10 <= q.capacity <= 500
    ensures q.taken <= q.admitted && q.channel == q.admitted[|q.taken|..]
  {
    ReachableInv(q);
  }

  // ---------------------------------------------------------------- what the capacity bounds

  /** A run in which never more than k callers are between the check and the send. */
  ghost predicate RunOf(capacity: int, qs: seq<Queue>, steps: seq<Step>, k: nat) {
    qs != [] && Run(capacity, qs, steps) && forall i :: 0 <= i < |qs| ==> |qs[i].passed| <= k
  }

  /** The greatest capacity so far. */
  function Peak(qs: seq<Queue>): int
    requires qs != []
  {
    var last := qs[|qs| - 1].capacity;
    if |qs| == 1 then last else
      var before := Peak(qs[..|qs| - 1]);
      if last > before then last else before
  }

  lemma {:induction false} ConstantPeak(qs: seq<Queue>)
    requires qs != [] && forall i :: 0 <= i < |qs| ==> qs[i].capacity == qs[0].capacity
    ensures Peak(qs) == qs[0].capacity
  {
    if |qs| > 1 {
      ConstantPeak(qs[..|qs| - 1]);
    }
  }

  /** One step adds to the channel and the callers on their way to it only by passing the check. */
  lemma LoadStep(q: Queue, step: Step)
    requires Possible(q, step)
    ensures |Next(q, step).channel| + |Next(q, step).passed| <= |q.channel| + |q.passed| ||
            (|Next(q, step).channel| == |q.channel| < q.capacity == Next(q, step).capacity)
  {}

  /** What waits and what is about to never exceed the greatest capacity so far by k or more. */
  lemma {:induction false} CapacityBound(capacity: int, qs: seq<Queue>, steps: seq<Step>, k: nat, i: nat)
    requires RunOf(capacity, qs, steps, k) && k >= 1 && i < |qs|
    ensures |qs[i].channel| + |qs[i].passed| <= Peak(qs[..i + 1]) - 1 + k
  {
    assert qs[..i + 1][..i] == qs[..i];
    if i > 0 {
      CapacityBound(capacity, qs, steps, k, i - 1);
      LoadStep(qs[i - 1], steps[i - 1]);
    }
  }

  lemma CapacityConstant(capacity: int, qs: seq<Queue>, steps: seq<Step>, i: nat)
    requires Run(capacity, qs, steps) && i < |qs| && forall j :: 0 <= j < |steps| ==> !steps[j].Retarget?
    ensures qs[i].capacity == qs[0].capacity
  {
    if i > 0 {
      CapacityConstant(capacity, qs, steps, i - 1);
    }
  }

  /** While the capacity is not changed the channel is at most k - 1 above it. */
  lemma SteadyBound(capacity: int, qs: seq<Queue>, steps: seq<Step>, k: nat, i: nat)
    requires RunOf(capacity, qs, steps, k) && k >= 1 && i < |qs| && forall j :: 0 <= j < |steps| ==> !steps[j].Retarget?
    ensures |qs[i].channel| + |qs[i].passed| <= qs[i].capacity - 1 + k
  {
    var prefix := qs[..i + 1];
    forall j | 0 <= j < |prefix| ensures prefix[j].capacity == prefix[0].capacity {
      CapacityConstant(capacity, qs, steps, j);
    }
    ConstantPeak(prefix);
    CapacityBound(capacity, qs, steps, k, i);
  }

  // The bounds are reached

  lemma Extend(capacity: int, qs: seq<Queue>, steps: seq<Step>, k: nat, step: Step)
    requires RunOf(capacity, qs, steps, k) && Possible(qs[|qs| - 1], step) && |Next(qs[|qs| - 1], step).passed| <= k
    ensures RunOf(capacity, qs + [Next(qs[|qs| - 1], step)], steps + [step], k)
  {}

  function IdsFrom(lo: nat, n: nat): (ids: set<Id>)
    requires lo <= n
    ensures |ids| == n - lo && forall i: Id :: i in ids <==> lo <= i < n
  {
    if lo == n then {} else IdsFrom(lo, n - 1) + {n - 1}
  }

  lemma IdsGrow(lo: nat, n: nat)
    requires lo <= n
    ensures IdsFrom(lo, n) + {n} == IdsFrom(lo, n + 1)
  {}

  lemma IdsShrink(lo: nat, n: nat)
    requires lo < n
    ensures IdsFrom(lo, n) - {lo} == IdsFrom(lo + 1, n)
  {
    hide IdsFrom;
    var a, b := IdsFrom(lo, n) - {lo}, IdsFrom(lo + 1, n);
    assert a <= b && b <= a;
  }

  /** Callers lo to n - 1 are between the check and the send, all below n have been seen. */
  ghost predicate Waiting(q: Queue, capacity: int, lo: nat, n: nat, length: nat) {
    lo <= n && q.capacity == capacity && q.passed == IdsFrom(lo, n) && q.used == IdsFrom(0, n) && |q.channel| == length
  }

  ghost predicate NoRetarget(steps: seq<Step>) {
    forall i :: 0 <= i < |steps| ==> !steps[i].Retarget?
  }

  lemma PassWaits(q: Queue, capacity: int, lo: nat, n: nat, length: nat)
    requires Waiting(q, capacity, lo, n, length) && length < capacity
    ensures Possible(q, Check(n)) && Waiting(Next(q, Check(n)), capacity, lo, n + 1, length)
  {
    IdsGrow(lo, n);
    IdsGrow(0, n);
    hide IdsFrom;
  }

  lemma PassOne(capacity: int, qs: seq<Queue>, steps: seq<Step>, k: nat, lo: nat, n: nat, length: nat)
    returns (qs': seq<Queue>, steps': seq<Step>)
    requires RunOf(capacity, qs, steps, k) && NoRetarget(steps) && Waiting(qs[|qs| - 1], capacity, lo, n, length)
    requires length < capacity && n + 1 - lo <= k
    ensures qs' != [] && RunOf(capacity, qs', steps', k) && NoRetarget(steps') && Waiting(qs'[|qs'| - 1], capacity, lo, n + 1, length)
  {
    var q := qs[|qs| - 1];
    PassWaits(q, capacity, lo, n, length);
    hide Next, Possible;
    Extend(capacity, qs, steps, k, Check(n));
    qs', steps' := qs + [Next(q, Check(n))], steps + [Check(n)];
  }

  lemma SendWaits(q: Queue, capacity: int, lo: nat, n: nat, length: nat)
    requires Waiting(q, capacity, lo, n, length) && length < MAX_CAPACITY && lo < n
    ensures Possible(q, Send(lo)) && Waiting(Next(q, Send(lo)), capacity, lo + 1, n, length + 1)
  {
    IdsShrink(lo, n);
    assert lo in q.passed;
    hide IdsFrom;
  }

  lemma SendOne(capacity: int, qs: seq<Queue>, steps: seq<Step>, k: nat, lo: nat, n: nat, length: nat)
    returns (qs': seq<Queue>, steps': seq<Step>)
    requires RunOf(capacity, qs, steps, k) && NoRetarget(steps) && Waiting(qs[|qs| - 1], capacity, lo, n, length)
    requires length < MAX_CAPACITY && lo < n && n - lo <= k
    ensures qs' != [] && RunOf(capacity, qs', steps', k) && NoRetarget(steps') && Waiting(qs'[|qs'| - 1], capacity, lo + 1, n, length + 1)
  {
    var q := qs[|qs| - 1];
    SendWaits(q, capacity, lo, n, length);
    hide Next, Possible;
    Extend(capacity, qs, steps, k, Send(lo));
    qs', steps' := qs + [Next(q, Send(lo))], steps + [Send(lo)];
  }

  lemma EmptyWaits(capacity: int, k: nat)
    requires MIN_CAPACITY <= capacity <= MAX_CAPACITY
    ensures RunOf(capacity, [Initial(capacity)], [], k) && Waiting(Initial(capacity), capacity, 0, 0, 0)
  {}

  /** m callers come one after the other. */
  lemma {:induction false} Filled(capacity: int, m: nat, k: nat) returns (qs: seq<Queue>, steps: seq<Step>)
    requires MIN_CAPACITY <= capacity <= MAX_CAPACITY && m <= capacity && k >= 1
    ensures qs != [] && RunOf(capacity, qs, steps, k) && NoRetarget(steps) && Waiting(qs[|qs| - 1], capacity, m, m, m)
  {
    hide Run, RunOf, IdsFrom, Waiting;
    if m == 0 {
      EmptyWaits(capacity, k);
      qs, steps := [Initial(capacity)], [];
    } else {
      qs, steps := Filled(capacity, m - 1, k);
      qs, steps := PassOne(capacity, qs, steps, k, m - 1, m - 1, m - 1);
      qs, steps := SendOne(capacity, qs, steps, k, m - 1, m, m - 1);
    }
  }

  /** Then j callers pass the check together. */
  lemma {:induction false} Passed(capacity: int, m: nat, k: nat, j: nat) returns (qs: seq<Queue>, steps: seq<Step>)
    requires MIN_CAPACITY <= capacity <= MAX_CAPACITY && m < capacity && 1 <= k && j <= k
    ensures RunOf(capacity, qs, steps, k) && NoRetarget(steps) && Waiting(qs[|qs| - 1], capacity, m, m + j, m)
  {
    hide Run, IdsFrom;
    if j == 0 {
      qs, steps := Filled(capacity, m, k);
    } else {
      qs, steps := Passed(capacity, m, k, j - 1);
      qs, steps := PassOne(capacity, qs, steps, k, m, m + j - 1, m);
    }
  }

  /** And i of the k send. */
  lemma {:induction false} Sent(capacity: int, m: nat, k: nat, i: nat) returns (qs: seq<Queue>, steps: seq<Step>)
    requires MIN_CAPACITY <= capacity <= MAX_CAPACITY && m < capacity && 1 <= k && i <= k && m + k <= MAX_CAPACITY
    ensures RunOf(capacity, qs, steps, k) && NoRetarget(steps) && Waiting(qs[|qs| - 1], capacity, m + i, m + k, m + i)
  {
    hide Run, IdsFrom;
    if i == 0 {
      qs, steps := Passed(capacity, m, k, k);
    } else {
      qs, steps := Sent(capacity, m, k, i - 1);
      qs, steps := SendOne(capacity, qs, steps, k, m + i - 1, m + k, m + i - 1);
    }
  }

  /** For every capacity and every k that the channel has room for, a run without any retargeting
    brings the channel to the bound. */
  lemma SteadyBoundIsReached(capacity: int, k: nat)
    requires MIN_CAPACITY <= capacity && 1 <= k && capacity - 1 + k <= MAX_CAPACITY
    ensures exists qs: seq<Queue>, steps: seq<Step> :: RunOf(capacity, qs, steps, k) && NoRetarget(steps) &&
                                |qs[|qs| - 1].channel| == qs[|qs| - 1].capacity - 1 + k
  {
    var qs, steps := Sent(capacity, capacity - 1, k, k);
  }

  /** In every run that keeps its capacity, with at most k callers between check and send at any time,
    the channel stays within the capacity. */
  ghost predicate CapacityHolds(k: nat) {
    forall capacity, qs: seq<Queue>, steps: seq<Step>, i :: RunOf(capacity, qs, steps, k) && NoRetarget(steps) && 0 <= i < |qs| ==>
      |qs[i].channel| <= qs[i].capacity
  }

  lemma MoreCallers(capacity: int, qs: seq<Queue>, steps: seq<Step>, j: nat, k: nat)
    requires RunOf(capacity, qs, steps, j) && j <= k
    ensures RunOf(capacity, qs, steps, k)
  {
    hide Run;
  }

  /** Two callers suffice to break it. */
  lemma TwoCallersOvershoot(k: nat)
    requires k >= 2
    ensures !CapacityHolds(k)
  {
    hide Run;
    var qs, steps := Sent(MIN_CAPACITY, MIN_CAPACITY - 1, 2, 2);
    MoreCallers(MIN_CAPACITY, qs, steps, 2, k);
    var i := |qs| - 1;
    assert Waiting(qs[i], MIN_CAPACITY, MIN_CAPACITY + 1, MIN_CAPACITY + 1, MIN_CAPACITY + 1);
    assert RunOf(MIN_CAPACITY, qs, steps, k) && NoRetarget(steps) && 0 <= i < |qs|;
    assert |qs[i].channel| > qs[i].capacity;
  }

  /** The soft capacity bounds the channel exactly when no two callers are between the check and the send
    at once. */
  lemma CapacityHoldsIff(k: nat)
    ensures CapacityHolds(k) <==> k <= 1
  {
    hide Run, RunOf;
    if k <= 1 {
      forall capacity, qs: seq<Queue>, steps: seq<Step>, i | RunOf(capacity, qs, steps, k) && NoRetarget(steps) && 0 <= i < |qs|
        ensures |qs[i].channel| <= qs[i].capacity
      {
        MoreCallers(capacity, qs, steps, k, 1);
        SteadyBound(capacity, qs, steps, 1, i);
      }
    } else {
      TwoCallersOvershoot(k);
    }
  }

  /** Every length up to the channel's own 500 is reached while the capacity is at its least. */
  lemma SoftLimitOvershoots(n: nat)
    requires n <= MAX_CAPACITY
    ensures exists q :: Reachable(q) && |q.channel| == n && q.capacity == MIN_CAPACITY
  {
    var qs: seq<Queue>, steps: seq<Step>;
    if n < MIN_CAPACITY {
      qs, steps := Filled(MIN_CAPACITY, n, 1);
    } else {
      qs, steps := Sent(MIN_CAPACITY, MIN_CAPACITY - 1, n - (MIN_CAPACITY - 1), n - (MIN_CAPACITY - 1));
    }
    assert Reachable(qs[|qs| - 1]);
  }

  /** Lowering the capacity leaves the backlog where it is: with callers one at a time, any length up to
    500 can be waiting when the capacity drops to its least. */
  lemma LoweringLeavesBacklog(n: nat)
    requires n <= MAX_CAPACITY
    ensures exists qs: seq<Queue>, steps: seq<Step> :: RunOf(MAX_CAPACITY, qs, steps, 1) && |qs[|qs| - 1].channel| == n &&
                                qs[|qs| - 1].capacity == MIN_CAPACITY
  {
    var qs, steps := Filled(MAX_CAPACITY, n, 1);
    Extend(MAX_CAPACITY, qs, steps, 1, Retarget([]));
    var last := Next(qs[|qs| - 1], Retarget([]));
    assert last.capacity == MIN_CAPACITY;
    assert (qs + [last])[|qs + [last]| - 1] == last;
  }

  /** Until the backlog has drained below the new capacity nobody passes the check. */
  lemma NoAdmissionAbove(q: Queue, step: Step)
    requires Possible(q, step) && |q.channel| >= q.capacity
    ensures Next(q, step).passed <= q.passed
    ensures |Next(q, step).channel| + |Next(q, step).passed| <= |q.channel| + |q.passed|
  {}
}
