/** The bounded MySQL write queue of the host manager: producers drop the oldest sample when it is
    full, writers take the oldest. */
module WriteQueue {
  import opened Seqs

  /** A sample that left the queue: written, or dropped to make room. */
  datatype Exit = Exit(sample: int, dropped: bool)

  /** The queue with its history: everything enqueued, and everything that left, in order. */
  datatype State = State(queue: seq<int>, entered: seq<int>, left: seq<Exit>)

  const Initial := State([], [], [])

  /** `std::max(1, task_queue_capacity)`. */
  function Room(capacity: nat): (n: nat)
    ensures n >= 1 && n >= capacity && (n == 1 || n == capacity)
  {
    if capacity == 0 then 1 else capacity
  }

  function PopFront(s: State, dropped: bool): State
    requires s.queue != []
  {
    s.(queue := s.queue[1..], left := s.left + [Exit(s.queue[0], dropped)])
  }

  function Enqueue(capacity: nat, s: State, sample: int): State {
    var t := if |s.queue| >= Room(capacity) && s.queue != [] then PopFront(s, true) else s;
    t.(queue := t.queue + [sample], entered := t.entered + [sample])
  }

  function Dequeue(s: State): State {
    if s.queue == [] then s else PopFront(s, false)
  }

  /** The queue object of the host manager; the history is ghost state. */
  class MysqlWriteQueue {
    const capacity: nat
    var queue: seq<int>
    ghost var entered: seq<int>
    ghost var left: seq<Exit>

    ghost function Value(): State
      reads this
    {
      State(queue, entered, left)
    }

    constructor (capacity: nat)
      ensures this.capacity == capacity && Value() == Initial
    {
      this.capacity := capacity;
      queue, entered, left := [], [], [];
    }

    /** `enqueueMysqlWrite`; reports whether a sample was dropped. */
    method EnqueueMysqlWrite(data: int) returns (dropped: bool)
      modifies this
      ensures Value() == Enqueue(capacity, old(Value()), data)
      ensures dropped <==> |old(queue)| >= Room(capacity)
    {
      dropped := |queue| >= Room(capacity);
      if dropped {
        left := left + [Exit(queue[0], true)];
        queue := queue[1..];
      }
      queue := queue + [data];
      entered := entered + [data];
    }

    /** One round of `mysqlWriteLoop` under the queue lock: leave, wait again, or take a sample. */
    method TakeOrLeave(running: bool) returns (leave: bool, taken: bool, data: int)
      modifies this
      ensures Value() == Dequeue(old(Value()))
      ensures leave <==> !running && old(queue) == []
      ensures taken <==> old(queue) != []
      ensures taken ==> data == old(queue)[0]
    {
      leave, taken, data := false, false, 0;
      if !running && queue == [] {
        leave := true;
        return;
      }
      if queue == [] { return; }
      taken, data := true, queue[0];
      left := left + [Exit(queue[0], false)];
      queue := queue[1..];
    }
  }

  // -------------------------------------------------------------------- runs

  datatype Op = Produce(sample: int) | Consume

  function Step(capacity: nat, s: State, op: Op): State {
    match op
    case Produce(sample) => Enqueue(capacity, s, sample)
    case Consume => Dequeue(s)
  }

  function Exec(capacity: nat, s: State, run: seq<Op>): State
    decreases |run|
  {
    if run == [] then s else Exec(capacity, Step(capacity, s, run[0]), run[1..])
  }

  /** Samples leave in the order they entered, and what has not left is queued in that order. */
  ghost predicate Inv(capacity: nat, s: State) {
    && |s.queue| <= Room(capacity)
    && |s.entered| == |s.left| + |s.queue|
    && (forall k | 0 <= k < |s.left| :: s.left[k].sample == s.entered[k])
    && (forall k | 0 <= k < |s.queue| :: s.queue[k] == s.entered[|s.left| + k])
  }

  lemma {:induction false} RunKeepsInv(capacity: nat, s: State, run: seq<Op>)
    requires Inv(capacity, s)
    ensures Inv(capacity, Exec(capacity, s, run))
    decreases |run|
  {
    if run != [] {
      StepKeepsInv(capacity, s, run[0]);
      hide Step;
      hide Inv;
      RunKeepsInv(capacity, Step(capacity, s, run[0]), run[1..]);
    }
  }

  lemma StepKeepsInv(capacity: nat, s: State, op: Op)
    requires Inv(capacity, s)
    ensures Inv(capacity, Step(capacity, s, op))
  {
  }

  function WasTaken(): Exit -> bool { (e: Exit) => !e.dropped }
  function WasDropped(): Exit -> bool { (e: Exit) => e.dropped }

  /** The samples handed to writers, in order. */
  function Taken(left: seq<Exit>): seq<int> {
    if left == [] then []
    else (if left[0].dropped then [] else [left[0].sample]) + Taken(left[1..])
  }

  /** `a` is obtained from `b` by leaving elements out. */
  ghost predicate IsSubsequence(a: seq<int>, b: seq<int>) {
    a == [] ||
    (b != [] && ((a[0] == b[0] && IsSubsequence(a[1..], b[1..])) || IsSubsequence(a, b[1..])))
  }

  lemma {:induction false} TakenIsSubsequence(left: seq<Exit>, entered: seq<int>)
    requires |left| <= |entered| && forall k | 0 <= k < |left| :: left[k].sample == entered[k]
    ensures IsSubsequence(Taken(left), entered)
    ensures |Taken(left)| == Count(WasTaken(), left) && |left| == Count(WasTaken(), left) + Count(WasDropped(), left)
  {
    if left != [] {
      TakenIsSubsequence(left[1..], entered[1..]);
      if left[0].dropped {
        assert Taken(left) == Taken(left[1..]);
      } else {
        assert Taken(left)[0] == entered[0] && Taken(left)[1..] == Taken(left[1..]);
      }
    }
  }

  /** In every run: enqueued = taken + dropped + queued, the length stays within capacity, the taken
      samples are a subsequence of the enqueued ones, and the k-th sample to leave is the k-th that
      entered, so a dropped sample is older than everything queued then or later. */
  lemma QueueLaws(capacity: nat, run: seq<Op>)
    ensures var s := Exec(capacity, Initial, run);
            |s.queue| <= Room(capacity) && |s.left| <= |s.entered| &&
            |s.entered| == |Taken(s.left)| + Count(WasDropped(), s.left) + |s.queue| &&
            IsSubsequence(Taken(s.left), s.entered) &&
            (forall k | 0 <= k < |s.left| :: s.left[k].sample == s.entered[k]) &&
            s.queue == s.entered[|s.left|..]
  {
    RunKeepsInv(capacity, Initial, run);
    var s := Exec(capacity, Initial, run);
    TakenIsSubsequence(s.left, s.entered);
  }

  /** A sample is dropped only when the queue is full at that moment. */
  lemma {:induction false} NoDropBelowCapacity(capacity: nat, s: State, run: seq<Op>)
    requires forall n | 0 <= n < |run| && run[n].Produce? ::
               |Exec(capacity, s, run[..n]).queue| < Room(capacity)
    ensures Count(WasDropped(), Exec(capacity, s, run).left) == Count(WasDropped(), s.left)
    decreases |run|
  {
    if run != [] {
      var t := Step(capacity, s, run[0]);
      assert run[0].Produce? ==> |Exec(capacity, s, run[..0]).queue| < Room(capacity);
      if t.left != s.left {
        CountAppend(WasDropped(), s.left, [t.left[|s.left|]]);
      }
      forall n | 0 <= n < |run[1..]| && run[1..][n].Produce?
        ensures |Exec(capacity, t, run[1..][..n]).queue| < Room(capacity)
      {
        assert run[n + 1].Produce?;
        assert run[..n + 1][0] == run[0] && run[..n + 1][1..] == run[1..][..n];
      }
      NoDropBelowCapacity(capacity, t, run[1..]);
    }
  }
}
