/** The single-producer, single-consumer queue.  Its two threads take turns in any
    order, one atomic step at a time; memory is sequentially consistent.  Both
    counters are 32 bits wide and wrap around, and so is `size_t` on the one
    processor the queue is written for. */
module LockFreeQueue {
  import opened Remainders
  import opened Options

  const WORD: nat := 0x1_0000_0000

  datatype Producer<T> = Idle | Checked(value: T) | Written(value: T)
  datatype Consumer<T> = Waiting | Seen | Read(front: T)

  /** The shared fields, where each thread stands, and everything that was ever
      pushed and popped. */
  datatype State<T> = State(
    capacity: nat,
    pushedCount: nat,
    poppedCount: nat,
    data: seq<T>,
    producer: Producer<T>,
    consumer: Consumer<T>,
    pushed: seq<T>,
    popped: seq<T>)
  {
    predicate IsFull() {
      pushedCount == (poppedCount + capacity) % WORD
    }

    predicate IsEmpty() {
      pushedCount == poppedCount
    }

    /** `pushed_count_ - popped_count_` in unsigned arithmetic. */
    function Size(): nat {
      (pushedCount + WORD - poppedCount) % WORD
    }
  }

  /** The atomic steps of `PushBack`, `PeekFront` and `PopFront`. */
  datatype Action<T> = PushCheck(value: T) | PushWrite | PushIncrement
                     | PopCheck | PopRead | PeekDone | PopIncrement

  /** A step that is not its thread's next one does nothing. */
  function Step<T>(s: State<T>, a: Action<T>): State<T> {
    match a
    case PushCheck(v) =>
      if s.producer.Idle? && s.capacity > 0 && !s.IsFull() then s.(producer := Checked(v)) else s
    case PushWrite =>
      if s.producer.Checked? && 0 < s.capacity == |s.data| then
        s.(data := s.data[s.pushedCount % s.capacity := s.producer.value], producer := Written(s.producer.value))
      else s
    case PushIncrement =>
      if s.producer.Written? then
        s.(pushedCount := (s.pushedCount + 1) % WORD, pushed := s.pushed + [s.producer.value], producer := Idle)
      else s
    case PopCheck =>
      if s.consumer.Waiting? && s.capacity > 0 && !s.IsEmpty() then s.(consumer := Seen) else s
    case PopRead =>
      if s.consumer.Seen? && 0 < s.capacity == |s.data| then
        s.(consumer := Read(s.data[s.poppedCount % s.capacity]))
      else s
    case PeekDone =>
      if s.consumer.Read? then s.(consumer := Waiting) else s
    case PopIncrement =>
      if s.consumer.Read? then
        s.(poppedCount := (s.poppedCount + 1) % WORD, popped := s.popped + [s.consumer.front], consumer := Waiting)
      else s
  }

  function Run<T>(s: State<T>, actions: seq<Action<T>>): State<T>
    decreases |actions|
  {
    if actions == [] then s else Run(Step(s, actions[0]), actions[1..])
  }

  function Init<T>(data: seq<T>): State<T> {
    State(|data|, 0, 0, data, Idle, Waiting, [], [])
  }

  /** The slot of the `k`th element ever pushed. */
  function Slot(k: nat, capacity: nat): (i: nat)
    requires capacity > 0
    ensures i < capacity
  {
    k % WORD % capacity
  }

  /** What the queue is for: values come out in the order they went in, none of those
      still inside has been overwritten, and there are never too many. */
  predicate Safe<T(==)>(s: State<T>) {
    && s.popped <= s.pushed
    && |s.pushed| <= |s.popped| + s.capacity && |s.data| == s.capacity
    && s.Size() == |s.pushed| - |s.popped|
    && forall k :: |s.popped| <= k < |s.pushed| ==> s.data[Slot(k, s.capacity)] == s.pushed[k]
  }

  /** Safe, and each thread's check still holds when it acts on it. */
  predicate Inv<T(==)>(s: State<T>) {
    && Safe(s) && s.capacity < WORD
    && s.pushedCount == |s.pushed| % WORD && s.poppedCount == |s.popped| % WORD
    && (!s.producer.Idle? ==> |s.pushed| < |s.popped| + s.capacity)
    && (s.producer.Written? ==> s.data[Slot(|s.pushed|, s.capacity)] == s.producer.value)
    && (!s.consumer.Waiting? ==> |s.popped| < |s.pushed|)
    && (s.consumer.Read? ==> s.consumer.front == s.pushed[|s.popped|])
  }

  /** Slots repeat after `capacity` pushes, at least as far as the queue has got. */
  predicate SlotsInStep(capacity: nat, pushes: nat) {
    capacity == 0 || WORD % capacity == 0 || pushes < WORD
  }

  /** Two counters less than a whole turn apart are told apart. */
  lemma CountersDecide(p: nat, q: nat, capacity: nat)
    requires q <= p <= q + capacity && capacity < WORD
    ensures p % WORD == q % WORD <==> p == q
    ensures p % WORD == (q % WORD + capacity) % WORD <==> p == q + capacity
    ensures (p % WORD + WORD - q % WORD) % WORD == p - q
  {
    var a, b := p / WORD, q / WORD;
    assert p == a * WORD + p % WORD && q == b * WORD + q % WORD;
    assert a == b || a == b + 1;
  }

  /** Two numbers less than `c` apart have equal residues only if they are equal. */
  lemma ResiduesDiffer(k: nat, p: nat, c: nat)
    requires k < p < k + c
    ensures k % c != p % c
  {
    if k % c == p % c {
      var a, b := p / c, k / c;
      assert p == a * c + p % c && k == b * c + k % c;
      assert (a - b) * c == a * c - b * c;
      MultiplesAreFar(a - b, c);
    }
  }

  /** Elements that are in the queue together never share a slot. */
  lemma SlotsDiffer(k: nat, p: nat, capacity: nat)
    requires k < p < k + capacity && SlotsInStep(capacity, p)
    ensures Slot(k, capacity) != Slot(p, capacity)
  {
    if WORD % capacity == 0 {
      ModOfMultiple(k, WORD, capacity);
      ModOfMultiple(p, WORD, capacity);
    }
    assert Slot(k, capacity) == k % capacity && Slot(p, capacity) == p % capacity;
    ResiduesDiffer(k, p, capacity);
  }

  lemma SlotOfCount(k: nat, capacity: nat)
    requires capacity > 0
    ensures Slot(k, capacity) == (k % WORD) % capacity
  {
  }

  lemma WriteKeepsInv<T>(s: State<T>)
    requires Inv(s) && SlotsInStep(s.capacity, |s.pushed|) && s.producer.Checked?
    ensures Inv(Step(s, PushWrite))
  {
    var p, q := |s.pushed|, |s.popped|;
    SlotOfCount(p, s.capacity);
    forall k | q <= k < p ensures Slot(k, s.capacity) != Slot(p, s.capacity) {
      SlotsDiffer(k, p, s.capacity);
    }
    hide Slot, SlotsInStep, State.Size;
  }

  lemma PushKeepsInv<T>(s: State<T>)
    requires Inv(s) && s.producer.Written?
    ensures Inv(Step(s, PushIncrement))
  {
    hide Slot;
    CountUp(|s.pushed|);
    CountersDecide(|s.pushed| + 1, |s.popped|, s.capacity);
    var t := Step(s, PushIncrement);
    assert t.Size() == |t.pushed| - |t.popped|;
    hide State.Size, SlotsInStep;
  }

  lemma ProducerKeepsInv<T>(s: State<T>, a: Action<T>)
    requires Inv(s) && SlotsInStep(s.capacity, |s.pushed|)
    requires a.PushCheck? || a.PushWrite? || a.PushIncrement?
    ensures Inv(Step(s, a))
  {
    CountersDecide(|s.pushed|, |s.popped|, s.capacity);
    if a.PushWrite? && s.producer.Checked? {
      WriteKeepsInv(s);
    } else if a.PushIncrement? && s.producer.Written? {
      PushKeepsInv(s);
    }
    hide Slot, SlotsInStep, State.Size;
  }

  lemma PopKeepsInv<T>(s: State<T>)
    requires Inv(s) && s.consumer.Read?
    ensures Inv(Step(s, PopIncrement))
  {
    hide Slot;
    CountUp(|s.popped|);
    CountersDecide(|s.pushed|, |s.popped| + 1, s.capacity);
    var t := Step(s, PopIncrement);
    assert t.Size() == |t.pushed| - |t.popped|;
    hide State.Size;
  }

  lemma ConsumerKeepsInv<T>(s: State<T>, a: Action<T>)
    requires Inv(s)
    requires !(a.PushCheck? || a.PushWrite? || a.PushIncrement?)
    ensures Inv(Step(s, a))
  {
    CountersDecide(|s.pushed|, |s.popped|, s.capacity);
    if s.capacity > 0 {
      SlotOfCount(|s.popped|, s.capacity);
    }
    if a.PopIncrement? && s.consumer.Read? {
      PopKeepsInv(s);
    }
    hide Slot, State.Size;
  }

  /** Every step of either thread keeps the invariant, as long as the slots are in
      step with the counter. */
  lemma {:induction false} StepKeepsInv<T>(s: State<T>, a: Action<T>)
    requires Inv(s) && SlotsInStep(s.capacity, |s.pushed|)
    ensures Inv(Step(s, a))
  {
    if a.PushCheck? || a.PushWrite? || a.PushIncrement? {
      ProducerKeepsInv(s, a);
    } else {
      ConsumerKeepsInv(s, a);
    }
  }

  lemma StepGrows<T>(s: State<T>, a: Action<T>)
    ensures Step(s, a).capacity == s.capacity && s.pushed <= Step(s, a).pushed && s.popped <= Step(s, a).popped
    ensures |Step(s, a).pushed| <= |s.pushed| + 1
  {
  }

  lemma {:induction false} RunGrows<T>(s: State<T>, actions: seq<Action<T>>)
    ensures Run(s, actions).capacity == s.capacity && s.pushed <= Run(s, actions).pushed
    decreases |actions|
  {
    if actions != [] {
      StepGrows(s, actions[0]);
      RunGrows(Step(s, actions[0]), actions[1..]);
    }
  }

  /** Under every interleaving of the two threads the queue is safe: for ever when
      the capacity divides 2^32, and up to 2^32 pushes whatever the capacity. */
  lemma {:induction false} EveryRunSafe<T>(s: State<T>, actions: seq<Action<T>>)
    requires Inv(s) && SlotsInStep(s.capacity, |Run(s, actions).pushed|)
    ensures Inv(Run(s, actions)) && Safe(Run(s, actions))
    decreases |actions|
  {
    if actions != [] {
      RunGrows(s, actions);
      StepGrows(s, actions[0]);
      StepKeepsInv(s, actions[0]);
      EveryRunSafe(Step(s, actions[0]), actions[1..]);
    }
  }

  lemma CountUp(n: nat)
    ensures (n % WORD + 1) % WORD == (n + 1) % WORD
  {
  }

  lemma {:induction false} InitInv<T>(data: seq<T>)
    requires |data| < WORD
    ensures Inv(Init(data))
  {
  }

  /** The two tests are exact: a push is refused only by a full queue, and a pop only
      by an empty one. */
  lemma {:induction false} ChecksExact<T>(s: State<T>)
    requires Inv(s)
    ensures s.IsFull() <==> |s.pushed| - |s.popped| == s.capacity
    ensures s.IsEmpty() <==> s.pushed == s.popped
  {
    CountersDecide(|s.pushed|, |s.popped|, s.capacity);
  }

  // ---------- Capacities that do not divide 2^32 ----------

  lemma {:induction false} RunConcat<T>(s: State<T>, a: seq<Action<T>>, b: seq<Action<T>>)
    ensures Run(s, a + b) == Run(Run(s, a), b)
    decreases |a|
  {
    if a == [] {
      assert a + b == b;
    } else {
      assert (a + b)[1..] == a[1..] + b;
      RunConcat(Step(s, a[0]), a[1..], b);
    }
  }

  function Push(v: nat): seq<Action<nat>> {
    [PushCheck(v), PushWrite, PushIncrement]
  }

  function Pop(): seq<Action<nat>> {
    [PopCheck, PopRead, PopIncrement]
  }

  /** A queue at rest into which 0, 1, 2, ... were pushed, `p` of them in all, and
      from which `q` have been taken. */
  predicate AtRest(s: State<nat>, capacity: nat, p: nat, q: nat) {
    && s.capacity == |s.data| == capacity && s.producer.Idle? && s.consumer.Waiting?
    && |s.pushed| == p && |s.popped| == q && q <= p
    && s.pushedCount == p % WORD && s.poppedCount == q % WORD
    && forall k :: 0 <= k < p ==> s.pushed[k] == k
  }

  lemma OnePush(s: State<nat>, capacity: nat, p: nat, q: nat)
    requires 0 < capacity < WORD && AtRest(s, capacity, p, q) && p < q + capacity
    ensures var t := Run(s, Push(p));
      AtRest(t, capacity, p + 1, q) && t.data[Slot(p, capacity)] == p
  {
    CountersDecide(p, q, capacity);
    CountUp(p);
    SlotOfCount(p, capacity);
    hide Slot;
    var s1 := Step(s, PushCheck(p));
    var s2 := Step(s1, PushWrite);
    var s3 := Step(s2, PushIncrement);
    assert Push(p)[1..] == [PushWrite, PushIncrement] && Push(p)[1..][1..] == [PushIncrement];
    assert Run(s, Push(p)) == Run(s1, [PushWrite, PushIncrement]) == Run(s2, [PushIncrement]) == Run(s3, []);
  }

  lemma OnePop(s: State<nat>, capacity: nat, p: nat, q: nat)
    requires 0 < capacity < WORD && AtRest(s, capacity, p, q) && q < p <= q + capacity
    ensures AtRest(Run(s, Pop()), capacity, p, q + 1)
  {
    CountersDecide(p, q, capacity);
    CountUp(q);
    var s1 := Step(s, PopCheck);
    var s2 := Step(s1, PopRead);
    var s3 := Step(s2, PopIncrement);
    assert Pop()[1..] == [PopRead, PopIncrement] && Pop()[1..][1..] == [PopIncrement];
    assert Run(s, Pop()) == Run(s1, [PopRead, PopIncrement]) == Run(s2, [PopIncrement]) == Run(s3, []);
  }

  lemma RunNothing(s: State<nat>)
    ensures Run(s, []) == s
  {
  }

  /** `n` values pushed and popped one by one, then `j` more pushed. */
  function Script(n: nat, j: nat): seq<Action<nat>>
    decreases n, j
  {
    if j > 0 then Script(n, j - 1) + Push(n + j - 1)
    else if n > 0 then Script(n - 1, 1) + Pop()
    else []
  }

  lemma {:induction false} ScriptRuns(data: seq<nat>, n: nat, j: nat)
    requires 0 < |data| < WORD && j <= |data|
    ensures var t := Run(Init(data), Script(n, j));
      && AtRest(t, |data|, n + j, n)
      && (j > 0 ==> t.data[Slot(n + j - 1, |data|)] == n + j - 1)
    decreases n, j
  {
    hide Step, Push, Pop, Slot, Run;
    assert Run(Init(data), []) == Init(data) by { RunNothing(Init(data)); }
    var s := Init(data);
    if j > 0 {
      ScriptRuns(data, n, j - 1);
      OnePush(Run(s, Script(n, j - 1)), |data|, n + j - 1, n);
      RunConcat(s, Script(n, j - 1), Push(n + j - 1));
    } else if n > 0 {
      ScriptRuns(data, n - 1, 1);
      OnePop(Run(s, Script(n - 1, 1)), |data|, n, n - 1);
      RunConcat(s, Script(n - 1, 1), Pop());
    }
  }

  /** When the counter wraps, the slots start again from zero out of turn: a capacity
      that does not divide 2^32 lets a value be overwritten before it is read. */
  lemma {:induction false} WrapAroundOverwrites(data: seq<nat>)
    requires 0 < |data| < WORD && WORD % |data| != 0
    ensures !Safe(Run(Init(data), Script(WORD - |data| + 1, |data|)))
  {
    var c := |data|;
    var n, lost := WORD - c + 1, WORD - WORD % c;
    ScriptRuns(data, n, c);
    LostSlot(c);
    hide Run, Script, Slot, Init, State.Size;
    var t := Run(Init(data), Script(n, c));
    assert t.data[Slot(lost, c)] == WORD && t.pushed[lost] == lost;
  }

  lemma LostSlot(c: nat)
    requires 0 < c < WORD && WORD % c != 0
    ensures var lost := WORD - WORD % c;
      WORD - c + 1 <= lost < WORD && Slot(lost, c) == 0 == Slot(WORD, c)
  {
    var lost := WORD - WORD % c;
    assert WORD == WORD / c * c + WORD % c;
    DivMod(lost, WORD / c, 0, c);
  }

  /** The queue is safe in all runs exactly when its capacity divides 2^32, that is,
      when it is a power of two. */
  lemma {:induction false} SafeForEverIff(data: seq<nat>)
    requires 0 < |data| < WORD
    ensures (forall actions: seq<Action<nat>> :: Safe(Run(Init(data), actions))) <==> WORD % |data| == 0
  {
    if WORD % |data| == 0 {
      forall actions: seq<Action<nat>> ensures Safe(Run(Init(data), actions)) {
        InitInv(data);
        RunGrows(Init(data), actions);
        EveryRunSafe(Init(data), actions);
      }
    } else {
      WrapAroundOverwrites(data);
    }
  }

  // ---------- The methods, left alone by the other thread ----------

  lemma RunThree<T>(s: State<T>, a: Action<T>, b: Action<T>, c: Action<T>)
    ensures Run(s, [a, b, c]) == Step(Step(Step(s, a), b), c)
  {
    assert [a, b, c][1..] == [b, c] && [b, c][1..] == [c];
    assert Run(s, [a, b, c]) == Run(Step(s, a), [b, c]) == Run(Step(Step(s, a), b), [c]);
    assert Run(Step(Step(s, a), b), [c]) == Run(Step(Step(Step(s, a), b), c), []);
  }

  /** The three steps of a push with nothing in between. */
  lemma WholePush<T>(s: State<T>, value: T)
    requires Inv(s) && s.producer.Idle? && SlotsInStep(s.capacity, |s.pushed|)
    ensures |s.data| == s.capacity && |s.pushed| - |s.popped| <= s.capacity
    ensures s.IsFull() <==> |s.pushed| - |s.popped| == s.capacity
    ensures var t := Run(s, [PushCheck(value), PushWrite, PushIncrement]);
      && Inv(t)
      && t == if s.capacity == 0 || s.IsFull() then s
              else s.(data := s.data[s.pushedCount % s.capacity := value],
                      pushedCount := (s.pushedCount + 1) % WORD, pushed := s.pushed + [value])
  {
    ChecksExact(s);
    RunThree(s, PushCheck(value), PushWrite, PushIncrement);
    ProducerKeepsInv(s, PushCheck(value));
    ProducerKeepsInv(Step(s, PushCheck(value)), PushWrite);
    ProducerKeepsInv(Step(Step(s, PushCheck(value)), PushWrite), PushIncrement);
    hide Run, Inv, SlotsInStep, Slot;
  }

  class FixedSizeLockFreeQueue<T(==)> {
    var pushedCount: nat
    var poppedCount: nat
    const capacity: nat
    const data: array<T>

    ghost var pushed: seq<T>
    ghost var popped: seq<T>

    ghost function Abs(): State<T>
      reads this, data
    {
      State(capacity, pushedCount, poppedCount, data[..], Idle, Waiting, pushed, popped)
    }

    ghost predicate Valid()
      reads this, data
    {
      Inv(Abs())
    }

    constructor (capacity: nat, filler: T)
      requires capacity < WORD
      ensures Valid() && fresh(data) && this.capacity == capacity && pushed == popped == []
    {
      this.capacity := capacity;
      data := new T[capacity](_ => filler);
      pushedCount, poppedCount, pushed, popped := 0, 0, [], [];
    }

    method PushBack(value: T) returns (ok: bool)
      requires Valid() && SlotsInStep(capacity, |pushed|)
      modifies this, data
      ensures Valid() && Abs() == Run(old(Abs()), [PushCheck(value), PushWrite, PushIncrement])
      ensures ok <==> old(|pushed| - |popped|) < capacity
      ensures pushed == old(pushed) + (if ok then [value] else []) && popped == old(popped)
    {
      ghost var s := Abs();
      WholePush(s, value);
      hide Run, Inv, SlotsInStep;
      if capacity == 0 {
        return false;
      }
      if pushedCount == (poppedCount + capacity) % WORD {
        return false;
      }
      data[pushedCount % capacity] := value;
      pushedCount := (pushedCount + 1) % WORD;
      pushed := pushed + [value];
      return true;
    }

    method PeekFront() returns (front: Option<T>)
      requires Valid()
      ensures front == if |popped| < |pushed| then Some(pushed[|popped|]) else None
    {
      ChecksExact(Abs());
      if capacity == 0 || pushedCount == poppedCount {
        return None;
      }
      SlotOfCount(|popped|, capacity);
      return Some(data[poppedCount % capacity]);
    }

    method PopFront() returns (front: Option<T>)
      requires Valid()
      modifies this
      ensures Valid() && pushed == old(pushed) && data[..] == old(data[..])
      ensures old(|popped| < |pushed|) ==> front == Some(old(pushed[|popped|])) && popped == old(popped) + [front.value]
      ensures !old(|popped| < |pushed|) ==> front == None && popped == old(popped)
    {
      ghost var s := Abs();
      front := PeekFront();
      if front.Some? {
        CountersDecide(|pushed|, |popped|, capacity);
        ConsumerKeepsInv(s.(consumer := Read(front.value)), PopIncrement);
        poppedCount := (poppedCount + 1) % WORD;
        popped := popped + [front.value];
        assert Abs() == Step(s.(consumer := Read(front.value)), PopIncrement);
      }
    }
  }
}
