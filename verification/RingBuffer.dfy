/** The circular buffer, once as an object used under mutual exclusion and once with the
    individual loads and stores of one producer and one consumer interleaved. */
module RingBuffer {

  /** The i-th slot from a position, wrapping around at the end of the storage. */
  function Slot(from: nat, i: nat, capacity: nat): (s: nat)
    requires from < capacity && i <= capacity
    ensures s < capacity
  {
    if from + i < capacity then from + i else from + i - capacity
  }

  /** Number of unread values between the two positions. */
  function Unread(read: nat, write: nat, capacity: nat): (n: nat)
    requires read < capacity && write < capacity
    ensures n < capacity && Slot(read, n, capacity) == write
  {
    if write >= read then write - read else capacity - read + write
  }

  lemma {:induction false} NextSlot(from: nat, capacity: nat)
    requires from < capacity && capacity > 1
    ensures (from + 1) % capacity == Slot(from, 1, capacity)
  {
    if from + 1 < capacity {
      assert (from + 1) % capacity == from + 1;
    } else {
      assert from + 1 == capacity;
      assert capacity % capacity == 0;
    }
  }

  /** The unread values, oldest first. */
  function Window<T>(data: seq<T>, read: nat, n: nat): (w: seq<T>)
    requires read < |data| && n < |data|
    ensures |w| == n
    ensures forall i :: 0 <= i < n ==> w[i] == data[Slot(read, i, |data|)]
  {
    seq(n, i requires 0 <= i < n => data[Slot(read, i, |data|)])
  }

  /** Dropping the oldest value is what advancing the read position does. */
  lemma {:induction false} WindowConsume<T>(data: seq<T>, read: nat, write: nat)
    requires read < |data| && write < |data| && Unread(read, write, |data|) > 0
    ensures var r := Slot(read, 1, |data|); var n := Unread(read, write, |data|);
      Unread(r, write, |data|) == n - 1 && Window(data, r, n - 1) == Window(data, read, n)[1..]
  {
    var r, n := Slot(read, 1, |data|), Unread(read, write, |data|);
    forall i | 0 <= i < n - 1
      ensures Window(data, r, n - 1)[i] == Window(data, read, n)[1..][i]
    {
      assert Slot(r, i, |data|) == Slot(read, i + 1, |data|);
    }
  }

  /** The slot at the write position holds no unread value, so storing there loses none. */
  lemma {:induction false} WindowStore<T>(data: seq<T>, read: nat, write: nat, value: T)
    requires read < |data| && write < |data|
    ensures forall i :: 0 <= i < Unread(read, write, |data|) ==> Slot(read, i, |data|) != write
    ensures var n := Unread(read, write, |data|); Window(data[write := value], read, n) == Window(data, read, n)
  {
  }

  /** Advancing the write position appends what the slot holds. */
  lemma {:induction false} WindowProduce<T>(data: seq<T>, read: nat, write: nat)
    requires read < |data| && write < |data| && Unread(read, write, |data|) + 1 < |data|
    ensures var w := Slot(write, 1, |data|); var n := Unread(read, write, |data|);
      Unread(read, w, |data|) == n + 1 && Window(data, read, n + 1) == Window(data, read, n) + [data[write]]
  {
  }

  // ----- As an object

  class Buffer<T(0)> {
    const data: array<T>
    var write: nat
    var read: nat

    ghost predicate Valid()
      reads this, data
    {
      data.Length > 1 && write < data.Length && read < data.Length
    }

    ghost function Contents(): (s: seq<T>)
      reads this, data
      requires Valid()
    {
      Window(data[..], read, Unread(read, write, data.Length))
    }

    constructor (capacity: nat)
      requires capacity > 1
      ensures Valid() && fresh(data) && data.Length == capacity && Contents() == []
    {
      data := new T[capacity];
      write, read := 0, 0;
    }

    /** Full means that all but one slot are in use; the value is then dropped. */
    method Produce(value: T) returns (ok: bool)
      requires Valid()
      modifies this`write, data
      ensures Valid()
      ensures ok <==> |old(Contents())| < data.Length - 1
      ensures Contents() == if ok then old(Contents()) + [value] else old(Contents())
    {
      NextSlot(write, data.Length);
      var next := (write + 1) % data.Length;
      if next == read { return false; }
      WindowStore(data[..], read, write, value);
      data[write] := value;
      WindowProduce(data[..], read, write);
      write := next;
      ok := true;
    }

    method Consume(default: T) returns (ok: bool, value: T)
      requires Valid()
      modifies this`read
      ensures Valid()
      ensures ok <==> old(Contents()) != []
      ensures ok ==> value == old(Contents())[0] && Contents() == old(Contents())[1..]
      ensures !ok ==> value == default && Contents() == old(Contents())
    {
      if read == write { return false, default; }
      NextSlot(read, data.Length);
      WindowConsume(data[..], read, write);
      value := data[read];
      read := (read + 1) % data.Length;
      ok := true;
    }

    method Count() returns (n: nat)
      requires Valid()
      ensures n == |Contents()|
    {
      n := if write >= read then write - read else data.Length - read + write;
    }
  }

  // ----- One producer and one consumer, interleaved

  datatype Producer<T> = PIdle | PCheck(value: T, next: nat) | PStore(value: T, next: nat) | PCommit(value: T, next: nat)
  datatype Consumer<T> = CIdle | CCheck | CLoad | CCommit(value: T)

  /** accepted lists the values whose Produce has succeeded, consumed those handed out. */
  datatype Shared<T> = Shared(data: seq<T>, write: nat, read: nat, producer: Producer<T>, consumer: Consumer<T>,
                              accepted: seq<T>, consumed: seq<T>)

  datatype Step<T> = Offer(value: T) | LoadRead | StoreData | StoreWrite | Ask | LoadWrite | LoadData | StoreRead

  predicate Enabled<T>(s: Shared<T>, step: Step<T>) {
    match step
    case Offer(_) => s.producer.PIdle?
    case LoadRead => s.producer.PCheck?
    case StoreData => s.producer.PStore? && s.write < |s.data|
    case StoreWrite => s.producer.PCommit? && s.write < |s.data|
    case Ask => s.consumer.CIdle?
    case LoadWrite => s.consumer.CCheck?
    case LoadData => s.consumer.CLoad? && s.read < |s.data|
    case StoreRead => s.consumer.CCommit?
  }

  function Apply<T>(s: Shared<T>, step: Step<T>): (r: Shared<T>)
    requires |s.data| > 1 && Enabled(s, step)
  {
    match step
    case Offer(value) => s.(producer := PCheck(value, (s.write + 1) % |s.data|))
    case LoadRead =>
      if s.producer.next == s.read then s.(producer := PIdle) else s.(producer := PStore(s.producer.value, s.producer.next))
    case StoreData => s.(data := s.data[s.write := s.producer.value], producer := PCommit(s.producer.value, s.producer.next))
    case StoreWrite => s.(write := s.producer.next, producer := PIdle, accepted := s.accepted + [s.producer.value])
    case Ask => s.(consumer := CCheck)
    case LoadWrite => s.(consumer := if s.read == s.write then CIdle else CLoad)
    case LoadData => s.(consumer := CCommit(s.data[s.read]))
    case StoreRead =>
      s.(read := (s.read + 1) % |s.data|, consumer := CIdle, consumed := s.consumed + [s.consumer.value])
  }

  /** The values accepted and not yet handed out are exactly the unread slots, in order;
      a producer past its check has room, a consumer past its check has a value. */
  ghost predicate Inv<T>(s: Shared<T>) {
    && |s.data| > 1 && s.write < |s.data| && s.read < |s.data|
    && s.accepted == s.consumed + Window(s.data, s.read, Unread(s.read, s.write, |s.data|))
    && (s.producer.PCheck? || s.producer.PStore? || s.producer.PCommit? ==> s.producer.next == Slot(s.write, 1, |s.data|))
    && (s.producer.PStore? || s.producer.PCommit? ==> Unread(s.read, s.write, |s.data|) + 1 < |s.data|)
    && (s.producer.PCommit? ==> s.data[s.write] == s.producer.value)
    && (s.consumer.CLoad? || s.consumer.CCommit? ==> s.read != s.write)
    && (s.consumer.CCommit? ==> s.consumer.value == s.data[s.read])
  }

  lemma {:induction false} ProducerStep<T>(s: Shared<T>, step: Step<T>)
    requires Inv(s) && Enabled(s, step) && (step.Offer? || step.LoadRead? || step.StoreData? || step.StoreWrite?)
    ensures Inv(Apply(s, step))
  {
    hide Window;
    var n := |s.data|;
    NextSlot(s.write, n);
    match step
    case StoreData => WindowStore(s.data, s.read, s.write, s.producer.value);
    case StoreWrite => WindowProduce(s.data, s.read, s.write);
    case LoadRead => assert Unread(s.read, s.write, n) + 1 == n ==> Slot(s.write, 1, n) == s.read;
    case _ =>
  }

  lemma {:induction false} ConsumerStep<T>(s: Shared<T>, step: Step<T>)
    requires Inv(s) && Enabled(s, step) && (step.Ask? || step.LoadWrite? || step.LoadData? || step.StoreRead?)
    ensures Inv(Apply(s, step))
  {
    hide Window;
    if step.StoreRead? {
      NextSlot(s.read, |s.data|);
      WindowConsume(s.data, s.read, s.write);
      var w := Window(s.data, s.read, Unread(s.read, s.write, |s.data|));
      assert w == [s.consumer.value] + w[1..];
    }
  }

  lemma {:induction false} StepKeepsInv<T>(s: Shared<T>, step: Step<T>)
    requires Inv(s) && Enabled(s, step)
    ensures Inv(Apply(s, step))
  {
    hide Inv;
    if step.Offer? || step.LoadRead? || step.StoreData? || step.StoreWrite? {
      ProducerStep(s, step);
    } else {
      ConsumerStep(s, step);
    }
  }

  ghost predicate Init<T>(s: Shared<T>) {
    && |s.data| > 1 && s.write == 0 && s.read == 0 && s.producer == PIdle && s.consumer == CIdle
    && s.accepted == [] && s.consumed == []
  }

  ghost predicate Reaches<T>(s: Shared<T>, steps: seq<Step<T>>, r: Shared<T>)
    requires |s.data| > 1
    decreases |steps|
  {
    if steps == [] then r == s
    else Enabled(s, steps[0]) && |Apply(s, steps[0]).data| > 1 && Reaches(Apply(s, steps[0]), steps[1..], r)
  }

  /** Every value accepted and not yet handed out is still in its slot, and a store that
      the producer is about to make goes to a slot that holds none of them. */
  ghost predicate Intact<T>(r: Shared<T>) {
    && |r.consumed| <= |r.accepted| < |r.consumed| + |r.data| && r.read < |r.data| && r.write < |r.data|
    && forall i :: 0 <= i < |r.accepted| - |r.consumed| ==>
         && r.data[Slot(r.read, i, |r.data|)] == r.accepted[|r.consumed| + i]
         && (r.producer.PStore? || r.producer.PCommit? ==> Slot(r.read, i, |r.data|) != r.write)
  }

  /** In any interleaving: what was handed out is a prefix of what was offered and accepted,
      at most CAPACITY - 1 values are unread, and none of them is overwritten. */
  lemma {:induction false} Interleaved<T>(s: Shared<T>, steps: seq<Step<T>>, r: Shared<T>)
    requires Init(s) && Reaches(s, steps, r)
    ensures r.consumed <= r.accepted
    ensures |r.accepted| - |r.consumed| <= |r.data| - 1
    ensures r.read < |r.data| && r.write < |r.data|
    ensures r.accepted == r.consumed + Window(r.data, r.read, Unread(r.read, r.write, |r.data|))
    ensures Intact(r)
    ensures r.producer.PStore? ==> |r.accepted| - |r.consumed| < |r.data| - 1
    ensures r.consumer.CCommit? ==> r.consumed + [r.consumer.value] <= r.accepted
  {
    hide Inv, Intact, Window, Unread, Slot, Apply, Enabled;
    InitSized(s);
    RunKeepsInv(s, steps, r);
    InvIntact(r);
    InvTells(r);
  }

  /** In any interleaving, an offer is refused exactly if all but one slot hold unread values
      at the moment of the check, and a consumer finds nothing exactly if all that was
      accepted has been handed out. */
  lemma {:induction false} RefusedOnlyWhenFull<T>(s: Shared<T>, steps: seq<Step<T>>, r: Shared<T>)
    requires Init(s) && Reaches(s, steps, r) && |r.data| > 1
    ensures Enabled(r, LoadRead) ==>
      (Apply(r, LoadRead).producer == PIdle <==> |r.accepted| - |r.consumed| == |r.data| - 1)
    ensures Enabled(r, LoadWrite) ==> (Apply(r, LoadWrite).consumer == CIdle <==> r.accepted == r.consumed)
  {
    hide Window;
    RunKeepsInv(s, steps, r);
    var n := Unread(r.read, r.write, |r.data|);
    assert |r.accepted| == |r.consumed| + n;
    assert n == 0 ==> r.accepted == r.consumed + [];
    assert n == 0 <==> r.read == r.write;
    assert n + 1 == |r.data| <==> Slot(r.write, 1, |r.data|) == r.read;
  }

  lemma {:induction false} InitSized<T>(s: Shared<T>)
    requires Init(s)
    ensures |s.data| > 1
  {
  }

  lemma {:induction false} InvTells<T>(r: Shared<T>)
    requires Inv(r)
    ensures r.read < |r.data| && r.write < |r.data|
    ensures r.accepted == r.consumed + Window(r.data, r.read, Unread(r.read, r.write, |r.data|))
    ensures r.producer.PStore? ==> |r.accepted| - |r.consumed| < |r.data| - 1
    ensures r.consumer.CCommit? ==> r.consumed + [r.consumer.value] <= r.accepted
  {
    if r.consumer.CCommit? {
      var w := Window(r.data, r.read, Unread(r.read, r.write, |r.data|));
      assert w[0] == r.consumer.value && r.accepted[|r.consumed|] == w[0];
    }
  }

  lemma {:induction false} InvIntact<T>(r: Shared<T>)
    requires Inv(r)
    ensures Intact(r)
  {
    var n := Unread(r.read, r.write, |r.data|);
    var w := Window(r.data, r.read, n);
    forall i | 0 <= i < |r.accepted| - |r.consumed|
      ensures r.data[Slot(r.read, i, |r.data|)] == r.accepted[|r.consumed| + i] && Slot(r.read, i, |r.data|) != r.write
    {
      assert r.accepted[|r.consumed| + i] == w[i];
    }
  }

  lemma {:induction false} RunKeepsInv<T>(s: Shared<T>, steps: seq<Step<T>>, r: Shared<T>)
    requires |s.data| > 1 && (Init(s) || Inv(s)) && Reaches(s, steps, r)
    ensures Inv(r)
    decreases |steps|
  {
    if steps != [] {
      StepKeepsInv(s, steps[0]);
      RunKeepsInv(Apply(s, steps[0]), steps[1..], r);
    }
  }
}
