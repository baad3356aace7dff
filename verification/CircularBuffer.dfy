/** The ring buffer against an unbounded history of which it keeps the newest part. */
module CircularBuffer {
  import opened Common

  /** The last `capacity` elements. */
  function Newest<T>(s: seq<T>, capacity: nat): (r: seq<T>)
    ensures |r| == if |s| <= capacity then |s| else capacity
  {
    if |s| <= capacity then s else s[|s| - capacity..]
  }

  /** Position named by an index: 0 is the oldest element, -1 the newest. */
  function Position(index: int, count: nat): Option<nat> {
    if 0 <= index < count then Some(index)
    else if index < 0 && count + index >= 0 then Some(count + index)
    else None
  }

  datatype Op<T> = Add(item: T) | Write(index: int, value: T)

  /** What an operation does to the buffer's contents. */
  function Apply<T>(contents: seq<T>, capacity: nat, op: Op<T>): seq<T> {
    match op
    case Add(x) => Newest(contents + [x], capacity)
    case Write(i, x) => if Position(i, |contents|).Some? then contents[Position(i, |contents|).value := x] else contents
  }

  /** The same operation on the unbounded history: an index still counts within the newest part. */
  function ApplyToHistory<T>(history: seq<T>, capacity: nat, op: Op<T>): seq<T> {
    match op
    case Add(x) => history + [x]
    case Write(i, x) =>
      var kept := |Newest(history, capacity)|;
      if Position(i, kept).Some? then history[|history| - kept + Position(i, kept).value := x] else history
  }

  function Run<T>(contents: seq<T>, capacity: nat, ops: seq<Op<T>>): seq<T> {
    if ops == [] then contents else Apply(Run(contents, capacity, ops[..|ops| - 1]), capacity, ops[|ops| - 1])
  }

  function History<T>(capacity: nat, ops: seq<Op<T>>): seq<T> {
    if ops == [] then [] else ApplyToHistory(History(capacity, ops[..|ops| - 1]), capacity, ops[|ops| - 1])
  }

  /** After any adds and writes, the buffer is the newest part of the history. */
  lemma {:induction false} BufferIsNewestHistory<T>(capacity: nat, ops: seq<Op<T>>)
    requires capacity > 0
    ensures Run([], capacity, ops) == Newest(History(capacity, ops), capacity)
  {
    if ops != [] {
      var before, op := ops[..|ops| - 1], ops[|ops| - 1];
      BufferIsNewestHistory(capacity, before);
      OneStep(History(capacity, before), capacity, op);
    }
  }

  lemma OneStep<T>(history: seq<T>, capacity: nat, op: Op<T>)
    requires capacity > 0
    ensures Apply(Newest(history, capacity), capacity, op) == Newest(ApplyToHistory(history, capacity, op), capacity)
  {
  }

  /** Adding `items` one after the other keeps exactly the last `capacity` of them. */
  lemma {:induction false} AddsKeepNewest<T>(capacity: nat, items: seq<T>)
    requires capacity > 0
    ensures Run([], capacity, seq(|items|, i requires 0 <= i < |items| => Op.Add(items[i]))) == Newest(items, capacity)
  {
    var ops := seq(|items|, i requires 0 <= i < |items| => Op.Add(items[i]));
    if items != [] {
      var before := items[..|items| - 1];
      AddsKeepNewest(capacity, before);
      assert ops[..|ops| - 1] == seq(|before|, i requires 0 <= i < |before| => Op.Add(before[i]));
      OneStep(before, capacity, Op.Add(items[|items| - 1]));
      assert before + [items[|items| - 1]] == items;
    }
  }

  lemma WrapOnce(head: nat, i: nat, capacity: nat)
    requires head < capacity && i <= capacity
    ensures (head + i) % capacity == if head + i < capacity then head + i else head + i - capacity
  {
    if head + i >= capacity {
      assert (head + i) % capacity == (head + i - capacity) % capacity;
    }
  }

  lemma StepRound(k: nat, capacity: nat)
    requires k < capacity
    ensures (k + 1) % capacity == Slot(k, 1, capacity)
  {
    WrapOnce(k, 1, capacity);
  }

  /** The array index of logical position `i`, with the one wrap it can need written out. */
  function Slot(head: nat, i: nat, capacity: nat): (k: nat)
    requires head < capacity && i <= capacity
    ensures k < capacity
  {
    if head + i < capacity then head + i else head + i - capacity
  }

  /** The `count` elements starting at `head`, going round the end of the array. */
  function Window<T>(a: seq<T>, head: nat, count: nat): (w: seq<T>)
    requires head < |a| && count <= |a|
    ensures |w| == count && forall i :: 0 <= i < count ==> w[i] == a[Slot(head, i, |a|)]
  {
    seq(count, i requires 0 <= i < count => a[Slot(head, i, |a|)])
  }

  /** Writing behind the newest element: the window grows, or moves on by one when it is full. */
  lemma WindowAfterAdd<T>(a: seq<T>, head: nat, count: nat, x: T)
    requires head < |a| && count <= |a|
    ensures var b := a[Slot(head, count, |a|) := x];
            Newest(Window(a, head, count) + [x], |a|) ==
            if count < |a| then Window(b, head, count + 1) else Window(b, Slot(head, 1, |a|), count)
  {
    var b := a[Slot(head, count, |a|) := x];
    if count < |a| {
      assert Newest(Window(a, head, count) + [x], |a|) == Window(a, head, count) + [x];
      assert Window(b, head, count + 1) == Window(a, head, count) + [x];
    } else {
      assert Window(b, Slot(head, 1, |a|), count) == Window(a, head, count)[1..] + [x];
    }
  }

  lemma WindowAfterWrite<T>(a: seq<T>, head: nat, count: nat, i: nat, x: T)
    requires head < |a| && i < count <= |a|
    ensures Window(a[Slot(head, i, |a|) := x], head, count) == Window(a, head, count)[i := x]
  {
  }

  class RingBuffer<T(0)> {
    const buffer: array<T>
    var head: nat
    var tail: nat
    var count: nat

    constructor (capacity: nat)
      requires capacity > 0
      ensures Valid() && Contents() == [] && buffer.Length == capacity && fresh(buffer)
    {
      buffer := new T[capacity];
      head, tail, count := 0, 0, 0;
    }

    /** The public constructor: a capacity that is not positive is an exception. */
    static method Create(capacity: int) returns (r: Option<RingBuffer<T>>)
      ensures r.Some? <==> capacity > 0
      ensures r.Some? ==> fresh(r.value) && r.value.Valid() && r.value.Contents() == [] && r.value.buffer.Length == capacity
    {
      if capacity <= 0 {
        return None;
      }
      var b := new RingBuffer<T>(capacity);
      return Some(b);
    }

    ghost predicate Valid()
      reads this
    {
      && head < buffer.Length && count <= buffer.Length
      && tail == Slot(head, count, buffer.Length)
    }

    ghost function Contents(): (s: seq<T>)
      requires Valid()
      reads this, buffer
      ensures |s| == count
    {
      Window(buffer[..], head, count)
    }

    /** One step round the array. */
    static method Advance(index: nat, capacity: nat) returns (next: nat)
      requires index < capacity
      ensures next == Slot(index, 1, capacity)
    {
      StepRound(index, capacity);
      next := (index + 1) % capacity;
    }

    method Add(item: T)
      requires Valid()
      modifies this, buffer
      ensures Valid() && Contents() == Apply(old(Contents()), buffer.Length, Op.Add(item))
      ensures Contents() == (if |old(Contents())| < buffer.Length then old(Contents()) else old(Contents())[1..]) + [item]
    {
      ghost var before := buffer[..];
      WindowAfterAdd(before, head, count, item);
      buffer[tail] := item;
      assert buffer[..] == before[tail := item];
      tail := Advance(tail, buffer.Length);
      if count < buffer.Length {
        count := count + 1;
      } else {
        head := Advance(head, buffer.Length);
      }
    }

    method ToArray() returns (result: array<T>)
      requires Valid()
      ensures fresh(result) && result[..] == Contents()
    {
      result := new T[count];
      for i := 0 to count
        invariant result[..i] == Contents()[..i]
      {
        WrapOnce(head, i, buffer.Length);
        result[i] := buffer[(head + i) % buffer.Length];
      }
    }

    /** The indexer's getter; an index out of range is an exception. */
    method Get(index: int) returns (value: Outcome<T>)
      requires Valid()
      ensures 0 <= index < |Contents()| ==> value == Ok(Contents()[index])
      ensures -|Contents()| <= index < 0 ==> value == Ok(Contents()[|Contents()| + index])
      ensures value.Failed? <==> index >= |Contents()| || -index > |Contents()|
    {
      if count == 0 {
        return Failed;
      }
      var i := index;
      if i < 0 {
        i := count + i;
        if i < 0 {
          return Failed;
        }
      }
      if i >= count || i < 0 {
        return Failed;
      }
      WrapOnce(head, i, buffer.Length);
      return Ok(buffer[(head + i) % buffer.Length]);
    }

    /** The indexer's setter. */
    method Set(index: int, value: T) returns (ok: bool)
      requires Valid()
      modifies buffer
      ensures Valid() && Contents() == Apply(old(Contents()), buffer.Length, Write(index, value))
      ensures ok <==> -|old(Contents())| <= index < |old(Contents())|
      ensures |Contents()| == |old(Contents())|
      ensures forall k :: 0 <= k < |Contents()| ==>
                Contents()[k] == if k == index || k == |Contents()| + index then value else old(Contents())[k]
    {
      if count == 0 {
        return false;
      }
      var i := index;
      if i < 0 {
        i := count + i;
        if i < 0 {
          return false;
        }
      }
      if i >= count || i < 0 {
        return false;
      }
      WrapOnce(head, i, buffer.Length);
      WindowAfterWrite(buffer[..], head, count, i, value);
      ghost var before := buffer[..];
      var slot := (head + i) % buffer.Length;
      assert slot == Slot(head, i, buffer.Length);
      buffer[slot] := value;
      assert buffer[..] == before[slot := value];
      return true;
    }
  }
}
