/** The ring buffers between the threads of a batch: a buffer with two positions and
    two flags, against the bounded queue it stands for. The calls block while the
    flags say so; each is described from the moment it goes on. */
module Rings {
  import opened Totals

  function Wrapped(k: nat, n: nat): nat {
    if k < n then k else k - n
  }

  lemma NextPosition(k: nat, n: nat)
    requires k < n
    ensures (k + 1) % n == Wrapped(k + 1, n)
  {
  }

  /** `size` entries of the buffer from position `get` on, going round its end. */
  function Window<T>(b: seq<T>, get: nat, size: nat): seq<T>
    requires get < |b| && size <= |b|
  {
    if get + size <= |b| then b[get..get + size] else b[get..] + b[..get + size - |b|]
  }

  lemma WindowSize<T>(b: seq<T>, get: nat, size: nat)
    requires get < |b| && size <= |b|
    ensures |Window(b, get, size)| == size
  {
  }

  lemma WindowPut<T>(b: seq<T>, get: nat, size: nat, value: T)
    requires get < |b| && size < |b|
    ensures Wrapped(get + size, |b|) < |b|
    ensures Window(b[Wrapped(get + size, |b|) := value], get, size + 1) == Window(b, get, size) + [value]
  {
  }

  lemma WindowTake<T>(b: seq<T>, get: nat, size: nat)
    requires get < |b| && 0 < size <= |b|
    ensures Wrapped(get + 1, |b|) < |b|
    ensures Window(b, get, size) == [b[get]] + Window(b, Wrapped(get + 1, |b|), size - 1)
  {
  }

  class Ring<T(0)> {
    const capacity: nat
    const buffer: array<T>
    var put: nat
    var get: nat
    var isempty: bool
    var isfull: bool

    /** Both positions are in range, and the flags tell apart what equal positions
        leave open. */
    ghost predicate Valid()
      reads this
    {
      && capacity >= 1 && buffer.Length == capacity && put < capacity && get < capacity
      && (put == get <==> isempty || isfull) && !(isempty && isfull)
    }

    function Size(): nat
      reads this
      requires Valid()
    {
      if isfull then capacity else if put >= get then put - get else put + capacity - get
    }

    /** The entries, next to be taken first. */
    ghost function Contents(): (s: seq<T>)
      reads this, buffer
      requires Valid()
    {
      Window(buffer[..], get, Size())
    }

    /** ring_init. */
    constructor (capacity: nat)
      requires capacity >= 1
      ensures Valid() && this.capacity == capacity && fresh(buffer) && Contents() == []
    {
      this.capacity := capacity;
      buffer := new T[capacity];
      put, get := 0, 0;
      isempty, isfull := true, false;
    }

    /** The flags say what their names say. */
    lemma Flags()
      requires Valid()
      ensures isempty <==> Contents() == []
      ensures isfull <==> |Contents()| == capacity
      ensures |Contents()| <= capacity
    {
      WindowSize(buffer[..], get, Size());
    }

    /** ring_put, once the ring is not full. */
    method Put(value: T)
      requires Valid() && !isfull
      modifies this`put, this`isempty, this`isfull, buffer
      ensures Valid() && Contents() == old(Contents()) + [value]
    {
      ghost var size, was := Size(), buffer[..];
      WindowPut(was, get, size, value);
      assert put == Wrapped(get + size, capacity);
      NextPosition(put, capacity);
      buffer[put] := value;
      assert buffer[..] == was[put := value];
      put := (put + 1) % capacity;
      if put == get { isfull := true; }
      isempty := false;
      assert Size() == size + 1;
    }

    /** ring_take, once the ring is not empty. */
    method Take() returns (value: T)
      requires Valid() && !isempty
      modifies this`get, this`isempty, this`isfull
      ensures Valid() && old(Contents()) == [value] + Contents()
    {
      ghost var size := Size();
      WindowTake(buffer[..], get, size);
      NextPosition(get, capacity);
      value := buffer[get];
      get := (get + 1) % capacity;
      if put == get { isempty := true; }
      isfull := false;
      assert Size() == size - 1;
    }

    /** ring_take_ifnotempty, which never waits. */
    method TakeIfNotEmpty() returns (value: Option<T>)
      requires Valid()
      modifies this`get, this`isempty, this`isfull
      ensures Valid()
      ensures old(Contents()) == [] ==> value == None && Contents() == []
      ensures old(Contents()) != [] ==> value.Some? && old(Contents()) == [value.value] + Contents()
    {
      if isempty { return None; }
      var taken := Take();
      value := Some(taken);
    }
  }
}
