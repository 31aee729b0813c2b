/** The growable ring buffer of src/core/co_queue.c, refined to a sequence. */
module Queue {
  import opened Machine

  const DEFAULT_CAPACITY: nat := 8

  /** Where position k of the queue lies in the buffer. */
  function Wrapped(head: nat, k: nat, capacity: nat): (i: nat)
    requires head < capacity && k <= capacity
    ensures i < capacity
  {
    if head + k < capacity then head + k else head + k - capacity
  }

  /** One past the last element that growth writes: the stretch from the head to the end of the old
      buffer, then everything before the tail, whether the contents wrap or not. */
  function GrowthExtent(capacity: nat, head: nat, tail: nat): nat
    requires head < capacity
  {
    capacity - head + tail
  }

  /** Doubling is always enough for both copies; smaller growth is enough exactly down to the extent,
      which reaches past the old capacity whenever the contents do not wrap. */
  lemma DoublingFits(capacity: nat, head: nat, count: nat, newCapacity: nat)
    requires head < capacity && count <= capacity
    ensures var tail := Wrapped(head, count, capacity);
            && (newCapacity >= 2 * capacity ==> GrowthExtent(capacity, head, tail) <= newCapacity)
            && (GrowthExtent(capacity, head, tail) > capacity <==> head < tail)
  {
  }

  class Queue<T(0)> {
    var buffer: array<T>
    var capacity: nat
    var count: nat
    var head: nat
    var tail: nat

    ghost predicate Valid()
      reads this
    {
      && buffer.Length == capacity > 0
      && head < capacity && count <= capacity
      && tail == Wrapped(head, count, capacity)
    }

    /** The elements in FIFO order. */
    ghost function Contents(): (s: seq<T>)
      requires Valid()
      reads this, buffer
      ensures |s| == count
      ensures forall k :: 0 <= k < count ==> s[k] == buffer[Wrapped(head, k, capacity)]
    {
      if head + count <= capacity then buffer[head..head + count]
      else buffer[head..] + buffer[..head + count - capacity]
    }

    constructor (initialCapacity: nat)
      ensures Valid() && fresh(buffer) && Contents() == []
    {
      var c := if initialCapacity == 0 then DEFAULT_CAPACITY else initialCapacity;
      buffer := new T[c];
      capacity := c;
      count, head, tail := 0, 0, 0;
    }

    method Clear()
      requires Valid()
      modifies this
      ensures Valid() && buffer == old(buffer) && Contents() == []
    {
      count, head, tail := 0, 0, 0;
    }

    method GetCount() returns (n: nat)
      requires Valid()
      ensures n == |Contents()|
    {
      n := count;
    }

    /** Whether both copies stay inside the new buffer; nothing is claimed about the queue if not. */
    method SetCapacity(newCapacity: nat) returns (inside: bool)
      requires Valid()
      modifies this
      ensures inside <==> newCapacity <= old(capacity) || old(GrowthExtent(capacity, head, tail)) <= newCapacity
      ensures inside ==> Valid() && Contents() == old(Contents())
      ensures inside ==> capacity == if newCapacity > old(capacity) then newCapacity else old(capacity)
      ensures inside && newCapacity > old(capacity) ==> fresh(buffer)
      ensures newCapacity <= old(capacity) ==> buffer == old(buffer)
    {
      if capacity >= newCapacity {
        return true;
      }
      if capacity - head + tail > newCapacity {
        return false;
      }
      Grow(newCapacity);
      inside := true;
    }

    method Grow(newCapacity: nat)
      requires Valid() && newCapacity > capacity && GrowthExtent(capacity, head, tail) <= newCapacity
      modifies this
      ensures Valid() && Contents() == old(Contents()) && capacity == newCapacity && fresh(buffer)
    {
      hide Contents;
      ghost var contents := Contents();
      var newBuffer := new T[newCapacity];
      var count1 := capacity - head;
      forall i | 0 <= i < count1 {
        newBuffer[i] := buffer[head + i];
      }
      var count2 := tail;
      if count2 > 0 {
        forall i | 0 <= i < count2 {
          newBuffer[count1 + i] := buffer[i];
        }
      }
      forall k | 0 <= k < count ensures newBuffer[k] == contents[k] {
        assert contents[k] == buffer[Wrapped(head, k, capacity)];
      }
      capacity := newCapacity;
      buffer := newBuffer;
      head := 0;
      tail := count;
      assert forall k :: 0 <= k < count ==> Contents()[k] == buffer[Wrapped(0, k, capacity)] == contents[k];
    }

    method Push(value: T)
      requires Valid()
      modifies this, buffer
      ensures Valid() && (buffer == old(buffer) || fresh(buffer))
      ensures Contents() == old(Contents()) + [value]
    {
      hide Contents;
      ghost var contents := Contents();
      if capacity == count {
        var _ := SetCapacity(capacity * 2);
      }
      buffer[tail] := value;
      tail := tail + 1;
      if capacity == tail {
        tail := 0;
      }
      count := count + 1;
      assert Contents() == contents + [value];
    }

    method Pop() returns (ok: bool, value: Option<T>)
      requires Valid()
      modifies this
      ensures Valid() && buffer == old(buffer)
      ensures ok == (old(Contents()) != []) && ok == value.Some?
      ensures if ok then value.value == old(Contents())[0] && Contents() == old(Contents())[1..] else Contents() == []
    {
      if count == 0 {
        return false, None;
      }
      value := Some(buffer[head]);
      head := head + 1;
      if capacity == head {
        head := 0;
      }
      count := count - 1;
      ok := true;
    }

    /** The two-part copy behind the tail, once there is room. */
    method CopyIn(values: seq<T>)
      requires Valid() && count + |values| <= capacity
      modifies buffer
      ensures forall k :: 0 <= k < count ==> buffer[Wrapped(head, k, capacity)] == old(buffer[Wrapped(head, k, capacity)])
      ensures forall k :: 0 <= k < |values| ==> buffer[Wrapped(head, count + k, capacity)] == values[k]
    {
      var n := |values|;
      if capacity >= tail + n {
        forall i | 0 <= i < n {
          buffer[tail + i] := values[i];
        }
      } else {
        var rest := capacity - tail;
        forall i | 0 <= i < rest {
          buffer[tail + i] := values[i];
        }
        forall i | 0 <= i < n - rest {
          buffer[i] := values[rest + i];
        }
      }
    }

    method PushArray(values: seq<T>)
      requires Valid()
      modifies this, buffer
      ensures Valid() && (buffer == old(buffer) || fresh(buffer))
      ensures Contents() == old(Contents()) + values
    {
      hide Contents;
      var n := |values|;
      if capacity < count + n {
        var newCapacity := capacity * 2;
        while newCapacity < count + n
          invariant newCapacity >= 2 * capacity
          decreases count + n - newCapacity
        {
          newCapacity := newCapacity * 2;
        }
        var _ := SetCapacity(newCapacity);
      }
      CopyIn(values);
      tail := tail + n;
      if capacity <= tail {
        tail := tail - capacity;
      }
      count := count + n;
    }

    /** Copies out up to n elements from the front without removing them. */
    method PeekArray(dest: array<T>, n: nat) returns (copied: nat)
      requires Valid() && dest != buffer && dest.Length >= Min(n, |Contents()|)
      modifies dest
      ensures Valid() && Contents() == old(Contents())
      ensures copied == Min(n, |Contents()|) && dest[..copied] == Contents()[..copied]
    {
      if count == 0 {
        return 0;
      }
      copied := Min(n, count);
      if capacity >= head + copied {
        forall i | 0 <= i < copied {
          dest[i] := buffer[head + i];
        }
      } else {
        var rest := capacity - head;
        forall i | 0 <= i < rest {
          dest[i] := buffer[head + i];
        }
        forall i | 0 <= i < copied - rest {
          dest[rest + i] := buffer[i];
        }
      }
    }

    method Remove(n: nat)
      requires Valid()
      modifies this
      ensures Valid() && buffer == old(buffer)
      ensures Contents() == old(Contents())[Min(n, |old(Contents())|)..]
    {
      if count == 0 {
        return;
      }
      var k := Min(n, count);
      head := head + k;
      if capacity <= head {
        head := head - capacity;
      }
      count := count - k;
    }

    method PopArray(dest: array<T>, n: nat) returns (popped: nat)
      requires Valid() && dest != buffer && dest.Length >= Min(n, |Contents()|)
      modifies this, dest
      ensures Valid() && buffer == old(buffer)
      ensures popped == Min(n, |old(Contents())|)
      ensures dest[..popped] == old(Contents())[..popped] && Contents() == old(Contents())[popped..]
    {
      popped := PeekArray(dest, n);
      Remove(popped);
    }

    /** The earliest element in FIFO order that matches, as a buffer index and as a queue position. */
    method Find(matches: T -> bool) returns (found: bool, index: nat, ghost k: nat)
      requires Valid()
      ensures found ==> k < |Contents()| && index == Wrapped(head, k, capacity)
                        && matches(Contents()[k]) && forall j :: 0 <= j < k ==> !matches(Contents()[j])
      ensures !found ==> forall j :: 0 <= j < |Contents()| ==> !matches(Contents()[j])
    {
      index, k := 0, 0;
      if count == 0 {
        return false, index, k;
      }
      ghost var s := Contents();
      var end := if head >= tail then capacity else tail;
      index := head;
      while index < end
        invariant head <= index <= end && k == index - head <= count
        invariant forall j :: 0 <= j < k ==> !matches(s[j])
      {
        assert buffer[index] == s[k];
        if matches(buffer[index]) {
          return true, index, k;
        }
        index := index + 1;
        k := k + 1;
      }
      if head >= tail {
        end := tail;
        index := 0;
        while index < end
          invariant index <= end && k == capacity - head + index <= count
          invariant forall j :: 0 <= j < k ==> !matches(s[j])
        {
          assert buffer[index] == s[k];
          if matches(buffer[index]) {
            return true, index, k;
          }
          index := index + 1;
          k := k + 1;
        }
      }
      found := false;
    }

    /** A write through the address that `Find` returned. */
    method SetAt(index: nat, value: T, ghost k: nat)
      requires Valid() && k < |Contents()| && index == Wrapped(head, k, capacity)
      modifies buffer
      ensures Valid() && Contents() == old(Contents())[k := value]
    {
      buffer[index] := value;
    }
  }
}
