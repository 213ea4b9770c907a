/** internal/model/ringbuffer.go: a circular buffer that refines "the last capacity packets". */
module RingBuffers {
  import opened Base

  /** The array slot of the i-th oldest element, i.e. (readIdx + i) % capacity. */
  function Slot(readIdx: nat, i: nat, capacity: nat): nat {
    if readIdx + i < capacity then readIdx + i else readIdx + i - capacity
  }

  lemma SlotIsModulo(readIdx: nat, i: nat, capacity: nat)
    requires readIdx < capacity && i <= capacity
    ensures (readIdx + i) % capacity == Slot(readIdx, i, capacity) < capacity
  {
    var x := readIdx + i;
    if x < capacity {
      SmallModulo(x, capacity);
    } else {
      SmallModulo(x - capacity, capacity);
      assert x % capacity == (x - capacity) % capacity by {
        ShiftModulo(x - capacity, capacity);
      }
    }
  }

  lemma SmallModulo(x: nat, m: nat)
    requires x < m
    ensures x % m == x
  {
  }

  lemma TwiceAtMost(q: nat, m: nat)
    ensures q >= 2 ==> q * m >= 2 * m
  {
  }

  lemma ShiftModulo(x: nat, m: nat)
    requires 0 < m && x < m
    ensures (x + m) % m == x % m
  {
    var q, r := (x + m) / m, (x + m) % m;
    assert x + m == q * m + r;
    TwiceAtMost(q, m);
    assert q == 1;
  }

  /** The records a reader sees: nil entries are skipped. */
  function NonNil<T>(s: seq<Option<T>>): seq<T> {
    if s == [] then []
    else NonNil(Front(s)) + (if Last(s).Some? then [Last(s).value] else [])
  }

  /** NonNil drops the nil entries and keeps the others in order. */
  lemma {:induction false} NonNilAppend<T>(s: seq<Option<T>>, t: seq<Option<T>>)
    ensures NonNil(s + t) == NonNil(s) + NonNil(t)
    ensures forall x: T :: NonNil([Some(x)]) == [x]
    ensures NonNil<T>([None]) == []
    decreases |t|
  {
    if t == [] {
      assert s + t == s;
    } else {
      assert Front(s + t) == s + Front(t) && Last(s + t) == Last(t);
      NonNilAppend(s, Front(t));
    }
  }

  /** The newest n elements: element i of the window is the one |window| - i places from the end. */
  lemma LastNSpelled<T>(s: seq<T>, n: nat)
    ensures |LastN(s, n)| == if |s| <= n then |s| else n
    ensures forall i | 0 <= i < |LastN(s, n)| :: LastN(s, n)[i] == s[|s| - |LastN(s, n)| + i]
  {
  }

  /** One more packet slides the window by at most one position. */
  lemma LastNSnoc<T>(s: seq<T>, x: T, n: nat)
    requires n > 0
    ensures LastN(s + [x], n) == (if |LastN(s, n)| < n then LastN(s, n) else LastN(s, n)[1..]) + [x]
  {
  }

  /** The count latest elements of added, oldest first, from slot readIdx on. */
  ghost predicate Holds<T>(slots: seq<T>, readIdx: nat, count: nat, added: seq<T>)
    requires readIdx < |slots| && count <= |slots| && count <= |added|
  {
    forall i | 0 <= i < count :: slots[Slot(readIdx, i, |slots|)] == added[|added| - count + i]
  }

  /** Writing the next slot and moving the read index once the buffer is full. */
  lemma StoreOne<T>(slots: seq<T>, readIdx: nat, count: nat, added: seq<T>, x: T)
    requires readIdx < |slots| && count == Min(|added|, |slots|) && Holds(slots, readIdx, count, added)
    ensures var n := |slots|;
            var writeIdx := Slot(readIdx, count, n);
            var (readIdx', count') := if count < n then (readIdx, count + 1) else (Slot(readIdx, 1, n), n);
            && writeIdx < n && readIdx' < n
            && Slot(writeIdx, 1, n) == Slot(readIdx', count', n)
            && Holds(slots[writeIdx := x], readIdx', count', added + [x])
  {
    var n := |slots|;
    var writeIdx := Slot(readIdx, count, n);
    var (readIdx', count') := if count < n then (readIdx, count + 1) else (Slot(readIdx, 1, n), n);
    forall i | 0 <= i < count'
      ensures slots[writeIdx := x][Slot(readIdx', i, n)] == (added + [x])[|added| + 1 - count' + i]
    {
      if i < count' - 1 {
        var j := if count < n then i else i + 1;
        assert Slot(readIdx', i, n) == Slot(readIdx, j, n) != writeIdx;
      } else {
        assert Slot(readIdx', i, n) == writeIdx;
      }
    }
  }

  class RingBuffer<T> {
    var packets: array<Option<T>>
    var capacity: nat
    var writeIdx: nat
    var readIdx: nat
    var count: nat

    /** Everything added since construction or the last Clear. */
    ghost var added: seq<Option<T>>
    ghost var Repr: set<object>

    ghost predicate Valid()
      reads this, Repr
      ensures Valid() ==> this in Repr
    {
      && Repr == {this, packets}
      && packets.Length == capacity
      && count == Min(|added|, capacity)
      && (capacity == 0 ==> writeIdx == readIdx == 0)
      && (capacity > 0 ==> readIdx < capacity && writeIdx == Slot(readIdx, count, capacity))
      && (capacity > 0 ==> Holds(packets[..], readIdx, count, added))
    }

    /** The retained elements, oldest first. */
    ghost function Window(): seq<Option<T>>
      reads this
    {
      LastN(added, capacity)
    }

    constructor (capacity: nat)
      ensures Valid() && fresh(Repr)
      ensures this.capacity == capacity && added == []
    {
      this.packets := new Option<T>[capacity](_ => None);
      this.capacity := capacity;
      this.writeIdx := 0;
      this.readIdx := 0;
      this.count := 0;
      this.added := [];
      new;
      Repr := {this, packets};
    }

    /** With capacity 0 the Go code would index an empty slice, hence the precondition. */
    method Add(pkt: Option<T>)
      requires Valid() && capacity > 0
      modifies Repr
      ensures Valid() && Repr == old(Repr)
      ensures capacity == old(capacity) && added == old(added) + [pkt]
      ensures Window() == (if |old(Window())| < capacity then old(Window()) else old(Window())[1..]) + [pkt]
    {
      LastNSnoc(added, pkt, capacity);
      hide LastN, Slot, Holds;
      ghost var before := packets[..];
      StoreOne(before, readIdx, count, added, pkt);
      SlotIsModulo(writeIdx, 1, capacity);
      SlotIsModulo(readIdx, 1, capacity);
      packets[writeIdx] := pkt;
      writeIdx := (writeIdx + 1) % capacity;
      if count < capacity {
        count := count + 1;
      } else {
        readIdx := (readIdx + 1) % capacity;
      }
      added := added + [pkt];
      assert packets[..] == before[old(writeIdx) := pkt];
    }

    /** The retained packets, oldest first. */
    method GetAll() returns (result: seq<T>)
      requires Valid()
      ensures result == NonNil(Window())
    {
      var snapshot := packets[..];
      if count == 0 {
        return [];
      }
      result := [];
      ghost var window := Window();
      var i := 0;
      while i < count
        invariant 0 <= i <= count == |window|
        invariant result == NonNil(window[..i])
      {
        SlotIsModulo(readIdx, i, capacity);
        var pos := (readIdx + i) % capacity;
        FrontLast(window[..i], window[i]);
        assert window[..i + 1] == window[..i] + [window[i]];
        if snapshot[pos].Some? {
          result := result + [snapshot[pos].value];
        }
        i := i + 1;
      }
      assert window[..count] == window;
    }

    method Len() returns (n: nat)
      requires Valid()
      ensures n == Min(|added|, capacity) == |Window()|
    {
      n := count;
    }

    method Clear()
      requires Valid()
      modifies Repr
      ensures Valid() && fresh(Repr - old(Repr))
      ensures capacity == old(capacity) && added == []
    {
      packets := new Option<T>[capacity](_ => None);
      writeIdx := 0;
      readIdx := 0;
      count := 0;
      added := [];
      Repr := {this, packets};
    }
  }

  lemma {:induction false} NonNilOfSome<T>(s: seq<Option<T>>)
    requires forall x <- s :: x.Some?
    ensures |NonNil(s)| == |s|
    ensures forall i | 0 <= i < |s| :: NonNil(s)[i] == s[i].value
  {
    if s != [] {
      NonNilOfSome(Front(s));
    }
  }
}
