/** The ring buffer of health check results. */
module HealthHistory {
  import opened Arith

  datatype Result = Result(status: int, checkTime: int, responseTime: real, errorMessage: string)

  /** What a slot holds before anything is stored in it. */
  const ZEROED := Result(0, 0, 0.0, "")

  const DEFAULT_CAPACITY := 100

  datatype Ring = Ring(slots: seq<Result>, index: nat, count: nat)

  function Empty(capacity: nat): Ring {
    Ring(seq(capacity, _ => ZEROED), 0, 0)
  }

  ghost predicate Shaped(ring: Ring) {
    ring.index < |ring.slots| && ring.count <= |ring.slots|
  }

  /** One result more. */
  function Added(ring: Ring, result: Result): (r: Ring)
    requires Shaped(ring)
    ensures Shaped(r) && |r.slots| == |ring.slots|
  {
    var capacity := |ring.slots|;
    Ring(ring.slots[ring.index := result], (ring.index + 1) % capacity,
         if ring.count < capacity then ring.count + 1 else ring.count)
  }

  function After(capacity: nat, results: seq<Result>): (r: Ring)
    requires capacity > 0
    ensures Shaped(r) && |r.slots| == capacity
  {
    if results == [] then Empty(capacity) else Added(After(capacity, results[..|results| - 1]), results[|results| - 1])
  }

  /** The slots in the order `get_all` lists them; later additions write to the same slots. */
  function Listed(ring: Ring): (slots: seq<nat>)
    requires Shaped(ring)
    ensures |slots| == ring.count && forall i :: 0 <= i < |slots| ==> slots[i] < |ring.slots|
  {
    seq(ring.count, i requires 0 <= i < ring.count =>
      (ring.index - ring.count + i + |ring.slots|) % |ring.slots|)
  }

  function LatestSlot(ring: Ring): (slot: nat)
    requires Shaped(ring)
    ensures slot < |ring.slots|
  {
    (ring.index - 1 + |ring.slots|) % |ring.slots|
  }

  function Kept(capacity: nat, n: nat): nat {
    if n < capacity then n else capacity
  }

  /** Result number k is in slot k mod capacity. */
  predicate InSlot(ring: Ring, results: seq<Result>, k: nat)
    requires Shaped(ring) && k < |results|
  {
    ring.slots[k % |ring.slots|] == results[k]
  }

  lemma SlotsDiffer(capacity: nat, j: nat, k: nat)
    requires j < k < j + capacity
    ensures j % capacity != k % capacity
  {
    var q := k / capacity - j / capacity;
    Distribute(k / capacity, -(j / capacity), capacity);
    TimesMonotone(q, 0, capacity);
    TimesMonotone(1, q, capacity);
  }

  /** After any run of additions the cursor, the count and the newest results are where they belong. */
  lemma {:induction false} Placed(capacity: nat, results: seq<Result>)
    requires capacity > 0
    ensures var ring := After(capacity, results);
            && ring.index == |results| % capacity && ring.count == Kept(capacity, |results|)
            && forall k: nat :: |results| - capacity <= k < |results| ==> InSlot(ring, results, k)
    decreases |results|
  {
    if results != [] {
      var n := |results| - 1;
      var before, earlier := After(capacity, results[..n]), results[..n];
      Placed(capacity, earlier);
      NextRemainder(n, capacity);
      WrapIsRemainder(n % capacity + 1, capacity);
      forall k: nat | |results| - capacity <= k < |results| ensures InSlot(After(capacity, results), results, k) {
        if k < n { StillThere(before, earlier, results[n], k); }
      }
    }
  }

  /** An addition overwrites none of the capacity - 1 newest results. */
  lemma StillThere(ring: Ring, results: seq<Result>, result: Result, k: nat)
    requires Shaped(ring) && ring.index == |results| % |ring.slots|
    requires k < |results| < k + |ring.slots| && InSlot(ring, results, k)
    ensures InSlot(Added(ring, result), results + [result], k)
  {
    SlotsDiffer(|ring.slots|, k, |results|);
  }

  /** `get_all` lists exactly the last min(n, capacity) results, oldest first, from distinct slots. */
  lemma {:induction false} ListsTheLast(capacity: nat, results: seq<Result>)
    requires capacity > 0
    ensures var ring, kept := After(capacity, results), Kept(capacity, |results|);
            && |Listed(ring)| == kept
            && (forall i :: 0 <= i < kept ==> ring.slots[Listed(ring)[i]] == results[|results| - kept + i])
            && forall i, j :: 0 <= i < j < kept ==> Listed(ring)[i] != Listed(ring)[j]
  {
    var ring, kept := After(capacity, results), Kept(capacity, |results|);
    Placed(capacity, results);
    forall i | 0 <= i < kept
      ensures Listed(ring)[i] == (|results| - kept + i) % capacity
      ensures ring.slots[Listed(ring)[i]] == results[|results| - kept + i]
    {
      SlotOf(capacity, |results|, kept - i);
      assert InSlot(ring, results, |results| - kept + i);
    }
    forall i, j | 0 <= i < j < kept ensures Listed(ring)[i] != Listed(ring)[j] {
      SlotsDiffer(capacity, |results| - kept + i, |results| - kept + j);
    }
  }

  /** Going back from the cursor. */
  lemma SlotOf(capacity: nat, n: nat, back: nat)
    requires 0 < back <= capacity && back <= n
    ensures (n % capacity - back + capacity) % capacity == (n - back) % capacity
  {
    var q, x := n / capacity, n % capacity - back + capacity;
    assert n - back + capacity == capacity * q + x;
    if x < capacity {
      Distribute(q, -1, capacity);
      DivModUnique(n - back, q - 1, x, capacity);
    } else {
      DivModUnique(n - back, q, x - capacity, capacity);
      DivModUnique(x, 1, x - capacity, capacity);
    }
  }

  lemma LatestIsLast(capacity: nat, results: seq<Result>)
    requires capacity > 0 && results != []
    ensures var ring := After(capacity, results); ring.slots[LatestSlot(ring)] == results[|results| - 1]
  {
    Placed(capacity, results);
    SlotOf(capacity, |results|, 1);
    assert InSlot(After(capacity, results), results, |results| - 1);
  }

  /** A listed slot keeps its result through fewer than `capacity` further additions counted from that result, and
      shows another one's after exactly that many. */
  lemma ListedResultLasts(capacity: nat, results: seq<Result>, k: nat)
    requires capacity > 0 && k < |results| <= k + capacity + 1
    ensures After(capacity, results).slots[k % capacity]
         == if |results| <= k + capacity then results[k] else results[k + capacity]
  {
    Placed(capacity, results);
    if |results| <= k + capacity {
      assert InSlot(After(capacity, results), results, k);
    } else {
      NextTurn(k, capacity);
      assert InSlot(After(capacity, results), results, k + capacity);
    }
  }

  lemma NextTurn(k: nat, capacity: nat)
    requires capacity > 0
    ensures (k + capacity) % capacity == k % capacity
  {
    Distribute(k / capacity, 1, capacity);
    DivModUnique(k + capacity, k / capacity + 1, k % capacity, capacity);
  }

  class History {
    const results: array<Result>
    var index: nat
    var count: nat
    ghost var added: seq<Result>

    ghost function Contents(): Ring
      reads this, results
    {
      Ring(results[..], index, count)
    }

    ghost predicate Valid()
      reads this, results
    {
      results.Length > 0 && Contents() == After(results.Length, added)
    }

    constructor (capacity: int)
      ensures Valid() && added == [] && fresh(results)
      ensures results.Length == if capacity <= 0 then DEFAULT_CAPACITY else capacity
    {
      var size: nat := if capacity <= 0 then DEFAULT_CAPACITY else capacity;
      results := new Result[size](_ => ZEROED);
      index, count, added := 0, 0, [];
    }

    method Add(result: Result)
      requires Valid()
      modifies this, results
      ensures Valid() && added == old(added) + [result]
      ensures Contents() == Added(old(Contents()), result)
    {
      results[index] := result;
      index := (index + 1) % results.Length;
      if count < results.Length {
        count := count + 1;
      }
      added := added + [result];
      assert added[..|added| - 1] == old(added);
    }

    /** The slot of the newest result, or -1 when nothing was added. */
    method GetLatest() returns (slot: int)
      requires Valid()
      ensures slot == -1 <==> added == []
      ensures slot != -1 ==> 0 <= slot < results.Length && results[slot] == added[|added| - 1]
    {
      Placed(results.Length, added);
      if count == 0 { return -1; }
      LatestIsLast(results.Length, added);
      slot := (index - 1 + results.Length) % results.Length;
    }

    /** The slots of the kept results, oldest first. */
    method GetAll() returns (slots: array<nat>)
      requires Valid()
      ensures slots.Length == Kept(results.Length, |added|) && fresh(slots)
      ensures forall i :: 0 <= i < slots.Length ==>
        slots[i] < results.Length && results[slots[i]] == added[|added| - slots.Length + i]
    {
      ListsTheLast(results.Length, added);
      Placed(results.Length, added);
      slots := new nat[count];
      var i: nat := 0;
      while i < count
        invariant i <= count == slots.Length
        invariant forall j :: 0 <= j < i ==> slots[j] == Listed(Contents())[j]
      {
        slots[i] := (index - count + i + results.Length) % results.Length;
        i := i + 1;
      }
    }
  }
}
