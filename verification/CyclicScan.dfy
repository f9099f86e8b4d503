/** The list scan shared by round robin and IP hash, as steps over list positions.
    Position n stands for the NULL that ends the list; `index` is the counter the code keeps beside it. */
module CyclicScan {
  import opened Arith

  datatype Cursor = Cursor(pos: nat, index: nat)

  /** One advance: NULL is followed by the head, and the counter restarts at 0 on NULL. */
  function Next(n: nat, c: Cursor): (r: Cursor)
    requires n > 0 && c.pos <= n && c.index < n
    ensures r.pos <= n && r.index < n
  {
    var pos := if c.pos < n then c.pos + 1 else 0;
    Cursor(pos, if pos < n then Wrap(c.index + 1, n) else 0)
  }

  /** The cursor after k advances from position `start`. */
  function At(n: nat, start: nat, k: nat): (r: Cursor)
    requires start < n
    ensures r.pos <= n && r.index < n
  {
    if k == 0 then Cursor(start, start) else Next(n, At(n, start, k - 1))
  }

  lemma AtStart(n: nat, start: nat)
    requires start < n
    ensures At(n, start, 0) == Cursor(start, start)
  {
  }

  lemma AtNext(n: nat, start: nat, k: nat)
    requires start < n
    ensures At(n, start, k + 1) == Next(n, At(n, start, k))
  {
  }

  /** The position `offset` further on, counted round the list without the NULL. */
  function Place(n: nat, start: nat, offset: nat): (r: nat)
    requires start < n && offset < n
    ensures r < n
  {
    Wrap(start + offset, n)
  }

  /** How many advances reach that position: one more once NULL has been passed. */
  function Steps(n: nat, start: nat, offset: nat): nat {
    if start + offset < n then offset else offset + 1
  }

  /** The loop stops at step k: an available server, or (after at least one advance) the starting cursor again. */
  ghost predicate StopsAt(up: seq<bool>, start: nat, k: nat)
    requires start < |up|
  {
    var c := At(|up|, start, k);
    (c.pos < |up| && up[c.pos]) || (k > 0 && c == Cursor(start, start))
  }

  predicate SomeUp(up: seq<bool>) {
    exists i :: 0 <= i < |up| && up[i]
  }

  /** Until the end of the list the counter is the position; after the wrap it runs one ahead. */
  lemma {:induction false} Shape(n: nat, start: nat, k: nat)
    requires start < n
    ensures k < n - start ==> At(n, start, k) == Cursor(start + k, start + k)
    ensures k == n - start ==> At(n, start, k) == Cursor(n, 0)
    ensures k >= n - start ==>
              var c := At(n, start, k);
              c == Cursor(n, 0) || (c.pos < n && c.index == Wrap(c.pos + 1, n))
  {
    if k > 0 { Shape(n, start, k - 1); }
  }

  /** With two or more servers the scan never meets its starting cursor again. */
  lemma NeverBack(n: nat, start: nat, k: nat)
    requires start < n && 2 <= n && k > 0
    ensures At(n, start, k) != Cursor(start, start)
  {
    Shape(n, start, k);
  }

  /** Where the first trip round the list finds each position, and with which counter. */
  lemma {:induction false} Visits(n: nat, start: nat, offset: nat)
    requires start < n && offset < n
    ensures At(n, start, Steps(n, start, offset))
         == Cursor(Place(n, start, offset),
                   if start + offset < n then start + offset else Wrap(Place(n, start, offset) + 1, n))
  {
    if start + offset <= n {
      Shape(n, start, offset);
    } else {
      Visits(n, start, offset - 1);
    }
  }

  /** The cyclic distance from `start` to position i. */
  function Distance(n: nat, start: nat, i: nat): (d: nat)
    requires start < n && i < n
    ensures d < n && Place(n, start, d) == i
  {
    if i >= start then i - start else i + n - start
  }

  /** `offset` is the smallest cyclic distance from `start` to an available server. */
  ghost predicate FirstUp(up: seq<bool>, start: nat, offset: nat)
    requires start < |up|
  {
    && offset < |up| && up[Place(|up|, start, offset)]
    && forall j: nat :: j < offset ==> !up[Place(|up|, start, j)]
  }

  lemma FirstUpUnique(up: seq<bool>, start: nat, a: nat, b: nat)
    requires start < |up| && FirstUp(up, start, a) && FirstUp(up, start, b)
    ensures a == b
  {
  }

  lemma FirstUpExists(up: seq<bool>, start: nat) returns (offset: nat)
    requires start < |up| && SomeUp(up)
    ensures FirstUp(up, start, offset)
  {
    var i :| 0 <= i < |up| && up[i];
    var d := Distance(|up|, start, i);
    offset := 0;
    while !up[Place(|up|, start, offset)]
      invariant offset <= d
      invariant forall j: nat :: j < offset ==> !up[Place(|up|, start, j)]
      decreases d - offset
    {
      offset := offset + 1;
    }
  }

  lemma FirstUpIsThere(up: seq<bool>, start: nat)
    requires start < |up| && SomeUp(up)
    ensures exists offset: nat :: FirstUp(up, start, offset)
  {
    var offset := FirstUpExists(up, start);
  }

  ghost function FirstOffset(up: seq<bool>, start: nat): (offset: nat)
    requires start < |up| && SomeUp(up)
    ensures FirstUp(up, start, offset)
  {
    FirstUpIsThere(up, start);
    var offset: nat :| FirstUp(up, start, offset);
    offset
  }

  /** The first available server in cyclic order from `start`. */
  ghost function FirstFrom(up: seq<bool>, start: nat): (i: nat)
    requires start < |up| && SomeUp(up)
    ensures i < |up| && up[i]
  {
    Place(|up|, start, FirstOffset(up, start))
  }

  /** On the way to the first available server the scan does not stop, and there it does. */
  lemma FirstStop(up: seq<bool>, start: nat, offset: nat, k: nat)
    requires start < |up| && FirstUp(up, start, offset) && k <= Steps(|up|, start, offset)
    ensures StopsAt(up, start, k) <==> k == Steps(|up|, start, offset)
  {
    var n := |up|;
    Visits(n, start, offset);
    if k < Steps(n, start, offset) {
      Shape(n, start, k);
      if k != n - start {
        var earlier := if k < n - start then k else k - 1;
        Visits(n, start, earlier);
        assert !up[Place(n, start, earlier)];
      }
      if k > 0 && n >= 2 { NeverBack(n, start, k); }
    }
  }

  /** The exact termination condition: the scan stops if and only if some server is available
      or the group has a single server. With two or more servers and none available it loops for ever. */
  lemma StopsExactlyWhen(up: seq<bool>, start: nat)
    requires start < |up|
    ensures (exists k :: StopsAt(up, start, k)) <==> (SomeUp(up) || |up| == 1)
  {
    var n := |up|;
    if SomeUp(up) {
      var offset := FirstUpExists(up, start);
      FirstStop(up, start, offset, Steps(n, start, offset));
    } else if n == 1 {
      assert At(n, start, 1) == Next(1, At(n, start, 0)) == Cursor(1, 0);
      assert At(n, start, 2) == Cursor(0, 0);
      assert StopsAt(up, start, 2);
    } else {
      forall k ensures !StopsAt(up, start, k) {
        if k > 0 { NeverBack(n, start, k); }
      }
    }
  }

  /** Two servers, neither available: no step is the last. */
  lemma NeverStopsWithNoneUp(start: nat, k: nat)
    requires start < 2
    ensures !StopsAt([false, false], start, k)
  {
    StopsExactlyWhen([false, false], start);
  }

  /** What the loop learns at step k of a scan that comes back: it is at an available server exactly at its last step. */
  lemma ScanStop(up: seq<bool>, start: nat, offset: nat, k: nat)
    requires start < |up|
    requires if SomeUp(up) then FirstUp(up, start, offset) && k <= Steps(|up|, start, offset) else |up| == 1
    ensures var c := At(|up|, start, k);
            c.pos < |up| && up[c.pos] <==> SomeUp(up) && k == Steps(|up|, start, offset)
  {
    if SomeUp(up) {
      FirstStop(up, start, offset, k);
      Visits(|up|, start, offset);
    }
  }

  /** And it meets its starting cursor again only in a group of one unavailable server, after two steps. */
  lemma ScanBack(up: seq<bool>, start: nat, offset: nat, k: nat)
    requires start < |up| && 0 < k
    requires if SomeUp(up) then FirstUp(up, start, offset) && k <= Steps(|up|, start, offset) else |up| == 1 && k <= 2
    ensures At(|up|, start, k) == Cursor(start, start) <==> !SomeUp(up) && k == 2
  {
    if |up| >= 2 {
      NeverBack(|up|, start, k);
    } else {
      assert At(1, 0, 1) == Next(1, At(1, 0, 0)) == Cursor(1, 0);
      assert At(1, 0, 2) == Next(1, At(1, 0, 1));
    }
  }

  /** Where round robin resumes after serving the server at that distance. */
  function Resume(n: nat, start: nat, offset: nat): (r: nat)
    requires start < n && offset < n
    ensures r < n
  {
    Wrap(At(n, start, Steps(n, start, offset)).index + 1, n)
  }

  /** The next scan starts at the successor of the server just served exactly when some server from the cursor to the
      end of the list was available; otherwise it starts one server further on. */
  lemma ResumesAtSuccessorExactlyWhen(up: seq<bool>, start: nat)
    requires start < |up| && SomeUp(up)
    ensures var n, served, resume := |up|, FirstFrom(up, start), Resume(|up|, start, FirstOffset(up, start));
            && (resume == Wrap(served + 1, n) <==> exists i :: start <= i < n && up[i])
            && ((forall i :: start <= i < n ==> !up[i]) ==> resume == Wrap(Wrap(served + 1, n) + 1, n))
  {
    var n, offset := |up|, FirstOffset(up, start);
    Visits(n, start, offset);
    if i :| start <= i < n && up[i] {
      assert Place(n, start, i - start) == i;
    }
    if start + offset < n { assert up[start + offset]; }
  }

  /** Three servers, only the head available, cursor on the middle one: the head is served
      and the next scan starts at the last server, so the middle one has lost its turn. */
  lemma WrapSkipsOne()
    ensures var up := [true, false, false]; up[0] && FirstFrom(up, 1) == 0 && Resume(3, 1, FirstOffset(up, 1)) == 2
  {
    var up := [true, false, false];
    assert FirstUp(up, 1, 2);
    FirstUpUnique(up, 1, FirstOffset(up, 1), 2);
    Visits(3, 1, 2);
  }
}
