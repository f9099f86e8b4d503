/** Searching a buffer: a sweep in strides of four first, then position by position. */
module BufferFind {

  predicate OccursAt(buffer: seq<bv8>, pattern: seq<bv8>, i: int) {
    0 <= i && i + |pattern| <= |buffer| && buffer[i..i + |pattern|] == pattern
  }

  /** i is the first occurrence among the positions that are multiples of the stride. */
  predicate FirstAt(buffer: seq<bv8>, pattern: seq<bv8>, stride: nat, i: int)
    requires stride > 0
  {
    && OccursAt(buffer, pattern, i) && i % stride == 0
    && forall j :: 0 <= j < i && j % stride == 0 ==> !OccursAt(buffer, pattern, j)
  }

  predicate Nowhere(buffer: seq<bv8>, pattern: seq<bv8>, stride: nat)
    requires stride > 0
  {
    forall j :: 0 <= j <= |buffer| && j % stride == 0 ==> !OccursAt(buffer, pattern, j)
  }

  /** The four-byte comparison never rejects an occurrence. */
  lemma HeadOfOccurrence(buffer: seq<bv8>, pattern: seq<bv8>, i: nat)
    requires |pattern| >= 4 && i + |pattern| <= |buffer|
    ensures OccursAt(buffer, pattern, i) ==> buffer[i..i + 4] == pattern[..4]
  {
    if OccursAt(buffer, pattern, i) {
      assert buffer[i..i + |pattern|][..4] == buffer[i..i + 4];
    }
  }

  /** The sweep in strides of four. */
  method Sweep(buffer: array<bv8>, pattern: array<bv8>) returns (r: int)
    requires 4 <= pattern.Length <= buffer.Length
    ensures r == -1 || FirstAt(buffer[..], pattern[..], 4, r)
    ensures r == -1 ==> Nowhere(buffer[..], pattern[..], 4)
  {
    var head := pattern[..4];
    ghost var b, p := buffer[..], pattern[..];
    var i := 0;
    while i <= buffer.Length - pattern.Length
      invariant 0 <= i && i % 4 == 0
      invariant forall j :: 0 <= j < i && j % 4 == 0 ==> !OccursAt(b, p, j)
    {
      HeadOfOccurrence(b, p, i);
      assert b[i..i + 4] == buffer[i..i + 4] && p[..4] == head;
      if buffer[i..i + 4] == head {
        if buffer[i..i + pattern.Length] == pattern[..] { return i; }
      }
      i := i + 4;
    }
    return -1;
  }

  /** The result of `asm_opt_buffer_find`: -1 exactly when the pattern is empty or nowhere; otherwise the first
      occurrence at a multiple of four if the sweep ran and there is one, and else the very first one. */
  ghost predicate IsResult(buffer: seq<bv8>, pattern: seq<bv8>, neon: bool, r: int) {
    && (r == -1 <==> pattern == [] || Nowhere(buffer, pattern, 1))
    && (r != -1 ==>
          if neon && |pattern| >= 4 && !Nowhere(buffer, pattern, 4) then FirstAt(buffer, pattern, 4, r)
          else FirstAt(buffer, pattern, 1, r))
  }

  method Find(buffer: array<bv8>, pattern: array<bv8>, neon: bool) returns (r: int)
    ensures IsResult(buffer[..], pattern[..], neon, r)
  {
    if pattern.Length == 0 || pattern.Length > buffer.Length { return -1; }
    ghost var b, p := buffer[..], pattern[..];
    if pattern.Length >= 4 && neon {
      r := Sweep(buffer, pattern);
      assert r != -1 ==> !Nowhere(b, p, 1) && !Nowhere(b, p, 4);
      if r != -1 { return; }
    }
    var i := 0;
    while i <= buffer.Length - pattern.Length
      invariant 0 <= i
      invariant forall j :: 0 <= j < i ==> !OccursAt(b, p, j)
    {
      if buffer[i..i + pattern.Length] == pattern[..] {
        assert OccursAt(b, p, i);
        return i;
      }
      i := i + 1;
    }
    return -1;
  }

  /** The pattern occurs at a multiple of four, but not for the first time. */
  ghost predicate FirstIsPassedOver(buffer: seq<bv8>, pattern: seq<bv8>) {
    !Nowhere(buffer, pattern, 4) && exists i :: FirstAt(buffer, pattern, 1, i) && i % 4 != 0
  }

  /** What is found is the very first occurrence unless the sweep passes it over. */
  lemma FindsFirstExactlyWhen(buffer: seq<bv8>, pattern: seq<bv8>, neon: bool, r: int)
    requires IsResult(buffer, pattern, neon, r) && r != -1
    ensures FirstAt(buffer, pattern, 1, r) <==> !(neon && |pattern| >= 4 && FirstIsPassedOver(buffer, pattern))
  {
    if neon && |pattern| >= 4 && !Nowhere(buffer, pattern, 4) {
      var first := First(buffer, pattern, r);
      assert first % 4 == 0 ==> first == r;
      assert r % 1 == 0;
    }
  }

  lemma First(buffer: seq<bv8>, pattern: seq<bv8>, hit: int) returns (first: int)
    requires OccursAt(buffer, pattern, hit)
    ensures FirstAt(buffer, pattern, 1, first) && first <= hit
  {
    first := 0;
    while !OccursAt(buffer, pattern, first)
      invariant 0 <= first <= hit && forall j :: 0 <= j < first ==> !OccursAt(buffer, pattern, j)
      decreases hit - first
    {
      first := first + 1;
    }
  }

  /** "aaaaa" in "baaaaaaaa": the sweep answers 4, the first occurrence is 1. */
  lemma SweepCanMissTheFirst(a: bv8, b: bv8)
    requires a != b
    ensures var buffer, pattern := [b, a, a, a, a, a, a, a, a], [a, a, a, a, a];
            IsResult(buffer, pattern, true, 4) && FirstAt(buffer, pattern, 1, 1)
  {
    var buffer, pattern := [b, a, a, a, a, a, a, a, a], [a, a, a, a, a];
    assert buffer[4..9] == pattern && buffer[1..6] == pattern;
    assert buffer[0..5][0] != pattern[0];
    assert forall j :: 0 <= j < 4 && j % 4 == 0 ==> j == 0;
    assert OccursAt(buffer, pattern, 4) && 4 % 1 == 0;
  }
}
