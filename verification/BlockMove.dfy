/** Copying and moving ranges of one memory in blocks of 64 bytes. */
module BlockMove {

  type Byte = bv8

  /** Memory after n bytes at s have been copied to d, all reads before all writes. */
  function Moved(m: seq<Byte>, d: nat, s: nat, n: nat): (r: seq<Byte>)
    requires d + n <= |m| && s + n <= |m|
    ensures |r| == |m|
  {
    m[..d] + m[s..s + n] + m[d + n..]
  }

  /** Byte by byte: the destination range holds the original source range, everything else is untouched. */
  lemma MovedAt(m: seq<Byte>, d: nat, s: nat, n: nat, i: nat)
    requires d + n <= |m| && s + n <= |m| && i < |m|
    ensures Moved(m, d, s, n)[i] == if d <= i < d + n then m[s + (i - d)] else m[i]
  {
  }

  lemma MovedNothing(m: seq<Byte>, d: nat, s: nat)
    requires d <= |m| && s <= |m|
    ensures Moved(m, d, s, 0) == m
  {
  }

  /** The source range is safe from the bytes already written: writing up to `done` bytes upwards from d
      does not reach the source bytes still to be read. */
  ghost predicate ForwardSafe(d: nat, s: nat, n: nat) {
    d <= s || s + n <= d
  }

  /** Four loads and then four stores: the block is read completely before it is written. */
  method CopyBlock(mem: array<Byte>, d: nat, s: nat)
    requires d + 64 <= mem.Length && s + 64 <= mem.Length
    modifies mem
    ensures mem[..] == Moved(old(mem[..]), d, s, 64)
  {
    var q := mem[s..s + 64];
    forall i | 0 <= i < 64 {
      mem[d + i] := q[i];
    }
  }

  method CopyByte(mem: array<Byte>, d: nat, s: nat)
    requires d < mem.Length && s < mem.Length
    modifies mem
    ensures mem[..] == Moved(old(mem[..]), d, s, 1)
  {
    ghost var m := mem[..];
    mem[d] := mem[s];
    assert m[s..s + 1] == [m[s]];
  }

  /** Copying the next j bytes upwards extends a copy of k bytes, if the source is safe. */
  lemma ExtendUp(m: seq<Byte>, d: nat, s: nat, n: nat, k: nat, j: nat)
    requires d + n <= |m| && s + n <= |m| && k + j <= n && ForwardSafe(d, s, n)
    ensures Moved(Moved(m, d, s, k), d + k, s + k, j) == Moved(m, d, s, k + j)
  {
    hide Moved;
    var a, b := Moved(Moved(m, d, s, k), d + k, s + k, j), Moved(m, d, s, k + j);
    forall i | 0 <= i < |m| ensures a[i] == b[i] {
      MovedAt(Moved(m, d, s, k), d + k, s + k, j, i);
      MovedAt(m, d, s, k + j, i);
      if d + k <= i < d + k + j {
        MovedAt(m, d, s, k, s + (i - d));
      } else {
        MovedAt(m, d, s, k, i);
      }
    }
  }

  /** Copying the j bytes below extends a copy of everything from n on. */
  lemma ExtendDown(m: seq<Byte>, dest: nat, src: nat, size: nat, n: nat, j: nat)
    requires dest + size <= |m| && src + size <= |m| && j <= n <= size && src < dest
    ensures Moved(Moved(m, dest + n, src + n, size - n), dest + n - j, src + n - j, j)
         == Moved(m, dest + n - j, src + n - j, size - (n - j))
  {
    hide Moved;
    var lo := n - j;
    var once := Moved(m, dest + n, src + n, size - n);
    var a, b := Moved(once, dest + lo, src + lo, j), Moved(m, dest + lo, src + lo, size - lo);
    forall i | 0 <= i < |m| ensures a[i] == b[i] {
      MovedAt(once, dest + lo, src + lo, j, i);
      MovedAt(m, dest + lo, src + lo, size - lo, i);
      if dest + lo <= i < dest + n {
        MovedAt(m, dest + n, src + n, size - n, src + (i - dest));
      } else {
        MovedAt(m, dest + n, src + n, size - n, i);
      }
    }
  }

  /** `memcpy` and `memmove` of the C library, each on the arguments it is defined for. */
  method LibraryMove(mem: array<Byte>, d: nat, s: nat, n: nat)
    requires d + n <= mem.Length && s + n <= mem.Length
    modifies mem
    ensures mem[..] == Moved(old(mem[..]), d, s, n)
  {
    var q := mem[s..s + n];
    forall i | 0 <= i < n {
      mem[d + i] := q[i];
    }
  }

  /** `asm_opt_memcpy`. `base` is the address of mem[0]: bytes up to a 16-byte boundary of the destination, blocks of
      64, then the tail. Ranges may overlap only with the destination below the source; the plain `memcpy` that is left
      with short or non-NEON copies demands disjoint ranges (or the very same one). */
  method Memcpy(mem: array<Byte>, base: nat, dest: nat, src: nat, size: nat, neon: bool)
    requires dest + size <= mem.Length && src + size <= mem.Length && ForwardSafe(dest, src, size)
    requires size < 64 || !neon ==> dest == src || dest + size <= src || src + size <= dest
    modifies mem
    ensures mem[..] == Moved(old(mem[..]), dest, src, size)
  {
    if size < 64 || !neon {
      LibraryMove(mem, dest, src, size);
      return;
    }
    ghost var m := mem[..];
    var n := AlignUp(mem, base, dest, src, size);
    n := BlocksUp(mem, m, dest, src, size, n);
    BytesUp(mem, m, dest, src, size, n);
  }

  predicate Aligned(address: nat) {
    address % 16 == 0
  }

  /** Bytes until the destination is 16-byte aligned; n bytes are left. */
  method AlignUp(mem: array<Byte>, base: nat, dest: nat, src: nat, size: nat) returns (n: nat)
    requires dest + size <= mem.Length && src + size <= mem.Length && ForwardSafe(dest, src, size)
    modifies mem
    ensures n <= size && (n > 0 ==> Aligned(base + (dest + (size - n))))
    ensures mem[..] == Moved(old(mem[..]), dest, src, size - n)
  {
    hide Moved, Aligned;
    ghost var m := mem[..];
    n := size;
    var d, s := dest + (size - n), src + (size - n);
    MovedNothing(m, dest, src);
    while !Aligned(base + d) && n > 0
      invariant d == dest + (size - n) && s == src + (size - n) && n <= size
      invariant mem[..] == Moved(m, dest, src, size - n)
      decreases n
    {
      ExtendUp(m, dest, src, size, size - n, 1);
      CopyByte(mem, d, s);
      d, s, n := d + 1, s + 1, n - 1;
    }
  }

  method BlocksUp(mem: array<Byte>, ghost m: seq<Byte>, dest: nat, src: nat, size: nat, left: nat) returns (n: nat)
    requires dest + size <= mem.Length == |m| && src + size <= mem.Length && ForwardSafe(dest, src, size)
    requires left <= size && mem[..] == Moved(m, dest, src, size - left)
    modifies mem
    ensures n <= size && n < 64 && mem[..] == Moved(m, dest, src, size - n)
  {
    hide Moved;
    n := left;
    var d, s := dest + (size - n), src + (size - n);
    while n >= 64
      invariant d == dest + (size - n) && s == src + (size - n) && n <= size
      invariant mem[..] == Moved(m, dest, src, size - n)
    {
      ExtendUp(m, dest, src, size, size - n, 64);
      CopyBlock(mem, d, s);
      d, s, n := d + 64, s + 64, n - 64;
    }
  }

  method BytesUp(mem: array<Byte>, ghost m: seq<Byte>, dest: nat, src: nat, size: nat, left: nat)
    requires dest + size <= mem.Length == |m| && src + size <= mem.Length && ForwardSafe(dest, src, size)
    requires left <= size && mem[..] == Moved(m, dest, src, size - left)
    modifies mem
    ensures mem[..] == Moved(m, dest, src, size)
  {
    hide Moved;
    var n: nat := left;
    var d, s := dest + (size - n), src + (size - n);
    while n > 0
      invariant d == dest + (size - n) && s == src + (size - n) && n <= size
      invariant mem[..] == Moved(m, dest, src, size - n)
    {
      ExtendUp(m, dest, src, size, size - n, 1);
      CopyByte(mem, d, s);
      d, s, n := d + 1, s + 1, n - 1;
    }
  }

  /** `asm_opt_memmove`: right for any two ranges of one memory, however they overlap. */
  method Memmove(mem: array<Byte>, base: nat, dest: nat, src: nat, size: nat, neon: bool)
    requires dest + size <= mem.Length && src + size <= mem.Length
    modifies mem
    ensures mem[..] == Moved(old(mem[..]), dest, src, size)
  {
    if size < 64 || !neon {
      LibraryMove(mem, dest, src, size);
    } else if dest > src && dest < src + size {
      ghost var m := mem[..];
      MovedNothing(m, dest + size, src + size);
      var n := BlocksDown(mem, m, dest, src, size);
      BytesDown(mem, m, dest, src, size, n);
    } else {
      Memcpy(mem, base, dest, src, size, neon);
    }
  }

  /** Blocks from the top; the lowest n bytes are left. */
  method BlocksDown(mem: array<Byte>, ghost m: seq<Byte>, dest: nat, src: nat, size: nat) returns (n: nat)
    requires src < dest && dest + size <= mem.Length == |m| && mem[..] == m
    modifies mem
    ensures n <= size && n < 64 && mem[..] == Moved(m, dest + n, src + n, size - n)
  {
    hide Moved;
    MovedNothing(m, dest + size, src + size);
    n := size;
    var d, s := dest + n, src + n;
    while n >= 64
      invariant d == dest + n && s == src + n && n <= size
      invariant mem[..] == Moved(m, dest + n, src + n, size - n)
    {
      ExtendDown(m, dest, src, size, n, 64);
      d, s, n := d - 64, s - 64, n - 64;
      CopyBlock(mem, d, s);
    }
  }

  method BytesDown(mem: array<Byte>, ghost m: seq<Byte>, dest: nat, src: nat, size: nat, left: nat)
    requires src < dest && dest + size <= mem.Length == |m| && left <= size
    requires mem[..] == Moved(m, dest + left, src + left, size - left)
    modifies mem
    ensures mem[..] == Moved(m, dest, src, size)
  {
    hide Moved;
    var n: nat := left;
    var d, s := dest + n, src + n;
    while n > 0
      invariant d == dest + n && s == src + n && n <= size
      invariant mem[..] == Moved(m, dest + n, src + n, size - n)
    {
      ExtendDown(m, dest, src, size, n, 1);
      d, s, n := d - 1, s - 1, n - 1;
      CopyByte(mem, d, s);
    }
  }

  /** Why the direction matters: two bytes copied upwards one at a time into a destination one above the source
      arrive as the first byte twice. */
  lemma UpwardOverlapFails(a: Byte, b: Byte, c: Byte)
    requires a != b
    ensures !ForwardSafe(1, 0, 2)
    ensures Moved(Moved([a, b, c], 1, 0, 1), 2, 1, 1) == [a, a, a] != Moved([a, b, c], 1, 0, 2)
  {
    assert Moved([a, b, c], 1, 0, 1) == [a, a, c];
    assert Moved([a, a, c], 2, 1, 1) == [a, a, a];
    assert Moved([a, b, c], 1, 0, 2) == [a, a, b];
  }
}
