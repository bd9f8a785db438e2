// kern/lib/string.c: memmove and memset on the byte-addressed memory. The x86 string
// instructions are modelled one transfer at a time, in the direction of the flag DF.
module ByteStrings {
  import opened Words

  lemma CopiedRange(mem: array<byte>, m0: Mem, dst: int, src: int, n: int)
    requires mem.Length == MEM_SIZE
    requires 0 <= n && 0 <= dst && dst + n <= MEM_SIZE && 0 <= src && src + n <= MEM_SIZE
    requires forall i {:trigger mem[i]} :: dst <= i < dst + n ==> mem[i] == m0[i - dst + src]
    requires forall i :: 0 <= i < MEM_SIZE && !(dst <= i < dst + n) ==> mem[i] == m0[i]
    ensures mem[..] == CopyBytes(m0, dst, src, n)
  {
  }

  // "cld; rep movs": unit is 1 (movsb) or 4 (movsl); a unit is read whole before it is written.
  method RepMovsForward(mem: array<byte>, dst: int, src: int, n: int, unit: int)
    requires mem.Length == MEM_SIZE
    requires 0 <= n && 0 <= dst && dst + n <= MEM_SIZE && 0 <= src && src + n <= MEM_SIZE
    requires unit == 1 || (unit == 4 && n % 4 == 0)
    requires !(src < dst < src + n)
    modifies mem
    ensures mem[..] == CopyBytes(old(mem[..]), dst, src, n)
  {
    ghost var m0: Mem := mem[..];
    var k := 0;
    while k < n
      invariant 0 <= k <= n && (unit == 4 ==> k % 4 == 0)
      invariant forall i {:trigger mem[i]} :: dst <= i < dst + k ==> mem[i] == m0[i - dst + src]
      invariant forall i :: 0 <= i < MEM_SIZE && !(dst <= i < dst + k) ==> mem[i] == m0[i]
    {
      if unit == 4 {
        mem[dst+k], mem[dst+k+1], mem[dst+k+2], mem[dst+k+3] := mem[src+k], mem[src+k+1], mem[src+k+2], mem[src+k+3];
      } else {
        mem[dst+k] := mem[src+k];
      }
      k := k + unit;
    }
    CopiedRange(mem, m0, dst, src, n);
  }

  // "std; rep movs": the pointers start at the last unit and go down.
  method RepMovsBackward(mem: array<byte>, dst: int, src: int, n: int, unit: int)
    requires mem.Length == MEM_SIZE
    requires 0 <= n && 0 <= dst && dst + n <= MEM_SIZE && 0 <= src && src + n <= MEM_SIZE
    requires unit == 1 || (unit == 4 && n % 4 == 0)
    requires src < dst
    modifies mem
    ensures mem[..] == CopyBytes(old(mem[..]), dst, src, n)
  {
    ghost var m0: Mem := mem[..];
    var k := n;
    while k > 0
      invariant 0 <= k <= n && (unit == 4 ==> k % 4 == 0)
      invariant forall i {:trigger mem[i]} :: dst + k <= i < dst + n ==> mem[i] == m0[i - dst + src]
      invariant forall i :: 0 <= i < MEM_SIZE && !(dst + k <= i < dst + n) ==> mem[i] == m0[i]
    {
      k := k - unit;
      if unit == 4 {
        mem[dst+k], mem[dst+k+1], mem[dst+k+2], mem[dst+k+3] := mem[src+k], mem[src+k+1], mem[src+k+2], mem[src+k+3];
      } else {
        mem[dst+k] := mem[src+k];
      }
    }
    CopiedRange(mem, m0, dst, src, n);
  }

  // All four direction and width paths deliver the bytes the source held before the call.
  method Memmove(mem: array<byte>, dst: int, src: int, n: int)
    requires mem.Length == MEM_SIZE
    requires 0 <= n && 0 <= dst && dst + n <= MEM_SIZE && 0 <= src && src + n <= MEM_SIZE
    modifies mem
    ensures mem[..] == CopyBytes(old(mem[..]), dst, src, n)
  {
    if src < dst && ToU32(src + n) > dst {
      if ToU32(src + n) % 4 == 0 && ToU32(dst + n) % 4 == 0 && n % 4 == 0 {
        RepMovsBackward(mem, dst, src, n, 4);
      } else {
        RepMovsBackward(mem, dst, src, n, 1);
      }
    } else {
      if src % 4 == 0 && dst % 4 == 0 && n % 4 == 0 {
        RepMovsForward(mem, dst, src, n, 4);
      } else {
        RepMovsForward(mem, dst, src, n, 1);
      }
    }
  }

  // (c << 24) | (c << 16) | (c << 8) | c for one byte c.
  function Replicate(c: byte): u32 {
    0x100_0000 * (c as int) + 0x1_0000 * (c as int) + 0x100 * (c as int) + (c as int)
  }

  lemma ReplicatedBytes(c: byte)
    ensures Replicate(c) % 0x100 == c && Replicate(c) / 0x100 % 0x100 == c
    ensures Replicate(c) / 0x100 / 0x100 % 0x100 == c && Replicate(c) / 0x100 / 0x100 / 0x100 == c
  {
    ByteSplit(Replicate(c), 0x1_0000 * c + 0x100 * c + c, c);
    ByteSplit(0x1_0000 * c + 0x100 * c + c, 0x100 * c + c, c);
    ByteSplit(0x100 * c + c, c, c);
  }

  lemma ReplicatedStore(m: Mem, v: int, k: int, c: byte)
    requires 0 <= v && 0 <= k && v + k + 4 <= MEM_SIZE
    ensures PutWord(FillBytes(m, v, c, k), v + k, Replicate(c)) == FillBytes(m, v, c, k + 4)
  {
    ReplicatedBytes(c);
    FillBytesEffect(m, v, c, k);
    FillBytesEffect(m, v, c, k + 4);
    hide Replicate, FillBytes;
  }

  // The word path ("rep stosl" of the replicated byte) fills exactly like the byte path.
  method Memset(mem: array<byte>, v: int, c: int, n: int)
    requires mem.Length == MEM_SIZE
    requires 0 <= n && 0 <= v && v + n <= MEM_SIZE
    modifies mem
    ensures mem[..] == FillBytes(old(mem[..]), v, c % 0x100, n)
  {
    hide FillBytes, Replicate;
    ghost var m0: Mem := mem[..];
    var b: byte := c % 0x100;
    var k := 0;
    FillBytesEffect(m0, v, b, 0);
    assert mem[..] == FillBytes(m0, v, b, 0);
    if n == 0 {
      return;
    } else if v % 4 == 0 && n % 4 == 0 {
      while k < n
        invariant 0 <= k <= n && k % 4 == 0
        invariant mem[..] == FillBytes(m0, v, b, k)
      {
        ReplicatedStore(m0, v, k, b);
        StoreWord(mem, v + k, Replicate(b));
        k := k + 4;
      }
    } else {
      while k < n
        invariant 0 <= k <= n
        invariant forall i :: 0 <= i < MEM_SIZE ==> mem[i] == if v <= i < v + k then b else m0[i]
      {
        mem[v+k] := b;
        k := k + 1;
      }
      FillBytesEffect(m0, v, b, n);
      assert mem[..] == FillBytes(m0, v, b, n);
    }
  }
}
