// Bytes, 32-bit words and the one physical memory that holds data and page tables alike.
module Words {

  type byte = x: int | 0 <= x < 0x100
  type u32 = x: int | 0 <= x < 0x1_0000_0000

  // The whole 32-bit physical address space.
  const MEM_SIZE := 0x1_0000_0000
  type Mem = m: seq<byte> | |m| == MEM_SIZE ghost witness seq(MEM_SIZE, _ => 0)

  // Addresses [VM_USERLO, VM_USERHI), virtual and physical, are for users; the rest is the kernel's.
  const VM_USERLO := 0x4000_0000
  const VM_USERHI := 0xF000_0000

  predicate Page(i: int) { 0 <= i < 0x10_0000 }
  predicate UserPage(i: int) { 0x4_0000 <= i < 0xF_0000 }

  // C's conversions between int and unsigned int.
  function ToU32(x: int): u32 {
    x % 0x1_0000_0000
  }

  function ToI32(x: int): int {
    (x + 0x8000_0000) % 0x1_0000_0000 - 0x8000_0000
  }

  predicate IsInt(x: int) { -0x8000_0000 <= x < 0x8000_0000 }

  lemma PageSplit(q: int, r: int)
    requires 0 <= r < 4096
    ensures (4096 * q + r) / 4096 == q && (4096 * q + r) % 4096 == r
  {
  }

  lemma BitSplit(q: int, r: int)
    requires 0 <= r < 2
    ensures (2 * q + r) / 2 == q && (2 * q + r) % 2 == r
  {
  }

  lemma NoWrap(x: int)
    requires 0 <= x < 0x8000_0000
    ensures ToU32(x) == x == ToI32(x)
  {
  }

  function Min(a: int, b: int): int {
    if a < b then a else b
  }

  function Max(a: int, b: int): int {
    if a > b then a else b
  }

  // rounddown and roundup of kern/lib/types.c, in 32-bit arithmetic.
  function RoundDownTo(a: u32, n: u32): u32
    requires n > 0
  { a - a % n }

  function RoundUpTo(a: u32, n: u32): u32
    requires n > 0
  { RoundDownTo(ToU32(a + n - 1), n) }

  // The same for n = PAGESIZE.
  function RoundDown(a: u32): u32 {
    a - a % 4096
  }

  function RoundUp(a: u32): u32 {
    RoundDown(ToU32(a + 4095))
  }

  predicate Multiple(p: int, n: int)
    requires n > 0
  { p % n == 0 }

  // The greatest multiple up to a. The least multiple from a on, exactly when a + n - 1 does not wrap.
  lemma RoundingBrackets(a: u32, n: u32)
    requires n > 0
    ensures RoundDownTo(a, n) <= a < RoundDownTo(a, n) + n && Multiple(RoundDownTo(a, n), n)
    ensures forall p :: Multiple(p, n) && p <= a ==> p <= RoundDownTo(a, n)
    ensures a <= RoundUpTo(a, n) <==> a + n - 1 < MEM_SIZE
    ensures a + n - 1 < MEM_SIZE ==>
      && RoundUpTo(a, n) < a + n && Multiple(RoundUpTo(a, n), n)
      && forall p :: Multiple(p, n) && a <= p ==> RoundUpTo(a, n) <= p
  {
    hide RoundDownTo, Multiple, ToU32;
    var u := ToU32(a + n - 1);
    WrapsOnce(a + n - 1);
    ClearRemainder(a, n);
    ClearRemainder(u, n);
    forall p | Multiple(p, n)
      ensures p <= a ==> p <= RoundDownTo(a, n)
      ensures a <= p && a + n - 1 < MEM_SIZE ==> RoundDownTo(u, n) <= p
    {
      NoMultipleBetween(RoundDownTo(a, n), p, n);
      NoMultipleBetween(p, RoundDownTo(u, n), n);
    }
  }

  lemma WrapsOnce(x: int)
    requires 0 <= x < 2 * MEM_SIZE
    ensures ToU32(x) == if x < MEM_SIZE then x else x - MEM_SIZE
  {
  }

  lemma ClearRemainder(a: u32, n: u32)
    requires n > 0
    ensures RoundDownTo(a, n) <= a < RoundDownTo(a, n) + n && Multiple(RoundDownTo(a, n), n)
  {
    assert a == n * (a / n) + a % n;
    MultipleOf(n, a / n);
  }

  lemma Scale(n: int, j: int, k: int)
    requires n > 0
    ensures j <= k ==> n * j <= n * k
  {
  }

  lemma MultipleOf(n: int, k: int)
    requires n > 0
    ensures Multiple(n * k, n)
  {
    var d := k - (n * k) / n;
    assert n * d == (n * k) % n;
    Scale(n, 1, d);
    Scale(n, d, -1);
  }

  lemma NoMultipleBetween(p: int, q: int, n: int)
    requires n > 0 && Multiple(p, n) && Multiple(q, n)
    ensures p < q ==> p + n <= q
  {
    var j, k := p / n, q / n;
    assert p == n * j && q == n * k;
    Scale(n, k, j);
    Scale(n, j + 1, k);
  }

  lemma PageRounding(a: u32)
    ensures RoundDown(a) == RoundDownTo(a, 4096) && RoundUp(a) == RoundUpTo(a, 4096)
  {
  }

  // Little-endian word at byte address a.
  function Word(m: Mem, a: int): (w: u32)
    requires 0 <= a <= 0xFFFF_FFFC
  {
    (m[a] as int) + 0x100 * (m[a+1] as int) + 0x1_0000 * (m[a+2] as int) + 0x100_0000 * (m[a+3] as int)
  }

  function PutWord(m: Mem, a: int, w: u32): Mem
    requires 0 <= a <= 0xFFFF_FFFC
  {
    m[a := w % 0x100][a+1 := w / 0x100 % 0x100][a+2 := w / 0x100 / 0x100 % 0x100][a+3 := w / 0x100 / 0x100 / 0x100]
  }

  lemma ByteSplit(w: int, q: int, r: byte)
    requires w == 0x100 * q + r
    ensures w / 0x100 == q && w % 0x100 == r
  {
  }

  lemma PutWordBytes(m: Mem, a: int, w: u32)
    requires 0 <= a <= 0xFFFF_FFFC
    ensures forall b :: 0 <= b < MEM_SIZE && !(a <= b < a + 4) ==> PutWord(m, a, w)[b] == m[b]
  {
  }

  lemma PutWordEffect(m: Mem, a: int, w: u32)
    requires 0 <= a <= 0xFFFF_FFFC
    ensures Word(PutWord(m, a, w), a) == w
    ensures forall b :: 0 <= b <= 0xFFFF_FFFC && (b + 4 <= a || a + 4 <= b) ==> Word(PutWord(m, a, w), b) == Word(m, b)
    ensures forall b :: 0 <= b < MEM_SIZE && !(a <= b < a + 4) ==> PutWord(m, a, w)[b] == m[b]
  {
    var m' := PutWord(m, a, w);
    PutWordBytes(m, a, w);
    assert Word(m', a) == w by {
      var q1 := w / 0x100;
      var q2 := q1 / 0x100;
      assert m'[a] == w % 0x100 && m'[a+1] == q1 % 0x100 && m'[a+2] == q2 % 0x100 && m'[a+3] == q2 / 0x100;
    }
    hide PutWord;
  }

  // Bytes [d, d+n) become what [s, s+n) held before.
  function CopyBytes(m: Mem, d: int, s: int, n: int): Mem
    requires 0 <= n && 0 <= d && d + n <= MEM_SIZE && 0 <= s && s + n <= MEM_SIZE
  {
    m[..d] + m[s..s+n] + m[d+n..]
  }

  function FillBytes(m: Mem, d: int, c: byte, n: int): Mem
    requires 0 <= n && 0 <= d && d + n <= MEM_SIZE
  {
    m[..d] + seq(n, _ => c) + m[d+n..]
  }

  lemma CopyBytesEffect(m: Mem, d: int, s: int, n: int)
    requires 0 <= n && 0 <= d && d + n <= MEM_SIZE && 0 <= s && s + n <= MEM_SIZE
    ensures forall i :: 0 <= i < MEM_SIZE ==>
      CopyBytes(m, d, s, n)[i] == if d <= i < d + n then m[s + (i - d)] else m[i]
  {
  }

  lemma FillBytesEffect(m: Mem, d: int, c: byte, n: int)
    requires 0 <= n && 0 <= d && d + n <= MEM_SIZE
    ensures forall i :: 0 <= i < MEM_SIZE ==> FillBytes(m, d, c, n)[i] == if d <= i < d + n then c else m[i]
  {
  }

  // Every word wholly inside a zero-filled range is zero, every word wholly outside is kept.
  lemma ZeroFillWords(m: Mem, d: int, n: int)
    requires 0 <= n && 0 <= d && d + n <= MEM_SIZE
    ensures forall a :: d <= a && a + 4 <= d + n ==> Word(FillBytes(m, d, 0, n), a) == 0
    ensures forall a :: 0 <= a <= 0xFFFF_FFFC && (a + 4 <= d || d + n <= a) ==>
      Word(FillBytes(m, d, 0, n), a) == Word(m, a)
  {
    FillBytesEffect(m, d, 0, n);
  }

  // The memory device: word access to a byte array.
  method LoadWord(mem: array<byte>, a: int) returns (w: u32)
    requires mem.Length == MEM_SIZE && 0 <= a <= 0xFFFF_FFFC
    ensures w == Word(mem[..], a)
  {
    w := (mem[a] as int) + 0x100 * (mem[a+1] as int) + 0x1_0000 * (mem[a+2] as int) + 0x100_0000 * (mem[a+3] as int);
  }

  method StoreWord(mem: array<byte>, a: int, w: u32)
    requires mem.Length == MEM_SIZE && 0 <= a <= 0xFFFF_FFFC
    modifies mem
    ensures mem[..] == PutWord(old(mem[..]), a, w)
  {
    mem[a], mem[a+1], mem[a+2], mem[a+3] :=
      w % 0x100, w / 0x100 % 0x100, w / 0x100 / 0x100 % 0x100, w / 0x100 / 0x100 / 0x100;
    assert mem[..] == PutWord(old(mem[..]), a, w);
  }
}
