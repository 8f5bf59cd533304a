// The Wasm loader's linear memory: a bump allocator that grows the memory, and
// length-prefixed strings.
module LinearMemory {
  import opened Text

  type Byte = x: int | 0 <= x < 256

  const PAGE := 65536
  const BASE := 65536
  const INT32_LIMIT := 0x8000_0000

  // What bitwise operators see of a number.
  function ToInt32(n: int): int {
    var x := n % 0x1_0000_0000;
    if x >= INT32_LIMIT then x - 0x1_0000_0000 else x
  }

  // (size + 7) & ~7
  function Aligned(size: nat): int {
    var x := ToInt32(size + 7);
    x - x % 8
  }

  // Aligning covers the size exactly while size + 7 is a 32-bit integer.
  lemma AlignedExactly(size: nat)
    ensures Aligned(size) % 8 == 0
    ensures Aligned(size) >= size <==> size + 7 < 0x8000_0000
    ensures size + 7 < 0x8000_0000 ==> Aligned(size) < size + 8
  {
  }

  datatype Heap = Heap(mem: seq<Byte>, bump: int)

  function PagesNeeded(bump: int, length: nat): int { (bump - length + PAGE - 1) / PAGE }

  function Zeros(n: nat): (z: seq<Byte>)
    ensures |z| == n
  {
    seq(n, i => 0)
  }

  // The heap after an operation and the pointer it returns; None is an exception.
  datatype Step = Step(heap: Heap, ptr: Option<int>)

  // Memory cannot grow beyond maxPages.
  function Allocated(h: Heap, size: nat, maxPages: nat): Step {
    var bump := h.bump + Aligned(size);
    if bump <= |h.mem| then Step(Heap(h.mem, bump), Some(h.bump)) else
    var more := PagesNeeded(bump, |h.mem|) * PAGE;
    if |h.mem| + more > maxPages * PAGE then Step(Heap(h.mem, bump), None)
    else Step(Heap(h.mem + Zeros(more), bump), Some(h.bump))
  }

  function PutAt(mem: seq<Byte>, p: nat, bytes: seq<Byte>): (m: seq<Byte>)
    requires p + |bytes| <= |mem|
    ensures |m| == |mem|
  {
    mem[..p] + bytes + mem[p + |bytes|..]
  }

  // Unsigned 32-bit numbers, least significant byte first.
  function Le32(n: nat): (b: seq<Byte>)
    ensures |b| == 4
  {
    [n % 256, n / 256 % 256, n / 65536 % 256, n / 16777216 % 256]
  }

  function Get32(mem: seq<Byte>, p: nat): nat
    requires p + 4 <= |mem|
  {
    var a: int, b: int, c: int, d: int := mem[p], mem[p + 1], mem[p + 2], mem[p + 3];
    a + 256 * b + 65536 * c + 16777216 * d
  }

  function Written(h: Heap, bytes: seq<Byte>, maxPages: nat): Step {
    var a := Allocated(h, 4 + |bytes| + 1, maxPages);
    if a.ptr.None? then a else
    var p := a.ptr.value;
    if p < 0 || p + 4 > |a.heap.mem| then Step(a.heap, None) else
    var mem := PutAt(a.heap.mem, p, Le32(|bytes|));
    if p + 4 + |bytes| > |mem| then Step(Heap(mem, a.heap.bump), None)
    else Step(Heap(PutAt(mem, p + 4, bytes), a.heap.bump), a.ptr)
  }

  // The bytes of the string at p: the null pointer is empty, a slice stops
  // where memory ends, and a length outside memory is an exception.
  function StringAt(mem: seq<Byte>, p: int): Option<seq<Byte>> {
    if p == 0 then Some([])
    else if p < 0 || p + 4 > |mem| then None
    else
      var end := p + 4 + Get32(mem, p);
      Some(mem[p + 4..if end <= |mem| then end else |mem|])
  }

  // Memory grows only when the block does not fit, then by as few pages of 65536
  // zeros as will do, and fails exactly when they are not to be had.
  lemma GrowsLeast(h: Heap, size: nat, maxPages: nat)
    ensures var a := Allocated(h, size, maxPages);
            var more := |a.heap.mem| - |h.mem|;
            var missing := h.bump + Aligned(size) - |h.mem|;
            && a.heap.bump == h.bump + Aligned(size)
            && more >= 0 && more % 65536 == 0 && a.heap.mem[..|h.mem|] == h.mem
            && (forall k :: |h.mem| <= k < |a.heap.mem| ==> a.heap.mem[k] == 0)
            && (a.ptr.Some? ==>
                 a.ptr.value == h.bump && if missing <= 0 then more == 0 else more - 65536 < missing <= more)
            && (a.ptr.None? ==> more == 0 && missing > 0)
            && (|h.mem| % 65536 == 0 ==>
                 (a.ptr.None? <==> missing > 0 && h.bump + Aligned(size) > maxPages * 65536))
  {
    hide Aligned;
    var bump := h.bump + Aligned(size);
    if bump > |h.mem| {
      PagesLeast(bump, |h.mem|, maxPages);
    }
  }

  lemma PagesLeast(bump: int, length: nat, maxPages: nat)
    requires bump > length
    ensures var more := PagesNeeded(bump, length) * PAGE;
            && more > 0 && more % 65536 == 0 && more - 65536 < bump - length <= more
            && (length % 65536 == 0 ==> (length + more > maxPages * 65536 <==> bump > maxPages * 65536))
  {
    var n := PagesNeeded(bump, length);
    if length % 65536 == 0 {
      var q := length / 65536;
      assert length + n * 65536 == (q + n) * 65536;
    }
  }

  // What is read at a pointer: nothing at the null pointer, no string where its
  // length does not lie in memory, and else as many bytes as the length says, its
  // lowest byte first, or as memory has.
  lemma ReadExactly(mem: seq<Byte>, p: int)
    ensures p == 0 ==> StringAt(mem, p) == Some([])
    ensures p != 0 ==> (StringAt(mem, p).None? <==> p < 0 || p + 4 > |mem|)
    ensures 0 < p <= |mem| - 4 ==>
      var length := mem[p] as int + 0x100 * mem[p + 1] as int + 0x1_0000 * mem[p + 2] as int
                    + 0x100_0000 * mem[p + 3] as int;
      var s := StringAt(mem, p).value;
      |s| == (if p + 4 + length <= |mem| then length else |mem| - p - 4)
      && forall k :: 0 <= k < |s| ==> s[k] == mem[p + 4 + k]
  {
  }

  // The four bytes of a number, the lowest first.
  lemma LittleEndian(n: nat)
    requires n < 0x1_0000_0000
    ensures var b := Le32(n);
            n == b[0] as int + 0x100 * b[1] as int + 0x1_0000 * b[2] as int + 0x100_0000 * b[3] as int
  {
    assert n / 65536 == n / 256 / 256 && n / 16777216 == n / 65536 / 256;
  }

  class Loader {
    var memory: array<Byte>
    var bumpPointer: int
    const maxPages: nat

    constructor (memory: array<Byte>, maxPages: nat)
      ensures this.memory == memory && this.maxPages == maxPages && bumpPointer == BASE
    {
      this.memory, this.maxPages, bumpPointer := memory, maxPages, BASE;
    }

    function State(): Heap
      reads this, memory
    {
      Heap(memory[..], bumpPointer)
    }

    function ReadString(ptr: int): Option<seq<Byte>>
      reads this, memory
    {
      StringAt(memory[..], ptr)
    }

    // Pages of zeros at the end: the buffer is replaced.
    method Grow(pages: nat)
      modifies this`memory
      ensures fresh(memory) && memory[..] == old(memory[..]) + Zeros(pages * PAGE)
    {
      var was := memory;
      var n := was.Length;
      var grown := new Byte[n + pages * PAGE](i requires 0 <= i reads was => if i < was.Length then was[i] else 0);
      assert grown[..] == was[..] + Zeros(pages * PAGE);
      memory := grown;
    }

    method AllocateMemory(size: nat) returns (ptr: Option<int>)
      modifies this`memory, this`bumpPointer
      ensures memory == old(memory) || fresh(memory)
      ensures Step(State(), ptr) == Allocated(old(State()), size, maxPages)
    {
      hide Aligned;
      var p := bumpPointer;
      bumpPointer := bumpPointer + Aligned(size);
      if bumpPointer > memory.Length {
        var pages := PagesNeeded(bumpPointer, memory.Length);
        if memory.Length + pages * PAGE > maxPages * PAGE {
          return None;
        }
        Grow(pages);
      }
      return Some(p);
    }

    // Put bytes into the buffer.
    method Store(p: nat, bytes: seq<Byte>)
      requires p + |bytes| <= memory.Length
      modifies memory
      ensures memory[..] == PutAt(old(memory[..]), p, bytes)
    {
      forall k | 0 <= k < |bytes| {
        memory[p + k] := bytes[k];
      }
    }

    method WriteString(bytes: seq<Byte>) returns (ptr: Option<int>)
      modifies this`memory, this`bumpPointer, memory
      ensures Step(State(), ptr) == Written(old(State()), bytes, maxPages)
    {
      hide Allocated, PutAt;
      ptr := AllocateMemory(4 + |bytes| + 1);
      if ptr.None? {
        return;
      }
      var p := ptr.value;
      if p < 0 || p + 4 > memory.Length {
        return None;
      }
      Store(p, Le32(|bytes|));
      if p + 4 + |bytes| > memory.Length {
        return None;
      }
      Store(p + 4, bytes);
    }
  }
}
