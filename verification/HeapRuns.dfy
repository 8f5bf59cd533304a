// The loader's heap over any run of allocations and string writes.
module HeapRuns {
  import opened Text
  import opened LinearMemory

  datatype Op = Allocate(size: nat) | Write(bytes: seq<Byte>)

  function SizeOf(op: Op): nat { if op.Allocate? then op.size else 4 + |op.bytes| + 1 }

  // Sizes that alignment handles.
  predicate Fits(op: Op) { SizeOf(op) + 7 < 0x8000_0000 }

  function Perform(h: Heap, op: Op, maxPages: nat): Step {
    if op.Allocate? then Allocated(h, op.size, maxPages) else Written(h, op.bytes, maxPages)
  }

  // A pointer handed out, for what.
  datatype Block = Block(ptr: int, op: Op)

  datatype Run = Run(heap: Heap, blocks: seq<Block>)

  // The heap after a run, and the blocks handed out on the way. Operations
  // that end in an exception hand out nothing.
  function After(start: Heap, ops: seq<Op>, maxPages: nat): Run {
    if ops == [] then Run(start, []) else
    var op := ops[|ops| - 1];
    var before := After(start, ops[..|ops| - 1], maxPages);
    var step := Perform(before.heap, op, maxPages);
    Run(step.heap, before.blocks + if step.ptr.Some? then [Block(step.ptr.value, op)] else [])
  }

  // A string lies at p as it was written.
  predicate Lies(mem: seq<Byte>, p: int, bytes: seq<Byte>) {
    0 < p && p + 4 + |bytes| <= |mem| && Get32(mem, p) == |bytes| && mem[p + 4..p + 4 + |bytes|] == bytes
  }

  predicate Sound(h: Heap, b: Block) {
    && 65536 <= b.ptr && b.ptr % 8 == 0
    && b.ptr + SizeOf(b.op) <= h.bump && b.ptr + SizeOf(b.op) <= |h.mem|
    && (b.op.Write? ==> Lies(h.mem, b.ptr, b.op.bytes))
  }

  // Aligned blocks inside the buffer, one after the other, each string in place.
  ghost predicate Disciplined(r: Run) {
    && 65536 <= r.heap.bump && r.heap.bump % 8 == 0
    && (forall k :: 0 <= k < |r.blocks| ==> Sound(r.heap, r.blocks[k]))
    && forall j, k :: 0 <= j < k < |r.blocks| ==> r.blocks[j].ptr + SizeOf(r.blocks[j].op) <= r.blocks[k].ptr
  }

  // Two heaps agree below a bound.
  predicate Agree(a: seq<Byte>, b: seq<Byte>, bound: int) {
    0 <= bound <= |a| && |a| <= |b| && a[..bound] == b[..bound]
  }

  lemma Le32Get(mem: seq<Byte>, p: nat, n: nat)
    requires p + 4 <= |mem| && n < 0x1_0000_0000
    ensures Get32(PutAt(mem, p, Le32(n)), p) == n
  {
    var m, b := PutAt(mem, p, Le32(n)), Le32(n);
    PutReads(mem, p, b);
    assert m[p + 0] == b[0] && m[p + 1] == b[1] && m[p + 2] == b[2] && m[p + 3] == b[3];
    LittleEndian(n);
  }

  lemma PutReads(mem: seq<Byte>, p: nat, bytes: seq<Byte>)
    requires p + |bytes| <= |mem|
    ensures forall k :: 0 <= k < |bytes| ==> PutAt(mem, p, bytes)[p + k] == bytes[k]
    ensures forall k :: 0 <= k < p ==> PutAt(mem, p, bytes)[k] == mem[k]
    ensures PutAt(mem, p, bytes)[p..p + |bytes|] == bytes
  {
  }

  // What lies below a bound stays when only memory above it changes.
  lemma LiesStays(a: seq<Byte>, b: seq<Byte>, bound: int, p: int, bytes: seq<Byte>)
    requires Agree(a, b, bound) && Lies(a, p, bytes) && p + 4 + |bytes| <= bound
    ensures Lies(b, p, bytes)
  {
  }

  lemma AllocatedSound(h: Heap, size: nat, maxPages: nat)
    requires 65536 <= h.bump && h.bump % 8 == 0 && size + 7 < 0x8000_0000
    ensures var r := Allocated(h, size, maxPages);
            && h.bump + size <= r.heap.bump && r.heap.bump % 8 == 0
            && |h.mem| <= |r.heap.mem| && r.heap.mem[..|h.mem|] == h.mem
            && (r.ptr.Some? ==> r.ptr.value == h.bump && r.heap.bump <= |r.heap.mem|)
  {
    hide Aligned;
    AlignedExactly(size);
  }

  lemma WrittenSound(h: Heap, bytes: seq<Byte>, maxPages: nat)
    requires 65536 <= h.bump && h.bump % 8 == 0 && 4 + |bytes| + 1 + 7 < 0x8000_0000
    ensures var r := Written(h, bytes, maxPages);
            && h.bump + |bytes| + 5 <= r.heap.bump && r.heap.bump % 8 == 0
            && |h.mem| <= |r.heap.mem|
            && (forall k :: 0 <= k < |h.mem| && k < h.bump ==> r.heap.mem[k] == h.mem[k])
            && (r.ptr.Some? ==> r.ptr.value == h.bump && r.heap.bump <= |r.heap.mem| && Lies(r.heap.mem, h.bump, bytes))
  {
    hide Allocated, Get32, PutAt;
    AllocatedSound(h, 4 + |bytes| + 1, maxPages);
    var a := Allocated(h, 4 + |bytes| + 1, maxPages);
    assert forall k :: 0 <= k < |h.mem| ==> a.heap.mem[k] == a.heap.mem[..|h.mem|][k] == h.mem[k];
    if a.ptr.Some? {
      var p := h.bump;
      var first := PutAt(a.heap.mem, p, Le32(|bytes|));
      var mem := PutAt(first, p + 4, bytes);
      PutReads(a.heap.mem, p, Le32(|bytes|));
      PutReads(first, p + 4, bytes);
      Le32Get(a.heap.mem, p, |bytes|);
      SameNumber(first, mem, p);
    }
  }

  lemma SameNumber(a: seq<Byte>, b: seq<Byte>, p: nat)
    requires p + 4 <= |a| == |b| && forall k :: 0 <= k < p + 4 ==> a[k] == b[k]
    ensures Get32(a, p) == Get32(b, p)
  {
  }

  // One operation keeps the discipline.
  lemma PerformKeeps(r: Run, op: Op, maxPages: nat)
    requires Disciplined(r) && Fits(op)
    ensures var step := Perform(r.heap, op, maxPages);
            Disciplined(Run(step.heap, r.blocks + if step.ptr.Some? then [Block(step.ptr.value, op)] else []))
  {
    hide Allocated, Written, Lies;
    var h, step := r.heap, Perform(r.heap, op, maxPages);
    match op {
      case Allocate(size) =>
        AllocatedSound(h, size, maxPages);
        assert forall k :: 0 <= k < |h.mem| ==> step.heap.mem[k] == step.heap.mem[..|h.mem|][k];
      case Write(bytes) => WrittenSound(h, bytes, maxPages);
    }
    forall k | 0 <= k < |r.blocks| ensures Sound(step.heap, r.blocks[k]) {
      var b := r.blocks[k];
      if b.op.Write? {
        var bound := b.ptr + SizeOf(b.op);
        assert Sound(h, b);
        assert h.mem[..bound] == step.heap.mem[..bound];
        LiesStays(h.mem, step.heap.mem, bound, b.ptr, b.op.bytes);
      }
    }
    assert forall k :: 0 <= k < |r.blocks| ==> r.blocks[k].ptr + SizeOf(r.blocks[k].op) <= h.bump by {
      assert forall k :: 0 <= k < |r.blocks| ==> Sound(h, r.blocks[k]);
    }
  }

  // From any memory, after any run, whether or not memory could always grow.
  lemma {:induction false} HeapDiscipline(start: Heap, ops: seq<Op>, maxPages: nat)
    requires start.bump == BASE && forall k :: 0 <= k < |ops| ==> Fits(ops[k])
    ensures Disciplined(After(start, ops, maxPages))
  {
    hide Perform, Fits;
    if ops != [] {
      var n := |ops| - 1;
      assert forall k :: 0 <= k < n ==> ops[..n][k] == ops[k];
      HeapDiscipline(start, ops[..n], maxPages);
      PerformKeeps(After(start, ops[..n], maxPages), ops[n], maxPages);
    }
  }

  // Every string is read back as it was written, after any run.
  lemma StringsReadBack(start: Heap, ops: seq<Op>, maxPages: nat, k: nat)
    requires start.bump == BASE && forall j :: 0 <= j < |ops| ==> Fits(ops[j])
    requires k < |After(start, ops, maxPages).blocks| && After(start, ops, maxPages).blocks[k].op.Write?
    ensures var r := After(start, ops, maxPages);
            StringAt(r.heap.mem, r.blocks[k].ptr) == Some(r.blocks[k].op.bytes)
  {
    hide After, Fits;
    HeapDiscipline(start, ops, maxPages);
    var r := After(start, ops, maxPages);
    assert Sound(r.heap, r.blocks[k]);
  }

  // An allocation that succeeds leaves the next one clear of it exactly when
  // its size fits.
  lemma NextIsClearExactly(h: Heap, size: nat, more: nat, maxPages: nat)
    requires Allocated(h, size, maxPages).ptr.Some?
    requires Allocated(Allocated(h, size, maxPages).heap, more, maxPages).ptr.Some?
    ensures var a := Allocated(h, size, maxPages);
            a.ptr.value + size <= Allocated(a.heap, more, maxPages).ptr.value <==> size + 7 < 0x8000_0000
  {
  }

  // Room

  function Demand(ops: seq<Op>): nat { if ops == [] then 0 else Demand(ops[..|ops| - 1]) + SizeOf(ops[|ops| - 1]) + 8 }

  lemma PerformSucceeds(h: Heap, op: Op, maxPages: nat)
    requires 65536 <= h.bump && h.bump % 8 == 0 && Fits(op)
    requires h.bump + SizeOf(op) + 8 + 65536 <= maxPages * 65536 && |h.mem| <= maxPages * 65536
    ensures var r := Perform(h, op, maxPages);
            r.ptr.Some? && r.heap.bump <= h.bump + SizeOf(op) + 8 && |r.heap.mem| <= maxPages * 65536
  {
    hide Aligned, PutAt;
    AlignedExactly(SizeOf(op));
    var a := Allocated(h, SizeOf(op), maxPages);
    assert a.ptr.Some? && |a.heap.mem| <= maxPages * 65536;
    if op.Write? {
      WrittenSound(h, op.bytes, maxPages);
    }
  }

  // With pages enough for all sizes, every operation hands out its block.
  lemma {:induction false} RunSucceeds(start: Heap, ops: seq<Op>, maxPages: nat)
    requires start.bump == BASE && forall k :: 0 <= k < |ops| ==> Fits(ops[k])
    requires 65536 + Demand(ops) + 65536 <= maxPages * 65536 && |start.mem| <= maxPages * 65536
    ensures var r := After(start, ops, maxPages);
            && |r.blocks| == |ops| && (forall k :: 0 <= k < |ops| ==> r.blocks[k].op == ops[k])
            && r.heap.bump <= 65536 + Demand(ops) && |r.heap.mem| <= maxPages * 65536
  {
    hide Perform, Fits, SizeOf;
    if ops != [] {
      var n := |ops| - 1;
      assert forall k :: 0 <= k < n ==> ops[..n][k] == ops[k];
      RunSucceeds(start, ops[..n], maxPages);
      HeapDiscipline(start, ops[..n], maxPages);
      PerformSucceeds(After(start, ops[..n], maxPages).heap, ops[n], maxPages);
    }
  }
}
