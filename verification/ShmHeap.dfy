/**
 The shared-memory arena as bytes and as blocks: a bump allocator whose "pointers" are offsets, and
 the loads, stores, copies and string operations that the map operations use.
 */
module ShmHeap {
  import opened Bytes

  /** What an array of 32-bit words is used for. */
  datatype Kind = Header | Keys | Values | Patches | Transforms

  /**
   An allocated block: an array with room for `room` words of which the first `|ws|` are in use, a
   NUL-terminated string, or bytes just allocated. Every struct of the arena consists of 32-bit
   words only.
   */
  datatype Block = Words(kind: Kind, ws: seq<nat>, room: nat) | Text(s: seq<byte>) | Raw(n: nat)

  /** Blocks by offset. The arena header is the block at offset 0. */
  type Heap = map<nat, Block>

  // words of lb_shm_arena_t
  const SIZE: nat := 0
  const USED: nat := 1
  const KEYS_OFF: nat := 2
  const VALUES_OFF: nat := 3
  const COUNT: nat := 4
  const CAPACITY: nat := 5
  const HEADER_WORDS: nat := 6

  /** Arenas up to this size never wrap a 32-bit sum; the real one has 1 MiB. */
  const MAX_ARENA: nat := 0x1000_0000
  const MAX_STRING: nat := 0x4000_0000

  function Extent(b: Block): nat {
    match b
    case Words(_, _, room) => 4 * room
    case Text(s) => |s| + 1
    case Raw(n) => n
  }

  function Word32(m: seq<byte>, at: nat): (v: nat)
    requires at + 4 <= |m|
    ensures v < TWO32
  {
    FromLe32(m[at..at + 4])
  }

  predicate Holds(m: seq<byte>, at: nat, b: Block) {
    && at + Extent(b) <= |m|
    && match b
       case Words(_, ws, room) => |ws| <= room && forall k | 0 <= k < |ws| :: Word32(m, at + 4 * k) == ws[k]
       case Text(s) => 0 !in s && m[at..at + |s|] == s && m[at + |s|] == 0
       case Raw(_) => true
  }

  /** No two blocks share a byte. */
  ghost predicate Separate(h: Heap) {
    forall a, b | a in h && b in h && a < b :: a + Extent(h[a]) <= b
  }

  ghost predicate Stored(m: seq<byte>, h: Heap) {
    Separate(h) && forall a | a in h :: Holds(m, a, h[a])
  }

  ghost predicate HeaderOk(h: Heap) {
    && 0 in h && h[0].Words? && h[0].kind == Header && |h[0].ws| == h[0].room == HEADER_WORDS
    && 4 * HEADER_WORDS <= h[0].ws[USED] <= h[0].ws[SIZE] <= MAX_ARENA
    && forall a | a in h :: 0 < Extent(h[a]) && a + Extent(h[a]) <= h[0].ws[USED]
  }

  predicate IsWords(h: Heap, x: nat, kind: Kind) {
    x in h && h[x].Words? && h[x].kind == kind
  }

  /** Store at an index in use, or at the first one that is not. */
  function SetAt(ws: seq<nat>, i: nat, v: nat): (r: seq<nat>)
    requires i <= |ws|
  {
    if i < |ws| then ws[i := v] else ws + [v]
  }

  function SetWord(h: Heap, x: nat, i: nat, v: nat): Heap
    requires x in h && h[x].Words? && i <= |h[x].ws|
  {
    h[x := h[x].(ws := SetAt(h[x].ws, i, v))]
  }

  // ---------------------------------------------------------------------------------------------
  // Separation
  // ---------------------------------------------------------------------------------------------

  predicate SameOutside(m: seq<byte>, m': seq<byte>, lo: nat, hi: nat) {
    |m| == |m'| && forall n | 0 <= n < |m| && !(lo <= n < hi) :: m'[n] == m[n]
  }

  /** Equal bytes make equal words. */
  lemma SameWord(m: seq<byte>, m': seq<byte>, a: nat, b: nat)
    requires a + 4 <= |m| && b + 4 <= |m'|
    requires m'[b] == m[a] && m'[b + 1] == m[a + 1] && m'[b + 2] == m[a + 2] && m'[b + 3] == m[a + 3]
    ensures Word32(m', b) == Word32(m, a)
  {
    assert m'[b..b + 4] == m[a..a + 4];
  }

  /** A block that a write does not touch still holds its contents. */
  lemma HoldsFrame(m: seq<byte>, m': seq<byte>, at: nat, b: Block, lo: nat, hi: nat)
    requires Holds(m, at, b) && SameOutside(m, m', lo, hi)
    requires at + Extent(b) <= lo || hi <= at
    ensures Holds(m', at, b)
  {
    hide Word32;
    match b
    case Words(_, ws, _) =>
      forall k | 0 <= k < |ws| ensures Word32(m', at + 4 * k) == ws[k] {
        SameWord(m, m', at + 4 * k, at + 4 * k);
      }
    case Text(s) =>
      assert m'[at..at + |s|] == m[at..at + |s|];
    case Raw(_) =>
  }

  /** Changing one block's bytes leaves every other block alone. */
  lemma StoredFrame(m: seq<byte>, m': seq<byte>, h: Heap, x: nat, b: Block)
    requires Stored(m, h) && x in h && Extent(b) == Extent(h[x])
    requires SameOutside(m, m', x, x + Extent(b)) && Holds(m', x, b)
    ensures Stored(m', h[x := b])
  {
    hide Holds;
    var h' := h[x := b];
    forall a | a in h' ensures Holds(m', a, h'[a]) {
      if a != x { HoldsFrame(m, m', a, h[a], x, x + Extent(b)); }
    }
  }

  /** A fresh block above everything that is allocated. */
  lemma StoredFresh(m: seq<byte>, m': seq<byte>, h: Heap, x: nat, b: Block)
    requires Stored(m, h)
    requires forall a | a in h :: a + Extent(h[a]) <= x && a < x
    requires SameOutside(m, m', x, x + Extent(b)) && Holds(m', x, b)
    ensures x !in h && Stored(m', h[x := b])
  {
    hide Holds;
    var h' := h[x := b];
    forall a | a in h' ensures Holds(m', a, h'[a]) {
      if a != x { HoldsFrame(m, m', a, h[a], x, x + Extent(b)); }
    }
  }

  /** Storing one word of a block is `SetWord` on the heap. */
  lemma StoreStored(m: seq<byte>, h: Heap, x: nat, i: nat, v: nat)
    requires Stored(m, h) && x in h && h[x].Words? && i <= |h[x].ws| && i < h[x].room && v < TWO32
    ensures x + 4 * i + 4 <= |m|
    ensures Stored(Splice(m, x + 4 * i, Le32(v)), SetWord(h, x, i, v))
  {
    hide Word32, Le32;
    assert Holds(m, x, h[x]);
    var at := x + 4 * i;
    var m' := Splice(m, at, Le32(v));
    var b := h[x].(ws := SetAt(h[x].ws, i, v));
    forall k | 0 <= k < |b.ws| ensures Word32(m', x + 4 * k) == b.ws[k] {
      if k == i { StoredWord(m, at, v); } else { SameWord(m, m', x + 4 * k, x + 4 * k); }
    }
    StoredFrame(m, m', h, x, b);
  }

  lemma StoredWord(m: seq<byte>, at: nat, v: nat)
    requires at + 4 <= |m| && v < TWO32
    ensures Word32(Splice(m, at, Le32(v)), at) == v
  {
    hide Le32, FromLe32;
    assert Splice(m, at, Le32(v))[at..at + 4] == Le32(v);
    Le32RoundTrip(v);
  }

  // ---------------------------------------------------------------------------------------------
  // The allocator and the operations on words and strings, as heap functions
  // ---------------------------------------------------------------------------------------------

  function Pad8(n: nat): (r: nat)
    ensures n <= r < n + 8
  {
    (n + 7) / 8 * 8
  }

  predicate HasHeader(h: Heap) {
    0 in h && h[0].Words? && |h[0].ws| == HEADER_WORDS && h[0].ws[USED] > 0
  }

  function Hdr(h: Heap, i: nat): nat
    requires HasHeader(h) && i < HEADER_WORDS
  {
    h[0].ws[i]
  }

  /** `salloc`: the new heap and the offset, 0 when there is no space. */
  function Alloc(h: Heap, n: nat): (r: (Heap, nat))
    requires HasHeader(h)
    ensures HasHeader(r.0) && h.Keys <= r.0.Keys
  {
    var u := Hdr(h, USED);
    if u + Pad8(n) > Hdr(h, SIZE) then (h, 0) else (SetWord(h, 0, USED, u + Pad8(n))[u := Raw(n)], u)
  }

  /** `shm_strdup`. */
  function Dup(h: Heap, s: seq<byte>): (r: (Heap, nat))
    requires HasHeader(h)
    ensures HasHeader(r.0) && h.Keys <= r.0.Keys
  {
    var (h1, off) := Alloc(h, |s| + 1);
    if off == 0 then (h1, 0) else (h1[off := Text(s)], off)
  }

  /** `memcpy` of the words in use of block `src` to the start of block `dst`. */
  function CopyOf(h: Heap, dst: nat, src: nat): Heap
    requires dst in h && h[dst].Words? && src in h && h[src].Words?
  {
    h[dst := h[dst].(ws := h[src].ws)]
  }

  /** Words `i .. i + d` cut out, as `memmove` of the words behind them and a smaller count do. */
  function CutAt(ws: seq<nat>, i: nat, d: nat): seq<nat>
    requires i + d <= |ws|
  {
    ws[..i] + ws[i + d..]
  }

  function CutWords(h: Heap, x: nat, i: nat, d: nat): Heap
    requires x in h && h[x].Words? && i + d <= |h[x].ws|
  {
    h[x := h[x].(ws := CutAt(h[x].ws, i, d))]
  }

  /** The allocator's effect on the bytes is the new value of `used`, and the block it hands out is new. */
  lemma AllocStored(m: seq<byte>, h: Heap, n: nat)
    requires Stored(m, h) && HeaderOk(h) && h[0].ws[SIZE] == |m| && 0 < n
    requires Hdr(h, USED) + Pad8(n) <= Hdr(h, SIZE)
    ensures var u, h' := Hdr(h, USED), Alloc(h, n).0;
            && u !in h && u != 0 && h'[u] == Raw(n) && HeaderOk(h') && h'[0].ws[SIZE] == |m|
            && Stored(Splice(m, 4 * USED, Le32(u + Pad8(n))), h')
  {
    hide Holds, Le32, Pad8, Separate;
    var u := Hdr(h, USED);
    StoreStored(m, h, 0, USED, u + Pad8(n));
    var m' := Splice(m, 4 * USED, Le32(u + Pad8(n)));
    FreshHolds(m', u, n);
    StoredFresh(m', m', SetWord(h, 0, USED, u + Pad8(n)), u, Raw(n));
    AllocHeader(h, n);
  }

  lemma AllocHeader(h: Heap, n: nat)
    requires HeaderOk(h) && 0 < n && Hdr(h, USED) + Pad8(n) <= Hdr(h, SIZE)
    ensures var u, h' := Hdr(h, USED), Alloc(h, n).0;
            u !in h && u != 0 && h'[u] == Raw(n) && HeaderOk(h') && h'[0].ws[SIZE] == h[0].ws[SIZE]
  {
    hide Pad8;
    assert forall x | x in h :: x < Hdr(h, USED);
  }

  lemma FreshHolds(m: seq<byte>, x: nat, n: nat)
    requires x + n <= |m|
    ensures Holds(m, x, Raw(n))
  {
  }

  lemma TextStored(m: seq<byte>, h: Heap, x: nat, s: seq<byte>)
    requires Stored(m, h) && x in h && h[x] == Raw(|s| + 1) && 0 !in s
    ensures x + |s| + 1 <= |m| && Stored(Splice(m, x, s + [0]), h[x := Text(s)])
  {
    assert Holds(m, x, h[x]);
    var m' := Splice(m, x, s + [0]);
    assert m'[x..x + |s|] == s;
    StoredFrame(m, m', h, x, Text(s));
  }

  lemma CopyStored(m: seq<byte>, h: Heap, dst: nat, src: nat)
    requires Stored(m, h) && dst in h && src in h && h[dst].Words? && h[src].Words? && dst != src
    requires |h[src].ws| <= h[dst].room
    ensures var n := 4 * |h[src].ws|;
            && src + n <= |m| && dst + n <= |m|
            && Stored(Splice(m, dst, m[src..src + n]), CopyOf(h, dst, src))
  {
    hide Word32;
    assert Holds(m, src, h[src]) && Holds(m, dst, h[dst]);
    var n, b := 4 * |h[src].ws|, h[dst].(ws := h[src].ws);
    var m' := Splice(m, dst, m[src..src + n]);
    forall k | 0 <= k < |b.ws| ensures Word32(m', dst + 4 * k) == b.ws[k] {
      CopiedWord(m, dst, src, n, 4 * k);
    }
    StoredFrame(m, m', h, dst, b);
  }

  lemma CopiedWord(m: seq<byte>, dst: nat, src: nat, n: nat, k: nat)
    requires src + n <= |m| && dst + n <= |m| && k + 4 <= n
    ensures Word32(Splice(m, dst, m[src..src + n]), dst + k) == Word32(m, src + k)
  {
    hide Word32;
    SameWord(m, Splice(m, dst, m[src..src + n]), src + k, dst + k);
  }

  /** Bytes `src .. src + n` moved down to `dst`. */
  predicate MovedDown(m: seq<byte>, m': seq<byte>, dst: nat, src: nat, n: nat) {
    && dst <= src && src + n <= |m| && SameOutside(m, m', dst, dst + n)
    && forall k | dst <= k < dst + n :: m'[k] == m[k + (src - dst)]
  }

  lemma CutStored(m: seq<byte>, m': seq<byte>, h: Heap, x: nat, i: nat, d: nat)
    requires Stored(m, h) && x in h && h[x].Words? && i + d <= |h[x].ws|
    requires MovedDown(m, m', x + 4 * i, x + 4 * (i + d), 4 * (|h[x].ws| - i - d))
    ensures Stored(m', CutWords(h, x, i, d))
  {
    hide Word32;
    assert Holds(m, x, h[x]);
    var b := h[x].(ws := CutAt(h[x].ws, i, d));
    forall k | 0 <= k < |b.ws| ensures Word32(m', x + 4 * k) == b.ws[k] {
      if k < i {
        SameWord(m, m', x + 4 * k, x + 4 * k);
      } else {
        assert b.ws[k] == h[x].ws[k + d];
        SameWord(m, m', x + 4 * (k + d), x + 4 * k);
      }
    }
    StoredFrame(m, m', h, x, b);
  }

  lemma WordsFit(m: seq<byte>, h: Heap, x: nat)
    requires Stored(m, h) && x in h && h[x].Words?
    ensures |h[x].ws| <= h[x].room && x + 4 * h[x].room <= |m|
  {
    hide Word32;
    assert Holds(m, x, h[x]);
  }

  lemma NothingMoved(m: seq<byte>, dst: nat, src: nat)
    requires dst <= src <= |m|
    ensures MovedDown(m, m, dst, src, 0)
  {
  }

  // ---------------------------------------------------------------------------------------------
  // The arena
  // ---------------------------------------------------------------------------------------------

  lemma InitialWords(m: seq<byte>)
    requires 24 <= |m| <= MAX_ARENA && m[..8] == Le32(|m|) + Le32(24)
    ensures Word32(m, 0) == |m| && Word32(m, 4) == 24
  {
    hide Le32, FromLe32;
    assert m[0..4] == m[..8][0..4] == Le32(|m|) && m[4..8] == m[..8][4..8] == Le32(24);
    Le32RoundTrip(|m|);
    Le32RoundTrip(24);
  }

  /** Other contents in a block of the same extent leave the header as it is. */
  lemma HeaderFrame(h: Heap, x: nat, b: Block)
    requires HeaderOk(h) && x in h && x != 0 && Extent(b) == Extent(h[x])
    ensures HeaderOk(h[x := b]) && h[x := b][0] == h[0]
  {
  }

  /** A store outside the first two words of the header keeps the header. */
  lemma StoreHeader(h: Heap, x: nat, i: nat, v: nat)
    requires HeaderOk(h) && x in h && h[x].Words? && i <= |h[x].ws| && i < h[x].room && (x == 0 ==> i > USED)
    ensures HeaderOk(SetWord(h, x, i, v)) && SetWord(h, x, i, v)[0].ws[SIZE] == h[0].ws[SIZE]
  {
  }

  /** A string in memory. */
  lemma TextBytes(m: seq<byte>, h: Heap, x: nat)
    requires Stored(m, h) && x in h && h[x].Text?
    ensures var s := h[x].s;
            && x + |s| < |m| && m[x + |s|] == 0 && 0 !in s
            && forall n | 0 <= n < |s| :: m[x + n] == s[n]
  {
    var s := h[x].s;
    assert Holds(m, x, h[x]);
    forall n | 0 <= n < |s| ensures m[x + n] == s[n] { assert m[x + n] == m[x..x + |s|][n]; }
  }

  class Arena {
    const mem: array<byte>
    ghost var heap: Heap

    /** The bytes hold the blocks, and the header describes the arena. */
    ghost predicate Wf()
      reads this, mem
    {
      Stored(mem[..], heap) && HeaderOk(heap) && heap[0].ws[SIZE] == mem.Length
    }

    /** `screate` after the mapping exists: the header's first two words are set. */
    constructor (memory: array<byte>)
      requires 4 * HEADER_WORDS <= memory.Length <= MAX_ARENA
      modifies memory
      ensures mem == memory && Wf() && heap.Keys == {0}
      ensures heap[0].ws[SIZE] == memory.Length && heap[0].ws[USED] == 24
    {
      mem := memory;
      new;
      WriteBytes(memory, 0, Le32(memory.Length) + Le32(24));
      var m := memory[..];
      InitialWords(m);
      heap := map[0 := Words(Header, seq(HEADER_WORDS, k requires 0 <= k < HEADER_WORDS => Word32(m, 4 * k)),
          HEADER_WORDS)];
    }

    method LoadWord(x: nat, i: nat) returns (v: nat)
      requires Wf() && x in heap && heap[x].Words? && i < |heap[x].ws|
      ensures v == heap[x].ws[i]
    {
      assert Holds(mem[..], x, heap[x]);
      var at := x + 4 * i;
      v := FromLe32(mem[at..at + 4]);
      assert mem[..][at..at + 4] == mem[at..at + 4];
    }

    method StoreWord(x: nat, i: nat, v: nat)
      requires Wf() && x in heap && heap[x].Words? && i <= |heap[x].ws| && i < heap[x].room && v < TWO32
      requires x == 0 ==> i > USED
      modifies mem, this`heap
      ensures Wf() && heap == SetWord(old(heap), x, i, v)
    {
      hide Stored, Le32, HeaderOk;
      StoreStored(mem[..], heap, x, i, v);
      StoreHeader(heap, x, i, v);
      WriteBytes(mem, x + 4 * i, Le32(v));
      heap := SetWord(heap, x, i, v);
    }

    method SAlloc(n: nat) returns (off: nat)
      requires Wf() && 0 < n <= MAX_STRING
      modifies mem, this`heap
      ensures Wf() && (heap, off) == Alloc(old(heap), n)
      ensures off <= MAX_ARENA && (off != 0 ==> off !in old(heap) && off in heap && heap[off] == Raw(n))
      ensures forall x | x in old(heap) && x != 0 :: x in heap && heap[x] == old(heap)[x]
    {
      hide Stored, Le32;
      var used := LoadWord(0, USED);
      var size := LoadWord(0, SIZE);
      // 32-bit sums; neither wraps for the sizes admitted here
      var padded := (n + 7) % TWO32 / 8 * 8;
      if (used + padded) % TWO32 > size { return 0; }
      off := used;
      AllocStored(mem[..], heap, n);
      WriteBytes(mem, 4 * USED, Le32(used + padded));
      heap := Alloc(heap, n).0;
    }

    /** A raw block becomes an array without elements. */
    ghost method MakeWords(x: nat, kind: Kind, room: nat)
      requires Wf() && x in heap && heap[x] == Raw(4 * room) && x != 0
      modifies this`heap
      ensures Wf() && heap == old(heap)[x := Words(kind, [], room)]
    {
      assert Holds(mem[..], x, heap[x]);
      StoredFrame(mem[..], mem[..], heap, x, Words(kind, [], room));
      heap := heap[x := Words(kind, [], room)];
    }

    method StrDup(s: seq<byte>) returns (off: nat)
      requires Wf() && 0 !in s && |s| < MAX_STRING
      modifies mem, this`heap
      ensures Wf() && (heap, off) == Dup(old(heap), s)
      ensures off <= MAX_ARENA && (off != 0 ==> off !in old(heap))
      ensures forall x | x in old(heap) && x != 0 :: x in heap && heap[x] == old(heap)[x]
    {
      hide Holds, Separate;
      off := SAlloc(|s| + 1);
      if off == 0 { return; }
      TextStored(mem[..], heap, off, s);
      WriteBytes(mem, off, s + [0]);
      heap := heap[off := Text(s)];
    }

    /** `strcmp(stored, key) == 0`. */
    method StrEq(x: nat, key: seq<byte>) returns (eq: bool)
      requires Wf() && x in heap && heap[x].Text? && 0 !in key
      ensures eq <==> heap[x].s == key
    {
      hide Stored, HeaderOk;
      ghost var s := heap[x].s;
      TextBytes(mem[..], heap, x);
      var k := 0;
      while k < |key| && mem[x + k] == key[k]
        invariant k <= |key| && k <= |s| && s[..k] == key[..k]
        decreases |key| - k
      {
        assert k < |s|;
        k := k + 1;
      }
      eq := k == |key| && mem[x + k] == 0;
      if k < |s| { assert s[k] != 0 && s[k] in s; }
    }

    method CopyWords(dst: nat, src: nat, n: nat)
      requires Wf() && dst in heap && src in heap && heap[dst].Words? && heap[src].Words? && dst != src && dst != 0
      requires n == |heap[src].ws| <= heap[dst].room
      modifies mem, this`heap
      ensures Wf() && heap == CopyOf(old(heap), dst, src)
    {
      hide Stored, HeaderOk;
      CopyStored(mem[..], heap, dst, src);
      HeaderFrame(heap, dst, heap[dst].(ws := heap[src].ws));
      assert mem[..][src..src + 4 * n] == mem[src..src + 4 * n];
      WriteBytes(mem, dst, mem[src..src + 4 * n]);
      heap := CopyOf(heap, dst, src);
    }

    /** `memset(0)` over words `i .. i + n` that are not in use. */
    method ZeroWords(x: nat, i: nat, n: nat)
      requires Wf() && x in heap && heap[x].Words? && |heap[x].ws| <= i && i + n <= heap[x].room
      modifies mem
      ensures Wf()
      ensures x + 4 * (i + n) <= mem.Length
      ensures forall k | 0 <= k < mem.Length :: mem[k] == if x + 4 * i <= k < x + 4 * (i + n) then 0 else old(mem[k])
    {
      hide Word32;
      ghost var m := mem[..];
      assert Holds(m, x, heap[x]);
      WriteBytes(mem, x + 4 * i, seq(4 * n, _ => 0));
      assert forall k | 0 <= k < mem.Length :: mem[k] == mem[..][k] && m[k] == old(mem[k]);
      HoldsFrame(m, mem[..], x, heap[x].(room := |heap[x].ws|), x + 4 * i, x + 4 * i + 4 * n);
      StoredFrame(m, mem[..], heap, x, heap[x]);
      assert heap[x := heap[x]] == heap;
    }

    /** `memmove` of the words behind `i + d` down to `i`; then `d` words fewer are in use. */
    method CutRange(x: nat, i: nat, d: nat, n: nat)
      requires Wf() && x in heap && heap[x].Words? && x != 0 && n == |heap[x].ws| && i + d <= n
      modifies mem, this`heap
      ensures Wf() && heap == CutWords(old(heap), x, i, d)
    {
      hide Stored, HeaderOk, CutAt;
      ghost var m := mem[..];
      WordsFit(m, heap, x);
      if i + d < n {
        MoveDown(x + 4 * i, x + 4 * (i + d), 4 * (n - i - d));
      } else {
        NothingMoved(m, x + 4 * i, x + 4 * (i + d));
      }
      CutStored(m, mem[..], heap, x, i, d);
      HeaderFrame(heap, x, heap[x].(ws := CutAt(heap[x].ws, i, d)));
      heap := CutWords(heap, x, i, d);
    }

    method MoveDown(dst: nat, src: nat, n: nat)
      requires dst <= src && src + n <= mem.Length
      modifies mem
      ensures MovedDown(old(mem[..]), mem[..], dst, src, n)
    {
      for j := 0 to n
        invariant forall k | 0 <= k < mem.Length ::
                    mem[k] == if dst <= k < dst + j then old(mem[k + (src - dst)]) else old(mem[k])
      {
        mem[dst + j] := mem[src + j];
      }
    }
  }
}
