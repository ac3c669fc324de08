/** User memory as seen through a translation table, byte by byte. */
module UserMemory {
  import opened Words
  import opened Addresses
  import opened Bytes
  import opened PageTree
  import opened FreeFrames
  import opened TreeLoops
  import opened TreePaths

  const USER_TOP: nat := 0x80_0000_0000

  /** The byte at a virtual address, if its page is mapped. */
  ghost function UserByte(m: Memory, r: nat, va: nat): Option<Byte> {
    var leaf := LeafAt(m, r, PathOf(va));
    if leaf.Some? && FrameOf(leaf.value) < |m| then Some(ByteAt(m[FrameOf(leaf.value)], va % PAGE_SIZE)) else None
  }

  /** Bytes [va, va + |s|) become s and all others stay. */
  ghost predicate BytesWritten(m: Memory, m': Memory, r: nat, va: nat, s: seq<Byte>) {
    forall a: nat {:trigger UserByte(m', r, a)} | a < USER_TOP ::
      UserByte(m', r, a) == if va <= a < va + |s| then Some(s[a - va]) else UserByte(m, r, a)
  }

  /** Bytes [o, o + |s|) of a frame become s and all others stay. */
  ghost predicate Overwritten(row: seq<Word>, row': seq<Word>, o: nat, s: seq<Byte>)
    requires |row| == PAGE_ENTRIES && |row'| == PAGE_ENTRIES
  {
    forall k {:trigger ByteAt(row', k)} | 0 <= k < PAGE_SIZE ::
      ByteAt(row', k) == (if o <= k < o + |s| then s[k - o] else ByteAt(row, k))
  }

  lemma SplitIndex(k: nat, n: nat)
    ensures k == n <==> k / 8 == n / 8 && k % 8 == n % 8
  {
  }

  lemma ByteSet(row: seq<Word>, row': seq<Word>, n: nat, b: Byte, k: nat)
    requires |row| == PAGE_ENTRIES && n < PAGE_SIZE && k < PAGE_SIZE
    requires row' == row[n / 8 := WithByte(row[n / 8], n % 8, b)]
    ensures ByteAt(row', k) == if k == n then b else ByteAt(row, k)
  {
    SplitIndex(k, n);
    var i, j := k / 8, k % 8;
    if i == n / 8 {
      assert ByteOf(row'[i], j) == if j == n % 8 then b else ByteOf(row[i], j);
    } else {
      assert row'[i] == row[i];
    }
  }

  lemma OneByte(row: seq<Word>, row': seq<Word>, row'': seq<Word>, o: nat, s: seq<Byte>, b: Byte)
    requires |row| == PAGE_ENTRIES && |row'| == PAGE_ENTRIES && o + |s| < PAGE_SIZE
    requires Overwritten(row, row', o, s)
    requires row'' == row'[(o + |s|) / 8 := WithByte(row'[(o + |s|) / 8], (o + |s|) % 8, b)]
    ensures Overwritten(row, row'', o, s + [b])
  {
    forall k | 0 <= k < PAGE_SIZE
      ensures ByteAt(row'', k) == if o <= k < o + |s + [b]| then (s + [b])[k - o] else ByteAt(row, k)
    {
      ByteSet(row', row'', o + |s|, b, k);
      var was := ByteAt(row', k);
      assert was == if o <= k < o + |s| then s[k - o] else ByteAt(row, k);
    }
  }

  lemma SamePage(a: nat, b: nat)
    requires a < USER_TOP && b < USER_TOP
    ensures PathOf(a) == PathOf(b) <==> a / PAGE_SIZE == b / PAGE_SIZE
  {
    PathIsPageNumber(a, b);
  }

  /** Rewriting a mapped page changes no table. */
  lemma {:induction false} PageWriteOwns(m: Memory, f: nat, p: seq<nat>, level: nat, row: seq<Word>, g: nat)
    requires 1 <= level && level + |p| == 4 && Proper(m, f, level) && LeafAt(m, f, p).Some?
    requires |row| == PAGE_ENTRIES && FrameOf(LeafAt(m, f, p).value) < |m|
    ensures Owns(m[FrameOf(LeafAt(m, f, p).value) := row], f, level, g) == Owns(m, f, level, g)
    decreases |p|
  {
    var c := FrameOf(LeafAt(m, f, p).value);
    var m': Memory := m[c := row];
    PageBelow(m, f, p, level);
    forall j | 0 <= j < PAGE_ENTRIES && j != p[0]
      ensures SubAgree(m, m', m[f][j], level)
    {
      PageBeside(m, f, p, level, row, j);
    }
    var e := m[f][p[0]];
    assert m[f][p[0] := e] == m[f];
    if |p| > 1 {
      ChildProper(m, f, p[0], level);
      PageWriteOwns(m, FrameOf(e), p[1..], level + 1, row, g);
    }
    OwnsPut(m, m', f, p[0], e, level, g);
  }

  lemma PageBelow(m: Memory, f: nat, p: seq<nat>, level: nat)
    requires 1 <= level && level + |p| == 4 && Proper(m, f, level) && LeafAt(m, f, p).Some?
    ensures FrameOf(LeafAt(m, f, p).value) != f
    ensures Sub(m, m[f][p[0]], level, FrameOf(LeafAt(m, f, p).value)) > 0
  {
    var c := FrameOf(LeafAt(m, f, p).value);
    assert Sub(m, m[f][p[0]], level, c) > 0 by {
      if |p| > 1 {
        LeafOwned(m, FrameOf(m[f][p[0]]), p[1..], level + 1);
      }
    }
    ChildApart(m, f, p[0], level, c);
  }

  lemma PageBeside(m: Memory, f: nat, p: seq<nat>, level: nat, row: seq<Word>, j: nat)
    requires 1 <= level && level + |p| == 4 && Proper(m, f, level) && LeafAt(m, f, p).Some?
    requires |row| == PAGE_ENTRIES && FrameOf(LeafAt(m, f, p).value) < |m|
    requires j < PAGE_ENTRIES && j != p[0]
    ensures SubAgree(m, m[FrameOf(LeafAt(m, f, p).value) := row], m[f][j], level)
  {
    var c := FrameOf(LeafAt(m, f, p).value);
    PageBelow(m, f, p, level);
    ChildApart(m, f, p[0], level, c);
    assert Sub(m, m[f][j], level, c) == 0;
  }

  lemma {:induction false} PageWriteLeaf(m: Memory, f: nat, p: seq<nat>, level: nat, row: seq<Word>, q: seq<nat>)
    requires 1 <= level && level + |p| == 4 && Proper(m, f, level) && LeafAt(m, f, p).Some?
    requires |row| == PAGE_ENTRIES && FrameOf(LeafAt(m, f, p).value) < |m|
    requires 1 <= |q| <= |p|
    ensures LeafAt(m[FrameOf(LeafAt(m, f, p).value) := row], f, q) == LeafAt(m, f, q)
    decreases |p|
  {
    var m': Memory := m[FrameOf(LeafAt(m, f, p).value) := row];
    PageBelow(m, f, p, level);
    assert m'[f] == m[f];
    if q[0] == p[0] {
      if |q| > 1 {
        ChildProper(m, f, p[0], level);
        PageWriteLeaf(m, FrameOf(m[f][p[0]]), p[1..], level + 1, row, q[1..]);
      }
    } else if q[0] < PAGE_ENTRIES {
      PageBeside(m, f, p, level, row, q[0]);
      LeafFrame(m, m', f, q, level);
    }
  }

  /** Overwriting part of one mapped page. */
  lemma ChunkWritten(m: Memory, free: seq<FrameNo>, r: nat, va: nat, s: seq<Byte>, row: seq<Word>)
    requires Separate(m, free, r, 1) && LeafAt(m, r, PathOf(va)).Some?
    requires va + |s| <= USER_TOP && va % PAGE_SIZE + |s| <= PAGE_SIZE && s != []
    requires FrameOf(LeafAt(m, r, PathOf(va)).value) < |m| && |row| == PAGE_ENTRIES
    requires Overwritten(m[FrameOf(LeafAt(m, r, PathOf(va)).value)], row, va % PAGE_SIZE, s)
    ensures var m' := m[FrameOf(LeafAt(m, r, PathOf(va)).value) := row];
            SameLeaves(m, m', r) && SameTables(m, m', r) && BytesWritten(m, m', r, va, s)
  {
    var p := PathOf(va);
    var c := FrameOf(LeafAt(m, r, p).value);
    var m': Memory := m[c := row];
    forall q | 1 <= |q| <= 3
      ensures LeafAt(m', r, q) == LeafAt(m, r, q)
    {
      PageWriteLeaf(m, r, p, 1, row, q);
    }
    forall a: nat | a < USER_TOP
      ensures UserByte(m', r, a) == if va <= a < va + |s| then Some(s[a - va]) else UserByte(m, r, a)
    {
      SamePage(a, va);
      var q := PathOf(a);
      if LeafAt(m, r, q).Some? && FrameOf(LeafAt(m, r, q).value) == c {
        LeafInjective(m, r, q, p, 1);
        InPage(a, va);
      }
      if va <= a < va + |s| {
        InChunk(a, va, |s|);
      }
    }
  }

  lemma InPage(a: nat, b: nat)
    requires a / PAGE_SIZE == b / PAGE_SIZE
    ensures a - b == a % PAGE_SIZE - b % PAGE_SIZE
  {
  }

  lemma InChunk(a: nat, va: nat, n: nat)
    requires va <= a < va + n && va % PAGE_SIZE + n <= PAGE_SIZE
    ensures a / PAGE_SIZE == va / PAGE_SIZE && a % PAGE_SIZE == va % PAGE_SIZE + (a - va)
  {
  }

  /** How much of a copy fits in the page of va. */
  function ChunkSize(va: nat, left: nat): (n: nat)
    requires left > 0
    ensures 0 < n <= left && va % PAGE_SIZE + n <= PAGE_SIZE
  {
    var space := PAGE_SIZE - va % PAGE_SIZE;
    if space < left then space else left
  }

  lemma FrameOfPa(frame: nat, va: nat)
    ensures (frame * PAGE_SIZE + va % PAGE_SIZE) / PAGE_SIZE == frame
  {
  }

  /** Two consecutive writes are one. */
  lemma WrittenTwice(m: Memory, m1: Memory, m2: Memory, r: nat, va: nat, s: seq<Byte>, t: seq<Byte>)
    requires BytesWritten(m, m1, r, va, s) && BytesWritten(m1, m2, r, va + |s|, t)
    ensures BytesWritten(m, m2, r, va, s + t)
  {
  }

  /** Only pages of the tree at r changed: its tables and every other frame are as they were. */
  ghost predicate PagesWritten(m: Memory, m': Memory, r: nat) {
    && |m'| == |m| && SameLeaves(m, m', r) && SameTables(m, m', r)
    && (forall g: nat {:trigger Owns(m', r, 1, g)} :: Owns(m', r, 1, g) == Owns(m, r, 1, g))
    && (forall g: nat {:trigger m'[g]} :: g < |m| && Owns(m, r, 1, g) == 0 ==> m'[g] == m[g])
  }

  lemma PagesWrittenTwice(m: Memory, m1: Memory, m2: Memory, r: nat)
    requires PagesWritten(m, m1, r) && PagesWritten(m1, m2, r)
    ensures PagesWritten(m, m2, r)
  {
    forall q | 1 <= |q| <= 3
      ensures LeafAt(m2, r, q) == LeafAt(m, r, q)
    {
      assert LeafAt(m1, r, q) == LeafAt(m, r, q);
    }
    forall g: nat
      ensures Owns(m2, r, 1, g) == Owns(m, r, 1, g)
    {
      assert Owns(m1, r, 1, g) == Owns(m, r, 1, g);
    }
  }

  lemma SameLeaf(m: Memory, m': Memory, r: nat, q: seq<nat>)
    requires PagesWritten(m, m', r) && |q| == 3
    ensures LeafAt(m', r, q) == LeafAt(m, r, q)
  {
  }

  /** A copy continued by one more chunk. */
  lemma CopiedMore(m: Memory, m1: Memory, m2: Memory, r: nat, dst: nat, src: seq<Byte>, offset: nat, n: nat)
    requires offset + n <= |src|
    requires PagesWritten(m, m1, r) && BytesWritten(m, m1, r, dst, src[..offset])
    requires PagesWritten(m1, m2, r) && BytesWritten(m1, m2, r, dst + offset, src[offset..offset + n])
    ensures PagesWritten(m, m2, r) && BytesWritten(m, m2, r, dst, src[..offset + n])
  {
    PagesWrittenTwice(m, m1, m2, r);
    WrittenTwice(m, m1, m2, r, dst, src[..offset], src[offset..offset + n]);
    assert src[..offset] + src[offset..offset + n] == src[..offset + n];
  }
}
