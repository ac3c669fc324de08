/** Machine words, descriptors and addresses.

    A 64-bit word is held as the fields that the kernel's masks select: bits 48-63, the address field in
    bits 12-47 (mask 0x0000_FFFF_FFFF_F000), bits 2-11 and the descriptor type in bits 0-1 (mask 0b11).
    `Val` and `WordOf` convert to and from its number. */
module Words {
  const PAGE_SIZE: nat := 4096
  const PAGE_ENTRIES: nat := 512

  // Frame numbers reachable through the 39-bit TTBR1 window.
  const MAX_FRAMES: nat := 0x800_0000

  type FrameNo = f: nat | f < MAX_FRAMES

  datatype Option<+T> = None | Some(value: T)

  datatype Fields = Fields(high: nat, addr: nat, low: nat, kind: nat)

  type Word = w: Fields | w.high < 0x1_0000 && w.addr < 0x10_0000_0000 && w.low < 0x400 && w.kind < 4
    witness Fields(0, 0, 0, 0)

  const ZERO: Word := Fields(0, 0, 0, 0)

  function Val(w: Word): nat {
    w.high * 0x1_0000_0000_0000 + w.addr * 0x1000 + w.low * 4 + w.kind
  }

  function WordOf(n: nat): Word
    requires n < 0x1_0000_0000_0000_0000
  {
    Fields(n / 0x1_0000_0000_0000, n / 0x1000 % 0x10_0000_0000, n / 4 % 0x400, n % 4)
  }

  lemma ValOfWord(n: nat)
    requires n < 0x1_0000_0000_0000_0000
    ensures Val(WordOf(n)) == n
  {
    assert n / 0x1000 / 0x10_0000_0000 == n / 0x1_0000_0000_0000;
  }

  lemma WordOfVal(w: Word)
    ensures Val(w) < 0x1_0000_0000_0000_0000 && WordOf(Val(w)) == w
  {
    var q := w.high * 0x10_0000_0000 + w.addr;
    assert Val(w) == q * 0x1000 + (w.low * 4 + w.kind);
    assert Val(w) == (q * 0x400 + w.low) * 4 + w.kind;
    assert Val(w) / 0x1000 == q;
  }

  /** `w & 0b11 == 0b11` */
  predicate IsValid(w: Word) {
    w.kind == 3
  }

  /** `w & 0x0000_FFFF_FFFF_F000`, as a frame number. */
  function FrameOf(w: Word): nat {
    w.addr
  }

  /** `w & !0x0000_FFFF_FFFF_F000` */
  function Flags(w: Word): Word {
    w.(addr := 0)
  }

  /** `pa | flags` for the frame at `pa == 4096 * f`. */
  function Entry(f: nat, flags: Word): Word
    requires f < MAX_FRAMES
  {
    flags.(addr := f)
  }

  /** The attribute bits of every user page (Arm ARM DDI 0487, section D8.3):
      PXN in bit 53; ATTR_NORMAL, AP_EL0_RW, SH_INNER, AF and NG in bits 2-11; VALID and PAGE. */
  const PAGE_FLAGS: Word := Fields(0x20, 0, (0x4 + 0x40 + 0x300 + 0x400 + 0x800) / 4, 0x1 + 0x2)

  /** The bits `0b11` of a descriptor that points to a next-level table. */
  const TABLE_FLAGS: Word := Fields(0, 0, 0, 3)

  /** The entries as the hardware reads them. That of a user page has PXN in bit 53, the frame in bits 12-47, NG in
      bit 11, AF in bit 10, inner shareable in bits 8-9, read and write for EL0 in bits 6-7, attribute 1, normal memory,
      in bits 2-4, and type 3; that of a table the frame and type 3; and no other bit is set in either. */
  lemma EntryBits(f: nat)
    requires f < MAX_FRAMES
    ensures Val(Entry(f, PAGE_FLAGS))
      == 0x20_0000_0000_0000 + 0x1000 * f + 0x800 + 0x400 + 3 * 0x100 + 1 * 0x40 + 1 * 0x4 + 3
    ensures Val(Entry(f, TABLE_FLAGS)) == 0x1000 * f + 3
  {
  }

  // ---------------------------------------------------------------- kernel addresses

  const WINDOW: nat := 0x80_0000_0000

  /** `ttbr1_to_va!`: sets bits 39-63. */
  function ToVa(a: nat): nat {
    a % WINDOW + 0xffff_ff80_0000_0000
  }

  /** `ttbr1_to_pa!`: keeps bits 0-38. */
  function ToPa(a: nat): nat {
    a % WINDOW
  }

  /** The kernel's address of a frame leads back to the frame. */
  lemma VaOfFrame(f: nat)
    requires f < MAX_FRAMES
    ensures ToPa(ToVa(f * PAGE_SIZE)) / PAGE_SIZE == f
  {
    assert f * PAGE_SIZE < WINDOW;
    assert ToVa(f * PAGE_SIZE) == f * PAGE_SIZE + 0x1ff_ffff * WINDOW;
  }

  /** The kernel address of the first byte of a frame, as the word a free frame stores. */
  function FrameVa(f: nat): (w: Word)
    requires f < MAX_FRAMES
    ensures Val(w) == ToVa(4096 * f) && ToPa(Val(w)) == 4096 * f && !IsValid(w)
  {
    Fields(0xffff, 0xf_f800_0000 + f, 0, 0)
  }
}

/** User virtual addresses. */
module Addresses {
  import opened Words

  /** The three table indices of a virtual address: bits 30-38, 21-29 and 12-20. */
  function PathOf(va: nat): (p: seq<nat>)
    ensures |p| == 3 && p[0] < PAGE_ENTRIES && p[1] < PAGE_ENTRIES && p[2] < PAGE_ENTRIES
  {
    [va / 0x4000_0000 % 512, va / 0x20_0000 % 512, va / 0x1000 % 512]
  }

  /** Two addresses use the same entry exactly when they agree on bits 12-38. */
  lemma PathIsPageNumber(va: nat, va': nat)
    ensures PathOf(va) == PathOf(va') <==> va / 0x1000 % 0x800_0000 == va' / 0x1000 % 0x800_0000
  {
    PageNumberDigits(va / 0x1000, va);
    PageNumberDigits(va' / 0x1000, va');
  }

  lemma PageNumberDigits(n: nat, va: nat)
    requires n == va / 0x1000
    ensures n % 0x800_0000 == PathOf(va)[0] * 0x4_0000 + PathOf(va)[1] * 0x200 + PathOf(va)[2]
  {
    assert va / 0x20_0000 == n / 0x200;
    assert va / 0x4000_0000 == n / 0x4_0000;
    var a, b := n / 0x4_0000, n / 0x200;
    assert n == a / 0x200 * 0x800_0000 + a % 0x200 * 0x4_0000 + b % 0x200 * 0x200 + n % 0x200;
  }
}
