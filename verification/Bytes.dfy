/** The bytes of words and frames, least significant first. */
module Bytes {
  import opened Words

  type Byte = b: nat | b < 256

  function Digit(v: nat, k: nat): Byte {
    if k == 0 then v % 256 else Digit(v / 256, k - 1)
  }

  function WithDigit(v: nat, k: nat, b: Byte): nat {
    if k == 0 then v / 256 * 256 + b else WithDigit(v / 256, k - 1, b) * 256 + v % 256
  }

  /** v has at most n digits. */
  predicate Fits(v: nat, n: nat) {
    if n == 0 then v == 0 else Fits(v / 256, n - 1)
  }

  /** The number whose digits are the given bytes (`u64::from_ne_bytes` on a little-endian machine). */
  function Number(s: seq<Byte>): nat {
    if s == [] then 0 else s[0] + 256 * Number(s[1..])
  }

  lemma {:induction false} DigitOfWithDigit(v: nat, k: nat, b: Byte, j: nat)
    ensures Digit(WithDigit(v, k, b), j) == if j == k then b else Digit(v, j)
    decreases k
  {
    if k > 0 {
      DigitOfWithDigit(v / 256, k - 1, b, if j == 0 then 0 else j - 1);
      assert WithDigit(v, k, b) / 256 == WithDigit(v / 256, k - 1, b);
      assert WithDigit(v, k, b) % 256 == v % 256;
    } else {
      assert WithDigit(v, 0, b) / 256 == v / 256;
      assert WithDigit(v, 0, b) % 256 == b;
    }
  }

  lemma {:induction false} WithDigitFits(v: nat, k: nat, b: Byte, n: nat)
    requires k < n && Fits(v, n)
    ensures Fits(WithDigit(v, k, b), n)
    decreases n
  {
    if k > 0 {
      WithDigitFits(v / 256, k - 1, b, n - 1);
      assert WithDigit(v, k, b) / 256 == WithDigit(v / 256, k - 1, b);
    } else {
      assert WithDigit(v, 0, b) / 256 == v / 256;
    }
  }

  lemma {:induction false} NumberOfDigits(v: nat, s: seq<Byte>)
    requires Fits(v, |s|) && forall k | 0 <= k < |s| :: s[k] == Digit(v, k)
    ensures Number(s) == v
    decreases |s|
  {
    if s != [] {
      assert forall k | 0 <= k < |s| - 1 :: s[1..][k] == Digit(v, k + 1);
      NumberOfDigits(v / 256, s[1..]);
    }
  }

  /** `u64::to_ne_bytes` */
  function ToBytes(v: nat, n: nat): (s: seq<Byte>)
    ensures |s| == n && forall k | 0 <= k < n :: s[k] == Digit(v, k)
  {
    seq(n, k requires 0 <= k < n => Digit(v, k))
  }

  lemma WordFits(v: nat)
    ensures Fits(v, 8) <==> v < 0x1_0000_0000_0000_0000
  {
    var a := v / 256;
    var b := a / 256;
    var c := b / 256;
    var d := c / 256;
    var e := d / 256;
    var f := e / 256;
    var g := f / 256;
    assert Fits(v, 8) == Fits(a, 7) == Fits(b, 6) == Fits(c, 5) == Fits(d, 4) == Fits(e, 3) == Fits(f, 2);
    assert Fits(f, 2) == Fits(g, 1) == (g / 256 == 0);
    assert d == v / 0x1_0000_0000 && g / 256 == d / 0x1_0000_0000;
  }

  // ---------------------------------------------------------------- words and frames

  function ByteOf(w: Word, k: nat): Byte
    requires k < 8
  {
    Digit(Val(w), k)
  }

  function WithByte(w: Word, k: nat, b: Byte): (w': Word)
    requires k < 8
    ensures forall j | 0 <= j < 8 :: ByteOf(w', j) == if j == k then b else ByteOf(w, j)
  {
    WordOfVal(w);
    WordFits(Val(w));
    WithDigitFits(Val(w), k, b, 8);
    var v := WithDigit(Val(w), k, b);
    WordFits(v);
    ValOfWord(v);
    assert forall j | 0 <= j < 8 :: Digit(v, j) == if j == k then b else Digit(Val(w), j) by {
      forall j | 0 <= j < 8
        ensures Digit(v, j) == if j == k then b else Digit(Val(w), j)
      {
        DigitOfWithDigit(Val(w), k, b, j);
      }
    }
    WordOf(v)
  }

  /** Byte o of a frame. */
  function ByteAt(row: seq<Word>, o: nat): Byte
    requires |row| == PAGE_ENTRIES && o < PAGE_SIZE
  {
    ByteOf(row[o / 8], o % 8)
  }

  /** An aligned word is the number that its eight bytes spell. */
  lemma WordIsItsBytes(row: seq<Word>, o: nat, s: seq<Byte>)
    requires |row| == PAGE_ENTRIES && o + 8 <= PAGE_SIZE && o % 8 == 0
    requires |s| == 8 && forall k | 0 <= k < 8 :: s[k] == ByteAt(row, o + k)
    ensures Number(s) == Val(row[o / 8])
  {
    var v := Val(row[o / 8]);
    WordOfVal(row[o / 8]);
    WordFits(v);
    forall k | 0 <= k < 8
      ensures s[k] == Digit(v, k)
    {
      assert (o + k) / 8 == o / 8 && (o + k) % 8 == k;
    }
    NumberOfDigits(v, s);
  }
}
