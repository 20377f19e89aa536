/** Bit addressing in the trace stream and the VCD binary strings built from it. */
module Bits {
  import opened Commands

  /** Bit `i` of a word, `(word >> i) & 0x1`. */
  function Bit(w: Word, i: bv7): bool
    requires i < 64
  {
    (w >> i) & 1 == 1
  }

  /** Bit `i` of a word, for an integer bit index. */
  function WordBit(w: Word, i: nat): bool
    requires i < 64
  {
    Bit(w, i as bv7)
  }

  /** Bit `p` of a frame body: the body words are consumed from bit 0 (least significant)
      up to bit 63 of each word in turn. */
  function FrameBit(ws: seq<Word>, p: nat): bool
    requires p < 64 * |ws|
  {
    WordBit(ws[p / 64], p % 64)
  }

  /** A bit of the last word read is that word's bit at the offset within the word. */
  lemma FrameBitOfLastWord(ws: seq<Word>, p: nat)
    requires 64 * (|ws| - 1) <= p < 64 * |ws|
    ensures FrameBit(ws, p) == WordBit(ws[|ws| - 1], p % 64)
  {
    assert p / 64 == |ws| - 1;
  }

  /** Reading more words does not change the bits already available. */
  lemma FrameBitPrefix(ws: seq<Word>, more: seq<Word>, p: nat)
    requires p < 64 * |ws|
    ensures FrameBit(ws + more, p) == FrameBit(ws, p)
  {
  }

  /** The character the driver writes for a bit. */
  function BitChar(b: bool): char
  {
    if b then '1' else '0'
  }

  /** The VCD binary string of a signal whose bits were consumed in the order `b`: the k-th
      bit consumed lands at string position |b|-1-k, so the first bit consumed is the
      rightmost (least significant) character. */
  function BitsToString(b: seq<bool>): (s: string)
    ensures |s| == |b|
    ensures forall k :: 0 <= k < |b| ==> s[|b| - 1 - k] == BitChar(b[k])
  {
    seq(|b|, i requires 0 <= i < |b| => BitChar(b[|b| - 1 - i]))
  }

  /** The number a bit sequence denotes when its first element is the least significant bit. */
  function LsbValue(b: seq<bool>): nat
  {
    if b == [] then 0 else (if b[0] then 1 else 0) + 2 * LsbValue(b[1..])
  }

  /** The number a VCD binary string denotes, most significant character first. */
  function BinValue(s: string): nat
  {
    if s == [] then 0 else 2 * BinValue(s[..|s| - 1]) + (if s[|s| - 1] == '1' then 1 else 0)
  }

  /** Read as a binary number, the emitted string is the consumed bits with the first
      consumed bit as the least significant one. */
  lemma {:induction false} BinValueOfBitsToString(b: seq<bool>)
    ensures BinValue(BitsToString(b)) == LsbValue(b)
  {
    if b != [] {
      var s := BitsToString(b);
      assert s[..|s| - 1] == BitsToString(b[1..]);
      assert s[|s| - 1] == BitChar(b[0]);
      BinValueOfBitsToString(b[1..]);
    }
  }

  /** The bits a string denotes, in consumption order (the inverse of BitsToString). */
  function StringToBits(s: string): (b: seq<bool>)
    ensures |b| == |s|
  {
    seq(|s|, k requires 0 <= k < |s| => s[|s| - 1 - k] == '1')
  }

  /** A string of '0' and '1' characters. */
  predicate IsBinary(s: string)
  {
    forall i :: 0 <= i < |s| ==> s[i] == '0' || s[i] == '1'
  }

  /** Converting bits to a string and back is the identity, and so is the converse on
      binary strings. */
  lemma StringBitsRoundTrip(b: seq<bool>, s: string)
    ensures StringToBits(BitsToString(b)) == b
    ensures IsBinary(s) ==> BitsToString(StringToBits(s)) == s
  {
    var r := StringToBits(BitsToString(b));
    assert forall k :: 0 <= k < |b| ==> r[k] == b[k];
    if IsBinary(s) {
      var t := BitsToString(StringToBits(s));
      assert forall i :: 0 <= i < |s| ==> t[i] == s[i];
    }
  }

  /** The word whose bit `i` is b[i] (bits past |b| are zero): the reference packer of a
      recorder that stores a bit stream least significant bit first. */
  function PackWord(b: seq<bool>): (w: Word)
    requires |b| <= 64
  {
    if b == [] then 0 else (if b[0] then 1 else 0) | (PackWord(b[1..]) << 1)
  }

  /** The bit above the lowest of `lo | rest << 1` is the corresponding bit of `rest`. */
  lemma PackWordShift(lo: Word, rest: Word, i: bv7)
    requires lo <= 1 && 0 < i < 64
    ensures Bit(lo | (rest << 1), i) == Bit(rest, i - 1)
  {
  }

  /** The lowest bit of `lo | rest << 1` is `lo`. */
  lemma PackWordLow(lo: Word, rest: Word)
    requires lo <= 1
    ensures Bit(lo | (rest << 1), 0) == (lo == 1)
  {
  }

  /** Unpacking a packed word gives back the bits. */
  lemma {:induction false} BitOfPackWord(b: seq<bool>, i: bv7)
    requires i as int < |b| <= 64
    ensures Bit(PackWord(b), i) == b[i]
  {
    var lo: Word := if b[0] then 1 else 0;
    var rest := PackWord(b[1..]);
    assert PackWord(b) == lo | (rest << 1);
    if i == 0 {
      PackWordLow(lo, rest);
    } else {
      assert (i - 1) as int == i as int - 1;
      PackWordShift(lo, rest, i);
      BitOfPackWord(b[1..], i - 1);
    }
  }

  /** The same, for an integer bit index. */
  lemma WordBitOfPackWord(b: seq<bool>, i: nat)
    requires i < |b| <= 64
    ensures WordBit(PackWord(b), i) == b[i]
  {
    assert (i as bv7) as int == i;
    BitOfPackWord(b, i as bv7);
  }
}
