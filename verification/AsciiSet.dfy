/**
 Sets of ASCII characters as two 64-bit words, one bit a character.
 A byte is a `char` below 256; a string of the program is a sequence of them.
 */
module AsciiSets {

  type Byte = c: char | c < 256 as char witness 'a'

  type Bytes = seq<Byte>

  class ASCIISet {
    const bitvec: array<bv64>

    ghost predicate Valid() {
      bitvec.Length == 2
    }

    // The characters the set answers for; no byte from 128 on is ever one of them.
    ghost function Members(): (members: set<Byte>)
      requires Valid()
      reads bitvec
      ensures forall c | c in members :: c < 128 as char
    {
      set c: Byte | Test(c)
    }

    constructor Empty()
      ensures Valid() && fresh(bitvec) && Members() == {}
    {
      bitvec := new bv64[2][0, 0];
      new;
      forall c: Byte ensures !Test(c) { NoBits(c as bv8); }
    }

    // A character from 128 on is folded onto the one 128 below it.
    constructor (s: Bytes)
      ensures Valid() && fresh(bitvec)
      ensures Members() == Folded(s)
    {
      bitvec := new bv64[2][0, 0];
      new;
      forall c: Byte ensures !Test(c) { NoBits(c as bv8); }
      for i := 0 to |s|
        invariant Members() == Folded(s[..i])
      {
        assert s[..i + 1] == s[..i] + [s[i]];
        Set(s[i]);
      }
      assert s[..|s|] == s;
    }

    method Set(c: Byte)
      requires Valid()
      modifies bitvec
      ensures Members() == old(Members()) + {Fold(c)}
    {
      var uc := c as bv8;
      var w := Word(uc);
      bitvec[w] := bitvec[w] | (1 << Bit(uc));
      forall d: Byte
        ensures Test(d) <==> old(Test(d)) || d == Fold(c)
      {
        OneMore(old(bitvec[..]), c, d);
      }
    }

    predicate Test(c: Byte)
      requires Valid()
      reads bitvec
    {
      Has(bitvec[..], c)
    }
  }

  predicate Has(words: seq<bv64>, c: Byte)
    requires |words| == 2
  {
    var uc := c as bv8;
    uc < 128 && HasBit(words, Word(uc), Bit(uc))
  }

  function Word(uc: bv8): (w: int)
    ensures 0 <= w < 2
  {
    if uc & 64 != 0 then 1 else 0
  }

  function Bit(uc: bv8): (k: bv64)
    ensures k < 64
  {
    (uc & 63) as bv64
  }

  function Fold(c: Byte): Byte {
    if c < 128 as char then c else (c as int - 128) as char
  }

  function CharsOf(s: Bytes): set<Byte> {
    set c | c in s
  }

  function Folded(s: Bytes): set<Byte> {
    set c | c in s :: Fold(c)
  }

  predicate IsAscii(s: Bytes) {
    forall c | c in s :: c < 128 as char
  }

  lemma FoldAscii(s: Bytes)
    requires IsAscii(s)
    ensures Folded(s) == CharsOf(s)
  {
  }

  lemma NoBits(uc: bv8)
    ensures ((0 as bv64) >> Bit(uc)) & 1 == 0
  {
  }

  // Seven bits tell an ASCII character from every other.
  lemma SameWordAndBit(uc: bv8, ud: bv8)
    requires ud < 128
    ensures Word(uc) == Word(ud) && Bit(uc) == Bit(ud) <==> uc & 127 == ud
  {
  }

  lemma LowBits(i: int)
    requires 0 <= i < 256
    ensures (i as bv8) as int == i && ((i as bv8) < 128 <==> i < 128)
    ensures ((i as bv8) & 127) as int == if i < 128 then i else i - 128
  {
  }

  // Every number below 256 is that of a bit vector of eight bits.
  lemma {:induction false} Numbered(i: int) returns (uc: bv8)
    requires 0 <= i < 256
    ensures uc as int == i && i as bv8 == uc
  {
    if i == 0 {
      uc := 0;
    } else {
      var before := Numbered(i - 1);
      uc := before + 1;
      assert i == uc as int;
    }
  }

  // Folding keeps the low seven bits.
  lemma FoldIsLowBits(c: Byte, d: Byte)
    requires d < 128 as char
    ensures d == Fold(c) <==> (c as bv8) & 127 == d as bv8
  {
    LowBits(c as int);
    LowBits(d as int);
  }

  lemma SameBit(c: Byte, d: Byte)
    ensures (d as bv8) < 128 <==> d < 128 as char
    ensures d < 128 as char ==>
              (d == Fold(c) <==> Word(c as bv8) == Word(d as bv8) && Bit(c as bv8) == Bit(d as bv8))
  {
    LowBits(d as int);
    if d < 128 as char {
      FoldIsLowBits(c, d);
      SameWordAndBit(c as bv8, d as bv8);
    }
  }

  predicate HasBit(words: seq<bv64>, w: int, k: bv64)
    requires |words| == 2 && 0 <= w < 2 && k < 64
  {
    (words[w] >> k) & 1 == 1
  }

  lemma OneMoreBit(words: seq<bv64>, w: int, k: bv64, v: int, j: bv64)
    requires |words| == 2 && 0 <= w < 2 && 0 <= v < 2 && k < 64 && j < 64
    ensures HasBit(words[w := words[w] | (1 << k)], v, j) <==> HasBit(words, v, j) || (w == v && k == j)
  {
  }

  // Setting a bit adds the folded character.
  lemma OneMore(words: seq<bv64>, c: Byte, d: Byte)
    requires |words| == 2
    ensures Has(words[Word(c as bv8) := words[Word(c as bv8)] | (1 << Bit(c as bv8))], d)
       <==> Has(words, d) || d == Fold(c)
  {
    var uc, ud := c as bv8, d as bv8;
    SameBit(c, d);
    OneMoreBit(words, Word(uc), Bit(uc), Word(ud), Bit(ud));
  }
}
