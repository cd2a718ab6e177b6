/**
 Percent coding (section 2.1 of RFC 3986): every byte outside a set of unreserved characters is written
 as a percent sign and two hexadecimal digits.
 */
module PercentCoding {
  import opened AsciiSets

  predicate IsHexDigit(c: Byte) {
    '0' <= c <= '9' || 'A' <= c <= 'F' || 'a' <= c <= 'f'
  }

  function HexDigitToInt(c: Byte): (x: int)
    requires IsHexDigit(c)
    ensures 0 <= x < 16
  {
    var x := c as int;
    (if x > '9' as int then x + 9 else x) % 16
  }

  function IntToHexDigit(x: int): (c: Byte)
    requires 0 <= x < 16
    ensures IsHexDigit(c) && HexDigitToInt(c) == x
  {
    "0123456789ABCDEF"[x]
  }

  function EncodeByte(c: Byte, unreserved: set<Byte>): Bytes {
    if c in unreserved then [c] else ['%', IntToHexDigit(c as int / 16), IntToHexDigit(c as int % 16)]
  }

  // What encoding means, byte by byte.
  function Encode(s: Bytes, unreserved: set<Byte>): Bytes {
    if s == [] then [] else EncodeByte(s[0], unreserved) + Encode(s[1..], unreserved)
  }

  predicate StartsEscape(s: Bytes) {
    |s| >= 3 && s[0] == '%' && IsHexDigit(s[1]) && IsHexDigit(s[2])
  }

  // What decoding means: a percent sign that no two hexadecimal digits follow stands for itself.
  function Decode(s: Bytes): Bytes {
    if s == [] then []
    else if StartsEscape(s) then [EscapedByte(s)] + Decode(s[3..])
    else [s[0]] + Decode(s[1..])
  }

  function EscapedByte(s: Bytes): Byte
    requires StartsEscape(s)
  {
    (HexDigitToInt(s[1]) * 16 + HexDigitToInt(s[2])) as char
  }

  method PercentEncode(str: Bytes, unreserved: ASCIISet) returns (ret: Bytes)
    requires unreserved.Valid()
    ensures ret == Encode(str, unreserved.Members())
  {
    ghost var members := unreserved.Members();
    var numEscaped := 0;
    for i := 0 to |str|
      invariant numEscaped >= 0
      invariant numEscaped == 0 <==> forall k | 0 <= k < i :: str[k] in members
    {
      if !unreserved.Test(str[i]) {
        numEscaped := numEscaped + 1;
      }
    }
    if numEscaped == 0 {
      EncodeUnreserved(str, members);
      return str;
    }
    ret := EscapeEach(str, unreserved);
  }

  // The slow way, taken when there is something to escape.
  method EscapeEach(str: Bytes, unreserved: ASCIISet) returns (ret: Bytes)
    requires unreserved.Valid()
    ensures ret == Encode(str, unreserved.Members())
  {
    ghost var members := unreserved.Members();
    ret := [];
    for i := 0 to |str|
      invariant ret + Encode(str[i..], members) == Encode(str, members)
    {
      EncodeNext(ret, str, i, members);
      assert unreserved.Test(str[i]) <==> str[i] in members;
      if unreserved.Test(str[i]) {
        ret := ret + [str[i]];
      } else {
        ret := AppendEscape(ret, str[i]);
      }
    }
  }

  method AppendEscape(s: Bytes, c: Byte) returns (ret: Bytes)
    ensures ret == s + EncodeByte(c, {})
  {
    ret := s + ['%'];
    ret := ret + [IntToHexDigit(c as int / 16)];
    ret := ret + [IntToHexDigit(c as int % 16)];
  }

  method PercentDecode(src: Bytes) returns (ret: Bytes)
    ensures ret == Decode(src)
  {
    ret := [];
    var i := 0;
    while i < |src|
      invariant 0 <= i <= |src|
      invariant ret + Decode(src[i..]) == Decode(src)
    {
      var c := src[i];
      if c != '%' || i + 2 >= |src| || !IsHexDigit(src[i + 1]) || !IsHexDigit(src[i + 2]) {
        assert !StartsEscape(src[i..]) && src[i..][1..] == src[i + 1..];
        ret := ret + [c];
        i := i + 1;
      } else {
        assert StartsEscape(src[i..]) && src[i..][3..] == src[i + 3..];
        ret := ret + [(HexDigitToInt(src[i + 1]) * 16 + HexDigitToInt(src[i + 2])) as char];
        i := i + 3;
      }
    }
  }

  lemma EncodeNext(done: Bytes, s: Bytes, i: nat, unreserved: set<Byte>)
    requires i < |s|
    ensures done + Encode(s[i..], unreserved)
         == done + EncodeByte(s[i], unreserved) + Encode(s[i + 1..], unreserved)
  {
  }

  lemma {:induction false} EncodeUnreserved(s: Bytes, unreserved: set<Byte>)
    requires forall c | c in s :: c in unreserved
    ensures Encode(s, unreserved) == s
  {
    if s != [] {
      EncodeUnreserved(s[1..], unreserved);
    }
  }

  lemma {:induction false} EncodeConcat(s: Bytes, t: Bytes, unreserved: set<Byte>)
    ensures Encode(s + t, unreserved) == Encode(s, unreserved) + Encode(t, unreserved)
  {
    if s == [] {
      assert s + t == t;
    } else {
      assert (s + t)[0] == s[0] && (s + t)[1..] == s[1..] + t;
      EncodeConcat(s[1..], t, unreserved);
    }
  }

  // The set cannot pass off text as an escape: it lacks the percent sign, or every hexadecimal digit.
  ghost predicate Decodable(unreserved: set<Byte>) {
    '%' !in unreserved || forall c | c in unreserved :: !IsHexDigit(c)
  }

  lemma {:induction false} DecodeEncoded(s: Bytes, unreserved: set<Byte>)
    requires Decodable(unreserved)
    ensures Decode(Encode(s, unreserved)) == s
  {
    if s != [] {
      var text, rest := Encode(s, unreserved), Encode(s[1..], unreserved);
      DecodeEncoded(s[1..], unreserved);
      if s[0] in unreserved {
        assert text[1..] == rest;
        if s[0] == '%' && |s| > 1 {
          assert text[1] == EncodeByte(s[1], unreserved)[0];
        }
      } else {
        assert StartsEscape(text) && text[3..] == rest;
      }
    }
  }

  // Decoding undoes encoding, for every byte string, exactly when the set cannot forge an escape.
  lemma DecodeUndoesEncode(unreserved: set<Byte>)
    ensures (forall s: Bytes :: Decode(Encode(s, unreserved)) == s) <==> Decodable(unreserved)
  {
    if Decodable(unreserved) {
      forall s: Bytes
        ensures Decode(Encode(s, unreserved)) == s
      {
        DecodeEncoded(s, unreserved);
      }
    } else {
      var h: Byte :| h in unreserved && IsHexDigit(h);
      var s: Bytes := ['%', h, h];
      EncodeUnreserved(s, unreserved);
      assert StartsEscape(s) && |Decode(s)| == 1;
      assert Decode(Encode(s, unreserved)) != s;
    }
  }

  // An encoded string holds no ASCII character but the unreserved ones, the percent sign and digits.
  lemma {:induction false} EncodeHolds(s: Bytes, unreserved: set<Byte>, c: Byte)
    requires c in Encode(s, unreserved)
    ensures c in unreserved || c == '%' || IsHexDigit(c)
  {
    if c !in EncodeByte(s[0], unreserved) {
      EncodeHolds(s[1..], unreserved, c);
    }
  }

  // Decoding never makes something of nothing, nor nothing of something, and lengthens no text.
  lemma {:induction false} DecodeLength(s: Bytes)
    ensures |Decode(s)| <= |s|
    ensures Decode(s) == [] <==> s == []
  {
    if s == [] {
    } else if StartsEscape(s) {
      DecodeLength(s[3..]);
    } else {
      DecodeLength(s[1..]);
    }
  }
}
