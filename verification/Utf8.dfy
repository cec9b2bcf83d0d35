/**
  The UTF-8 check of include/pointcloud_ad/geometry.hpp. Masks and shifts are written as remainders and
  multiples of powers of two.
 */
module Utf8 {
  import opened Basics


  /** A Unicode scalar value. */
  predicate IsScalar(c: nat) {
    c <= 0x10ffff && !(0xd800 <= c <= 0xdfff)
  }

  predicate AllScalars(cs: seq<nat>) {
    forall i :: 0 <= i < |cs| ==> IsScalar(cs[i])
  }

  /** A continuation byte: the low six bits of c. */
  function Continuation(c: nat): byte {
    0x80 + c % 0x40
  }

  /** The encoding of section 3 of RFC 3629; nothing for what is no scalar value. */
  function EncodeScalar(c: nat): seq<byte> {
    if !IsScalar(c) then []
    else if c < 0x80 then [c]
    else if c < 0x800 then [0xc0 + c / 0x40, Continuation(c)]
    else if c < 0x10000 then [0xe0 + c / 0x40 / 0x40, Continuation(c / 0x40), Continuation(c)]
    else [0xf0 + c / 0x40 / 0x40 / 0x40, Continuation(c / 0x40 / 0x40), Continuation(c / 0x40), Continuation(c)]
  }

  function Flatten<T, U>(f: T -> seq<U>, cs: seq<T>): seq<U> {
    if cs == [] then [] else Flatten(f, cs[..|cs| - 1]) + f(cs[|cs| - 1])
  }

  function Encode(cs: seq<nat>): seq<byte> {
    Flatten(EncodeScalar, cs)
  }

  lemma {:induction false} FlattenFirst<T, U>(f: T -> seq<U>, cs: seq<T>)
    requires cs != []
    ensures Flatten(f, cs) == f(cs[0]) + Flatten(f, cs[1..])
  {
    var n := |cs| - 1;
    if n > 0 {
      FlattenFirst(f, cs[..n]);
      assert cs[..n][1..] == cs[1..][..n - 1];
      assert Flatten(f, cs[1..]) == Flatten(f, cs[1..][..n - 1]) + f(cs[n]);
    } else {
      assert cs[..0] == [] && cs[1..] == [];
    }
  }

  // ----- the grammar of section 4 of RFC 3629 -----

  predicate Tail(b: byte) {
    0x80 <= b <= 0xbf
  }

  /** UTF8-1, UTF8-2, UTF8-3 or UTF8-4. */
  predicate IsChar(s: seq<byte>) {
    if |s| == 1 then s[0] <= 0x7f
    else if |s| == 2 then 0xc2 <= s[0] <= 0xdf && Tail(s[1])
    else if |s| == 3 then
      (s[0] == 0xe0 && 0xa0 <= s[1] <= 0xbf && Tail(s[2]))
      || (0xe1 <= s[0] <= 0xec && Tail(s[1]) && Tail(s[2]))
      || (s[0] == 0xed && 0x80 <= s[1] <= 0x9f && Tail(s[2]))
      || (0xee <= s[0] <= 0xef && Tail(s[1]) && Tail(s[2]))
    else if |s| == 4 then
      (s[0] == 0xf0 && 0x90 <= s[1] <= 0xbf && Tail(s[2]) && Tail(s[3]))
      || (0xf1 <= s[0] <= 0xf3 && Tail(s[1]) && Tail(s[2]) && Tail(s[3]))
      || (s[0] == 0xf4 && 0x80 <= s[1] <= 0x8f && Tail(s[2]) && Tail(s[3]))
    else false
  }

  /** The payload bits of the lead byte of an n-byte character. */
  function LeadBits(lead: nat, n: nat): nat {
    if n == 1 then lead else if n == 2 then lead % 0x20 else if n == 3 then lead % 0x10 else lead % 8
  }

  /** Six more bits. */
  function Shift(c: nat, b: nat): nat {
    c * 0x40 + b % 0x40
  }

  /** The value of the first bytes of an n-byte character. */
  function Gathered(s: seq<byte>, n: nat): nat
    requires s != []
  {
    if |s| == 1 then LeadBits(s[0], n) else Shift(Gathered(s[..|s| - 1], n), s[|s| - 1])
  }

  /** How many bytes a lead byte announces; 0 when it cannot lead. */
  function LengthOf(lead: byte): (n: nat)
    ensures n <= 4
  {
    if lead <= 0x7f then 1 else if 0xc2 <= lead <= 0xdf then 2 else if 0xe0 <= lead <= 0xef then 3
    else if 0xf0 <= lead <= 0xf4 then 4 else 0
  }

  lemma ShiftDivides(c: nat, b: nat)
    ensures Shift(c, b) / 0x40 == c && Shift(c, b) % 0x40 == b % 0x40
  {
  }

  lemma ShiftRestores(c: nat)
    ensures Shift(c / 0x40, Continuation(c)) == c
  {
  }

  lemma GatheredTwo(a: byte, b: byte)
    ensures Gathered([a, b], 2) == Shift(LeadBits(a, 2), b)
  {
    assert [a, b][..1] == [a];
  }

  lemma GatheredThree(a: byte, b: byte, c: byte)
    ensures Gathered([a, b, c], 3) == Shift(Shift(LeadBits(a, 3), b), c)
  {
    assert [a, b, c][..2] == [a, b] && [a, b][..1] == [a];
    assert Gathered([a, b], 3) == Shift(LeadBits(a, 3), b);
  }

  lemma GatheredFour(a: byte, b: byte, c: byte, d: byte)
    ensures Gathered([a, b, c, d], 4) == Shift(Shift(Shift(LeadBits(a, 4), b), c), d)
  {
    assert [a, b, c, d][..3] == [a, b, c] && [a, b, c][..2] == [a, b] && [a, b][..1] == [a];
    assert Gathered([a, b], 4) == Shift(LeadBits(a, 4), b);
    assert Gathered([a, b, c], 4) == Shift(Shift(LeadBits(a, 4), b), c);
  }

  lemma EncodedTwo(c: nat)
    requires 0x80 <= c < 0x800
    ensures var s := [0xc0 + c / 0x40, Continuation(c)]; IsChar(s) && Gathered(s, 2) == c && LengthOf(s[0]) == 2
  {
    ShiftRestores(c);
    GatheredTwo(0xc0 + c / 0x40, Continuation(c));
  }

  lemma EncodedThree(c: nat, a: nat, b: nat)
    requires 0x800 <= c < 0x10000 && IsScalar(c) && a == c / 0x40 && b == a / 0x40
    ensures var s := [0xe0 + b, Continuation(a), Continuation(c)];
      b < 0x10 && IsChar(s) && Gathered(s, 3) == c && LengthOf(0xe0 + b) == 3
  {
    ShiftRestores(c);
    ShiftRestores(a);
    ThreeInRange(c, a, b);
    assert Shift(Shift(b, Continuation(a)), Continuation(c)) == c;
    GatheredThree(0xe0 + b, Continuation(a), Continuation(c));
  }

  lemma ThreeInRange(c: nat, a: nat, b: nat)
    requires 0x800 <= c < 0x10000 && IsScalar(c) && a == c / 0x40 && b == a / 0x40
    ensures b < 0x10 && LeadBits(0xe0 + b, 3) == b
    ensures b == 0 ==> 0xa0 <= Continuation(a)
    ensures b == 0xd ==> Continuation(a) <= 0x9f
  {
    assert 0x20 <= a < 0x400 && !(0x360 <= a < 0x380);
  }

  lemma EncodedFour(c: nat, a: nat, b: nat, d: nat)
    requires 0x10000 <= c && IsScalar(c) && a == c / 0x40 && b == a / 0x40 && d == b / 0x40
    ensures d <= 4
    ensures var s := [0xf0 + d, Continuation(b), Continuation(a), Continuation(c)];
      IsChar(s) && Gathered(s, 4) == c && LengthOf(0xf0 + d) == 4
  {
    ShiftRestores(c);
    ShiftRestores(a);
    ShiftRestores(b);
    FourInRange(c, a, b, d);
    assert Shift(Shift(Shift(d, Continuation(b)), Continuation(a)), Continuation(c)) == c;
    GatheredFour(0xf0 + d, Continuation(b), Continuation(a), Continuation(c));
  }

  lemma FourInRange(c: nat, a: nat, b: nat, d: nat)
    requires 0x10000 <= c <= 0x10ffff && a == c / 0x40 && b == a / 0x40 && d == b / 0x40
    ensures d <= 4 && 0x10 <= b <= 0x10f && LeadBits(0xf0 + d, 4) == d
    ensures d == 0 ==> 0x90 <= Continuation(b) && Continuation(b) == 0x80 + b
    ensures d == 4 ==> Continuation(b) <= 0x8f
  {
  }

  /** Encoding yields a character of the grammar whose value is the scalar, and whose lead gives its length. */
  lemma EncodedIsChar(c: nat)
    requires IsScalar(c)
    ensures var s := EncodeScalar(c); IsChar(s) && Gathered(s, |s|) == c && LengthOf(s[0]) == |s|
  {
    if 0x80 <= c < 0x800 {
      EncodedTwo(c);
    } else if 0x800 <= c < 0x10000 {
      EncodedThree(c, c / 0x40, c / 0x40 / 0x40);
    } else if c >= 0x10000 {
      EncodedFour(c, c / 0x40, c / 0x40 / 0x40, c / 0x40 / 0x40 / 0x40);
    }
  }

  ghost predicate Encodes(v: nat, s: seq<byte>) {
    IsScalar(v) && EncodeScalar(v) == s
  }

  lemma TwoIsEncoded(a: byte, b: byte)
    requires IsChar([a, b])
    ensures Encodes(Gathered([a, b], 2), [a, b])
  {
    GatheredTwo(a, b);
    ShiftDivides(LeadBits(a, 2), b);
  }

  lemma TailReturns(c: nat, b: byte)
    requires Tail(b)
    ensures Shift(c, b) / 0x40 == c && Continuation(Shift(c, b)) == b && c * 0x40 <= Shift(c, b) <= c * 0x40 + 0x3f
  {
  }

  lemma ThreeIsEncoded(a: byte, b: byte, c: byte)
    requires IsChar([a, b, c])
    ensures Encodes(Gathered([a, b, c], 3), [a, b, c])
  {
    GatheredThree(a, b, c);
    var x := LeadBits(a, 3);
    assert a == 0xe0 + x && x <= 0xf;
    var y := Shift(x, b);
    TailReturns(x, b);
    TailReturns(y, c);
    assert y == x * 0x40 + b - 0x80;
    assert 0x20 <= y < 0x400 && !(0x360 <= y < 0x380);
    EncodeThree(Shift(y, c), y, x);
  }

  lemma EncodeThree(v: nat, y: nat, x: nat)
    requires v / 0x40 == y && y / 0x40 == x && 0x20 <= y < 0x400 && !(0x360 <= y < 0x380)
    ensures IsScalar(v) && EncodeScalar(v) == [0xe0 + x, Continuation(y), Continuation(v)]
  {
    assert y * 0x40 <= v <= y * 0x40 + 0x3f;
  }

  lemma EncodeFour(v: nat, z: nat, y: nat, x: nat)
    requires v / 0x40 == z && z / 0x40 == y && y / 0x40 == x && 0x10 <= y <= 0x10f
    ensures IsScalar(v) && EncodeScalar(v) == [0xf0 + x, Continuation(y), Continuation(z), Continuation(v)]
  {
    assert z * 0x40 <= v <= z * 0x40 + 0x3f && y * 0x40 <= z <= y * 0x40 + 0x3f;
  }

  lemma FourIsEncoded(a: byte, b: byte, c: byte, d: byte)
    requires IsChar([a, b, c, d])
    ensures Encodes(Gathered([a, b, c, d], 4), [a, b, c, d])
  {
    GatheredFour(a, b, c, d);
    var x := LeadBits(a, 4);
    assert a == 0xf0 + x && x <= 4;
    var y := Shift(x, b);
    var z := Shift(y, c);
    TailReturns(x, b);
    TailReturns(y, c);
    TailReturns(z, d);
    assert y == x * 0x40 + b - 0x80;
    EncodeFour(Shift(z, d), z, y, x);
  }

  lemma Spelled(s: seq<byte>)
    ensures |s| == 2 ==> s == [s[0], s[1]]
    ensures |s| == 3 ==> s == [s[0], s[1], s[2]]
    ensures |s| == 4 ==> s == [s[0], s[1], s[2], s[3]]
  {
  }

  /** A character of the grammar is the encoding of its value. */
  lemma CharIsEncoded(s: seq<byte>)
    requires IsChar(s)
    ensures Encodes(Gathered(s, |s|), s)
  {
    Spelled(s);
    if |s| == 2 {
      TwoIsEncoded(s[0], s[1]);
    } else if |s| == 3 {
      ThreeIsEncoded(s[0], s[1], s[2]);
    } else if |s| == 4 {
      FourIsEncoded(s[0], s[1], s[2], s[3]);
    }
  }

  // ----- unique decomposition -----

  /** At most one scalar's encoding starts a given text. */
  lemma PrefixIsUnique(c: nat, d: nat, text: seq<byte>)
    requires IsScalar(c) && IsScalar(d) && EncodeScalar(c) <= text && EncodeScalar(d) <= text
    ensures c == d
  {
    EncodedIsChar(c);
    EncodedIsChar(d);
    assert EncodeScalar(c)[0] == text[0] == EncodeScalar(d)[0];
    assert EncodeScalar(c) == text[..|EncodeScalar(c)|] == EncodeScalar(d);
  }

  /** If one encoding starts another, the first list of scalars starts the second. */
  lemma {:induction false} PrefixOfEncoding(a: seq<nat>, b: seq<nat>, rest: seq<byte>)
    requires AllScalars(a) && AllScalars(b) && Encode(a) + rest == Encode(b)
    ensures a <= b && rest == Encode(b[|a|..])
  {
    if a == [] {
      assert b[0..] == b;
    } else {
      FlattenFirst(EncodeScalar, a);
      if b != [] {
        FlattenFirst(EncodeScalar, b);
        var x, y := EncodeScalar(a[0]), EncodeScalar(b[0]);
        assert x + (Encode(a[1..]) + rest) == y + Encode(b[1..]);
        StartsAgree(a[0], b[0], Encode(a[1..]) + rest, Encode(b[1..]));
        PrefixOfEncoding(a[1..], b[1..], rest);
        assert b[1..][|a| - 1..] == b[|a|..];
      }
    }
  }

  lemma StartsAgree(c: nat, d: nat, s: seq<byte>, t: seq<byte>)
    requires IsScalar(c) && IsScalar(d) && EncodeScalar(c) + s == EncodeScalar(d) + t
    ensures c == d && s == t
  {
    PrefixIsUnique(c, d, EncodeScalar(c) + s);
    assert (EncodeScalar(c) + s)[|EncodeScalar(c)|..] == s && (EncodeScalar(d) + t)[|EncodeScalar(d)|..] == t;
  }

  lemma NothingEncodesToNothing(cs: seq<nat>)
    requires AllScalars(cs) && Encode(cs) == []
    ensures cs == []
  {
  }

  /** The accepted decomposition is unique: decoding undoes encoding. */
  lemma DecodingIsUnique(a: seq<nat>, b: seq<nat>)
    requires AllScalars(a) && AllScalars(b) && Encode(a) == Encode(b)
    ensures a == b
  {
    assert Encode(a) + [] == Encode(b);
    PrefixOfEncoding(a, b, []);
    NothingEncodesToNothing(b[|a|..]);
  }

  // ----- the check -----

  /** One turn of the loop: the scalar read at index and the bytes it took. */
  method ReadScalar(text: seq<byte>, index: nat) returns (ok: bool, codePoint: nat, taken: nat)
    requires index < |text|
    ensures ok ==> IsScalar(codePoint) && index + taken <= |text| && text[index..index + taken] == EncodeScalar(codePoint)
    ensures !ok ==> forall c :: IsScalar(c) ==> !(EncodeScalar(c) <= text[index..])
  {
    var lead := text[index];
    var continuation: nat;
    codePoint, taken := 0, 0;
    if lead <= 0x7f {
      continuation, codePoint := 0, lead;
    } else if 0xc2 <= lead <= 0xdf {
      continuation, codePoint := 1, LeadBits(lead, 2);
    } else if 0xe0 <= lead <= 0xef {
      continuation, codePoint := 2, LeadBits(lead, 3);
    } else if 0xf0 <= lead <= 0xf4 {
      continuation, codePoint := 3, LeadBits(lead, 4);
    } else {
      NoCharHere(text, index);
      return false, 0, 0;
    }
    if index + continuation >= |text| {
      NoCharHere(text, index);
      return false, 0, 0;
    }
    ghost var s := text[index..index + continuation + 1];
    for offset := 1 to continuation + 1
      invariant forall k :: 1 <= k < offset ==> Tail(s[k])
      invariant codePoint == Gathered(s[..offset], continuation + 1)
    {
      var b := text[index + offset];
      assert s[offset] == b && s[..offset + 1][..offset] == s[..offset];
      if !Tail(b) {
        BrokenTail(s, offset);
        NoCharHere(text, index);
        return false, 0, 0;
      }
      codePoint := Shift(codePoint, b);
    }
    assert s[..continuation + 1] == s;
    RangeCheck(s, codePoint);
    if (continuation == 2 && codePoint < 0x800) || (continuation == 3 && codePoint < 0x10000)
       || 0xd800 <= codePoint <= 0xdfff || codePoint > 0x10ffff {
      NoCharHere(text, index);
      return false, 0, 0;
    }
    CharIsEncoded(s);
    ok, taken := true, continuation + 1;
  }

  lemma BrokenTail(s: seq<byte>, k: nat)
    requires 1 <= k < |s| && !Tail(s[k])
    ensures !IsChar(s)
  {
  }

  /** With a lead of the right length and proper continuation bytes, the final test of the value is the grammar. */
  lemma RangeCheck(s: seq<byte>, value: nat)
    requires s != [] && LengthOf(s[0]) == |s| && (forall k :: 1 <= k < |s| ==> Tail(s[k])) && value == Gathered(s, |s|)
    ensures IsChar(s) <==> !((|s| == 3 && value < 0x800) || (|s| == 4 && value < 0x10000)
                             || 0xd800 <= value <= 0xdfff || value > 0x10ffff)
  {
    if |s| == 2 {
      assert s == [s[0], s[1]];
      GatheredTwo(s[0], s[1]);
    } else if |s| == 3 {
      assert s == [s[0], s[1], s[2]];
      RangeThree(s[0], s[1], s[2]);
    } else if |s| == 4 {
      assert s == [s[0], s[1], s[2], s[3]];
      RangeFour(s[0], s[1], s[2], s[3]);
    }
  }

  lemma RangeThree(a: byte, b: byte, c: byte)
    requires LengthOf(a) == 3 && Tail(b) && Tail(c)
    ensures var v := Gathered([a, b, c], 3);
      v <= 0xffff && (IsChar([a, b, c]) <==> v >= 0x800 && !(0xd800 <= v <= 0xdfff))
  {
    GatheredThree(a, b, c);
  }

  lemma RangeFour(a: byte, b: byte, c: byte, d: byte)
    requires LengthOf(a) == 4 && Tail(b) && Tail(c) && Tail(d)
    ensures var v := Gathered([a, b, c, d], 4);
      IsChar([a, b, c, d]) <==> 0x10000 <= v <= 0x10ffff
  {
    GatheredFour(a, b, c, d);
    var x := LeadBits(a, 4);
    var y := Shift(x, b);
    var z := Shift(y, c);
    assert a == 0xf0 + x && x <= 4;
    TailReturns(x, b);
    TailReturns(y, c);
    TailReturns(z, d);
    assert y == x * 0x40 + b - 0x80;
    assert IsChar([a, b, c, d]) <==> 0x10 <= y <= 0x10f;
    assert 0x10000 <= Shift(z, d) <= 0x10ffff <==> 0x10 <= y <= 0x10f;
  }

  /** No encoding starts where the announced character is missing or malformed. */
  lemma NoCharHere(text: seq<byte>, index: nat)
    requires index < |text|
    requires var n := LengthOf(text[index]); n == 0 || index + n > |text| || !IsChar(text[index..index + n])
    ensures forall c :: IsScalar(c) ==> !(EncodeScalar(c) <= text[index..])
  {
    forall c | IsScalar(c)
      ensures !(EncodeScalar(c) <= text[index..])
    {
      if EncodeScalar(c) <= text[index..] {
        CharHere(text, index, c);
      }
    }
  }

  lemma CharHere(text: seq<byte>, index: nat, c: nat)
    requires index < |text| && IsScalar(c) && EncodeScalar(c) <= text[index..]
    ensures var n := LengthOf(text[index]); 0 < n && index + n <= |text| && IsChar(text[index..index + n])
  {
    var s := EncodeScalar(c);
    EncodedIsChar(c);
    assert s[0] == text[index..][0] == text[index];
    assert s == text[index..][..|s|] == text[index..index + |s|];
  }

  /** is_valid_utf8: accepts exactly the concatenations of encoded scalar values. */
  method IsValidUtf8(text: seq<byte>) returns (ok: bool)
    ensures ok <==> exists cs :: AllScalars(cs) && Encode(cs) == text
  {
    var index := 0;
    ghost var read: seq<nat> := [];
    while index < |text|
      invariant index <= |text| && AllScalars(read) && Encode(read) == text[..index]
    {
      var accepted, codePoint, taken := ReadScalar(text, index);
      if !accepted {
        Stuck(text, index, read);
        return false;
      }
      assert (read + [codePoint])[..|read|] == read;
      assert text[..index + taken] == text[..index] + text[index..index + taken];
      read := read + [codePoint];
      index := index + taken;
    }
    assert text[..index] == text;
    ok := true;
  }

  /** Where no character can be read, the text is no encoding. */
  lemma Stuck(text: seq<byte>, index: nat, read: seq<nat>)
    requires index < |text| && AllScalars(read) && Encode(read) == text[..index]
    requires forall c :: IsScalar(c) ==> !(EncodeScalar(c) <= text[index..])
    ensures !exists cs :: AllScalars(cs) && Encode(cs) == text
  {
    if cs :| AllScalars(cs) && Encode(cs) == text {
      assert text == text[..index] + text[index..];
      PrefixOfEncoding(read, cs, text[index..]);
      var rest := cs[|read|..];
      if rest != [] {
        FlattenFirst(EncodeScalar, rest);
        assert EncodeScalar(rest[0]) <= text[index..];
      }
    }
  }
}
