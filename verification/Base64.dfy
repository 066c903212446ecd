// Base64.dfy: the URL-safe alphabet of section 5 of RFC 4648, without and with padding,
// as the standard decoder accepts it, and UTF-8 for the text inside.
module Base64 {
  import opened Prelude

  type Byte = x: int | 0 <= x < 256

  // ---- the alphabet ------------------------------------------------------

  function Char(n: int): (c: char)
    requires 0 <= n < 64
    ensures Index(c) == n
  {
    if n < 26 then ('A' as int + n) as char
    else if n < 52 then ('a' as int + n - 26) as char
    else if n < 62 then ('0' as int + n - 52) as char
    else if n == 62 then '-' else '_'
  }

  // -1 when the character is not in the alphabet.
  function Index(c: char): (n: int)
    ensures -1 <= n < 64
  {
    if 'A' <= c <= 'Z' then c as int - 'A' as int
    else if 'a' <= c <= 'z' then c as int - 'a' as int + 26
    else if '0' <= c <= '9' then c as int - '0' as int + 52
    else if c == '-' then 62
    else if c == '_' then 63
    else -1
  }

  predicate InAlphabet(s: string) { forall i :: 0 <= i < |s| ==> Index(s[i]) >= 0 }

  lemma DotIsOutside()
    ensures Index('.') == -1 && Index('=') == -1 && Index('\n') == -1 && Index('\r') == -1
  {
  }

  // ---- encoding ----------------------------------------------------------

  function Quad(x: Byte, y: Byte, z: Byte): (s: string)
    ensures InAlphabet(s) && |s| == 4
  {
    [Char(x / 4), Char(x % 4 * 16 + y / 16), Char(y % 16 * 4 + z / 64), Char(z % 64)]
  }

  function Encode(b: seq<Byte>): (s: string)
    ensures InAlphabet(s) && |s| == (4 * |b| + 2) / 3
  {
    if |b| == 0 then ""
    else if |b| == 1 then [Char(b[0] / 4), Char(b[0] % 4 * 16)]
    else if |b| == 2 then [Char(b[0] / 4), Char(b[0] % 4 * 16 + b[1] / 16), Char(b[1] % 16 * 4)]
    else Quad(b[0], b[1], b[2]) + Encode(b[3..])
  }

  // How many characters bring the text of n bytes to whole groups of four.
  function Missing(n: nat): nat { if n % 3 == 1 then 2 else if n % 3 == 2 then 1 else 0 }

  function Padding(k: nat): string { if k == 0 then "" else if k == 1 then "=" else "==" }

  function EncodePadded(b: seq<Byte>): string {
    Encode(b) + Padding(Missing(|b|))
  }

  // ---- decoding ----------------------------------------------------------

  // The decoder skips line breaks.
  function Strip(s: string): string {
    if s == "" then ""
    else if s[0] in {'\r', '\n'} then Strip(s[1..])
    else [s[0]] + Strip(s[1..])
  }

  function High(a: int, b: int): Byte
    requires 0 <= a < 64 && 0 <= b < 64
  {
    a * 4 + b / 16
  }

  function Middle(b: int, c: int): Byte
    requires 0 <= b < 64 && 0 <= c < 64
  {
    b % 16 * 16 + c / 4
  }

  function Low(c: int, d: int): Byte
    requires 0 <= c < 64 && 0 <= d < 64
  {
    c % 4 * 64 + d
  }

  // Leftover bits of a short last group are ignored.
  function Groups(s: string): Option<seq<Byte>> {
    if s == "" then Some([])
    else if |s| == 1 || Index(s[0]) < 0 || Index(s[1]) < 0 then None
    else if |s| == 2 then Some([High(Index(s[0]), Index(s[1]))])
    else if Index(s[2]) < 0 then None
    else if |s| == 3 then Some([High(Index(s[0]), Index(s[1])), Middle(Index(s[1]), Index(s[2]))])
    else if Index(s[3]) < 0 then None
    else
      match Groups(s[4..])
      case None => None
      case Some(rest) =>
        Some([High(Index(s[0]), Index(s[1])), Middle(Index(s[1]), Index(s[2])), Low(Index(s[2]), Index(s[3]))] + rest)
  }

  function Decode(s: string): Option<seq<Byte>> { Groups(Strip(s)) }

  // The text before the padding; the whole must be groups of four.
  function Unpadded(t: string): Option<string> {
    if |t| % 4 != 0 then None
    else if |t| >= 2 && t[|t| - 2..] == "==" then Some(t[..|t| - 2])
    else if |t| >= 1 && t[|t| - 1] == '=' then Some(t[..|t| - 1])
    else Some(t)
  }

  function DecodePadded(s: string): Option<seq<Byte>> {
    match Unpadded(Strip(s))
    case None => None
    case Some(t) => Groups(t)
  }

  // ---- round trips -------------------------------------------------------

  lemma StripNothing(s: string, tail: string)
    requires InAlphabet(s) && (tail == "" || tail == "=" || tail == "==")
    ensures Strip(s + tail) == s + tail
  {
    if s == "" {
      assert s + tail == tail;
      if tail == "==" { assert tail[1..] == "=" && "="[1..] == ""; }
      if tail == "=" { assert tail[1..] == ""; }
    } else {
      StripNothing(s[1..], tail);
      assert (s + tail)[1..] == s[1..] + tail;
      DotIsOutside();
      assert s + tail == [s[0]] + (s[1..] + tail);
    }
  }

  lemma Bits(x: Byte, y: Byte, z: Byte)
    ensures High(x / 4, x % 4 * 16) == x && High(x / 4, x % 4 * 16 + y / 16) == x
    ensures Middle(x % 4 * 16 + y / 16, y % 16 * 4) == y && Middle(x % 4 * 16 + y / 16, y % 16 * 4 + z / 64) == y
    ensures Low(y % 16 * 4 + z / 64, z % 64) == z
  {
  }

  lemma GroupOf2(a: int, b: int)
    requires 0 <= a < 64 && 0 <= b < 64
    ensures Groups([Char(a), Char(b)]) == Some([High(a, b)])
  {
  }

  lemma GroupOf3(a: int, b: int, c: int)
    requires 0 <= a < 64 && 0 <= b < 64 && 0 <= c < 64
    ensures Groups([Char(a), Char(b), Char(c)]) == Some([High(a, b), Middle(b, c)])
  {
  }

  lemma GroupOf4(a: int, b: int, c: int, d: int, rest: string)
    requires 0 <= a < 64 && 0 <= b < 64 && 0 <= c < 64 && 0 <= d < 64 && Groups(rest).Some?
    ensures Groups([Char(a), Char(b), Char(c), Char(d)] + rest)
         == Some([High(a, b), Middle(b, c), Low(c, d)] + Groups(rest).value)
  {
    var s := [Char(a), Char(b), Char(c), Char(d)] + rest;
    assert s[4..] == rest;
  }

  lemma Sextets(x: Byte, y: Byte, z: Byte)
    ensures 0 <= x / 4 < 64 && 0 <= x % 4 * 16 + y / 16 < 64 && 0 <= y % 16 * 4 + z / 64 < 64 && 0 <= z % 64 < 64
  {
  }

  lemma EncodedGroup(x: Byte, y: Byte, z: Byte, rest: string)
    requires Groups(rest).Some?
    ensures Groups(Quad(x, y, z) + rest) == Some([x, y, z] + Groups(rest).value)
  {
    Sextets(x, y, z);
    GroupOf4(x / 4, x % 4 * 16 + y / 16, y % 16 * 4 + z / 64, z % 64, rest);
    Bits(x, y, z);
  }

  lemma EncodedShort(x: Byte, y: Byte)
    ensures 0 <= x / 4 < 64 && 0 <= x % 4 * 16 < 64 && 0 <= x % 4 * 16 + y / 16 < 64 && 0 <= y % 16 * 4 < 64
    ensures Groups([Char(x / 4), Char(x % 4 * 16)]) == Some([x])
    ensures Groups([Char(x / 4), Char(x % 4 * 16 + y / 16), Char(y % 16 * 4)]) == Some([x, y])
  {
    Sextets(x, y, 0);
    GroupOf2(x / 4, x % 4 * 16);
    GroupOf3(x / 4, x % 4 * 16 + y / 16, y % 16 * 4);
    Bits(x, y, 0);
  }

  lemma SplitThree(b: seq<Byte>)
    requires |b| >= 3
    ensures b == [b[0], b[1], b[2]] + b[3..]
  {
  }

  lemma {:induction false} GroupsOfEncode(b: seq<Byte>)
    ensures Groups(Encode(b)) == Some(b)
  {
    if |b| == 0 {
    } else if |b| == 1 {
      EncodedShort(b[0], 0);
      assert b == [b[0]];
    } else if |b| == 2 {
      EncodedShort(b[0], b[1]);
      assert b == [b[0], b[1]];
    } else {
      GroupsOfEncode(b[3..]);
      EncodedGroup(b[0], b[1], b[2], Encode(b[3..]));
      SplitThree(b);
    }
  }

  // Decoding undoes encoding for every byte string of every length.
  lemma DecodeEncode(b: seq<Byte>)
    ensures Decode(Encode(b)) == Some(b)
  {
    StripNothing(Encode(b), "");
    assert Encode(b) + "" == Encode(b);
    GroupsOfEncode(b);
  }

  predicate NoSign(s: string) { s != "" ==> s[|s| - 1] != '=' }

  lemma LastIsNoSign(s: string)
    requires InAlphabet(s)
    ensures NoSign(s)
  {
    DotIsOutside();
  }

  lemma NoEqualsSign(s: string)
    requires NoSign(s) && |s| % 4 == 0
    ensures Unpadded(s) == Some(s)
  {
    if |s| >= 2 { assert s[|s| - 2..][1] == s[|s| - 1]; }
  }

  lemma OneEqualsSign(s: string)
    requires s != "" && NoSign(s) && (|s| + 1) % 4 == 0
    ensures Unpadded(s + "=") == Some(s)
  {
    var t := s + "=";
    assert t[..|t| - 1] == s && t[|t| - 2..][0] == s[|s| - 1];
  }

  lemma TwoEqualsSigns(s: string)
    requires (|s| + 2) % 4 == 0
    ensures Unpadded(s + "==") == Some(s)
  {
    var t := s + "==";
    assert t[..|t| - 2] == s && t[|t| - 2..] == "==";
  }

  lemma UnpaddedTail(s: string, k: nat)
    requires NoSign(s) && k <= 2 && (k > 0 ==> s != "") && (|s| + k) % 4 == 0
    ensures Unpadded(s + Padding(k)) == Some(s)
  {
    if k == 0 {
      assert s + Padding(k) == s;
      NoEqualsSign(s);
    } else if k == 1 {
      OneEqualsSign(s);
    } else {
      TwoEqualsSigns(s);
    }
  }

  lemma StripPadding(s: string, k: nat)
    requires InAlphabet(s) && k <= 2
    ensures Strip(s + Padding(k)) == s + Padding(k)
  {
    StripNothing(s, Padding(k));
  }

  // The padded form of any bytes is refused by the unpadded decoder only when there is
  // padding, and is always read back by the padded one.
  lemma DecodePaddedEncode(b: seq<Byte>)
    ensures DecodePadded(EncodePadded(b)) == Some(b)
    ensures Decode(EncodePadded(b)) == if |b| % 3 == 0 then Some(b) else None
  {
    PaddedReads(b);
    UnpaddedRefuses(b);
  }

  lemma PaddedTextReads(s: string, k: nat, b: seq<Byte>)
    requires InAlphabet(s) && Groups(s) == Some(b)
    requires k <= 2 && (k > 0 ==> s != "") && (|s| + k) % 4 == 0
    ensures DecodePadded(s + Padding(k)) == Some(b)
  {
    LastIsNoSign(s);
    UnpaddedTail(s, k);
    StripPadding(s, k);
  }

  lemma PaddedReads(b: seq<Byte>)
    ensures DecodePadded(EncodePadded(b)) == Some(b)
  {
    PaddedLength(|b|, |Encode(b)|);
    GroupsOfEncode(b);
    PaddedTextReads(Encode(b), Missing(|b|), b);
  }

  lemma UnpaddedRefuses(b: seq<Byte>)
    ensures Decode(EncodePadded(b)) == if |b| % 3 == 0 then Some(b) else None
  {
    if |b| % 3 == 0 {
      assert EncodePadded(b) == Encode(b);
      DecodeEncode(b);
    } else {
      StripPadding(Encode(b), Missing(|b|));
      PaddingIsNoGroup(Encode(b), Padding(Missing(|b|)));
    }
  }

  lemma PaddedLength(n: nat, m: nat)
    requires m == (4 * n + 2) / 3
    ensures (m + Missing(n)) % 4 == 0 && (n > 0 ==> m >= 1)
  {
    var k := n / 3;
    assert m == 4 * k + (if n % 3 == 0 then 0 else n % 3 + 1);
  }

  predicate FourInAlphabet(s: string)
    requires |s| >= 4
  {
    Index(s[0]) >= 0 && Index(s[1]) >= 0 && Index(s[2]) >= 0 && Index(s[3]) >= 0
  }

  lemma InAlphabetByFours(s: string)
    requires |s| >= 4
    ensures InAlphabet(s) <==> FourInAlphabet(s) && InAlphabet(s[4..])
  {
    assert forall i :: 4 <= i < |s| ==> s[i] == s[4..][i - 4];
  }

  lemma GroupsByFours(s: string)
    requires |s| >= 4
    ensures Groups(s).Some? <==> FourInAlphabet(s) && Groups(s[4..]).Some?
  {
  }

  lemma ShortGroups(s: string)
    requires |s| < 4
    ensures Groups(s).Some? <==> InAlphabet(s) && |s| != 1
  {
  }

  predicate WholeBytes(s: string) { InAlphabet(s) && |s| % 4 != 1 }

  lemma WholeByFours(s: string)
    requires |s| >= 4
    ensures WholeBytes(s) <==> FourInAlphabet(s) && WholeBytes(s[4..])
  {
    InAlphabetByFours(s);
    assert |s| % 4 == |s[4..]| % 4;
  }

  lemma FourMore(s: string)
    requires |s| >= 4 && (Groups(s[4..]).Some? <==> WholeBytes(s[4..]))
    ensures Groups(s).Some? <==> WholeBytes(s)
  {
    GroupsByFours(s);
    WholeByFours(s);
  }

  // A text is decoded exactly when it is over the alphabet and no single character is
  // left over.
  lemma {:induction false} GroupsIff(s: string)
    ensures Groups(s).Some? <==> InAlphabet(s) && |s| % 4 != 1
  {
    if |s| < 4 {
      ShortGroups(s);
    } else {
      GroupsIff(s[4..]);
      FourMore(s);
    }
  }

  lemma PaddingIsNoGroup(s: string, tail: string)
    requires tail == "=" || tail == "=="
    ensures Groups(s + tail).None?
  {
    GroupsIff(s + tail);
    DotIsOutside();
    assert (s + tail)[|s|] == '=';
  }

  // ---- UTF-8 -------------------------------------------------------------

  function EncodeChar(c: char): (b: seq<Byte>)
    ensures 1 <= |b| <= 4
  {
    var n := c as int;
    if n < 0x80 then [n]
    else if n < 0x800 then [0xC0 + n / 64, 0x80 + n % 64]
    else if n < 0x1_0000 then [0xE0 + n / 4096, 0x80 + n / 64 % 64, 0x80 + n % 64]
    else [0xF0 + n / 262144, 0x80 + n / 4096 % 64, 0x80 + n / 64 % 64, 0x80 + n % 64]
  }

  function Utf8(s: string): seq<Byte> {
    if s == "" then [] else EncodeChar(s[0]) + Utf8(s[1..])
  }

  predicate Continues(b: seq<Byte>, n: nat) {
    |b| > n && forall i :: 1 <= i <= n ==> 0x80 <= b[i] < 0xC0
  }

  // The scalar value at the start of b and the number of bytes it takes.
  function DecodeChar(b: seq<Byte>): (r: Option<(char, nat)>)
    ensures r.Some? ==> 0 < r.value.1 <= |b|
  {
    if b == [] then None
    else
      var a: int := b[0];
      if a < 0x80 then Some((a as char, 1))
      else if 0xC2 <= a < 0xE0 && Continues(b, 1) then Some((((a - 0xC0) * 64 + Six(b[1])) as char, 2))
      else if 0xE0 <= a < 0xF0 && Continues(b, 2) then
        var n := (a - 0xE0) * 4096 + Six(b[1]) * 64 + Six(b[2]);
        if n < 0x800 || 0xD800 <= n < 0xE000 then None else Some((n as char, 3))
      else if 0xF0 <= a < 0xF5 && Continues(b, 3) then
        var n := (a - 0xF0) * 262144 + Six(b[1]) * 4096 + Six(b[2]) * 64 + Six(b[3]);
        if n < 0x1_0000 || n >= 0x11_0000 then None else Some((n as char, 4))
      else None
  }

  function Six(x: int): int { x - 0x80 }

  function FromUtf8(b: seq<Byte>): Option<string>
    decreases |b|
  {
    if b == [] then Some("")
    else
      match DecodeChar(b)
      case None => None
      case Some((c, n)) =>
        match FromUtf8(b[n..])
        case None => None
        case Some(rest) => Some([c] + rest)
  }

  lemma SixBits(n: int)
    requires 0 <= n < 0x11_0000
    ensures n == n / 64 * 64 + n % 64
    ensures n / 64 == n / 4096 * 64 + n / 64 % 64
    ensures n / 4096 == n / 262144 * 64 + n / 4096 % 64
  {
  }

  lemma DecodeEncodeChar(c: char, rest: seq<Byte>)
    ensures DecodeChar(EncodeChar(c) + rest) == Some((c, |EncodeChar(c)|))
  {
    var n := c as int;
    SixBits(n);
    var b := EncodeChar(c) + rest;
    assert forall i :: 0 <= i < |EncodeChar(c)| ==> b[i] == EncodeChar(c)[i];
  }

  lemma {:induction false} FromUtf8Utf8(s: string)
    ensures FromUtf8(Utf8(s)) == Some(s)
  {
    if s != "" {
      DecodeEncodeChar(s[0], Utf8(s[1..]));
      FromUtf8Utf8(s[1..]);
      assert Utf8(s)[|EncodeChar(s[0])|..] == Utf8(s[1..]);
      assert s == [s[0]] + s[1..];
    }
  }
}
