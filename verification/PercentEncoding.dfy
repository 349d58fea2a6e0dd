/** Percent-encoding of a text component, section 2.1 of RFC 3986, as `encodeURIComponent` does it. */
module PercentEncoding {
  import opened Text

  predicate IsByte(b: int) {
    0 <= b < 256
  }

  ghost predicate AreBytes(bytes: seq<int>) {
    forall i :: 0 <= i < |bytes| ==> IsByte(bytes[i])
  }

  function Utf8(c: char): (bytes: seq<int>)
    ensures AreBytes(bytes)
  {
    var n := c as int;
    if n < 0x80 then [n]
    else if n < 0x800 then [0xC0 + n / 0x40, 0x80 + n % 0x40]
    else if n < 0x1_0000 then [0xE0 + n / 0x1000, 0x80 + n / 0x40 % 0x40, 0x80 + n % 0x40]
    else [0xF0 + n / 0x4_0000, 0x80 + n / 0x1000 % 0x40, 0x80 + n / 0x40 % 0x40, 0x80 + n % 0x40]
  }

  function Utf8Text(s: string): (bytes: seq<int>)
    ensures AreBytes(bytes)
  {
    if s == [] then [] else Utf8(s[0]) + Utf8Text(s[1..])
  }

  predicate IsUnreserved(c: char) {
    || 'a' <= c <= 'z' || 'A' <= c <= 'Z' || '0' <= c <= '9'
    || c in "-_.!~*'()"
  }

  function HexDigit(n: int): char
    requires 0 <= n < 16
  {
    if n < 10 then '0' + n as char else 'A' + (n - 10) as char
  }

  function EncodeByte(b: int): string
    requires IsByte(b)
  {
    if b < 0x80 && IsUnreserved(b as char) then [b as char] else ['%', HexDigit(b / 16), HexDigit(b % 16)]
  }

  function EncodeBytes(bytes: seq<int>): string
    requires AreBytes(bytes)
  {
    if bytes == [] then [] else EncodeByte(bytes[0]) + EncodeBytes(bytes[1..])
  }

  function EncodeURIComponent(s: string): string {
    EncodeBytes(Utf8Text(s))
  }

  // ---------------------------------------------------------------- injectivity

  /** The first byte tells how many bytes follow, so the encoding of one character cannot run into the next. */
  lemma Utf8IsPrefixFree(c: char, d: char, x: seq<int>, y: seq<int>)
    requires Utf8(c) + x == Utf8(d) + y
    ensures c == d && x == y
  {
    var a, b := Utf8(c), Utf8(d);
    var whole := a + x;
    assert whole[0] == a[0] == b[0];
    assert |a| == |b|;
    assert a == whole[..|a|] == b;
    assert x == whole[|a|..] == y;
    Utf8IsInjective(c, d);
  }

  /** A number is determined by its six-bit groups. */
  lemma SixBitGroups(n: nat)
    ensures n == 0x40 * (n / 0x40) + n % 0x40
    ensures n == 0x1000 * (n / 0x1000) + 0x40 * (n / 0x40 % 0x40) + n % 0x40
    ensures n == 0x4_0000 * (n / 0x4_0000) + 0x1000 * (n / 0x1000 % 0x40) + 0x40 * (n / 0x40 % 0x40) + n % 0x40
  {
    assert n / 0x1000 == n / 0x40 / 0x40;
    assert n / 0x4_0000 == n / 0x1000 / 0x40;
  }

  lemma Utf8IsInjective(c: char, d: char)
    requires Utf8(c) == Utf8(d)
    ensures c == d
  {
    SixBitGroups(c as int);
    SixBitGroups(d as int);
    var a, b := Utf8(c), Utf8(d);
    assert a[0] == b[0];
    if |a| >= 2 {
      assert a[1] == b[1];
    }
    if |a| >= 3 {
      assert a[2] == b[2];
    }
    if |a| == 4 {
      assert a[3] == b[3];
    }
    assert c as int == d as int;
  }

  lemma {:induction false} Utf8TextIsInjective(s: string, t: string)
    requires Utf8Text(s) == Utf8Text(t)
    ensures s == t
  {
    if s != [] && t != [] {
      Utf8IsPrefixFree(s[0], t[0], Utf8Text(s[1..]), Utf8Text(t[1..]));
      Utf8TextIsInjective(s[1..], t[1..]);
      assert s == [s[0]] + s[1..] && t == [t[0]] + t[1..];
    }
  }

  lemma EncodeByteIsPrefixFree(a: int, b: int, x: string, y: string)
    requires IsByte(a) && IsByte(b) && EncodeByte(a) + x == EncodeByte(b) + y
    ensures a == b && x == y
  {
    var whole := EncodeByte(a) + x;
    assert whole[0] == EncodeByte(a)[0] == EncodeByte(b)[0];
    assert |EncodeByte(a)| == |EncodeByte(b)|;
    assert EncodeByte(a) == whole[..|EncodeByte(a)|] == EncodeByte(b);
    assert x == whole[|EncodeByte(a)|..] == y;
    if |EncodeByte(a)| == 3 {
      assert EncodeByte(a)[1] == EncodeByte(b)[1] && EncodeByte(a)[2] == EncodeByte(b)[2];
    }
  }

  lemma {:induction false} EncodeBytesIsInjective(a: seq<int>, b: seq<int>)
    requires AreBytes(a) && AreBytes(b) && EncodeBytes(a) == EncodeBytes(b)
    ensures a == b
  {
    if a != [] && b != [] {
      EncodeByteIsPrefixFree(a[0], b[0], EncodeBytes(a[1..]), EncodeBytes(b[1..]));
      EncodeBytesIsInjective(a[1..], b[1..]);
      assert a == [a[0]] + a[1..] && b == [b[0]] + b[1..];
    }
  }

  lemma {:induction false} EncodeBytesEmitsNoBar(bytes: seq<int>)
    requires AreBytes(bytes)
    ensures Free(EncodeBytes(bytes), '|')
  {
    if bytes != [] {
      EncodeBytesEmitsNoBar(bytes[1..]);
    }
  }

  /** Different texts have different encodings, and no encoding contains '|'. */
  lemma EncodingIsInjectiveAndBarFree(s: string, t: string)
    ensures EncodeURIComponent(s) == EncodeURIComponent(t) ==> s == t
    ensures Free(EncodeURIComponent(s), '|')
  {
    EncodeBytesEmitsNoBar(Utf8Text(s));
    if EncodeURIComponent(s) == EncodeURIComponent(t) {
      EncodeBytesIsInjective(Utf8Text(s), Utf8Text(t));
      Utf8TextIsInjective(s, t);
    }
  }

  /** Text of unreserved characters is its own encoding. */
  lemma {:induction false} UnreservedTextStays(s: string)
    requires forall i :: 0 <= i < |s| ==> IsUnreserved(s[i])
    ensures EncodeURIComponent(s) == s
  {
    if s != [] {
      UnreservedTextStays(s[1..]);
      assert Utf8(s[0]) == [s[0] as int];
      assert (Utf8(s[0]) + Utf8Text(s[1..]))[1..] == Utf8Text(s[1..]);
      assert [s[0]] + s[1..] == s;
    }
  }

  function HexValue(c: char): int {
    if '0' <= c <= '9' then c as int - '0' as int else c as int - 'A' as int + 10
  }

  /** Any other byte is a percent sign and two digits or capital letters that give the byte in base sixteen. */
  lemma EscapesAreHexadecimal(b: int)
    requires IsByte(b) && !(b < 0x80 && IsUnreserved(b as char))
    ensures var text := EncodeByte(b);
            && |text| == 3 && text[0] == '%'
            && (forall i :: 1 <= i < 3 ==> '0' <= text[i] <= '9' || 'A' <= text[i] <= 'F')
            && 16 * HexValue(text[1]) + HexValue(text[2]) == b
  {
  }
}
