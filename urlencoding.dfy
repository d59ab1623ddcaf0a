/** PHP's urlencode: the percent-encoding of section 2.1 of RFC 3986 with
    upper-case hex digits, except that a space becomes `+` and only letters,
    digits and `-_.` are left as they are. UrlDecode is PHP's urldecode,
    the partner that undoes it. */
module UrlEncoding {
  import opened Strings

  /** The bytes urlencode copies unchanged. */
  predicate Unreserved(b: Byte)
  {
    ('a' <= b <= 'z') || ('A' <= b <= 'Z') || ('0' <= b <= '9') || b == '-' || b == '_' || b == '.'
  }

  /** The bytes that can appear in urlencode's output. */
  predicate Emitted(b: Byte)
  {
    Unreserved(b) || b == '+' || b == '%'
  }

  /** Upper-case hexadecimal digit of `d`. */
  function HexDigit(d: nat): (c: Byte)
    requires d < 16
    ensures Unreserved(c)
  {
    if d < 10 then ('0' as int + d) as char else ('A' as int + d - 10) as char
  }

  predicate IsHex(b: Byte)
  {
    ('0' <= b <= '9') || ('A' <= b <= 'F') || ('a' <= b <= 'f')
  }

  /** The value of a hexadecimal digit of either case. */
  function HexValue(b: Byte): (v: nat)
    requires IsHex(b)
    ensures v < 16
  {
    if '0' <= b <= '9' then b as int - '0' as int
    else if 'A' <= b <= 'F' then b as int - 'A' as int + 10
    else b as int - 'a' as int + 10
  }

  lemma HexRoundTrip(d: nat)
    requires d < 16
    ensures IsHex(HexDigit(d)) && HexValue(HexDigit(d)) == d
  {
  }

  /** urlencode applied to one byte. */
  function EncodeByte(b: Byte): Bytes
  {
    if Unreserved(b) then [b]
    else if b == ' ' then ['+']
    else ['%', HexDigit(b as int / 16), HexDigit(b as int % 16)]
  }

  function UrlEncode(s: Bytes): Bytes
  {
    if |s| == 0 then [] else EncodeByte(s[0]) + UrlEncode(s[1..])
  }

  /** Every byte urlencode writes is unreserved, `+` or `%`. */
  lemma {:induction false} EncodeEmits(s: Bytes)
    ensures forall i :: 0 <= i < |UrlEncode(s)| ==> Emitted(UrlEncode(s)[i])
  {
    if |s| > 0 {
      EncodeEmits(s[1..]);
      var e, r := EncodeByte(s[0]), UrlEncode(s[1..]);
      assert UrlEncode(s) == e + r;
      forall i | 0 <= i < |e + r| ensures Emitted((e + r)[i]) {
        if i >= |e| { assert (e + r)[i] == r[i - |e|]; }
      }
    }
  }

  /** PHP's urldecode: `+` is a space, `%` and two hex digits of either
      case is that byte, and anything else stands for itself. */
  function UrlDecode(s: Bytes): Bytes
  {
    if |s| == 0 then []
    else if s[0] == '+' then [' '] + UrlDecode(s[1..])
    else if s[0] == '%' && |s| >= 3 && IsHex(s[1]) && IsHex(s[2]) then
      [(HexValue(s[1]) * 16 + HexValue(s[2])) as char] + UrlDecode(s[3..])
    else [s[0]] + UrlDecode(s[1..])
  }

  /** urlencode never writes the bytes that delimit a query string, so
      the pieces of a query can be cut apart again. */
  lemma NoDelimiters(s: Bytes)
    ensures '?' !in UrlEncode(s) && '&' !in UrlEncode(s) && '=' !in UrlEncode(s)
    ensures ',' !in UrlEncode(s) && '#' !in UrlEncode(s)
  {
    var r := UrlEncode(s);
    EncodeEmits(s);
    forall i | 0 <= i < |r| ensures r[i] != '?' && r[i] != '&' && r[i] != '=' && r[i] != ',' && r[i] != '#' {
      assert Emitted(r[i]);
    }
  }

  lemma DecodeEncodeByte(b: Byte, rest: Bytes)
    ensures UrlDecode(EncodeByte(b) + rest) == [b] + UrlDecode(rest)
  {
    var e := EncodeByte(b) + rest;
    if Unreserved(b) {
      assert e[1..] == rest;
    } else if b == ' ' {
      assert e[1..] == rest;
    } else {
      var hi, lo := b as int / 16, b as int % 16;
      HexRoundTrip(hi);
      HexRoundTrip(lo);
      assert e[3..] == rest;
      assert (hi * 16 + lo) as char == b;
    }
  }

  /** urldecode(urlencode(s)) == s for every byte string. */
  lemma {:induction false} DecodeEncode(s: Bytes)
    ensures UrlDecode(UrlEncode(s)) == s
  {
    if |s| > 0 {
      DecodeEncodeByte(s[0], UrlEncode(s[1..]));
      DecodeEncode(s[1..]);
      assert [s[0]] + s[1..] == s;
    }
  }

  /** Different strings encode differently. */
  lemma EncodeInjective(s: Bytes, t: Bytes)
    requires UrlEncode(s) == UrlEncode(t)
    ensures s == t
  {
    DecodeEncode(s);
    DecodeEncode(t);
  }
}
