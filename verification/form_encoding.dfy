/** The `application/x-www-form-urlencoded` serialiser `URLSearchParams`
    applies to every name and value (section 5.2 of the WHATWG URL
    Standard): the text is encoded as UTF-8, a space byte becomes `+`,
    ASCII letters, digits and `*-._` stay as they are, and every other byte
    becomes `%` and two upper-case hexadecimal digits.

    Percent-decoding the result gives back the UTF-8 bytes, and the
    encoded text never holds the `&` and `=` that separate pairs.
 */
module FormEncoding {
  import opened Text

  type Byte = b: int | 0 <= b < 256

  /** The UTF-8 encoding of one Unicode scalar value. */
  function Utf8(c: char): (r: seq<Byte>)
    ensures 1 <= |r| <= 4
    ensures |r| == 1 <==> (c as int) < 0x80
    ensures forall i :: 1 <= i < |r| ==> 0x80 <= r[i] < 0xC0
  {
    var n := c as int;
    if n < 0x80 then [n]
    else if n < 0x800 then [0xC0 + n / 64, 0x80 + n % 64]
    else if n < 0x10000 then [0xE0 + n / 4096, 0x80 + (n / 64) % 64, 0x80 + n % 64]
    else [0xF0 + (n / 262144) % 8, 0x80 + (n / 4096) % 64, 0x80 + (n / 64) % 64, 0x80 + n % 64]
  }

  /** The scalar value a UTF-8 sequence of one to four bytes encodes. */
  function Utf8Value(bs: seq<Byte>): int {
    var b: seq<int> := bs;
    if |b| == 1 then b[0]
    else if |b| == 2 then (b[0] - 0xC0) * 64 + (b[1] - 0x80)
    else if |b| == 3 then ((b[0] - 0xE0) * 64 + (b[1] - 0x80)) * 64 + (b[2] - 0x80)
    else if |b| == 4 then (((b[0] - 0xF0) * 64 + (b[1] - 0x80)) * 64 + (b[2] - 0x80)) * 64 + (b[3] - 0x80)
    else 0
  }

  /** Reading a character's UTF-8 bytes back gives the character. */
  lemma Utf8RoundTrip(c: char)
    ensures Utf8Value(Utf8(c)) == c as int
  {
    var n := c as int;
    if 0x80 <= n < 0x800 {
      assert (n / 64) * 64 + n % 64 == n;
    } else if 0x800 <= n < 0x10000 {
      var q := n / 64;
      assert q * 64 + n % 64 == n;
      assert n / 4096 == q / 64;
      assert (q / 64) * 64 + q % 64 == q;
    } else if n >= 0x10000 {
      assert n <= 0x10FFFF;
      var q := n / 64;
      var q2 := q / 64;
      assert q * 64 + n % 64 == n;
      assert q2 * 64 + q % 64 == q;
      assert n / 4096 == q2;
      assert n / 262144 == q2 / 64;
      assert (q2 / 64) * 64 + q2 % 64 == q2;
      assert q2 / 64 < 8;
    }
  }

  /** The UTF-8 encoding of a string. */
  function Utf8Bytes(s: String): seq<Byte> {
    if |s| == 0 then [] else Utf8(s[0]) + Utf8Bytes(s[1..])
  }

  /** The bytes written as they are: ASCII letters, digits and `*-._`. */
  predicate Unreserved(b: int) {
    || 0x30 <= b <= 0x39 || 0x41 <= b <= 0x5A || 0x61 <= b <= 0x7A
    || b == 0x2A || b == 0x2D || b == 0x2E || b == 0x5F
  }

  /** An upper-case hexadecimal digit. */
  function HexDigit(d: int): (r: char)
    requires 0 <= d < 16
    ensures '0' <= r <= '9' || 'A' <= r <= 'F'
  {
    if d < 10 then (0x30 + d) as char else (0x41 + d - 10) as char
  }

  predicate IsHex(c: char) {
    '0' <= c <= '9' || 'A' <= c <= 'F' || 'a' <= c <= 'f'
  }

  function HexValue(c: char): int {
    if '0' <= c <= '9' then c as int - 0x30
    else if 'A' <= c <= 'F' then c as int - 0x41 + 10
    else if 'a' <= c <= 'f' then c as int - 0x61 + 10
    else 0
  }

  /** One byte as the serialiser writes it. */
  function EncodeByte(b: Byte): String {
    if b == 0x20 then "+"
    else if Unreserved(b) then [b as char]
    else ['%', HexDigit(b / 16), HexDigit(b % 16)]
  }

  function EncodeBytes(bs: seq<Byte>): String {
    if |bs| == 0 then "" else EncodeByte(bs[0]) + EncodeBytes(bs[1..])
  }

  /** A name or a value as `URLSearchParams.toString()` writes it. */
  function FormEncode(s: String): String {
    EncodeBytes(Utf8Bytes(s))
  }

  /** The form decoder: `+` is a space, `%` and two hexadecimal digits are
      one byte, any other character stands for its own code. */
  function FormDecode(t: String): seq<int>
    decreases |t|
  {
    if |t| == 0 then []
    else if t[0] == '+' then [0x20] + FormDecode(t[1..])
    else if t[0] == '%' && |t| >= 3 && IsHex(t[1]) && IsHex(t[2]) then
      [HexValue(t[1]) * 16 + HexValue(t[2])] + FormDecode(t[3..])
    else [t[0] as int] + FormDecode(t[1..])
  }

  /** A character the serialiser can write: `+`, `%`, or an unreserved
      ASCII character (the hexadecimal digits among them). */
  predicate Written(c: char) {
    c == '+' || c == '%' || Unreserved(c as int)
  }

  lemma EncodeByteWritten(b: Byte)
    ensures forall i :: 0 <= i < |EncodeByte(b)| ==> Written(EncodeByte(b)[i])
  {
  }

  /** Decoding undoes the encoding of one byte, whatever follows it. */
  lemma DecodeEncodeByte(b: Byte, rest: String)
    ensures FormDecode(EncodeByte(b) + rest) == [b] + FormDecode(rest)
  {
    var t := EncodeByte(b) + rest;
    if b == 0x20 {
      assert t[1..] == rest;
    } else if Unreserved(b) {
      assert t[0] == b as char && t[1..] == rest;
    } else {
      var hi, lo := HexDigit(b / 16), HexDigit(b % 16);
      assert t[0] == '%' && t[1] == hi && t[2] == lo && t[3..] == rest;
      assert HexValue(hi) == b / 16 && HexValue(lo) == b % 16;
    }
  }

  lemma {:induction false} EncodeBytesAppend(a: seq<Byte>, b: seq<Byte>)
    ensures EncodeBytes(a + b) == EncodeBytes(a) + EncodeBytes(b)
    decreases |a|
  {
    if |a| > 0 {
      assert (a + b)[0] == a[0] && (a + b)[1..] == a[1..] + b;
      EncodeBytesAppend(a[1..], b);
      var h := EncodeByte(a[0]);
      assert EncodeBytes(a + b) == h + (EncodeBytes(a[1..]) + EncodeBytes(b));
      assert h + (EncodeBytes(a[1..]) + EncodeBytes(b)) == (h + EncodeBytes(a[1..])) + EncodeBytes(b);
    } else {
      assert a + b == b;
    }
  }

  /** Decoding the encoded bytes gives them back. */
  lemma {:induction false} DecodeEncodeBytes(bs: seq<Byte>)
    ensures FormDecode(EncodeBytes(bs)) == bs
    decreases |bs|
  {
    if |bs| > 0 {
      DecodeEncodeByte(bs[0], EncodeBytes(bs[1..]));
      DecodeEncodeBytes(bs[1..]);
    }
  }

  /** Decoding an encoded name or value gives back its UTF-8 bytes, so two
      different texts are never written alike. */
  lemma FormRoundTrip(s: String)
    ensures FormDecode(FormEncode(s)) == Utf8Bytes(s)
  {
    DecodeEncodeBytes(Utf8Bytes(s));
  }

  /** The encoded text holds only written characters, so never the `&`,
      the `=` or a space. */
  lemma {:induction false} EncodeBytesWritten(bs: seq<Byte>)
    ensures forall i :: 0 <= i < |EncodeBytes(bs)| ==> Written(EncodeBytes(bs)[i])
    ensures '&' !in EncodeBytes(bs) && '=' !in EncodeBytes(bs) && ' ' !in EncodeBytes(bs)
    decreases |bs|
  {
    if |bs| > 0 {
      EncodeByteWritten(bs[0]);
      EncodeBytesWritten(bs[1..]);
      var t := EncodeBytes(bs);
      assert t == EncodeByte(bs[0]) + EncodeBytes(bs[1..]);
      forall i | 0 <= i < |t| ensures Written(t[i]) {
        if i >= |EncodeByte(bs[0])| {
          assert t[i] == EncodeBytes(bs[1..])[i - |EncodeByte(bs[0])|];
        }
      }
    }
  }

  lemma FormEncodeWritten(s: String)
    ensures '&' !in FormEncode(s) && '=' !in FormEncode(s) && ' ' !in FormEncode(s)
  {
    EncodeBytesWritten(Utf8Bytes(s));
  }

  /** Text of unreserved ASCII characters only, such as a number or a date,
      is written unchanged. */
  lemma {:induction false} UnreservedUnchanged(s: String)
    requires forall i :: 0 <= i < |s| ==> Unreserved(s[i] as int)
    ensures FormEncode(s) == s
    decreases |s|
  {
    if |s| > 0 {
      UnreservedUnchanged(s[1..]);
      assert Utf8(s[0]) == [s[0] as int];
      assert EncodeByte(s[0] as int) == [s[0]];
      EncodeBytesAppend([s[0] as int], Utf8Bytes(s[1..]));
      assert [s[0]] + s[1..] == s;
    }
  }

  /** A search for `a b` goes out as `a+b`, and `&` is escaped. */
  lemma SpaceAndAmpersand()
    ensures FormEncode("a b") == "a+b"
    ensures FormEncode("x&y") == "x%26y"
  {
    assert Utf8Bytes("a b") == [0x61, 0x20, 0x62];
    assert EncodeBytes([0x62]) == "b";
    assert EncodeBytes([0x20, 0x62]) == "+b";
    assert Utf8Bytes("x&y") == [0x78, 0x26, 0x79];
    assert EncodeBytes([0x79]) == "y";
    assert EncodeBytes([0x26, 0x79]) == "%26y";
  }
}
