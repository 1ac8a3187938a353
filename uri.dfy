/** `encodeURIComponent` and `decodeURIComponent` of the JavaScript runtime. Encoding keeps
    the unreserved characters and writes every other character as the `%XY` escapes of its
    UTF-8 bytes; decoding reads the escapes back and fails (a `URIError`) on an escape that
    is cut short, that is not hex, or whose bytes are not the UTF-8 encoding of a scalar
    value. */
module Uri {
  import opened Types
  import Text

  /** Characters `encodeURIComponent` leaves as they are. */
  predicate IsUnreserved(c: char) {
    ('A' <= c <= 'Z') || ('a' <= c <= 'z') || Text.IsDigit(c)
    || c == '-' || c == '_' || c == '.' || c == '!' || c == '~' || c == '*' || c == '\'' || c == '(' || c == ')'
  }

  predicate IsUpperHex(c: char) {
    Text.IsDigit(c) || ('A' <= c <= 'F')
  }

  /** Hex digits of either case, as decoding accepts them. */
  predicate IsHex(c: char) {
    Text.IsDigit(c) || ('A' <= c <= 'F') || ('a' <= c <= 'f')
  }

  function HexValue(c: char): (d: nat)
    requires IsHex(c)
    ensures d < 16
  {
    if Text.IsDigit(c) then c as int - '0' as int
    else if 'A' <= c <= 'F' then c as int - 'A' as int + 10
    else c as int - 'a' as int + 10
  }

  /** The upper-case hex digit of `d`; it reads back as `d`. */
  function HexDigit(d: nat): (c: char)
    requires d < 16
    ensures IsUpperHex(c) && IsHex(c) && HexValue(c) == d
  {
    if d < 10 then Text.DigitChar(d) else ('A' as int + d - 10) as char
  }

  /** The UTF-8 encoding of one Unicode scalar value. */
  function Utf8(c: char): (bytes: seq<nat>)
    ensures 1 <= |bytes| <= 4
    ensures forall i :: 0 <= i < |bytes| ==> bytes[i] < 256
  {
    var v := c as int;
    if v < 0x80 then [v]
    else if v < 0x800 then [0xC0 + v / 0x40, 0x80 + v % 0x40]
    else if v < 0x1_0000 then [0xE0 + v / 0x1000, 0x80 + v / 0x40 % 0x40, 0x80 + v % 0x40]
    else [0xF0 + v / 0x4_0000, 0x80 + v / 0x1000 % 0x40, 0x80 + v / 0x40 % 0x40, 0x80 + v % 0x40]
  }

  predicate IsContinuation(b: nat) {
    0x80 <= b < 0xC0
  }

  /** The length of the UTF-8 sequence a byte leads: the number of its leading one bits,
      or 1 for an ASCII byte; 0 when the byte cannot lead a sequence (one leading one bit,
      or more than four). */
  function SequenceLength(lead: nat): (n: nat)
    ensures n <= 4
  {
    if lead < 0x80 then 1
    else if lead < 0xC0 then 0
    else if lead < 0xE0 then 2
    else if lead < 0xF0 then 3
    else if lead < 0xF8 then 4
    else 0
  }

  /** The scalar value a UTF-8 sequence encodes, or None for an overlong encoding, a
      surrogate or a value above U+10FFFF. */
  function Utf8Decode(bytes: seq<nat>): (r: Option<char>)
    requires |bytes| >= 1 && bytes[0] < 256 && |bytes| == SequenceLength(bytes[0])
    requires forall i :: 1 <= i < |bytes| ==> IsContinuation(bytes[i])
  {
    if |bytes| == 1 then
      Some(bytes[0] as char)
    else
      assert IsContinuation(bytes[1]);
      if |bytes| == 2 then
        var v := (bytes[0] as int - 0xC0) * 0x40 + (bytes[1] as int - 0x80);
        if 0x80 <= v then Some(v as char) else None
      else
        assert IsContinuation(bytes[2]);
        if |bytes| == 3 then
          var v := (bytes[0] as int - 0xE0) * 0x1000 + (bytes[1] as int - 0x80) * 0x40 + (bytes[2] as int - 0x80);
          if 0x800 <= v && !(0xD800 <= v < 0xE000) then Some(v as char) else None
        else
          assert IsContinuation(bytes[3]);
          var v := (bytes[0] as int - 0xF0) * 0x4_0000 + (bytes[1] as int - 0x80) * 0x1000
                   + (bytes[2] as int - 0x80) * 0x40 + (bytes[3] as int - 0x80);
          if 0x1_0000 <= v <= 0x10_FFFF then Some(v as char) else None
  }

  /** `%XY` escapes, upper-case hex, for each byte. */
  function PercentEscapes(bytes: seq<nat>): (r: string)
    requires forall i :: 0 <= i < |bytes| ==> bytes[i] < 256
    ensures |r| == 3 * |bytes|
    ensures forall i :: 0 <= i < |r| ==> r[i] == '%' || IsUpperHex(r[i])
  {
    if bytes == [] then []
    else ['%', HexDigit(bytes[0] / 16), HexDigit(bytes[0] % 16)] + PercentEscapes(bytes[1..])
  }

  /** A string made only of unreserved characters, `%` and upper-case hex digits. */
  predicate IsUriComponent(s: string) {
    forall i :: 0 <= i < |s| ==> IsUnreserved(s[i]) || s[i] == '%' || IsUpperHex(s[i])
  }

  /** `encodeURIComponent(s)`: unreserved characters are kept, every other character is
      replaced by the percent escapes of its UTF-8 bytes. */
  function EncodeUriComponent(s: string): (r: string)
    ensures IsUriComponent(r)
    ensures |r| >= |s|
  {
    if s == [] then []
    else
      var head := if IsUnreserved(s[0]) then [s[0]] else PercentEscapes(Utf8(s[0]));
      head + EncodeUriComponent(s[1..])
  }

  /** The byte of the `%XY` escape at the front of `s`, if one is there. */
  function EscapedByte(s: string): (r: Option<nat>)
    ensures r.Some? ==> |s| >= 3 && s[0] == '%' && IsHex(s[1]) && IsHex(s[2]) && r.value < 256
  {
    if |s| >= 3 && s[0] == '%' && IsHex(s[1]) && IsHex(s[2]) then Some(HexValue(s[1]) * 16 + HexValue(s[2]))
    else None
  }

  /** The bytes of `count` escapes at the front of `s`, each of them a UTF-8 continuation byte. */
  function Continuations(s: string, count: nat): (r: Option<seq<nat>>)
    ensures r.Some? ==> |s| >= 3 * count && |r.value| == count
    ensures r.Some? ==> forall i :: 0 <= i < count ==> IsContinuation(r.value[i])
  {
    if count == 0 then Some([])
    else match EscapedByte(s)
      case None => None
      case Some(b) =>
        if !IsContinuation(b) then None
        else match Continuations(s[3..], count - 1)
          case None => None
          case Some(tail) => Some([b] + tail)
  }

  /** `decodeURIComponent(s)`, None where it throws a `URIError`. A character other than `%`
      is kept; an escape below 0x80 stands for that character; an escape at or above 0x80
      leads a UTF-8 sequence that must continue with escaped continuation bytes and encode a
      scalar value. */
  function DecodeUriComponent(s: string): (r: Option<string>)
    ensures r.Some? ==> |r.value| <= |s|
    decreases |s|
  {
    if s == [] then Some([])
    else if s[0] != '%' then
      match DecodeUriComponent(s[1..])
      case None => None
      case Some(rest) => Some([s[0]] + rest)
    else
      match EscapedByte(s)
      case None => None
      case Some(lead) =>
        var n := SequenceLength(lead);
        if n == 0 then None
        else match Continuations(s[3..], n - 1)
          case None => None
          case Some(tail) =>
            match Utf8Decode([lead] + tail)
            case None => None
            case Some(c) =>
              match DecodeUriComponent(s[3 * n..])
              case None => None
              case Some(rest) => Some([c] + rest)
  }

  /** Decoding a string without `%` gives the string back. */
  lemma {:induction false} DecodePlain(s: string)
    requires forall i :: 0 <= i < |s| ==> s[i] != '%'
    ensures DecodeUriComponent(s) == Some(s)
  {
    if s != [] {
      DecodePlain(s[1..]);
      assert [s[0]] + s[1..] == s;
    }
  }

  /** Every `%` among the escapes `Continuations` reads starts an escape. */
  lemma {:induction false} ContinuationsWellFormed(s: string, count: nat, j: nat)
    requires Continuations(s, count).Some?
    requires j < 3 * count && s[j] == '%'
    ensures j + 2 < |s| && IsHex(s[j + 1]) && IsHex(s[j + 2])
  {
    if j >= 3 {
      assert s[3..][j - 3] == s[j];
      ContinuationsWellFormed(s[3..], count - 1, j - 3);
    }
  }

  /** A `%` that is not followed by two hex digits makes decoding throw. */
  lemma {:induction false} MalformedEscapeRejected(s: string, i: nat)
    requires i < |s| && s[i] == '%'
    requires !(i + 2 < |s| && IsHex(s[i + 1]) && IsHex(s[i + 2]))
    ensures DecodeUriComponent(s) == None
    decreases |s|
  {
    if s[0] != '%' {
      assert s[1..][i - 1] == s[i];
      MalformedEscapeRejected(s[1..], i - 1);
    } else if i > 0 && EscapedByte(s).Some? {
      var n := SequenceLength(EscapedByte(s).value);
      if n != 0 && Continuations(s[3..], n - 1).Some? {
        if i < 3 * n {
          assert s[3..][i - 3] == s[i];
          ContinuationsWellFormed(s[3..], n - 1, i - 3);
        } else {
          assert s[3 * n..][i - 3 * n] == s[i];
          MalformedEscapeRejected(s[3 * n..], i - 3 * n);
        }
      }
    }
  }

  /** The escapes of continuation bytes are read back as those bytes. */
  lemma {:induction false} ContinuationsOfEscapes(bytes: seq<nat>, rest: string)
    requires forall i :: 0 <= i < |bytes| ==> bytes[i] < 256 && IsContinuation(bytes[i])
    ensures Continuations(PercentEscapes(bytes) + rest, |bytes|) == Some(bytes)
  {
    if bytes != [] {
      var s := PercentEscapes(bytes) + rest;
      assert s[3..] == PercentEscapes(bytes[1..]) + rest;
      ContinuationsOfEscapes(bytes[1..], rest);
      assert [bytes[0]] + bytes[1..] == bytes;
    }
  }

  /** The UTF-8 encoding of a character is a well-formed sequence that decodes to it. */
  lemma Utf8Decodes(c: char)
    ensures var bytes := Utf8(c);
            SequenceLength(bytes[0]) == |bytes|
            && (forall i :: 1 <= i < |bytes| ==> IsContinuation(bytes[i]))
            && Utf8Decode(bytes) == Some(c)
  {
    var v := c as int;
    if 0x800 <= v < 0x1_0000 {
      ThreeBytes(v);
    } else if 0x1_0000 <= v {
      FourBytes(v);
    }
  }

  lemma ThreeBytes(v: int)
    requires 0x800 <= v < 0x1_0000
    ensures 0xE0 <= 0xE0 + v / 0x1000 < 0xF0
    ensures v / 0x1000 * 0x1000 + v / 0x40 % 0x40 * 0x40 + v % 0x40 == v
  {
    var q := v / 0x40;
    assert v == q * 0x40 + v % 0x40;
    assert q == q / 0x40 * 0x40 + q % 0x40;
    assert q / 0x40 == v / 0x1000;
  }

  lemma FourBytes(v: int)
    requires 0x1_0000 <= v < 0x11_0000
    ensures 0xF0 <= 0xF0 + v / 0x4_0000 < 0xF8
    ensures v / 0x4_0000 * 0x4_0000 + v / 0x1000 % 0x40 * 0x1000 + v / 0x40 % 0x40 * 0x40 + v % 0x40 == v
  {
    var q := v / 0x40;
    var p := q / 0x40;
    assert v == q * 0x40 + v % 0x40;
    assert q == p * 0x40 + q % 0x40;
    assert p == p / 0x40 * 0x40 + p % 0x40;
    assert p == v / 0x1000;
    assert p / 0x40 == v / 0x4_0000;
  }

  /** Decoding accepts only the UTF-8 encoding of the character it returns: no overlong
      form, so every character has exactly one escaped spelling in upper-case hex. */
  lemma Utf8DecodeCanonical(bytes: seq<nat>)
    requires |bytes| >= 1 && bytes[0] < 256 && |bytes| == SequenceLength(bytes[0])
    requires forall i :: 1 <= i < |bytes| ==> IsContinuation(bytes[i])
    ensures Utf8Decode(bytes).Some? ==> Utf8(Utf8Decode(bytes).value) == bytes
  {
    if Utf8Decode(bytes).Some? && |bytes| > 1 {
      assert IsContinuation(bytes[1]);
      var b1 := bytes[1] - 0x80;
      if |bytes| == 2 {
        SixBits(bytes[0] - 0xC0, b1);
      } else {
        assert IsContinuation(bytes[2]);
        var b2 := bytes[2] - 0x80;
        if |bytes| == 3 {
          ThreeByteDigits(bytes[0] - 0xE0, b1, b2);
        } else {
          assert IsContinuation(bytes[3]);
          FourByteDigits(bytes[0] - 0xF0, b1, b2, bytes[3] - 0x80);
        }
      }
    }
  }

  /** Dividing `q * 64 + r` by 64 for a six-bit `r`. */
  lemma SixBits(q: int, r: int)
    requires 0 <= r < 0x40
    ensures (q * 0x40 + r) / 0x40 == q && (q * 0x40 + r) % 0x40 == r
  {
  }

  lemma ThreeByteDigits(a: int, b: int, c: int)
    requires 0 <= b < 0x40 && 0 <= c < 0x40
    ensures var v := a * 0x1000 + b * 0x40 + c;
            v / 0x1000 == a && v / 0x40 % 0x40 == b && v % 0x40 == c
  {
    var v := a * 0x1000 + b * 0x40 + c;
    SixBits(a * 0x40 + b, c);
    SixBits(a, b);
    assert v == (a * 0x40 + b) * 0x40 + c;
    assert v / 0x1000 == v / 0x40 / 0x40;
  }

  lemma FourByteDigits(a: int, b: int, c: int, d: int)
    requires 0 <= b < 0x40 && 0 <= c < 0x40 && 0 <= d < 0x40
    ensures var v := a * 0x4_0000 + b * 0x1000 + c * 0x40 + d;
            v / 0x4_0000 == a && v / 0x1000 % 0x40 == b && v / 0x40 % 0x40 == c && v % 0x40 == d
  {
    var v := a * 0x4_0000 + b * 0x1000 + c * 0x40 + d;
    SixBits((a * 0x40 + b) * 0x40 + c, d);
    SixBits(a * 0x40 + b, c);
    SixBits(a, b);
    assert v == ((a * 0x40 + b) * 0x40 + c) * 0x40 + d;
    assert v / 0x1000 == v / 0x40 / 0x40;
    assert v / 0x4_0000 == v / 0x1000 / 0x40;
  }

  /** The escapes of one character's UTF-8 bytes decode to that character. */
  lemma DecodeEscapedChar(c: char, rest: string)
    ensures DecodeUriComponent(PercentEscapes(Utf8(c)) + rest)
         == match DecodeUriComponent(rest)
            case None => None
            case Some(t) => Some([c] + t)
  {
    var bytes := Utf8(c);
    var n := |bytes|;
    Utf8Decodes(c);
    var s := PercentEscapes(bytes) + rest;
    assert s[..3] == ['%', HexDigit(bytes[0] / 16), HexDigit(bytes[0] % 16)];
    assert EscapedByte(s) == Some(bytes[0]);
    assert s[3..] == PercentEscapes(bytes[1..]) + rest;
    ContinuationsOfEscapes(bytes[1..], rest);
    assert [bytes[0]] + bytes[1..] == bytes;
    assert s[3 * n..] == rest;
  }

  /** Decoding an encoded string gives it back: `decodeURIComponent(encodeURIComponent(s)) == s`. */
  lemma {:induction false} DecodeEncode(s: string)
    ensures DecodeUriComponent(EncodeUriComponent(s)) == Some(s)
  {
    if s != [] {
      DecodeEncode(s[1..]);
      var rest := EncodeUriComponent(s[1..]);
      if IsUnreserved(s[0]) {
        assert ([s[0]] + rest)[1..] == rest;
      } else {
        DecodeEscapedChar(s[0], rest);
      }
      assert [s[0]] + s[1..] == s;
    }
  }

  /** Encoding leaves a string of unreserved characters unchanged. */
  lemma {:induction false} EncodeUnreserved(s: string)
    requires forall i :: 0 <= i < |s| ==> IsUnreserved(s[i])
    ensures EncodeUriComponent(s) == s
  {
    if s != [] {
      EncodeUnreserved(s[1..]);
      assert [s[0]] + s[1..] == s;
    }
  }

  /** The encoding of a string never contains a query delimiter or white space, so it is
      read back as one query value. */
  lemma EncodedHasNoDelimiters(s: string)
    ensures var r := EncodeUriComponent(s);
            forall i :: 0 <= i < |r| ==> r[i] !in {'&', '=', '#', '?', '/', ',', '+'} && !Text.IsSpace(r[i])
  {
  }
}
