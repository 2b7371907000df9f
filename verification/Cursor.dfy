/** The opaque page cursor: a UUID's text, in URL-safe base64. */
module Cursor {
  import opened Wrappers
  import opened Ledger

  // ---------------------------------------------------------------------------
  // Base64: section 5 of RFC 4648 when encoding, Python's lenient reading when decoding
  // ---------------------------------------------------------------------------

  type Sextet = n: nat | n < 64
  type Byte = n: nat | n < 256

  function ToChar(x: Sextet): char
  {
    if x < 26 then 'A' + x as char
    else if x < 52 then 'a' + (x - 26) as char
    else if x < 62 then '0' + (x - 52) as char
    else if x == 62 then '-' else '_'
  }

  /** The URL-safe alphabet and the standard one are both understood. */
  function FromChar(c: char): Option<Sextet>
  {
    if 'A' <= c <= 'Z' then Some((c - 'A') as int)
    else if 'a' <= c <= 'z' then Some((c - 'a') as int + 26)
    else if '0' <= c <= '9' then Some((c - '0') as int + 52)
    else if c == '-' || c == '+' then Some(62)
    else if c == '_' || c == '/' then Some(63)
    else None
  }

  // The four sextets of a group of three bytes.
  function First(a: Byte): Sextet { a / 4 }

  function Second(a: Byte, b: Byte): Sextet { a % 4 * 16 + b / 16 }

  function Third(b: Byte, c: Byte): Sextet { b % 16 * 4 + c / 64 }

  function Fourth(c: Byte): Sextet { c % 64 }

  function Encode64(b: seq<Byte>): string
  {
    if |b| == 0 then ""
    else if |b| == 1 then [ToChar(First(b[0])), ToChar(Second(b[0], 0))] + "=="
    else if |b| == 2 then [ToChar(First(b[0])), ToChar(Second(b[0], b[1])), ToChar(Third(b[1], 0))] + "="
    else
      [ToChar(First(b[0])), ToChar(Second(b[0], b[1])), ToChar(Third(b[1], b[2])), ToChar(Fourth(b[2]))]
      + Encode64(b[3..])
  }

  /** The bits left over after `quad` characters of a group. */
  predicate Leftover(quad: nat, left: nat)
  {
    quad < 4 && left < if quad <= 1 then 64 else if quad == 2 then 16 else 4
  }

  /** Python's non-strict decoder: `quad` characters of the current group are read, `left` holds
      their unused bits, `pads` counts the padding seen since the last of them. Characters
      outside the alphabet are skipped; complete padding ends the input. */
  function Decode64(s: string, quad: nat, left: nat, pads: nat, out: seq<Byte>): Option<seq<Byte>>
    requires Leftover(quad, left)
  {
    if |s| == 0 then if quad == 0 then Some(out) else None
    else if s[0] == '=' then
      if quad >= 2 && quad + pads + 1 >= 4 then Some(out)
      else Decode64(s[1..], quad, left, if quad >= 2 then pads + 1 else pads, out)
    else
      match FromChar(s[0])
      case None => Decode64(s[1..], quad, left, pads, out)
      case Some(x) =>
        if quad == 0 then Decode64(s[1..], 1, x, 0, out)
        else if quad == 1 then Decode64(s[1..], 2, x % 16, 0, out + [left * 4 + x / 16])
        else if quad == 2 then Decode64(s[1..], 3, x % 4, 0, out + [left * 16 + x / 4])
        else Decode64(s[1..], 0, 0, 0, out + [left * 64 + x])
  }

  // Table 2 of RFC 4648, range by range.
  lemma CapitalsFirst(x: Sextet)
    requires x < 26
    ensures ToChar(x) == "ABCDEFGHIJKLMNOPQRSTUVWXYZ"[x]
  {
  }

  lemma ThenSmallLetters(x: nat)
    requires x < 26
    ensures ToChar(26 + x) == "abcdefghijklmnopqrstuvwxyz"[x]
  {
  }

  lemma ThenDigitsAndSigns(x: nat)
    ensures x < 10 ==> ToChar(52 + x) == "0123456789"[x]
    ensures ToChar(62) == '-' && ToChar(63) == '_'
  {
  }

  /** Both alphabets are read, and no other character. */
  lemma BothAlphabetsAreRead(c: char)
    ensures FromChar('+') == FromChar('-') == Some(62) && FromChar('/') == FromChar('_') == Some(63)
    ensures FromChar(c).Some? <==>
              'A' <= c <= 'Z' || 'a' <= c <= 'z' || '0' <= c <= '9' || c in {'-', '_', '+', '/'}
  {
  }

  /** Four characters stand for the same 24-bit number as their three bytes. */
  lemma GroupIsOneNumber(a: Byte, b: Byte, c: Byte)
    ensures ((First(a) * 64 + Second(a, b)) * 64 + Third(b, c)) * 64 + Fourth(c) == (a * 256 + b) * 256 + c
  {
    FirstByte(a, b);
    SecondByte(b, c);
    ThirdByte(c);
  }

  /** The test vectors of section 10 of RFC 4648. */
  lemma KnownEncodings()
    ensures Encode64([]) == "" && Encode64([102]) == "Zg==" && Encode64([102, 111]) == "Zm8="
    ensures Encode64([102, 111, 111]) == "Zm9v"
    ensures Encode64([102, 111, 111, 98, 97, 114]) == "Zm9vYmFy"
  {
    assert [102, 111, 111, 98, 97, 114][3..] == [98, 97, 114];
    assert [98, 97, 114][3..] == [] && [102, 111, 111][3..] == [];
  }

  /** Characters of either alphabet and nothing else are decoded exactly when they come in groups of
      four: missing padding is an error. */
  lemma {:induction false} PaddingIsRequired(s: string, quad: nat, left: nat, pads: nat, out: seq<Byte>)
    requires Leftover(quad, left) && forall i :: 0 <= i < |s| ==> FromChar(s[i]).Some?
    ensures Decode64(s, quad, left, pads, out).Some? <==> (quad + |s|) % 4 == 0
    decreases |s|
  {
    if |s| > 0 {
      var x, rest := FromChar(s[0]).value, s[1..];
      var (q, l, o) := if quad == 0 then (1, x, out)
                       else if quad == 1 then (2, x % 16, out + [left * 4 + x / 16])
                       else if quad == 2 then (3, x % 4, out + [left * 16 + x / 4])
                       else (0, 0, out + [left * 64 + x]);
      assert Decode64(s, quad, left, pads, out) == Decode64(rest, q, l, 0, o);
      assert forall i :: 0 <= i < |rest| ==> rest[i] == s[i + 1];
      PaddingIsRequired(rest, q, l, 0, o);
    }
  }

  lemma CharsRoundTrip(x: Sextet)
    ensures FromChar(ToChar(x)) == Some(x) && ToChar(x) != '='
  {
  }

  // What the decoder makes of each sextet.
  lemma FirstByte(a: Byte, b: Byte)
    ensures First(a) * 4 + Second(a, b) / 16 == a && Second(a, b) % 16 == b / 16
  {
  }

  lemma SecondByte(b: Byte, c: Byte)
    ensures b / 16 * 16 + Third(b, c) / 4 == b && Third(b, c) % 4 == c / 64
  {
  }

  lemma ThirdByte(c: Byte)
    ensures c / 64 * 64 + Fourth(c) == c
  {
  }

  /** Reading the first two characters of a group gives its first byte. */
  lemma ReadTwo(a: Byte, b: Byte, rest: string, pads: nat, out: seq<Byte>)
    ensures Decode64([ToChar(First(a)), ToChar(Second(a, b))] + rest, 0, 0, pads, out)
         == Decode64(rest, 2, b / 16, 0, out + [a])
  {
    var w, x := First(a), Second(a, b);
    var s := [ToChar(w), ToChar(x)] + rest;
    CharsRoundTrip(w);
    CharsRoundTrip(x);
    assert s[1..] == [ToChar(x)] + rest && s[1..][1..] == rest;
    FirstByte(a, b);
    assert Decode64(s[1..], 1, w, 0, out) == Decode64(rest, 2, b / 16, 0, out + [a]);
  }

  lemma ReadThird(b: Byte, c: Byte, rest: string, out: seq<Byte>)
    ensures Decode64([ToChar(Third(b, c))] + rest, 2, b / 16, 0, out) == Decode64(rest, 3, c / 64, 0, out + [b])
  {
    CharsRoundTrip(Third(b, c));
    SecondByte(b, c);
    assert ([ToChar(Third(b, c))] + rest)[1..] == rest;
  }

  lemma ReadFourth(c: Byte, rest: string, out: seq<Byte>)
    ensures Decode64([ToChar(Fourth(c))] + rest, 3, c / 64, 0, out) == Decode64(rest, 0, 0, 0, out + [c])
  {
    CharsRoundTrip(Fourth(c));
    ThirdByte(c);
    assert ([ToChar(Fourth(c))] + rest)[1..] == rest;
  }

  /** A full group of four characters gives its three bytes back. */
  lemma ReadGroup(a: Byte, b: Byte, c: Byte, rest: string, pads: nat, out: seq<Byte>)
    ensures Decode64([ToChar(First(a)), ToChar(Second(a, b)), ToChar(Third(b, c)), ToChar(Fourth(c))] + rest,
                     0, 0, pads, out)
         == Decode64(rest, 0, 0, 0, out + [a, b, c])
  {
    var two := [ToChar(First(a)), ToChar(Second(a, b))];
    var third, fourth := [ToChar(Third(b, c))], [ToChar(Fourth(c))];
    ReadTwo(a, b, third + (fourth + rest), pads, out);
    ReadThird(b, c, fourth + rest, out + [a]);
    ReadFourth(c, rest, out + [a] + [b]);
    assert out + [a] + [b] + [c] == out + [a, b, c];
    assert two + (third + (fourth + rest))
        == [ToChar(First(a)), ToChar(Second(a, b)), ToChar(Third(b, c)), ToChar(Fourth(c))] + rest;
  }

  lemma ReadPadding(left: nat, out: seq<Byte>)
    ensures left < 16 ==> Decode64("==", 2, left, 0, out) == Some(out)
    ensures left < 4 ==> Decode64("=", 3, left, 0, out) == Some(out)
  {
    assert "=="[1..] == "=";
  }

  lemma ReadLastTwo(a: Byte, b: Byte, pads: nat, out: seq<Byte>)
    ensures Decode64([ToChar(First(a)), ToChar(Second(a, b)), ToChar(Third(b, 0))] + "=", 0, 0, pads, out)
         == Some(out + [a, b])
  {
    ReadTwo(a, b, [ToChar(Third(b, 0))] + "=", pads, out);
    ReadThird(b, 0, "=", out + [a]);
    ReadPadding(0, out + [a] + [b]);
    assert out + [a] + [b] == out + [a, b];
    assert [ToChar(First(a)), ToChar(Second(a, b))] + ([ToChar(Third(b, 0))] + "=")
        == [ToChar(First(a)), ToChar(Second(a, b)), ToChar(Third(b, 0))] + "=";
  }

  /** Base64 round trip, for every byte string. */
  lemma {:induction false} Base64RoundTrip(b: seq<Byte>, pads: nat, out: seq<Byte>)
    ensures Decode64(Encode64(b), 0, 0, pads, out) == Some(out + b)
    decreases |b|
  {
    if |b| == 0 {
      assert out + b == out;
    } else if |b| == 1 {
      ReadTwo(b[0], 0, "==", pads, out);
      ReadPadding(0, out + [b[0]]);
      assert b == [b[0]];
    } else if |b| == 2 {
      ReadLastTwo(b[0], b[1], pads, out);
      assert b == [b[0], b[1]];
    } else {
      ReadGroup(b[0], b[1], b[2], Encode64(b[3..]), pads, out);
      Base64RoundTrip(b[3..], 0, out + [b[0], b[1], b[2]]);
      assert out + [b[0], b[1], b[2]] + b[3..] == out + b;
    }
  }

  // ---------------------------------------------------------------------------
  // UUID text: section 4 of RFC 9562
  // ---------------------------------------------------------------------------

  type Nibble = n: nat | n < 16

  function HexChar(d: Nibble): char
  {
    if d < 10 then '0' + d as char else 'a' + (d - 10) as char
  }

  function HexValue(c: char): Option<Nibble>
  {
    if '0' <= c <= '9' then Some((c - '0') as int)
    else if 'a' <= c <= 'f' then Some((c - 'a') as int + 10)
    else if 'A' <= c <= 'F' then Some((c - 'A') as int + 10)
    else None
  }

  /** n in exactly k lower-case hexadecimal digits. */
  function Hex(n: nat, k: nat): (s: string)
    ensures |s| == k && forall c :: c in s ==> HexValue(c).Some? && c != 'u'
  {
    if k == 0 then "" else Hex(n / 16, k - 1) + [HexChar(n % 16)]
  }

  function ParseHex(s: string): Option<nat>
  {
    if |s| == 0 then Some(0)
    else
      var front, digit := ParseHex(s[..|s| - 1]), HexValue(s[|s| - 1]);
      if front.Some? && digit.Some? then Some(front.value * 16 + digit.value) else None
  }

  function Pow16(k: nat): (p: nat)
    ensures p >= 1
  {
    if k == 0 then 1 else 16 * Pow16(k - 1)
  }

  lemma HexDigits(d: Nibble)
    ensures HexChar(d) == "0123456789abcdef"[d]
  {
  }

  /** Digits of either case are read, and no other character. */
  lemma HexDigitsAreRead(d: Nibble, c: char)
    ensures HexValue("0123456789abcdef"[d]) == HexValue("0123456789ABCDEF"[d]) == Some(d)
    ensures HexValue(c).Some? <==> '0' <= c <= '9' || 'a' <= c <= 'f' || 'A' <= c <= 'F'
  {
  }

  lemma {:induction false} HexRoundTrip(n: nat, k: nat)
    requires n < Pow16(k)
    ensures ParseHex(Hex(n, k)) == Some(n)
  {
    if k > 0 {
      HexRoundTrip(n / 16, k - 1);
      assert Hex(n, k)[..k - 1] == Hex(n / 16, k - 1);
    }
  }

  lemma {:induction false} ParseHexBound(s: string)
    ensures ParseHex(s).Some? ==> ParseHex(s).value < Pow16(|s|)
  {
    if |s| > 0 { ParseHexBound(s[..|s| - 1]); }
  }

  lemma UuidIs128Bits()
    ensures Pow16(32) == UUID_LIMIT
  {
    assert Pow16(8) == 0x1_0000_0000;
    assert Pow16(16) == 0x1_0000_0000_0000_0000;
    assert Pow16(24) == 0x1_0000_0000_0000_0000_0000_0000;
  }

  /** `str(uuid)`. */
  function UuidText(u: Uuid): string
  {
    var h := Hex(u, 32);
    h[..8] + "-" + h[8..12] + "-" + h[12..16] + "-" + h[16..20] + "-" + h[20..]
  }

  lemma Layout(h: string, text: string)
    requires |h| == 32 && '-' !in h
    requires text == h[..8] + "-" + h[8..12] + "-" + h[12..16] + "-" + h[16..20] + "-" + h[20..]
    ensures |text| == 36 && text[8] == text[13] == text[18] == text[23] == '-'
    ensures text[..8] == h[..8] && text[9..13] == h[8..12] && text[14..18] == h[12..16]
    ensures text[19..23] == h[16..20] && text[24..] == h[20..]
  {
  }

  /** The text of a UUID: hyphens at four of 36 places, and at the others the UUID's 32 hexadecimal
      digits, highest first. */
  lemma UuidTextForm(u: Uuid)
    ensures var text, h := UuidText(u), Hex(u, 32);
            && |text| == 36 && text[8] == text[13] == text[18] == text[23] == '-' && '-' !in h
            && text[..8] == h[..8] && text[9..13] == h[8..12] && text[14..18] == h[12..16]
            && text[19..23] == h[16..20] && text[24..] == h[20..]
            && |h| == 32 && ParseHex(h) == Some(u)
  {
    NoHyphens(u, 32);
    Layout(Hex(u, 32), UuidText(u));
    UuidIs128Bits();
    HexRoundTrip(u, 32);
  }

  lemma NoHyphens(n: nat, k: nat)
    ensures '-' !in Hex(n, k)
  {
    assert HexValue('-').None?;
  }

  /** `s.replace(pattern, "")`. */
  function RemoveAll(s: string, pattern: string): string
    requires |pattern| > 0
  {
    if |s| == 0 then ""
    else if pattern <= s then RemoveAll(s[|pattern|..], pattern)
    else [s[0]] + RemoveAll(s[1..], pattern)
  }

  function StripLeft(s: string): string
  {
    if |s| > 0 && (s[0] == '{' || s[0] == '}') then StripLeft(s[1..]) else s
  }

  function StripRight(s: string): string
  {
    if |s| > 0 && (s[|s| - 1] == '{' || s[|s| - 1] == '}') then StripRight(s[..|s| - 1]) else s
  }

  /** `uuid.UUID(text)`: prefixes, braces and hyphens are dropped, then 32 hexadecimal digits
      must be left. */
  function ParseUuid(text: string): Option<Uuid>
  {
    var bare := RemoveAll(RemoveAll(text, "urn:"), "uuid:");
    var digits := RemoveAll(StripRight(StripLeft(bare)), "-");
    if |digits| != 32 then None
    else
      UuidIs128Bits();
      ParseHexBound(digits);
      match ParseHex(digits)
      case None => None
      case Some(n) => Some(n)
  }

  lemma {:induction false} NothingToRemove(s: string, pattern: string)
    requires |pattern| > 0 && pattern[0] !in s
    ensures RemoveAll(s, pattern) == s
  {
    if |s| > 0 {
      assert s[0] in s;
      NothingToRemove(s[1..], pattern);
    }
  }

  lemma {:induction false} RemoveJoin(s: string, t: string)
    ensures RemoveAll(s + t, "-") == RemoveAll(s, "-") + RemoveAll(t, "-")
  {
    if |s| == 0 {
      assert s + t == t;
    } else {
      assert (s + t)[1..] == s[1..] + t;
      RemoveJoin(s[1..], t);
    }
  }

  /** Dropping the hyphens of a UUID's text leaves its 32 digits. */
  lemma HyphensDrop(h: string)
    requires |h| == 32 && '-' !in h
    ensures RemoveAll(h[..8] + "-" + h[8..12] + "-" + h[12..16] + "-" + h[16..20] + "-" + h[20..], "-") == h
  {
    var a, b, c, d, e := h[..8], h[8..12], h[12..16], h[16..20], h[20..];
    NothingToRemove(a, "-");
    NothingToRemove(b, "-");
    NothingToRemove(c, "-");
    NothingToRemove(d, "-");
    NothingToRemove(e, "-");
    HyphenDrops(a, b);
    HyphenDrops(a + "-" + b, c);
    HyphenDrops(a + "-" + b + "-" + c, d);
    HyphenDrops(a + "-" + b + "-" + c + "-" + d, e);
    assert a + b + c + d + e == h;
  }

  lemma HyphenDrops(s: string, t: string)
    ensures RemoveAll(s + "-" + t, "-") == RemoveAll(s, "-") + RemoveAll(t, "-")
  {
    RemoveJoin(s + "-", t);
    RemoveJoin(s, "-");
    assert RemoveAll("-", "-") == "";
  }

  lemma NoBraces(s: string)
    requires '{' !in s && '}' !in s
    ensures StripLeft(s) == s && StripRight(s) == s
  {
    if |s| > 0 { assert s[0] in s && s[|s| - 1] in s; }
  }

  lemma TextCharacters(u: Uuid)
    ensures forall c :: c in UuidText(u) ==> c == '-' || (HexValue(c).Some? && c != 'u')
  {
    assert forall c :: c in UuidText(u) ==> c in Hex(u, 32) || c == '-';
  }

  /** UUID text round trip, for every UUID. */
  lemma UuidRoundTrip(u: Uuid)
    ensures ParseUuid(UuidText(u)) == Some(u)
  {
    TextCharacters(u);
    NothingToRemove(UuidText(u), "urn:");
    NothingToRemove(UuidText(u), "uuid:");
    NoBraces(UuidText(u));
    HyphensDrop(Hex(u, 32));
    UuidIs128Bits();
    HexRoundTrip(u, 32);
  }

  lemma {:induction false} DigitsHaveAValue(s: string)
    requires forall c :: c in s ==> HexValue(c).Some?
    ensures ParseHex(s).Some?
  {
    if |s| > 0 {
      assert s[|s| - 1] in s;
      DigitsHaveAValue(s[..|s| - 1]);
    }
  }

  /** Without hyphens, exactly 32 digits make a UUID: the number they write. */
  lemma BareDigitsAreRead(s: string)
    requires forall c :: c in s ==> HexValue(c).Some?
    ensures ParseUuid(s).Some? <==> |s| == 32
    ensures |s| == 32 ==> ParseHex(s).Some? && ParseUuid(s).value == ParseHex(s).value
  {
    NothingToRemove(s, "urn:");
    NothingToRemove(s, "uuid:");
    NoBraces(s);
    NothingToRemove(s, "-");
    DigitsHaveAValue(s);
  }

  // ---------------------------------------------------------------------------
  // The cursor
  // ---------------------------------------------------------------------------

  predicate Ascii(s: string)
  {
    forall i :: 0 <= i < |s| ==> s[i] < 128 as char
  }

  function Code(c: char): Byte
    requires c < 128 as char
  {
    c as int
  }

  function Bytes(s: string): seq<Byte>
    requires Ascii(s)
  {
    seq(|s|, i requires 0 <= i < |s| => Code(s[i]))
  }

  /** Decoded bytes as text; a byte outside ASCII never belongs to a UUID's text. */
  function Text(b: seq<Byte>): Option<string>
  {
    if forall i :: 0 <= i < |b| ==> b[i] < 128 then Some(seq(|b|, i requires 0 <= i < |b| => b[i] as char)) else None
  }

  lemma TextIsAscii(u: Uuid)
    ensures Ascii(UuidText(u))
  {
    TextCharacters(u);
    var text := UuidText(u);
    forall i | 0 <= i < |text|
      ensures text[i] < 128 as char
    {
      assert text[i] in text;
    }
  }

  lemma TextRoundTrip(s: string)
    requires Ascii(s)
    ensures Text(Bytes(s)) == Some(s)
  {
    var b := Bytes(s);
    assert forall i :: 0 <= i < |b| ==> b[i] < 128;
    assert Text(b).value == s;
  }

  /** `_encode_cursor`. */
  function EncodeCursor(u: Uuid): string
  {
    TextIsAscii(u);
    Encode64(Bytes(UuidText(u)))
  }

  /** `_decode_cursor`: None for anything malformed. */
  function DecodeCursor(cursor: string): Option<Uuid>
  {
    match Decode64(cursor, 0, 0, 0, [])
    case None => None
    case Some(b) =>
      match Text(b)
      case None => None
      case Some(text) => ParseUuid(text)
  }

  /** Decoding an encoded cursor gives the UUID back, for every UUID. */
  lemma CursorRoundTrip(u: Uuid)
    ensures DecodeCursor(EncodeCursor(u)) == Some(u)
  {
    TextIsAscii(u);
    var b := Bytes(UuidText(u));
    Base64RoundTrip(b, 0, []);
    assert [] + b == b;
    TextRoundTrip(UuidText(u));
    UuidRoundTrip(u);
  }

  /** Different rows have different cursors. */
  lemma CursorInjective(u: Uuid, v: Uuid)
    requires EncodeCursor(u) == EncodeCursor(v)
    ensures u == v
  {
    CursorRoundTrip(u);
    CursorRoundTrip(v);
  }
}
