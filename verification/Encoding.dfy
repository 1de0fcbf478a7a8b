/** Text encodings of byte strings (RFC 4648) and strings.Split. */
module Encoding {
  import opened Prelude

  type byte = x: int | 0 <= x < 256
  type sextet = x: int | 0 <= x < 64

  // ---------- base64url without padding: sections 5 and 3.2 of RFC 4648 ----------

  /** Table 2 of section 5. */
  function Symbol(v: sextet): char
  {
    if v < 26 then ('A' as int + v) as char
    else if v < 52 then ('a' as int + (v - 26)) as char
    else if v < 62 then ('0' as int + (v - 52)) as char
    else if v == 62 then '-'
    else '_'
  }

  function Code(c: char): (v: Option<sextet>)
    ensures v.Some? ==> Symbol(v.value) == c
  {
    if 'A' <= c <= 'Z' then Some(c as int - 'A' as int)
    else if 'a' <= c <= 'z' then Some(c as int - 'a' as int + 26)
    else if '0' <= c <= '9' then Some(c as int - '0' as int + 52)
    else if c == '-' then Some(62)
    else if c == '_' then Some(63)
    else None
  }

  /** Regroups bytes, eight bits each, into sextets, six bits each; the last group is padded with zero bits. */
  function Pack(s: seq<byte>): seq<sextet> {
    if |s| == 0 then []
    else if |s| == 1 then [s[0] / 4, s[0] % 4 * 16]
    else if |s| == 2 then [s[0] / 4, s[0] % 4 * 16 + s[1] / 16, s[1] % 16 * 4]
    else [s[0] / 4, s[0] % 4 * 16 + s[1] / 16, s[1] % 16 * 4 + s[2] / 64, s[2] % 64] + Pack(s[3..])
  }

  function Unpack(c: seq<sextet>): seq<byte> {
    if |c| < 2 then []
    else
      var a: byte := c[0] as int * 4 + c[1] / 16;
      if |c| == 2 then [a]
      else
        var b: byte := c[1] as int % 16 * 16 + c[2] / 4;
        if |c| == 3 then [a, b] else [a, b, c[2] as int % 4 * 64 + c[3]] + Unpack(c[4..])
  }

  function Text(c: seq<sextet>): string {
    if |c| == 0 then "" else [Symbol(c[0])] + Text(c[1..])
  }

  function Read(t: string): seq<sextet> {
    if |t| == 0 then []
    else match Code(t[0])
      case None => []
      case Some(v) => [v] + Read(t[1..])
  }

  function Base64(s: seq<byte>): string {
    Text(Pack(s))
  }

  /** The reader that undoes Base64. The service never decodes a selector; this is the
      left inverse that makes the encoding injective. */
  function UnBase64(t: string): seq<byte> {
    Unpack(Read(t))
  }

  lemma HighBits(a: byte, b: byte)
    ensures (a % 4 * 16 + b / 16) / 16 == a % 4 && (a % 4 * 16 + b / 16) % 16 == b / 16
  {
  }

  lemma LowBits(b: byte, c: byte)
    ensures (b % 16 * 4 + c / 64) / 4 == b % 16 && (b % 16 * 4 + c / 64) % 4 == c / 64
  {
  }

  lemma {:induction false} PackRoundTrip(s: seq<byte>)
    ensures Unpack(Pack(s)) == s
  {
    if |s| == 1 {
      HighBits(s[0], 0);
      assert s == [s[0]];
    } else if |s| == 2 {
      HighBits(s[0], s[1]);
      LowBits(s[1], 0);
      assert s == [s[0], s[1]];
    } else if |s| >= 3 {
      PackRoundTrip(s[3..]);
      HighBits(s[0], s[1]);
      LowBits(s[1], s[2]);
      assert Pack(s)[4..] == Pack(s[3..]);
      assert s == [s[0], s[1], s[2]] + s[3..];
    }
  }

  lemma {:induction false} PackLength(s: seq<byte>)
    ensures |Pack(s)| == (4 * |s| + 2) / 3
  {
    if |s| >= 3 {
      PackLength(s[3..]);
    }
  }

  /** The alphabet: the capital letters, the small letters, the digits, minus and underscore, in this order. */
  lemma AlphabetInOrder(v: sextet)
    ensures Symbol(0) == 'A' && Symbol(25) == 'Z' && Symbol(26) == 'a' && Symbol(51) == 'z'
    ensures Symbol(52) == '0' && Symbol(61) == '9' && Symbol(62) == '-' && Symbol(63) == '_'
    ensures v !in {25, 51, 61, 62, 63} ==> Symbol(v + 1) as int == Symbol(v) as int + 1
  {
  }

  lemma OneByte(a: byte)
    ensures a / 4 * 64 + a % 4 * 16 == a * 16
  {
  }

  lemma TwoBytes(a: byte, b: byte)
    ensures (a / 4 * 64 + (a % 4 * 16 + b / 16)) * 64 + b % 16 * 4 == (a * 256 + b) * 4
  {
    assert a == 4 * (a / 4) + a % 4 && b == 16 * (b / 16) + b % 16;
  }

  lemma ThreeBytes(a: byte, b: byte, c: byte)
    ensures ((a / 4 * 64 + (a % 4 * 16 + b / 16)) * 64 + (b % 16 * 4 + c / 64)) * 64 + c % 64 == (a * 256 + b) * 256 + c
  {
    TwoBytes(a, b);
    assert c == 64 * (c / 64) + c % 64;
  }

  /** The number two, three or four digits in some base denote. */
  function Number2(base: int, a: int, b: int): int {
    a * base + b
  }

  function Number3(base: int, a: int, b: int, c: int): int {
    Number2(base, a, b) * base + c
  }

  lemma PackedFront(s: seq<byte>)
    requires |s| >= 3
    ensures |Pack(s)| == 4 + |Pack(s[3..])| && Pack(s)[4..] == Pack(s[3..])
    ensures Pack(s)[0] as int == s[0] / 4 && Pack(s)[1] as int == s[0] % 4 * 16 + s[1] / 16
    ensures Pack(s)[2] as int == s[1] % 16 * 4 + s[2] / 64 && Pack(s)[3] as int == s[2] % 64
  {
  }

  lemma FirstGroup(s: seq<byte>)
    requires |s| >= 3
    ensures var p := Pack(s);
            |p| >= 4 && Number3(64, p[0], p[1], p[2]) * 64 + p[3] == Number3(256, s[0], s[1], s[2])
  {
    PackedFront(s);
    ThreeBytes(s[0], s[1], s[2]);
  }

  /** Each three bytes and the four sextets written for them denote one 24-bit number. */
  lemma {:induction false} GroupsAreNumbers(s: seq<byte>, k: nat)
    requires 3 * k + 2 < |s|
    ensures var (p, i) := (Pack(s), 4 * k);
            i + 3 < |p| && Number3(64, p[i], p[i + 1], p[i + 2]) * 64 + p[i + 3] == Number3(256, s[3 * k], s[3 * k + 1], s[3 * k + 2])
  {
    PackedFront(s);
    if k == 0 {
      FirstGroup(s);
    } else {
      GroupsAreNumbers(s[3..], k - 1);
    }
  }

  /** A single byte at the end is followed by four zero bits. */
  lemma {:induction false} OneAtTheEnd(s: seq<byte>, k: nat)
    requires |s| == 3 * k + 1
    ensures var p := Pack(s);
            |p| == 4 * k + 2 && Number2(64, p[4 * k], p[4 * k + 1]) == s[3 * k] as int * 16
  {
    if k == 0 {
      OneByte(s[0]);
    } else {
      PackedFront(s);
      OneAtTheEnd(s[3..], k - 1);
    }
  }

  /** Two bytes at the end are followed by two zero bits. */
  lemma {:induction false} TwoAtTheEnd(s: seq<byte>, k: nat)
    requires |s| == 3 * k + 2
    ensures var p := Pack(s);
            |p| == 4 * k + 3 && Number3(64, p[4 * k], p[4 * k + 1], p[4 * k + 2]) == Number2(256, s[3 * k], s[3 * k + 1]) * 4
  {
    if k == 0 {
      TwoBytes(s[0], s[1]);
    } else {
      PackedFront(s);
      TwoAtTheEnd(s[3..], k - 1);
    }
  }

  lemma {:induction false} TextRoundTrip(c: seq<sextet>)
    ensures Read(Text(c)) == c && |Text(c)| == |c|
    ensures forall k :: 0 <= k < |c| ==> Code(Text(c)[k]).Some?
  {
    if |c| > 0 {
      TextRoundTrip(c[1..]);
      assert Text(c)[1..] == Text(c[1..]);
      assert c == [c[0]] + c[1..];
    }
  }

  lemma Base64RoundTrip(s: seq<byte>)
    ensures UnBase64(Base64(s)) == s
    ensures |Base64(s)| == (4 * |s| + 2) / 3
    ensures '.' !in Base64(s) && ':' !in Base64(s)
  {
    PackRoundTrip(s);
    PackLength(s);
    TextRoundTrip(Pack(s));
  }

  /** Distinct byte strings have distinct texts. */
  lemma Base64Injective(a: seq<byte>, b: seq<byte>)
    ensures Base64(a) == Base64(b) <==> a == b
  {
    Base64RoundTrip(a);
    Base64RoundTrip(b);
  }

  // ---------- hexadecimal: section 8 of RFC 4648, written in lower case ----------

  function HexDigit(v: int): char
    requires 0 <= v < 16
  {
    if v < 10 then ('0' as int + v) as char else ('a' as int + (v - 10)) as char
  }

  /** Both cases are read, as hex.DecodeString does. */
  function HexValue(c: char): (v: Option<int>)
    ensures v.Some? ==> 0 <= v.value < 16
  {
    if '0' <= c <= '9' then Some(c as int - '0' as int)
    else if 'a' <= c <= 'f' then Some(c as int - 'a' as int + 10)
    else if 'A' <= c <= 'F' then Some(c as int - 'A' as int + 10)
    else None
  }

  function Hex(s: seq<byte>): string {
    if |s| == 0 then "" else [HexDigit(s[0] / 16), HexDigit(s[0] % 16)] + Hex(s[1..])
  }

  function UnHex(t: string): Option<seq<byte>> {
    if |t| == 0 then Some([])
    else if |t| == 1 || HexValue(t[0]).None? || HexValue(t[1]).None? then None
    else
      var b: byte := HexValue(t[0]).value * 16 + HexValue(t[1]).value;
      match UnHex(t[2..])
      case None => None
      case Some(rest) => Some([b] + rest)
  }

  lemma {:induction false} HexRoundTrip(s: seq<byte>)
    ensures UnHex(Hex(s)) == Some(s) && |Hex(s)| == 2 * |s|
  {
    if |s| > 0 {
      HexRoundTrip(s[1..]);
      assert Hex(s)[2..] == Hex(s[1..]);
      assert s == [s[0]] + s[1..];
    }
  }

  const HEX_ALPHABET: string := "0123456789abcdef"

  /** The text of each byte is its two digits, the high one first, in lower case. */
  lemma {:induction false} HexAt(s: seq<byte>, k: nat)
    requires k < |s|
    ensures |Hex(s)| == 2 * |s|
    ensures Hex(s)[2 * k] == HEX_ALPHABET[s[k] / 16] && Hex(s)[2 * k + 1] == HEX_ALPHABET[s[k] % 16]
  {
    HexRoundTrip(s);
    if k > 0 {
      HexAt(s[1..], k - 1);
      assert Hex(s)[2..] == Hex(s[1..]);
    }
  }

  /** hex.DecodeString fails on exactly the odd lengths and the foreign characters. */
  lemma {:induction false} UnHexDomain(t: string)
    ensures UnHex(t).Some? <==> |t| % 2 == 0 && forall k :: 0 <= k < |t| ==> HexValue(t[k]).Some?
  {
    if |t| >= 2 {
      UnHexDomain(t[2..]);
      assert forall k :: 2 <= k < |t| ==> t[k] == t[2..][k - 2];
      assert forall k :: 0 <= k < |t[2..]| ==> t[2..][k] == t[k + 2];
    }
  }

  // ---------- strings.Split on one separator character ----------

  function Split(s: string, sep: char): (parts: seq<string>)
    ensures |parts| > 0
  {
    if s == "" then [""]
    else
      var rest := Split(s[1..], sep);
      if s[0] == sep then [""] + rest else [[s[0]] + rest[0]] + rest[1..]
  }

  function Join(parts: seq<string>, sep: char): string {
    if |parts| == 0 then "" else if |parts| == 1 then parts[0]
    else parts[0] + [sep] + Join(parts[1..], sep)
  }

  lemma {:induction false} PartsHaveNoSeparator(s: string, sep: char)
    ensures forall k :: 0 <= k < |Split(s, sep)| ==> sep !in Split(s, sep)[k]
  {
    if s != "" {
      PartsHaveNoSeparator(s[1..], sep);
    }
  }

  lemma JoinFront(parts: seq<string>, c: char, sep: char)
    requires |parts| > 0
    ensures Join([""] + parts, sep) == [sep] + Join(parts, sep)
    ensures Join([[c] + parts[0]] + parts[1..], sep) == [c] + Join(parts, sep)
  {
    assert ([""] + parts)[1..] == parts;
    assert ([[c] + parts[0]] + parts[1..])[1..] == parts[1..];
  }

  lemma {:induction false} PartsMakeWhole(s: string, sep: char)
    ensures Join(Split(s, sep), sep) == s
  {
    if s != "" {
      PartsMakeWhole(s[1..], sep);
      JoinFront(Split(s[1..], sep), s[0], sep);
      assert s == [s[0]] + s[1..];
    }
  }

  /** Split cuts at every separator and loses nothing. */
  lemma SplitParts(s: string, sep: char)
    ensures forall k :: 0 <= k < |Split(s, sep)| ==> sep !in Split(s, sep)[k]
    ensures Join(Split(s, sep), sep) == s
  {
    PartsHaveNoSeparator(s, sep);
    PartsMakeWhole(s, sep);
  }

  lemma {:induction false} SplitWhole(a: string, sep: char)
    requires sep !in a
    ensures Split(a, sep) == [a]
  {
    if a != "" {
      SplitWhole(a[1..], sep);
      assert a == [a[0]] + a[1..];
    }
  }

  lemma {:induction false} SplitAfter(a: string, b: string, sep: char)
    requires sep !in a
    ensures Split(a + [sep] + b, sep) == [a] + Split(b, sep)
  {
    var s := a + [sep] + b;
    if a == "" {
      assert s[1..] == b;
    } else {
      assert s[1..] == a[1..] + [sep] + b;
      SplitAfter(a[1..], b, sep);
      assert a == [a[0]] + a[1..];
    }
  }

  /** A text splits in two exactly when it holds one separator, and then the parts
      are the texts on its two sides. */
  lemma SplitInTwo(s: string, a: string, b: string, sep: char)
    ensures Split(s, sep) == [a, b] <==> s == a + [sep] + b && sep !in a && sep !in b
  {
    if Split(s, sep) == [a, b] {
      SplitParts(s, sep);
      assert Split(s, sep)[0] == a && Split(s, sep)[1] == b;
      assert Split(s, sep)[1..] == [b];
    }
    if s == a + [sep] + b && sep !in a && sep !in b {
      SplitAfter(a, b, sep);
      SplitWhole(b, sep);
    }
  }

  function Occurrences(s: string, c: char): nat {
    if s == "" then 0 else (if s[0] == c then 1 else 0) + Occurrences(s[1..], c)
  }

  /** There is one part more than there are separators. */
  lemma {:induction false} SplitCount(s: string, sep: char)
    ensures |Split(s, sep)| == Occurrences(s, sep) + 1
  {
    if s != "" {
      SplitCount(s[1..], sep);
    }
  }

  // ---------- digests ----------

  /** No two of these texts have the same digest. A digest of fixed length has collisions among
      all texts, so this is only ever said of the finitely many texts at hand. */
  ghost predicate CollisionFree(digest: string -> seq<byte>, texts: set<string>) {
    forall x, y :: x in texts && y in texts && digest(x) == digest(y) ==> x == y
  }
}
