/** UTF-8 (section 3 of RFC 3629) as Node's Buffer encodes and decodes it: an
    ill-formed or cut-off sequence decodes to one U+FFFD for its longest valid start. */
module Utf8 {
  type Byte = b: int | 0 <= b < 256

  const REPLACEMENT: char := '\U{FFFD}'

  function EncodeChar(c: char): (bytes: seq<Byte>)
    ensures 1 <= |bytes| <= 4
  {
    var n := c as int;
    var q1 := n / 64;
    var q2 := q1 / 64;
    if n < 0x80 then [n]
    else if n < 0x800 then [0xC0 + q1, 0x80 + n % 64]
    else if n < 0x10000 then [0xE0 + q2, 0x80 + q1 % 64, 0x80 + n % 64]
    else [0xF0 + q2 / 64, 0x80 + q2 % 64, 0x80 + q1 % 64, 0x80 + n % 64]
  }

  /** `Buffer.from(s, 'utf8')`. */
  function Encode(s: string): seq<Byte> {
    if s == "" then [] else EncodeChar(s[0]) + Encode(s[1..])
  }

  /** How many continuation bytes a lead byte announces; -1 for a byte that leads
      no sequence. */
  function Announced(lead: Byte): int {
    if lead < 0x80 then 0
    else if 0xC2 <= lead <= 0xDF then 1
    else if 0xE0 <= lead <= 0xEF then 2
    else if 0xF0 <= lead <= 0xF4 then 3
    else -1
  }

  /** Whether `b` may stand at position `at` after the lead byte: the byte next to
      the lead is narrowed so that overlong forms, surrogates and values past
      U+10FFFF are never well-formed. */
  predicate Continues(lead: Byte, at: nat, b: Byte) {
    if at != 1 then 0x80 <= b <= 0xBF
    else if lead == 0xE0 then 0xA0 <= b <= 0xBF
    else if lead == 0xED then 0x80 <= b <= 0x9F
    else if lead == 0xF0 then 0x90 <= b <= 0xBF
    else if lead == 0xF4 then 0x80 <= b <= 0x8F
    else 0x80 <= b <= 0xBF
  }

  /** Length of the longest valid start of the sequence, counted from `have`. */
  function ValidStart(bytes: seq<Byte>, have: nat): (n: nat)
    requires 1 <= have <= |bytes|
    ensures have <= n <= |bytes|
    ensures forall k :: have <= k < n ==> Continues(bytes[0], k, bytes[k])
    ensures Announced(bytes[0]) + 1 >= have ==> n <= Announced(bytes[0]) + 1
    decreases |bytes| - have
  {
    if have <= Announced(bytes[0]) && have < |bytes| && Continues(bytes[0], have, bytes[have])
    then ValidStart(bytes, have + 1)
    else have
  }

  /** The code point of a complete, well-formed sequence. */
  function Scalar(e: seq<Byte>): (n: int)
    requires e != [] && |e| == Announced(e[0]) + 1
    requires forall k :: 1 <= k < |e| ==> Continues(e[0], k, e[k])
    ensures 0 <= n < 0xD800 || 0xE000 <= n < 0x110000
  {
    var lead: int := e[0];
    if |e| == 1 then lead
    else if |e| == 2 then
      assert Continues(e[0], 1, e[1]);
      (lead - 0xC0) * 64 + Payload(e[1])
    else if |e| == 3 then
      assert Continues(e[0], 1, e[1]) && Continues(e[0], 2, e[2]);
      ((lead - 0xE0) * 64 + Payload(e[1])) * 64 + Payload(e[2])
    else
      assert Continues(e[0], 1, e[1]) && Continues(e[0], 2, e[2]) && Continues(e[0], 3, e[3]);
      (((lead - 0xF0) * 64 + Payload(e[1])) * 64 + Payload(e[2])) * 64 + Payload(e[3])
  }

  function Payload(b: Byte): int { b - 0x80 }

  function DecodeFirst(bytes: seq<Byte>): (r: (char, nat))
    requires bytes != []
    ensures 1 <= r.1 <= |bytes|
  {
    var n := ValidStart(bytes, 1);
    if n == Announced(bytes[0]) + 1 then (Scalar(bytes[..n]) as char, n) else (REPLACEMENT, n)
  }

  /** `buf.toString('utf8')`. */
  function Decode(bytes: seq<Byte>): string {
    if bytes == [] then ""
    else
      var (c, n) := DecodeFirst(bytes);
      [c] + Decode(bytes[n..])
  }

  // ---------------------------------------------------------------------------
  // Whole and cut characters
  // ---------------------------------------------------------------------------

  lemma EncodeCharShape(c: char)
    ensures var e := EncodeChar(c);
            && |e| == Announced(e[0]) + 1
            && (forall k :: 1 <= k < |e| ==> Continues(e[0], k, e[k]))
            && Scalar(e) == c as int
  {
  }

  /** A valid start stops where the bytes end or the announced length is reached. */
  lemma {:induction false} ValidStartReaches(bytes: seq<Byte>, have: nat, n: nat)
    requires 1 <= have <= n <= |bytes| && n <= Announced(bytes[0]) + 1
    requires forall k :: have <= k < n ==> Continues(bytes[0], k, bytes[k])
    requires n == |bytes| || n == Announced(bytes[0]) + 1
    ensures ValidStart(bytes, have) == n
    decreases n - have
  {
    if have < n {
      ValidStartReaches(bytes, have + 1, n);
    }
  }

  lemma DecodeWholeChar(c: char, rest: seq<Byte>)
    ensures Decode(EncodeChar(c) + rest) == [c] + Decode(rest)
  {
    var e := EncodeChar(c);
    var bytes := e + rest;
    EncodeCharShape(c);
    ValidStartReaches(bytes, 1, |e|);
    assert bytes[..|e|] == e && bytes[|e|..] == rest;
  }

  lemma DecodeCutChar(c: char, k: nat)
    requires 0 < k < |EncodeChar(c)|
    ensures Decode(EncodeChar(c)[..k]) == [REPLACEMENT]
  {
    var cut := EncodeChar(c)[..k];
    EncodeCharShape(c);
    ValidStartReaches(cut, 1, k);
    assert cut[k..] == [];
  }

  /** How many characters of `s` are encoded completely within `k` bytes. */
  function CharsWithin(s: string, k: nat): (j: nat)
    ensures j <= |s|
    ensures |Encode(s[..j])| <= k
    ensures j < |s| ==> k < |Encode(s[..j + 1])|
  {
    if s == "" || |EncodeChar(s[0])| > k then
      assert s != "" ==> s[..1][1..] == "" && Encode(s[..1]) == EncodeChar(s[0]) + Encode("");
      0
    else
      var j := CharsWithin(s[1..], k - |EncodeChar(s[0])|);
      assert s[..j + 1][1..] == s[1..][..j];
      assert j + 1 < |s| ==> s[..j + 2][1..] == s[1..][..j + 1];
      j + 1
  }

  /** Decoding the first `k` bytes gives the complete characters, and one U+FFFD
      when the cut falls inside a character. */
  lemma {:induction false} DecodePrefix(s: string, k: nat)
    requires k <= |Encode(s)|
    ensures var j := CharsWithin(s, k);
            Decode(Encode(s)[..k]) == s[..j] + if |Encode(s[..j])| == k then "" else [REPLACEMENT]
  {
    if s != "" {
      var e := EncodeChar(s[0]);
      if |e| > k {
        assert Encode(s)[..k] == e[..k];
        if k > 0 { DecodeCutChar(s[0], k); }
      } else {
        var tail := Encode(s[1..])[..k - |e|];
        assert Encode(s)[..k] == e + tail;
        DecodeWholeChar(s[0], tail);
        DecodePrefix(s[1..], k - |e|);
        WithinTail(s, k);
      }
    }
  }

  lemma WithinTail(s: string, k: nat)
    requires s != "" && |EncodeChar(s[0])| <= k
    ensures var j := CharsWithin(s[1..], k - |EncodeChar(s[0])|);
            && CharsWithin(s, k) == j + 1
            && s[..j + 1] == [s[0]] + s[1..][..j]
            && Encode(s[..j + 1]) == EncodeChar(s[0]) + Encode(s[1..][..j])
  {
    var j := CharsWithin(s[1..], k - |EncodeChar(s[0])|);
    assert s[..j + 1][1..] == s[1..][..j];
  }

  /** Decoding undoes encoding. */
  lemma {:induction false} RoundTrip(s: string)
    ensures Decode(Encode(s)) == s
  {
    if s != "" {
      DecodeWholeChar(s[0], Encode(s[1..]));
      RoundTrip(s[1..]);
    }
  }

  lemma {:induction false} EncodeAppend(a: string, b: string)
    ensures Encode(a + b) == Encode(a) + Encode(b)
  {
    if a == "" {
      assert a + b == b;
    } else {
      assert (a + b)[1..] == a[1..] + b;
      EncodeAppend(a[1..], b);
    }
  }
}
