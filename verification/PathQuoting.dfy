/** How git writes a path into a status report (core.quotePath of the git-config
    manual, by default on): a name with a blank, a quote, a backslash, a control
    character or anything but ASCII is put in quotes and escaped. */
module PathQuoting {
  import opened Utf8

  predicate NeedsEscape(c: char) {
    c < ' ' || c == '"' || c == '\\' || c > '~'
  }

  /** Printed as it is. */
  predicate Bare(name: string) {
    forall i :: 0 <= i < |name| ==> !NeedsEscape(name[i]) && name[i] != ' '
  }

  function Digit(n: nat): char
    requires n < 8
  {
    '0' + n as char
  }

  function Octal(b: Byte): (s: string)
    ensures |s| == 4 && s[0] == '\\'
  {
    ['\\', Digit(b / 8 / 8), Digit(b / 8 % 8), Digit(b % 8)]
  }

  function OctalBytes(bytes: seq<Byte>): (s: string)
    ensures |s| == 4 * |bytes|
  {
    if bytes == [] then "" else Octal(bytes[0]) + OctalBytes(bytes[1..])
  }

  /** The letter of a character that has an escape of its own. */
  function Letter(c: char): (l: char)
    ensures l == ' ' || 'a' <= l <= 'z' || l == '"' || l == '\\'
  {
    if c == '\U{7}' then 'a' else if c == '\U{8}' then 'b' else if c == '\t' then 't'
    else if c == '\n' then 'n' else if c == '\U{B}' then 'v' else if c == '\U{C}' then 'f'
    else if c == '\r' then 'r' else if c == '"' || c == '\\' then c else ' '
  }

  function EscapeChar(c: char): (s: string)
    ensures s != ""
  {
    if !NeedsEscape(c) then [c]
    else if Letter(c) != ' ' then ['\\', Letter(c)]
    else OctalBytes(EncodeChar(c))
  }

  function Escape(name: string): string {
    if name == "" then "" else EscapeChar(name[0]) + Escape(name[1..])
  }

  function PrintName(name: string): string {
    if Bare(name) then name else "\"" + Escape(name) + "\""
  }

  // ---------------------------------------------------------------------------
  // What the printed text is made of
  // ---------------------------------------------------------------------------

  predicate Printable(s: string) {
    forall i :: 0 <= i < |s| ==> ' ' <= s[i] <= '~'
  }

  lemma {:induction false} OctalBytesPrintable(bytes: seq<Byte>)
    ensures Printable(OctalBytes(bytes)) && ' ' !in OctalBytes(bytes)
    ensures '-' !in OctalBytes(bytes) && '>' !in OctalBytes(bytes)
  {
    if bytes != [] {
      OctalBytesPrintable(bytes[1..]);
    }
  }

  /** Escaping brings in no blank and no arrow. */
  lemma EscapeCharPrintable(c: char)
    ensures var e := EscapeChar(c);
            Printable(e) && (e == [c] || (' ' !in e && '-' !in e && '>' !in e && e[0] == '\\'))
  {
    OctalBytesPrintable(EncodeChar(c));
  }

  lemma {:induction false} EscapePrintable(name: string)
    ensures Printable(Escape(name)) && |Escape(name)| >= |name|
  {
    if name != "" {
      EscapeCharPrintable(name[0]);
      EscapePrintable(name[1..]);
    }
  }

  lemma PrintNamePrintable(name: string)
    requires name != ""
    ensures var p := PrintName(name);
            && Printable(p) && p != "" && p[0] != ' ' && p[|p| - 1] != ' '
            && (!Bare(name) ==> |p| >= |name| + 2 && p[|p| - 1] == '"')
  {
    EscapePrintable(name);
  }

  // ---------------------------------------------------------------------------
  // No two names print alike
  // ---------------------------------------------------------------------------

  lemma OctalInjective(a: Byte, b: Byte)
    requires Octal(a) == Octal(b)
    ensures a == b
  {
    assert Octal(a)[1] == Octal(b)[1] && Octal(a)[2] == Octal(b)[2] && Octal(a)[3] == Octal(b)[3];
    var p, q := a / 8, b / 8;
    assert p / 8 == q / 8 && p % 8 == q % 8 && a % 8 == b % 8;
    assert p == q;
  }

  lemma {:induction false} OctalBytesInjective(a: seq<Byte>, b: seq<Byte>)
    requires |a| == |b| && OctalBytes(a) == OctalBytes(b)
    ensures a == b
  {
    if a != [] {
      var s := OctalBytes(a);
      assert s[..4] == Octal(a[0]) == Octal(b[0]);
      assert s[4..] == OctalBytes(a[1..]) == OctalBytes(b[1..]);
      OctalInjective(a[0], b[0]);
      OctalBytesInjective(a[1..], b[1..]);
    }
  }

  lemma LetterInjective(c: char, d: char)
    requires Letter(c) == Letter(d) != ' '
    ensures c == d
  {
  }

  /** The escapes of characters form a prefix code. */
  lemma EscapeCharPrefix(c: char, d: char, r: string, s: string)
    requires EscapeChar(c) + r == EscapeChar(d) + s
    ensures c == d && r == s
  {
    var e, f := EscapeChar(c), EscapeChar(d);
    var t := e + r;
    assert t[0] == e[0] == f[0];
    EscapeCharPrintable(c);
    EscapeCharPrintable(d);
    if NeedsEscape(c) && NeedsEscape(d) {
      assert |e| >= 2 && |f| >= 2;
      assert t[1] == e[1] == f[1];
      if Letter(c) != ' ' {
        SecondChar(d);
        LetterInjective(c, d);
      } else {
        SecondChar(c);
        OctalChars(c, d, r, s);
      }
    }
    assert e == f;
    assert t[|e|..] == r == s;
  }

  lemma SecondChar(c: char)
    requires NeedsEscape(c)
    ensures var e := EscapeChar(c);
            |e| >= 2 && if Letter(c) == ' ' then '0' <= e[1] <= '7' else e[1] == Letter(c)
  {
    if Letter(c) == ' ' {
      assert EscapeChar(c)[..4] == Octal(EncodeChar(c)[0]);
      assert EscapeChar(c)[1] == Octal(EncodeChar(c)[0])[1];
    }
  }

  lemma OctalChars(c: char, d: char, r: string, s: string)
    requires OctalBytes(EncodeChar(c)) + r == EscapeChar(d) + s
    requires NeedsEscape(d) && Letter(d) == ' '
    ensures c == d
  {
    var a, b := EncodeChar(c), EncodeChar(d);
    var t := OctalBytes(a) + r;
    assert t[..4] == Octal(a[0]) == Octal(b[0]);
    OctalInjective(a[0], b[0]);
    EncodeCharShape(c);
    EncodeCharShape(d);
    assert |a| == |b|;
    assert t[..4 * |a|] == OctalBytes(a) == OctalBytes(b);
    OctalBytesInjective(a, b);
  }

  /** The closing quote is found: escaped text holds no bare one. */
  lemma {:induction false} EscapeEnds(a: string, b: string, q: string, r: string)
    requires Escape(a) + q == Escape(b) + r
    requires q != "" && r != "" && q[0] == r[0] == '"'
    ensures a == b && q == r
  {
    QuoteEscaped(a, q);
    QuoteEscaped(b, r);
    if a == "" {
      assert Escape(a) + q == q && Escape(b) + r == r;
    } else {
      EscapeStep(a, q);
      EscapeStep(b, r);
      EscapeCharPrefix(a[0], b[0], Escape(a[1..]) + q, Escape(b[1..]) + r);
      EscapeEnds(a[1..], b[1..], q, r);
    }
  }

  lemma EscapeStep(a: string, q: string)
    requires a != ""
    ensures Escape(a) + q == EscapeChar(a[0]) + (Escape(a[1..]) + q)
  {
  }

  lemma QuoteEscaped(a: string, q: string)
    requires q != "" && q[0] == '"'
    ensures (Escape(a) + q)[0] == '"' <==> a == ""
  {
    if a != "" {
      EscapeCharPrintable(a[0]);
      assert (Escape(a) + q)[0] == EscapeChar(a[0])[0];
    }
  }

  /** Bare names end where the blank is. */
  lemma BarePrefix(a: string, b: string, r: string, s: string)
    requires a + r == b + s && ' ' !in a && ' ' !in b
    requires r == "" || r[0] == ' '
    requires s == "" || s[0] == ' '
    ensures a == b && r == s
  {
    var t := a + r;
    assert |a| < |t| ==> t[|a|] == ' ';
    assert |b| < |t| ==> t[|b|] == ' ';
    assert forall k :: 0 <= k < |a| ==> t[k] == a[k] && a[k] in a;
    assert forall k :: 0 <= k < |b| ==> t[k] == b[k] && b[k] in b;
    assert |a| == |b|;
    assert t[..|a|] == a && t[..|b|] == b;
    assert t[|a|..] == r && t[|b|..] == s;
  }

  lemma Quoted(e: string, r: string)
    ensures var t := "\"" + e + "\"" + r; t[0] == '"' && t[1..] == e + ("\"" + r)
  {
  }

  lemma QuoteMarks(a: string, r: string)
    requires a != ""
    ensures (PrintName(a) + r)[0] == '"' <==> !Bare(a)
    ensures !Bare(a) ==> (PrintName(a) + r)[1..] == Escape(a) + ("\"" + r)
  {
    if Bare(a) {
      assert (PrintName(a) + r)[0] == a[0];
    } else {
      Quoted(Escape(a), r);
    }
  }

  /** A printed name is known from any text it starts that goes on with a blank, if
      at all. */
  lemma PrintNamePrefix(a: string, b: string, r: string, s: string)
    requires PrintName(a) + r == PrintName(b) + s
    requires r == "" || r[0] == ' '
    requires s == "" || s[0] == ' '
    requires a != "" && b != ""
    ensures a == b && r == s
  {
    QuoteMarks(a, r);
    QuoteMarks(b, s);
    if Bare(a) {
      assert PrintName(a) == a && PrintName(b) == b;
      BarePrefix(a, b, r, s);
    } else {
      EscapeEnds(a, b, "\"" + r, "\"" + s);
      assert ("\"" + r)[1..] == r && ("\"" + s)[1..] == s;
    }
  }
}
