/**
 * The Python string operations the service relies on, over `string` (a sequence of
 * Unicode scalar values): `str.strip()`, `str.replace` of one character, `str.join`,
 * `str.split` on one character, prefix slicing `s[:n]`, `str.rfind`, ASCII `lower()` and
 * `str.encode("latin-1")` with the message of the error it raises.
 */
module PyText {
  import opened Wrappers

  /** Python's `str.isspace()` for one character: the characters `str.strip()` removes. */
  predicate IsSpace(c: char) {
    var n := c as int;
    (9 <= n <= 13) || (28 <= n <= 32) || n == 0x85 || n == 0xA0 || n == 0x1680
    || (0x2000 <= n <= 0x200A) || n == 0x2028 || n == 0x2029 || n == 0x202F
    || n == 0x205F || n == 0x3000
  }

  predicate AllSpace(s: string) {
    forall i :: 0 <= i < |s| ==> IsSpace(s[i])
  }

  /** `s.lstrip()`. */
  function TrimStart(s: string): string {
    if s == [] || !IsSpace(s[0]) then s else TrimStart(s[1..])
  }

  /** `s.rstrip()`. */
  function TrimEnd(s: string): string {
    if s == [] || !IsSpace(s[|s| - 1]) then s else TrimEnd(s[..|s| - 1])
  }

  /** `lstrip` removes a whitespace prefix and leaves a text that does not start with whitespace. */
  lemma {:induction false} TrimStartSpec(s: string)
    ensures |TrimStart(s)| <= |s| && TrimStart(s) == s[|s| - |TrimStart(s)|..]
    ensures AllSpace(s[..|s| - |TrimStart(s)|])
    ensures TrimStart(s) == [] || !IsSpace(TrimStart(s)[0])
  {
    if s != [] && IsSpace(s[0]) {
      TrimStartSpec(s[1..]);
      var k := |s| - |TrimStart(s)|;
      forall i | 0 <= i < k ensures IsSpace(s[..k][i]) {
        if i > 0 { assert s[..k][i] == s[1..][..k - 1][i - 1]; }
      }
    }
  }

  /** `rstrip` removes a whitespace suffix and leaves a text that does not end with whitespace. */
  lemma {:induction false} TrimEndSpec(s: string)
    ensures |TrimEnd(s)| <= |s| && TrimEnd(s) == s[..|TrimEnd(s)|]
    ensures AllSpace(s[|TrimEnd(s)|..])
    ensures TrimEnd(s) == [] || !IsSpace(TrimEnd(s)[|TrimEnd(s)| - 1])
  {
    if s != [] && IsSpace(s[|s| - 1]) {
      TrimEndSpec(s[..|s| - 1]);
      var k := |TrimEnd(s)|;
      forall i | k <= i < |s| ensures IsSpace(s[i]) {
        if i < |s| - 1 { assert s[i] == s[..|s| - 1][k..][i - k]; }
      }
    }
  }

  /** `s` is `r` with only whitespace added on either side. */
  ghost predicate PaddedBy(s: string, r: string) {
    exists i :: 0 <= i <= |s| - |r| && s[i..i + |r|] == r && AllSpace(s[..i]) && AllSpace(s[i + |r|..])
  }

  /** `s.strip()`: empty exactly when `s` is all whitespace, and otherwise starting and
      ending with a non-whitespace character. */
  function Strip(s: string): (r: string)
    ensures r == "" <==> AllSpace(s)
    ensures r != "" ==> !IsSpace(r[0]) && !IsSpace(r[|r| - 1])
  {
    StripSpec(s);
    TrimEnd(TrimStart(s))
  }

  lemma StripSpec(s: string)
    ensures TrimEnd(TrimStart(s)) == "" <==> AllSpace(s)
    ensures TrimEnd(TrimStart(s)) != "" ==>
      !IsSpace(TrimEnd(TrimStart(s))[0]) && !IsSpace(TrimEnd(TrimStart(s))[|TrimEnd(TrimStart(s))| - 1])
  {
    var t := TrimStart(s);
    var r := TrimEnd(t);
    TrimStartSpec(s);
    TrimEndSpec(t);
    var i := |s| - |t|;
    if r == "" {
      forall k | 0 <= k < |s| ensures IsSpace(s[k]) {
        assert s[k] == s[..i][k];
      }
    }
  }

  /** What `strip` removes is whitespace on either side: the result is the middle of `s`. */
  lemma StripPadding(s: string)
    ensures PaddedBy(s, Strip(s))
  {
    var t := TrimStart(s);
    var r := TrimEnd(t);
    TrimStartSpec(s);
    TrimEndSpec(t);
    var i := |s| - |t|;
    assert s[i..i + |r|] == r;
    assert s[i + |r|..] == t[|r|..];
  }

  /** `s.replace(a, b)` for single characters `a` and `b`. */
  function ReplaceChar(s: string, a: char, b: char): (r: string)
    ensures |r| == |s|
    ensures forall i :: 0 <= i < |s| ==> r[i] == if s[i] == a then b else s[i]
  {
    if s == [] then [] else [if s[0] == a then b else s[0]] + ReplaceChar(s[1..], a, b)
  }

  /** `sep.join(parts)`: empty for no parts; otherwise it starts with the first part,
      followed by the separator when more parts come. */
  function Join(sep: string, parts: seq<string>): (r: string)
    ensures parts == [] ==> r == ""
    ensures parts != [] ==> parts[0] <= r
    ensures |parts| > 1 ==> parts[0] + sep <= r
  {
    if |parts| == 0 then ""
    else if |parts| == 1 then parts[0]
    else parts[0] + sep + Join(sep, parts[1..])
  }

  /** `s.split(c)` for one separator character: never empty, and no piece contains `c`. */
  function Split(s: string, c: char): (r: seq<string>)
    ensures |r| > 0
    ensures forall k :: 0 <= k < |r| ==> c !in r[k]
  {
    if s == [] then [""]
    else
      var rest := Split(s[1..], c);
      if s[0] == c then [""] + rest else [[s[0]] + rest[0]] + rest[1..]
  }

  /** Splitting a piece-free text followed by the separator and more text. */
  lemma {:induction false} SplitAfterPiece(a: string, c: char, b: string)
    requires c !in a
    ensures Split(a + [c] + b, c) == [a] + Split(b, c)
  {
    if a == [] {
      assert [c] + b == [c] + b;
      assert ([c] + b)[1..] == b;
    } else {
      assert (a + [c] + b)[1..] == a[1..] + [c] + b;
      SplitAfterPiece(a[1..], c, b);
      assert [a[0]] + a[1..] == a;
    }
  }

  /** Splitting a text without the separator gives the text back alone. */
  lemma {:induction false} SplitNoSeparator(a: string, c: char)
    requires c !in a
    ensures Split(a, c) == [a]
  {
    if a != [] {
      SplitNoSeparator(a[1..], c);
      assert [a[0]] + a[1..] == a;
    }
  }

  /** Round trip: splitting `c.join(parts)` on `c` recovers `parts` when no part contains `c`. */
  lemma {:induction false} SplitJoin(parts: seq<string>, c: char)
    requires |parts| > 0
    requires forall k :: 0 <= k < |parts| ==> c !in parts[k]
    ensures Split(Join([c], parts), c) == parts
  {
    if |parts| == 1 {
      SplitNoSeparator(parts[0], c);
    } else {
      SplitJoin(parts[1..], c);
      SplitAfterPiece(parts[0], c, Join([c], parts[1..]));
      assert [parts[0]] + parts[1..] == parts;
    }
  }

  /** The slice `s[:n]` for `n >= 0`: the first `min(n, len(s))` characters. */
  function Take(s: string, n: nat): (r: string)
    ensures |r| == if |s| <= n then |s| else n
    ensures r == s[..|r|]
  {
    if |s| <= n then s else s[..n]
  }

  /** A shorter slice of the same text is a prefix of a longer one. */
  lemma TakePrefix(s: string, m: nat, n: nat)
    requires m <= n
    ensures Take(s, m) == Take(Take(s, n), m)
    ensures Take(s, m) <= Take(s, n)
  {
  }

  /** `s.rfind(c)`: the index of the last `c` in `s`, or -1 when there is none. */
  function RFind(s: string, c: char): (r: int)
    ensures -1 <= r < |s|
    ensures r >= 0 ==> s[r] == c
    ensures forall k :: r < k < |s| ==> s[k] != c
  {
    if s == [] then -1
    else if s[|s| - 1] == c then |s| - 1
    else RFind(s[..|s| - 1], c)
  }

  function LowerChar(c: char): char {
    if 'A' <= c <= 'Z' then (c as int + 32) as char else c
  }

  /** `s.lower()` restricted to ASCII letters: other characters are kept. */
  function Lower(s: string): (r: string)
    ensures |r| == |s|
    ensures forall i :: 0 <= i < |s| ==> r[i] == LowerChar(s[i])
  {
    if s == [] then [] else [LowerChar(s[0])] + Lower(s[1..])
  }

  /** A character the Latin-1 codec can encode: code points up to U+00FF. */
  predicate Latin1(c: char) {
    c as int < 0x100
  }

  newtype byte = b: int | 0 <= b < 0x100

  /** The `UnicodeEncodeError` of `s.encode("latin-1")`: `start` is the position of the
      first character the codec cannot encode, `end` the end of the run of such characters
      that begins there, `bad` the character at `start`. */
  datatype UnicodeEncodeError = UnicodeEncodeError(start: nat, end: nat, bad: char)

  /** The end of the run of characters outside Latin-1 that starts at position `i`. */
  function WideRunEnd(s: string, i: nat): (j: nat)
    requires i <= |s|
    ensures i <= j <= |s|
    ensures forall k :: i <= k < j ==> !Latin1(s[k])
    ensures j < |s| ==> Latin1(s[j])
    decreases |s| - i
  {
    if i == |s| || Latin1(s[i]) then i else WideRunEnd(s, i + 1)
  }

  /** `s[i:].encode("latin-1")`, with error positions counted in `s`. */
  function EncodeLatin1From(s: string, i: nat): (r: Result<seq<byte>, UnicodeEncodeError>)
    requires i <= |s|
    ensures r.Ok? <==> forall k :: i <= k < |s| ==> Latin1(s[k])
    ensures r.Ok? ==> |r.value| == |s| - i
    ensures r.Ok? ==> forall k :: 0 <= k < |r.value| ==> r.value[k] as int == s[i + k] as int
    ensures r.Err? ==>
      && i <= r.error.start < |s| && !Latin1(s[r.error.start])
      && (forall k :: i <= k < r.error.start ==> Latin1(s[k]))
      && r.error.end == WideRunEnd(s, r.error.start) && r.error.bad == s[r.error.start]
    decreases |s| - i
  {
    if i == |s| then Ok([])
    else if !Latin1(s[i]) then Err(UnicodeEncodeError(i, WideRunEnd(s, i), s[i]))
    else
      match EncodeLatin1From(s, i + 1)
      case Err(e) => Err(e)
      case Ok(rest) => Ok([s[i] as int as byte] + rest)
  }

  /** `s.encode("latin-1")`: one byte per character, each the character's code point; or the
      error at the first character above U+00FF, covering the run of such characters there. */
  function EncodeLatin1(s: string): (r: Result<seq<byte>, UnicodeEncodeError>)
    ensures r.Ok? <==> forall k :: 0 <= k < |s| ==> Latin1(s[k])
    ensures r.Ok? ==> |r.value| == |s| && forall k :: 0 <= k < |s| ==> r.value[k] as int == s[k] as int
    ensures r.Err? ==>
      && r.error.start < r.error.end <= |s| && r.error.bad == s[r.error.start]
      && (forall k :: 0 <= k < r.error.start ==> Latin1(s[k]))
      && (forall k :: r.error.start <= k < r.error.end ==> !Latin1(s[k]))
      && (r.error.end == |s| || Latin1(s[r.error.end]))
  {
    EncodeLatin1From(s, 0)
  }

  /** `b.decode("latin-1")`: every byte is the character with that code point. */
  function DecodeLatin1(b: seq<byte>): (s: string)
    ensures |s| == |b|
    ensures forall k :: 0 <= k < |b| ==> s[k] as int == b[k] as int
  {
    if b == [] then [] else [b[0] as int as char] + DecodeLatin1(b[1..])
  }

  /** Round trip: decoding what the codec encoded gives the text back. */
  lemma Latin1RoundTrip(s: string)
    requires EncodeLatin1(s).Ok?
    ensures DecodeLatin1(EncodeLatin1(s).value) == s
  {
    var d := DecodeLatin1(EncodeLatin1(s).value);
    assert forall k :: 0 <= k < |s| ==> d[k] as int == s[k] as int;
  }

  /** Round trip: every byte string is the encoding of its decoding. */
  lemma Latin1Total(b: seq<byte>)
    ensures EncodeLatin1(DecodeLatin1(b)) == Ok(b)
  {
    var s := DecodeLatin1(b);
    assert forall k :: 0 <= k < |s| ==> Latin1(s[k]);
    var e := EncodeLatin1(s).value;
    forall k | 0 <= k < |b| ensures e[k] == b[k] {
      assert e[k] as int == s[k] as int == b[k] as int;
    }
    assert e == b;
  }

  /** The digit for `d`: '0' to '9', then 'a' to 'f'. */
  function Digit(d: nat): char
    requires d < 16
  {
    if d < 10 then ('0' as int + d) as char else ('a' as int + d - 10) as char
  }

  /** The value of a digit character: '0' to '9' are 0 to 9, 'a' to 'f' are 10 to 15. */
  function DigitValue(c: char): nat {
    if '0' <= c <= '9' then c as int - '0' as int
    else if 'a' <= c <= 'f' then c as int - 'a' as int + 10
    else 0
  }

  /** The number a string of digits writes in the given base, most significant first. */
  function ValueIn(base: nat, s: string): nat {
    if s == [] then 0 else ValueIn(base, s[..|s| - 1]) * base + DigitValue(s[|s| - 1])
  }

  function Pow(base: nat, k: nat): (r: nat)
    ensures base > 0 ==> r > 0
  {
    if k == 0 then 1 else base * Pow(base, k - 1)
  }

  /** `str(n)` for a natural number. */
  function Decimal(n: nat): (r: string)
    ensures r != []
  {
    (if n < 10 then "" else Decimal(n / 10)) + [Digit(n % 10)]
  }

  /** `str(n)` writes `n` in decimal: only the digits '0' to '9', no leading zero, and the
      value read back is `n`. */
  lemma {:induction false} DecimalValue(n: nat)
    ensures forall k :: 0 <= k < |Decimal(n)| ==> '0' <= Decimal(n)[k] <= '9'
    ensures Decimal(n)[0] == '0' ==> n == 0
    ensures ValueIn(10, Decimal(n)) == n
  {
    var r := Decimal(n);
    assert r[..|r| - 1] == if n < 10 then "" else Decimal(n / 10);
    if n >= 10 {
      DecimalValue(n / 10);
      assert r[0] == Decimal(n / 10)[0];
    }
  }

  /** The last `width` hexadecimal digits of `n`, lower-case, as `"%0*x"` writes them. */
  function Hex(n: nat, width: nat): (r: string)
    ensures |r| == width
  {
    if width == 0 then "" else Hex(n / 16, width - 1) + [Digit(n % 16)]
  }

  /** `"%0*x"` writes a number that fits the width in hexadecimal: only '0' to '9' and 'a'
      to 'f', and the value read back is `n`. */
  lemma {:induction false} HexValue(n: nat, width: nat)
    requires n < Pow(16, width)
    ensures forall k :: 0 <= k < width ==> '0' <= Hex(n, width)[k] <= '9' || 'a' <= Hex(n, width)[k] <= 'f'
    ensures ValueIn(16, Hex(n, width)) == n
  {
    if width > 0 {
      var r := Hex(n, width);
      HexValue(n / 16, width - 1);
      assert r[..width - 1] == Hex(n / 16, width - 1);
    }
  }

  /** The escape CPython writes for a character in the message of an encoding error. */
  function Escape(c: char): (r: string)
    ensures |r| >= 4
  {
    var n := c as int;
    if n < 0x100 then "\\x" + Hex(n, 2)
    else if n < 0x10000 then "\\u" + Hex(n, 4)
    else "\\U" + Hex(n, 8)
  }

  /** The escape reads back as the character's code point: a "\\x", "\\u" or "\\U" marker for
      2, 4 or 8 digits, the narrowest width the code point fits, then lower-case hexadecimal. */
  lemma EscapeValue(c: char)
    ensures var n := c as int;
      var w := if n < 0x100 then 2 else if n < 0x10000 then 4 else 8;
      |Escape(c)| == 2 + w && Escape(c)[0] == '\\'
      && Escape(c)[1] == (if w == 2 then 'x' else if w == 4 then 'u' else 'U')
      && (forall k :: 2 <= k < 2 + w ==> '0' <= Escape(c)[k] <= '9' || 'a' <= Escape(c)[k] <= 'f')
      && ValueIn(16, Escape(c)[2..]) == n
  {
    var n := c as int;
    assert Pow(16, 2) == 0x100 by { assert Pow(16, 1) == 16; }
    assert Pow(16, 4) == 0x10000 by { assert Pow(16, 3) == 0x1000; }
    assert Pow(16, 8) == 0x1_0000_0000 by {
      assert Pow(16, 5) == 0x10_0000; assert Pow(16, 6) == 0x100_0000; assert Pow(16, 7) == 0x1000_0000;
    }
    var w := if n < 0x100 then 2 else if n < 0x10000 then 4 else 8;
    HexValue(n, w);
    assert Escape(c)[2..] == Hex(n, w);
  }

  const EncodeHead := "'latin-1' codec can't encode "
  const EncodeTail := ": ordinal not in range(256)"

  /** `str(e)` of the Latin-1 encoding error: the one offending character and its position,
      or the range of positions when the run is longer. */
  function EncodeErrorMessage(e: UnicodeEncodeError): (m: string)
    requires e.start < e.end
    ensures EncodeHead <= m
    ensures |m| > |EncodeHead| + |EncodeTail| && m[|m| - |EncodeTail|..] == EncodeTail
  {
    EncodeHead
    + (if e.end == e.start + 1
       then "character '" + Escape(e.bad) + "' in position " + Decimal(e.start)
       else "characters in position " + Decimal(e.start) + "-" + Decimal(e.end - 1))
    + EncodeTail
  }

  /** The message for one character: its escape, which reads back as its code point, and
      its position in decimal. */
  lemma CharacterMessage(e: UnicodeEncodeError)
    requires e.end == e.start + 1
    ensures EncodeErrorMessage(e)
      == EncodeHead + ("character '" + Escape(e.bad) + "' in position " + Decimal(e.start)) + EncodeTail
    ensures ValueIn(16, Escape(e.bad)[2..]) == e.bad as int && ValueIn(10, Decimal(e.start)) == e.start
  {
    assert ValueIn(10, Decimal(e.start)) == e.start by { DecimalValue(e.start); }
    assert ValueIn(16, Escape(e.bad)[2..]) == e.bad as int by { EscapeValue(e.bad); }
  }

  /** The message for a run of characters: the first and the last position, in decimal. */
  lemma RangeMessage(e: UnicodeEncodeError)
    requires e.end > e.start + 1
    ensures EncodeErrorMessage(e)
      == EncodeHead + ("characters in position " + Decimal(e.start) + "-" + Decimal(e.end - 1)) + EncodeTail
    ensures ValueIn(10, Decimal(e.start)) == e.start && ValueIn(10, Decimal(e.end - 1)) == e.end - 1
  {
    assert ValueIn(10, Decimal(e.start)) == e.start by { DecimalValue(e.start); }
    assert ValueIn(10, Decimal(e.end - 1)) == e.end - 1 by { DecimalValue(e.end - 1); }
  }

  /** For a lone U+0141 at position 21 the message reads "'latin-1' codec can't encode
      character '\u0141' in position 21: ordinal not in range(256)": the character is
      escaped as CPython writes it and the position is in decimal. */
  lemma MessageExample()
    ensures Escape('\U{0141}') == "\\u0141"
    ensures Decimal(21) == "21"
  {
    HexExample();
    assert Decimal(2) == "2";
  }

  lemma HexExample()
    ensures Hex(0x141, 4) == "0141"
  {
    assert Hex(0, 1) == "0";
    assert Hex(1, 2) == "01";
    assert Hex(0x14, 3) == "014";
  }
}
