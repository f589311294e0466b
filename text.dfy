/** The JavaScript string operations the pages rely on, stated over `seq<char>`. */
module Text {

  predicate IsAsciiUpper(c: char) { 'A' <= c <= 'Z' }

  /** `toLowerCase` on one character (ASCII letters only). */
  function LowerChar(c: char): (r: char)
    ensures !IsAsciiUpper(r)
    ensures !IsAsciiUpper(c) ==> r == c
    ensures IsAsciiUpper(c) ==> r as int - c as int == 'a' as int - 'A' as int
  {
    if IsAsciiUpper(c) then (c as int - 'A' as int + 'a' as int) as char else c
  }

  /** `toLowerCase` on a string. */
  function Lower(s: string): (r: string)
    ensures |r| == |s|
    ensures forall i :: 0 <= i < |s| ==> r[i] == LowerChar(s[i])
  {
    seq(|s|, i requires 0 <= i < |s| => LowerChar(s[i]))
  }

  /** `sub` occurs in `s` starting at index `i`. */
  ghost predicate OccursAt(s: string, sub: string, i: int) {
    0 <= i && i + |sub| <= |s| && s[i..i + |sub|] == sub
  }

  /** `s.includes(sub)`: a left-to-right scan for an occurrence. */
  function Includes(s: string, sub: string): (r: bool)
    ensures r <==> exists i :: OccursAt(s, sub, i)
    decreases |s|
  {
    if |sub| > |s| then
      assert forall i :: !OccursAt(s, sub, i);
      false
    else if s[..|sub|] == sub then
      assert OccursAt(s, sub, 0);
      true
    else
      var rest := Includes(s[1..], sub);
      assert rest <==> exists i :: OccursAt(s, sub, i) by {
        forall j | OccursAt(s[1..], sub, j) ensures OccursAt(s, sub, j + 1) {
          assert s[1..][j..j + |sub|] == s[j + 1..j + 1 + |sub|];
        }
        forall i | OccursAt(s, sub, i) ensures OccursAt(s[1..], sub, i - 1) {
          assert i != 0;
          assert s[1..][i - 1..i - 1 + |sub|] == s[i..i + |sub|];
        }
      }
      rest
  }

  /** An empty string contains no non-empty string. */
  lemma EmptyIncludesNothing(sub: string)
    requires sub != []
    ensures !Includes([], sub)
  {
  }

  /** The characters `String.prototype.trim` removes: ECMAScript WhiteSpace and LineTerminator. */
  predicate IsJsWhitespace(c: char) {
    || c == '\t' || c == '\n' || c == '\U{000B}' || c == '\U{000C}' || c == '\r' || c == ' '
    || c == '\U{00A0}' || c == '\U{1680}' || ('\U{2000}' <= c <= '\U{200A}')
    || c == '\U{2028}' || c == '\U{2029}' || c == '\U{202F}' || c == '\U{205F}'
    || c == '\U{3000}' || c == '\U{FEFF}'
  }

  /** Every character of `s` is white space (vacuously so for ""). */
  ghost predicate IsBlank(s: string) {
    forall i :: 0 <= i < |s| ==> IsJsWhitespace(s[i])
  }

  /** Removes leading white space. */
  function TrimStart(s: string): (r: string)
    ensures |r| <= |s|
  {
    if s != [] && IsJsWhitespace(s[0]) then TrimStart(s[1..]) else s
  }

  /** Removes trailing white space. */
  function TrimEnd(s: string): (r: string)
    ensures |r| <= |s|
  {
    if s != [] && IsJsWhitespace(s[|s| - 1]) then TrimEnd(s[..|s| - 1]) else s
  }

  /** `s.trim()`: a middle part of `s` that neither starts nor ends with white space. */
  function Trim(s: string): (r: string)
    ensures |r| <= |s|
    ensures r == [] || (!IsJsWhitespace(r[0]) && !IsJsWhitespace(r[|r| - 1]))
  {
    var t := TrimStart(s);
    TrimStartDropsBlankPrefix(s);
    TrimEndDropsBlankSuffix(t);
    var r := TrimEnd(t);
    assert r != [] ==> r[0] == t[0];
    r
  }

  /** TrimStart drops a blank prefix and stops at the first other character. */
  lemma {:induction false} TrimStartDropsBlankPrefix(s: string)
    ensures var r := TrimStart(s);
            && r == s[|s| - |r|..]
            && IsBlank(s[..|s| - |r|])
            && (r == [] || !IsJsWhitespace(r[0]))
  {
    if s != [] && IsJsWhitespace(s[0]) {
      var r := TrimStart(s[1..]);
      TrimStartDropsBlankPrefix(s[1..]);
      assert s[..|s| - |r|] == [s[0]] + s[1..][..|s| - 1 - |r|];
    }
  }

  /** TrimEnd drops a blank suffix and keeps a string that starts with another character. */
  lemma {:induction false} TrimEndDropsBlankSuffix(s: string)
    ensures var r := TrimEnd(s);
            && r == s[..|r|]
            && IsBlank(s[|r|..])
            && (r == [] || !IsJsWhitespace(r[|r| - 1]))
            && (s != [] && !IsJsWhitespace(s[0]) ==> r != [])
  {
    if s != [] && IsJsWhitespace(s[|s| - 1]) {
      var init := s[..|s| - 1];
      var r := TrimEnd(init);
      TrimEndDropsBlankSuffix(init);
      assert r == s[..|r|] by {
        assert init[..|r|] == s[..|r|];
      }
      assert s[|r|..] == init[|r|..] + [s[|s| - 1]];
      if !IsJsWhitespace(s[0]) {
        assert init != [] && init[0] == s[0];
      }
    }
  }

  /** `!s.trim()` holds, i.e. the trimmed string is empty, exactly when `s` is blank. */
  lemma TrimEmptyIffBlank(s: string)
    ensures Trim(s) == [] <==> IsBlank(s)
  {
    var t := TrimStart(s);
    TrimStartDropsBlankPrefix(s);
    TrimEndDropsBlankSuffix(t);
    if t == [] {
      assert s[..|s|] == s;
    } else {
      assert t[0] == s[|s| - |t|];
    }
  }

  /** `s.trim()` is `s` with a blank prefix and a blank suffix cut off. */
  lemma TrimIsMiddle(s: string)
    ensures exists a :: 0 <= a && a + |Trim(s)| <= |s| && Trim(s) == s[a..a + |Trim(s)|]
                         && IsBlank(s[..a]) && IsBlank(s[a + |Trim(s)|..])
  {
    var t := TrimStart(s);
    TrimStartDropsBlankPrefix(s);
    TrimEndDropsBlankSuffix(t);
    var r := Trim(s);
    var a := |s| - |t|;
    assert r == t[..|r|] && t == s[a..];
    assert s[a..a + |r|] == t[..|r|];
    assert s[a + |r|..] == t[|r|..];
  }

  function Clamp(n: int, len: nat): (r: nat)
    ensures r <= len
    ensures 0 <= n <= len ==> r == n
  {
    if n < 0 then 0 else if n > len then len else n
  }

  /** `s.substring(start, end)`: both indices are clamped to [0, |s|] and swapped if out of order. */
  function JsSubstring(s: string, start: int, end: int): (r: string)
    ensures 0 <= start <= end <= |s| ==> r == s[start..end]
    ensures 0 <= start <= |s| <= end ==> r == s[start..]
    ensures start <= end ==> |r| <= end - start
    ensures end <= start ==> |r| <= start - end
  {
    var a := Clamp(start, |s|);
    var b := Clamp(end, |s|);
    if a <= b then s[a..b] else s[b..a]
  }

  /** The characters `encodeURIComponent` leaves as they are. */
  predicate IsUriUnreserved(c: char) {
    ('A' <= c <= 'Z') || ('a' <= c <= 'z') || ('0' <= c <= '9')
    || c == '-' || c == '_' || c == '.' || c == '!' || c == '~' || c == '*' || c == '\'' || c == '(' || c == ')'
  }

  /** An upper-case hexadecimal digit. */
  function HexDigit(n: nat): (c: char)
    requires n < 16
    ensures IsUriUnreserved(c)
  {
    if n < 10 then ('0' as int + n) as char else ('A' as int + n - 10) as char
  }

  /** The UTF-8 encoding of a Unicode scalar value. */
  function Utf8(cp: nat): (bytes: seq<nat>)
    requires cp <= 0x10FFFF
    ensures 1 <= |bytes| <= 4
    ensures forall i :: 0 <= i < |bytes| ==> bytes[i] < 256
    ensures |bytes| == 1 <==> cp < 0x80
  {
    if cp < 0x80 then [cp]
    else if cp < 0x800 then [0xC0 + cp / 0x40, 0x80 + cp % 0x40]
    else if cp < 0x10000 then [0xE0 + cp / 0x1000, 0x80 + (cp / 0x40) % 0x40, 0x80 + cp % 0x40]
    else [0xF0 + cp / 0x40000, 0x80 + (cp / 0x1000) % 0x40, 0x80 + (cp / 0x40) % 0x40, 0x80 + cp % 0x40]
  }

  /** The `%XY` escape of each byte. */
  function PercentEscapes(bytes: seq<nat>): (r: string)
    requires forall i :: 0 <= i < |bytes| ==> bytes[i] < 256
    ensures |r| == 3 * |bytes|
    ensures forall i :: 0 <= i < |r| ==> IsUriUnreserved(r[i]) || r[i] == '%'
  {
    if bytes == [] then []
    else ['%', HexDigit(bytes[0] / 16), HexDigit(bytes[0] % 16)] + PercentEscapes(bytes[1..])
  }

  /** What `encodeURIComponent` writes for one character: the character itself when unreserved,
      otherwise the `%XY` escapes of its UTF-8 bytes. */
  function Escape(c: char): (r: string)
    ensures 1 <= |r|
    ensures forall i :: 0 <= i < |r| ==> IsUriUnreserved(r[i]) || r[i] == '%'
    ensures IsUriUnreserved(c) ==> r == [c]
  {
    if IsUriUnreserved(c) then [c] else PercentEscapes(Utf8(c as int))
  }

  /** `encodeURIComponent(s)`. */
  function EncodeUriComponent(s: string): (r: string)
    ensures |r| >= |s|
    ensures forall i :: 0 <= i < |r| ==> IsUriUnreserved(r[i]) || r[i] == '%'
    ensures (forall i :: 0 <= i < |s| ==> IsUriUnreserved(s[i])) ==> r == s
  {
    if s == [] then [] else Escape(s[0]) + EncodeUriComponent(s[1..])
  }

  lemma HexDigitInjective(n: nat, m: nat)
    requires n < 16 && m < 16 && HexDigit(n) == HexDigit(m)
    ensures n == m
  {
  }

  /** The number of bytes a UTF-8 sequence has, read off its first byte. */
  function LeadLength(b: nat): nat {
    if b < 0x80 then 1 else if b < 0xE0 then 2 else if b < 0xF0 then 3 else 4
  }

  lemma Utf8LengthFromLead(cp: nat)
    requires cp <= 0x10FFFF
    ensures |Utf8(cp)| == LeadLength(Utf8(cp)[0])
  {
  }

  /** Different code points have different UTF-8 encodings. */
  lemma Utf8Injective(a: nat, b: nat)
    requires a <= 0x10FFFF && b <= 0x10FFFF && Utf8(a) == Utf8(b)
    ensures a == b
  {
    var e := Utf8(a);
    if |e| == 2 {
      assert e[0] == 0xC0 + a / 0x40 == 0xC0 + b / 0x40;
      assert e[1] == 0x80 + a % 0x40 == 0x80 + b % 0x40;
      SixBits(a, b);
    } else if |e| == 3 {
      assert e[0] == 0xE0 + a / 0x1000 == 0xE0 + b / 0x1000;
      assert e[1] == 0x80 + (a / 0x40) % 0x40 == 0x80 + (b / 0x40) % 0x40;
      assert e[2] == 0x80 + a % 0x40 == 0x80 + b % 0x40;
      SixBitsTwice(a, b);
    } else if |e| == 4 {
      assert e[0] == 0xF0 + a / 0x40000 == 0xF0 + b / 0x40000;
      assert e[1] == 0x80 + (a / 0x1000) % 0x40 == 0x80 + (b / 0x1000) % 0x40;
      assert e[2] == 0x80 + (a / 0x40) % 0x40 == 0x80 + (b / 0x40) % 0x40;
      assert e[3] == 0x80 + a % 0x40 == 0x80 + b % 0x40;
      ShiftedDivision(a);
      ShiftedDivision(b);
      SixBits(a / 0x1000, b / 0x1000);
      SixBitsTwice(a, b);
    }
  }

  /** A number is fixed by its quotient and remainder by 64. */
  lemma SixBits(a: nat, b: nat)
    requires a / 0x40 == b / 0x40 && a % 0x40 == b % 0x40
    ensures a == b
  {
  }

  lemma ShiftedDivision(a: nat)
    ensures a / 0x40 / 0x40 == a / 0x1000
    ensures a / 0x40 / 0x40 / 0x40 == a / 0x40000
  {
  }

  /** A number is fixed by its quotient by 4096 and its two lowest six-bit groups. */
  lemma SixBitsTwice(a: nat, b: nat)
    requires a / 0x1000 == b / 0x1000 && (a / 0x40) % 0x40 == (b / 0x40) % 0x40 && a % 0x40 == b % 0x40
    ensures a == b
  {
    ShiftedDivision(a);
    ShiftedDivision(b);
    SixBits(a / 0x40, b / 0x40);
    SixBits(a, b);
  }

  /** The escapes of two byte sequences agree only when the bytes do. */
  lemma {:induction false} PercentEscapesInjective(x: seq<nat>, y: seq<nat>)
    requires forall i :: 0 <= i < |x| ==> x[i] < 256
    requires forall i :: 0 <= i < |y| ==> y[i] < 256
    requires PercentEscapes(x) == PercentEscapes(y)
    ensures x == y
  {
    if x != [] {
      var ex, ey := PercentEscapes(x), PercentEscapes(y);
      assert ex[1] == ey[1] && ex[2] == ey[2];
      HexDigitInjective(x[0] / 16, y[0] / 16);
      HexDigitInjective(x[0] % 16, y[0] % 16);
      assert ex[3..] == ey[3..];
      PercentEscapesInjective(x[1..], y[1..]);
      assert x == [x[0]] + x[1..] && y == [y[0]] + y[1..];
    }
  }

  /** No character's escape is a proper prefix of another's: the first characters of an
      encoding decide which character was escaped. */
  lemma EscapePrefixFree(c: char, d: char, u: string, v: string)
    requires Escape(c) + u == Escape(d) + v
    ensures c == d && u == v
  {
    var ec, ed := Escape(c), Escape(d);
    assert (ec + u)[0] == ec[0] && (ed + v)[0] == ed[0];
    if IsUriUnreserved(c) || IsUriUnreserved(d) {
      assert ec == [c] && ed == [d];
    } else {
      var bc, bd := Utf8(c as int), Utf8(d as int);
      assert (ec + u)[1] == ec[1] && (ed + v)[1] == ed[1];
      assert (ec + u)[2] == ec[2] && (ed + v)[2] == ed[2];
      HexDigitInjective(bc[0] / 16, bd[0] / 16);
      HexDigitInjective(bc[0] % 16, bd[0] % 16);
      Utf8LengthFromLead(c as int);
      Utf8LengthFromLead(d as int);
      assert |ec| == |ed|;
      assert ec == (ec + u)[..|ec|] && ed == (ed + v)[..|ed|];
      PercentEscapesInjective(bc, bd);
      Utf8Injective(c as int, d as int);
    }
    assert u == (ec + u)[|ec|..] && v == (ed + v)[|ed|..];
  }

  /** Different strings are encoded differently, so an encoded title names exactly one article. */
  lemma {:induction false} EncodeUriComponentInjective(s: string, t: string)
    requires EncodeUriComponent(s) == EncodeUriComponent(t)
    ensures s == t
  {
    if s != [] && t != [] {
      EscapePrefixFree(s[0], t[0], EncodeUriComponent(s[1..]), EncodeUriComponent(t[1..]));
      EncodeUriComponentInjective(s[1..], t[1..]);
      assert s == [s[0]] + s[1..] && t == [t[0]] + t[1..];
    }
  }
}
