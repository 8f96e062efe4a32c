/** Text utilities behind operator tokens: separator escaping, splitting and joining, decimal and
hexadecimal numerals.  A string is a sequence of Unicode scalar values. */
module Text {
  import opened Wrappers

  // ---- whole-string replacement ----

  /** Replace every occurrence of one character by a piece of text. */
  function ReplaceChar(s: string, c: char, repl: string): string {
    if s == [] then [] else (if s[0] == c then repl else [s[0]]) + ReplaceChar(s[1..], c, repl)
  }

  /** Replace every non-overlapping occurrence of `code`, scanning from the left, by one character. */
  function ReplaceCode(s: string, code: string, repl: char): string
    requires |code| == 3
  {
    if s == [] then []
    else if code <= s then [repl] + ReplaceCode(s[3..], code, repl)
    else [s[0]] + ReplaceCode(s[1..], code, repl)
  }

  function Escape(s: string): string {
    ReplaceChar(ReplaceChar(ReplaceChar(ReplaceChar(s, '%', "%25"), ';', "%3B"), '=', "%3D"), '|', "%7C")
  }

  function Unescape(s: string): string {
    ReplaceCode(ReplaceCode(ReplaceCode(ReplaceCode(s, "%7C", '|'), "%3D", '='), "%3B", ';'), "%25", '%')
  }

  ghost predicate IsCode(code: string) {
    |code| == 3 && code[0] == '%' && code[1] != '%' && code[2] != '%'
  }

  /** Every percent sign opens one of the given codes. */
  ghost predicate EscapedBy(s: string, codes: set<string>) {
    if s == [] then true
    else if s[0] == '%' then |s| >= 3 && IsCode(s[..3]) && s[..3] in codes && EscapedBy(s[3..], codes)
    else EscapedBy(s[1..], codes)
  }

  /** The code appears somewhere in the text. */
  ghost predicate Occurs(s: string, code: string) {
    s != [] && (code <= s || Occurs(s[1..], code))
  }

  lemma {:induction false} PercentEscaped(s: string)
    ensures EscapedBy(ReplaceChar(s, '%', "%25"), {"%25"})
  {
    if s != [] {
      PercentEscaped(s[1..]);
      var t := ReplaceChar(s[1..], '%', "%25");
      var r := ReplaceChar(s, '%', "%25");
      if s[0] == '%' {
        assert r == "%25" + t && r[..3] == "%25" && r[3..] == t;
      } else {
        assert r == [s[0]] + t && r[1..] == t;
      }
    }
  }

  /** Escaping one more separator keeps every percent sign at the head of a code. */
  lemma {:induction false} StaysEscaped(s: string, codes: set<string>, c: char, code: string)
    requires EscapedBy(s, codes)
    requires IsCode(code) && c != '%'
    requires forall q, i :: q in codes && 0 <= i < |q| ==> q[i] != c
    ensures EscapedBy(ReplaceChar(s, c, code), codes + {code})
  {
    if s == [] {
    } else if s[0] == '%' {
      var rest := ReplaceChar(s[3..], c, code);
      assert s[..3][0] != c && s[..3][1] != c && s[..3][2] != c;
      assert s[0] == s[..3][0] && s[1] == s[..3][1] && s[2] == s[..3][2];
      assert s[1..][1..] == s[2..] && s[2..][1..] == s[3..];
      assert ReplaceChar(s[2..], c, code) == [s[2]] + rest;
      assert ReplaceChar(s[1..], c, code) == [s[1]] + ([s[2]] + rest);
      assert ReplaceChar(s, c, code) == [s[0]] + ([s[1]] + ([s[2]] + rest));
      assert ReplaceChar(s, c, code)[..3] == s[..3] && ReplaceChar(s, c, code)[3..] == rest;
      StaysEscaped(s[3..], codes, c, code);
    } else {
      StaysEscaped(s[1..], codes, c, code);
      var t := ReplaceChar(s[1..], c, code);
      var r := ReplaceChar(s, c, code);
      if s[0] == c {
        assert r[..3] == code && r[3..] == t;
      } else {
        assert r[1..] == t;
      }
    }
  }

  lemma {:induction false} UnusedCodeAbsent(s: string, codes: set<string>, code: string)
    requires EscapedBy(s, codes) && IsCode(code) && code !in codes
    ensures !Occurs(s, code)
  {
    if s == [] {
    } else if s[0] == '%' {
      assert s[1] == s[..3][1] && s[2] == s[..3][2];
      assert s[1..][1..] == s[2..] && s[2..][1..] == s[3..];
      UnusedCodeAbsent(s[3..], codes, code);
      assert s[..3] != code;
      assert !(code <= s[1..]) && !(code <= s[2..]);
      assert !Occurs(s[2..], code);
      assert !Occurs(s[1..], code);
    } else {
      UnusedCodeAbsent(s[1..], codes, code);
    }
  }

  /** Replacement does not make a code appear at the front: what follows a percent sign that was
      already there is not the start of an inserted code. */
  lemma NoNewCode(s: string, c: char, code: string)
    requires IsCode(code) && s != [] && s[0] != c && !(code <= s)
    ensures !(code <= ReplaceChar(s, c, code))
  {
    var t := ReplaceChar(s[1..], c, code);
    assert ReplaceChar(s, c, code) == [s[0]] + t;
    if |s| >= 2 {
      assert s[1..][1..] == s[2..];
      var u := ReplaceChar(s[2..], c, code);
      assert t == (if s[1] == c then code else [s[1]]) + u;
      if |s| >= 3 {
        assert u[0] == (if s[2] == c then '%' else s[2]);
        assert s[0] != code[0] || s[1] != code[1] || s[2] != code[2];
      } else {
        assert u == [];
      }
    }
  }

  /** Replacing a character by a code and back restores the text, if the code did not occur. */
  lemma {:induction false} ReplaceUndone(s: string, c: char, code: string)
    requires IsCode(code)
    requires c == '%' || !Occurs(s, code)
    ensures ReplaceCode(ReplaceChar(s, c, code), code, c) == s
  {
    if s != [] {
      ReplaceUndone(s[1..], c, code);
      var t := ReplaceChar(s[1..], c, code);
      var r := ReplaceChar(s, c, code);
      if s[0] == c {
        assert r == code + t && r[3..] == t;
      } else {
        assert r == [s[0]] + t && r[1..] == t;
        NoNewCode(s, c, code);
      }
    }
  }

  /** Unescaping undoes escaping on every string. */
  lemma EscapeRoundTrip(s: string)
    ensures Unescape(Escape(s)) == s
  {
    var s1 := ReplaceChar(s, '%', "%25");
    var s2 := ReplaceChar(s1, ';', "%3B");
    var s3 := ReplaceChar(s2, '=', "%3D");
    PercentEscaped(s);
    StaysEscaped(s1, {"%25"}, ';', "%3B");
    StaysEscaped(s2, {"%25"} + {"%3B"}, '=', "%3D");
    UnusedCodeAbsent(s3, {"%25"} + {"%3B"} + {"%3D"}, "%7C");
    UnusedCodeAbsent(s2, {"%25"} + {"%3B"}, "%3D");
    UnusedCodeAbsent(s1, {"%25"}, "%3B");
    ReplaceUndone(s3, '|', "%7C");
    ReplaceUndone(s2, '=', "%3D");
    ReplaceUndone(s1, ';', "%3B");
    ReplaceUndone(s, '%', "%25");
  }

  lemma {:induction false} ReplaceRemoves(s: string, c: char, repl: string, d: char)
    requires d !in repl
    requires d == c || d !in s
    ensures d !in ReplaceChar(s, c, repl)
  {
    if s != [] {
      ReplaceRemoves(s[1..], c, repl, d);
    }
  }

  /** Escaped text contains no separator. */
  lemma EscapeClean(s: string)
    ensures ';' !in Escape(s) && '=' !in Escape(s) && '|' !in Escape(s)
  {
    var s1 := ReplaceChar(s, '%', "%25");
    var s2 := ReplaceChar(s1, ';', "%3B");
    var s3 := ReplaceChar(s2, '=', "%3D");
    ReplaceRemoves(s1, ';', "%3B", ';');
    ReplaceRemoves(s2, '=', "%3D", ';');
    ReplaceRemoves(s3, '|', "%7C", ';');
    ReplaceRemoves(s2, '=', "%3D", '=');
    ReplaceRemoves(s3, '|', "%7C", '=');
    ReplaceRemoves(s3, '|', "%7C", '|');
  }

  lemma {:induction false} ReplaceAbsent(s: string, c: char, repl: string)
    requires c !in s
    ensures ReplaceChar(s, c, repl) == s
  {
    if s != [] {
      ReplaceAbsent(s[1..], c, repl);
    }
  }

  /** Text without separators is its own escape. */
  /** Text without characters to escape. */
  predicate PlainText(s: string) {
    '%' !in s && ';' !in s && '=' !in s && '|' !in s
  }

  lemma EscapePlain(s: string)
    requires PlainText(s)
    ensures Escape(s) == s
  {
    ReplaceAbsent(s, '%', "%25");
    ReplaceAbsent(s, ';', "%3B");
    ReplaceAbsent(s, '=', "%3D");
    ReplaceAbsent(s, '|', "%7C");
  }

  // ---- splitting ----

  /** The position of the first `c`, or the length if there is none. */
  function FirstIndex(s: string, c: char): (i: nat)
    ensures i <= |s| && c !in s[..i]
    ensures i < |s| ==> s[i] == c
    ensures i == |s| <==> c !in s
  {
    if s == [] then 0 else if s[0] == c then 0 else
      var i := FirstIndex(s[1..], c) + 1;
      assert s[..i] == [s[0]] + s[1..][..i - 1];
      assert s == [s[0]] + s[1..];
      i
  }

  function Split(s: string, c: char): (parts: seq<string>)
    ensures parts != []
  {
    var i := FirstIndex(s, c);
    if i == |s| then [s] else [s[..i]] + Split(s[i + 1..], c)
  }

  /** At most `n` parts; the last one keeps any further separators. */
  function SplitN(s: string, n: nat, c: char): (parts: seq<string>)
    requires n >= 1
    ensures 1 <= |parts| <= n
    decreases n
  {
    var i := FirstIndex(s, c);
    if n == 1 || i == |s| then [s] else [s[..i]] + SplitN(s[i + 1..], n - 1, c)
  }

  function SplitOnce(s: string, c: char): Option<(string, string)> {
    var i := FirstIndex(s, c);
    if i == |s| then None else Some((s[..i], s[i + 1..]))
  }

  function Join(parts: seq<string>, c: char): string {
    if parts == [] then [] else if |parts| == 1 then parts[0] else parts[0] + [c] + Join(parts[1..], c)
  }

  lemma {:induction false} JoinSnoc(parts: seq<string>, last: string, c: char)
    requires parts != []
    ensures Join(parts + [last], c) == Join(parts, c) + [c] + last
  {
    var more := parts + [last];
    if |parts| == 1 {
      assert more[1..] == [last];
    } else {
      assert more[1..] == parts[1..] + [last];
      JoinSnoc(parts[1..], last, c);
      assert parts[0] + [c] + (Join(parts[1..], c) + [c] + last) == parts[0] + [c] + Join(parts[1..], c) + [c] + last;
    }
  }

  lemma FirstSeparator(a: string, c: char, b: string)
    requires c !in a
    ensures FirstIndex(a + [c] + b, c) == |a|
  {
    var s := a + [c] + b;
    var i := FirstIndex(s, c);
    assert s[|a|] == c;
    assert forall j :: 0 <= j < |a| ==> s[j] == a[j];
    assert forall j :: 0 <= j < i ==> s[..i][j] == s[j];
  }

  lemma {:induction false} SplitJoin(parts: seq<string>, c: char)
    requires parts != []
    requires forall i :: 0 <= i < |parts| ==> c !in parts[i]
    ensures Split(Join(parts, c), c) == parts
  {
    var s := Join(parts, c);
    if |parts| == 1 {
      assert FirstIndex(s, c) == |s|;
    } else {
      var rest := Join(parts[1..], c);
      FirstSeparator(parts[0], c, rest);
      assert s[..|parts[0]|] == parts[0] && s[|parts[0]| + 1..] == rest;
      SplitJoin(parts[1..], c);
      assert parts == [parts[0]] + parts[1..];
    }
  }

  lemma SplitFirst(first: string, c: char, rest: string)
    requires c !in first
    ensures Split(first + [c] + rest, c) == [first] + Split(rest, c)
  {
    FirstSeparator(first, c, rest);
    assert (first + [c] + rest)[..|first|] == first && (first + [c] + rest)[|first| + 1..] == rest;
  }

  lemma RegroupTail(p: string, q: string, r: string, s: string, t: string)
    ensures p + q + r + s + t == p + q + (r + s + t)
  {
  }

  lemma {:induction false} SplitCount(a: string, c: char, b: string)
    ensures |Split(a + [c] + b, c)| == |Split(a, c)| + |Split(b, c)|
    decreases |a|
  {
    var i := FirstIndex(a, c);
    if i == |a| {
      SplitFirst(a, c, b);
    } else {
      var first, rest := a[..i], a[i + 1..];
      assert a == first + [c] + rest;
      RegroupTail(first, [c], rest, [c], b);
      SplitFirst(first, c, rest);
      SplitFirst(first, c, rest + [c] + b);
      SplitCount(rest, c, b);
    }
  }

  /** Joining never makes fewer parts, and makes no more only if no part contains the separator. */
  lemma {:induction false} JoinCount(parts: seq<string>, c: char)
    requires parts != []
    ensures |Split(Join(parts, c), c)| >= |parts|
    ensures |Split(Join(parts, c), c)| == |parts| ==> forall i :: 0 <= i < |parts| ==> c !in parts[i]
  {
    if |parts| == 1 {
      assert FirstIndex(parts[0], c) == |parts[0]| <==> c !in parts[0];
    } else {
      SplitCount(parts[0], c, Join(parts[1..], c));
      JoinCount(parts[1..], c);
      assert forall i :: 0 < i < |parts| ==> parts[i] == parts[1..][i - 1];
    }
  }

  /** Splitting into at most `n` parts is plain splitting when there are no more than `n`. */
  lemma {:induction false} SplitNSplit(s: string, n: nat, c: char)
    requires |Split(s, c)| <= n
    ensures SplitN(s, n, c) == Split(s, c)
    decreases n
  {
    var i := FirstIndex(s, c);
    if i < |s| {
      SplitNSplit(s[i + 1..], n - 1, c);
    }
  }

  lemma SplitOnceJoined(a: string, c: char, b: string)
    requires c !in a
    ensures SplitOnce(a + [c] + b, c) == Some((a, b))
  {
    FirstSeparator(a, c, b);
    assert (a + [c] + b)[..|a|] == a && (a + [c] + b)[|a| + 1..] == b;
  }

  // ---- numerals ----

  function ToDigit(c: char, radix: nat): Option<nat> {
    if '0' <= c <= '9' && (c - '0') as nat < radix then Some((c - '0') as nat)
    else if 'a' <= c <= 'z' && (c - 'a') as nat + 10 < radix then Some((c - 'a') as nat + 10)
    else if 'A' <= c <= 'Z' && (c - 'A') as nat + 10 < radix then Some((c - 'A') as nat + 10)
    else None
  }

  /** The value of a nonempty run of digits, most significant first. */
  function ParseDigits(s: string, radix: nat): Option<nat> {
    if s == [] then None
    else match ToDigit(s[|s| - 1], radix)
      case None => None
      case Some(d) =>
        if |s| == 1 then Some(d)
        else match ParseDigits(s[..|s| - 1], radix)
          case None => None
          case Some(v) => Some(v * radix + d)
  }

  function DigitChar(d: nat): (c: char)
    requires d < 16
  {
    if d < 10 then '0' + d as char else 'a' + (d - 10) as char
  }

  function PrintNat(n: nat): (s: string)
    ensures s != []
  {
    if n < 10 then [DigitChar(n)] else PrintNat(n / 10) + [DigitChar(n % 10)]
  }

  /** Fixed-width lower-case hexadecimal. */
  function PrintHex(n: nat, width: nat): (s: string)
    ensures |s| == width
  {
    if width == 0 then [] else PrintHex(n / 16, width - 1) + [DigitChar(n % 16)]
  }

  function PrintInt(i: int): string {
    if i < 0 then "-" + PrintNat(-i) else PrintNat(i)
  }

  /** Signed parsing: an optional sign, then digits; the value must lie in `[lo, hi)`. */
  function ParseSigned(s: string, lo: int, hi: int): Option<int> {
    if s == [] then None
    else
      var negative := s[0] == '-';
      var digits := if s[0] == '-' || s[0] == '+' then s[1..] else s;
      match ParseDigits(digits, 10)
      case None => None
      case Some(v) => var i: int := if negative then 0 - v else v; if lo <= i < hi then Some(i) else None
  }

  /** Unsigned hexadecimal parsing: an optional plus sign, then digits; the value must be below `hi`. */
  function ParseHex(s: string, hi: nat): Option<nat> {
    if s == [] then None
    else
      var digits := if s[0] == '+' then s[1..] else s;
      match ParseDigits(digits, 16)
      case None => None
      case Some(v) => if v < hi then Some(v) else None
  }

  predicate IsAlnum(c: char) {
    '0' <= c <= '9' || 'a' <= c <= 'f'
  }

  lemma {:induction false} PrintNatRoundTrip(n: nat)
    ensures ParseDigits(PrintNat(n), 10) == Some(n)
    ensures forall i :: 0 <= i < |PrintNat(n)| ==> IsAlnum(PrintNat(n)[i])
  {
    if n >= 10 {
      PrintNatRoundTrip(n / 10);
      var s := PrintNat(n);
      assert s[..|s| - 1] == PrintNat(n / 10);
    }
  }

  lemma PrintIntRoundTrip(i: int, lo: int, hi: int)
    requires lo <= i < hi
    ensures ParseSigned(PrintInt(i), lo, hi) == Some(i)
    ensures forall k :: 0 <= k < |PrintInt(i)| ==> IsAlnum(PrintInt(i)[k]) || PrintInt(i)[k] == '-'
  {
    var n := if i < 0 then -i else i;
    PrintNatRoundTrip(n);
    var s := PrintInt(i);
    if i < 0 {
      assert s[1..] == PrintNat(n);
    } else {
      assert IsAlnum(s[0]);
    }
  }

  function Pow16(k: nat): nat {
    if k == 0 then 1 else 16 * Pow16(k - 1)
  }

  lemma {:induction false} PrintHexRoundTrip(n: nat, width: nat)
    requires width >= 1 && n < Pow16(width)
    ensures ParseDigits(PrintHex(n, width), 16) == Some(n)
    ensures forall i :: 0 <= i < width ==> IsAlnum(PrintHex(n, width)[i])
  {
    var s := PrintHex(n, width);
    assert s[..width - 1] == PrintHex(n / 16, width - 1);
    if width > 1 {
      PrintHexRoundTrip(n / 16, width - 1);
    }
  }

  lemma Pow16Of16()
    ensures Pow16(16) == 0x1_0000_0000_0000_0000
  {
    assert Pow16(4) == 0x1_0000;
    assert Pow16(8) == 0x1_0000_0000;
    assert Pow16(12) == 0x1_0000_0000_0000;
  }

  lemma PrintHex64RoundTrip(n: nat)
    requires n < 0x1_0000_0000_0000_0000
    ensures ParseHex(PrintHex(n, 16), 0x1_0000_0000_0000_0000) == Some(n)
    ensures forall i :: 0 <= i < 16 ==> IsAlnum(PrintHex(n, 16)[i])
  {
    Pow16Of16();
    PrintHexRoundTrip(n, 16);
    assert IsAlnum(PrintHex(n, 16)[0]);
  }
}
