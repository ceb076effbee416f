/** The few pieces of Python's string and path behaviour that the updater
    relies on: `str.strip`, `str.isspace`, left/right padding in format
    specifications, `str(int)`, and POSIX `os.path.join` / `os.path.basename`. */
module Text {

  /** Python's `str.isspace` for a single character: the ASCII whitespace
      characters, the information separators U+001C..U+001F, and the Unicode
      space and line/paragraph separators. */
  predicate IsSpace(c: char) {
    || ('\t' <= c <= '\r')
    || ('\U{1C}' <= c <= '\U{1F}')
    || c == ' '
    || c == '\U{85}'
    || c == '\U{A0}'
    || c == '\U{1680}'
    || ('\U{2000}' <= c <= '\U{200A}')
    || c == '\U{2028}'
    || c == '\U{2029}'
    || c == '\U{202F}'
    || c == '\U{205F}'
    || c == '\U{3000}'
  }

  /** Every character of `s` is whitespace (vacuously true of ""). */
  predicate Blank(s: string) {
    forall i :: 0 <= i < |s| ==> IsSpace(s[i])
  }

  /** `s.lstrip()`: the longest suffix of `s` that does not start with whitespace. */
  function TrimLeft(s: string): (r: string)
    ensures |r| <= |s| && r == s[|s| - |r|..]
    ensures Blank(s[..|s| - |r|])
    ensures r == [] || !IsSpace(r[0])
  {
    if s != [] && IsSpace(s[0]) then
      var r := TrimLeft(s[1..]);
      assert s[..|s| - |r|] == [s[0]] + s[1..][..|s| - 1 - |r|];
      r
    else s
  }

  /** `s.rstrip()`: the longest prefix of `s` that does not end with whitespace. */
  function TrimRight(s: string): (r: string)
    ensures |r| <= |s| && r == s[..|r|]
    ensures Blank(s[|r|..])
    ensures r == [] || !IsSpace(r[|r| - 1])
  {
    if s != [] && IsSpace(s[|s| - 1]) then
      var r := TrimRight(s[..|s| - 1]);
      assert s[|r|..] == s[..|s| - 1][|r|..] + [s[|s| - 1]];
      r
    else s
  }

  /** `s.strip()`. */
  function Strip(s: string): string {
    TrimRight(TrimLeft(s))
  }

  /** Python's truthiness of `s.strip()`: true when `s` has a character
      that is not whitespace (`StripEmptyIffBlank` shows the two readings
      agree). */
  predicate HasContent(s: string)
    decreases |s|
  {
    s != [] && (!IsSpace(s[0]) || HasContent(s[1..]))
  }

  /** `HasContent` holds exactly of the strings that are not blank. */
  lemma {:induction false} HasContentIffNotBlank(s: string)
    ensures HasContent(s) <==> !Blank(s)
    decreases |s|
  {
    if s != [] {
      HasContentIffNotBlank(s[1..]);
      assert Blank(s) <==> IsSpace(s[0]) && Blank(s[1..]) by {
        if IsSpace(s[0]) && Blank(s[1..]) {
          forall i | 0 <= i < |s| ensures IsSpace(s[i]) {
            if i > 0 {
              assert s[i] == s[1..][i - 1];
            }
          }
        }
      }
    }
  }

  /** `s.strip()` is empty exactly when `s` consists of whitespace only. */
  lemma {:induction false} StripEmptyIffBlank(s: string)
    ensures Strip(s) == [] <==> Blank(s)
    ensures Strip(s) != [] <==> HasContent(s)
  {
    HasContentIffNotBlank(s);
    var l := TrimLeft(s);
    var r := TrimRight(l);
    if l == [] {
      assert s[..|s|] == s;
    } else {
      assert !IsSpace(s[|s| - |l|]);
    }
  }

  /** `c * n` in Python: `n` copies of `c`, and the empty string when `n <= 0`. */
  function Repeat(c: char, n: int): (r: string)
    ensures |r| == if n > 0 then n else 0
    ensures forall i :: 0 <= i < |r| ==> r[i] == c
    decreases n
  {
    if n <= 0 then [] else [c] + Repeat(c, n - 1)
  }

  /** `f"{s:<w}"`: `s` left-aligned in a field of `w` characters, never truncated. */
  function PadRight(s: string, w: int): (r: string)
    ensures |r| == if |s| >= w then |s| else w
    ensures r[..|s|] == s
    ensures forall i :: |s| <= i < |r| ==> r[i] == ' '
  {
    s + Repeat(' ', w - |s|)
  }

  /** `f"{s:>w}"`: `s` right-aligned in a field of `w` characters, never truncated. */
  function PadLeft(s: string, w: int): (r: string)
    ensures |r| == if |s| >= w then |s| else w
    ensures r[|r| - |s|..] == s
    ensures forall i :: 0 <= i < |r| - |s| ==> r[i] == ' '
  {
    Repeat(' ', w - |s|) + s
  }

  predicate IsDigit(c: char) {
    '0' <= c <= '9'
  }

  predicate AllDigits(s: string) {
    forall i :: 0 <= i < |s| ==> IsDigit(s[i])
  }

  function DigitChar(d: nat): (c: char)
    requires d < 10
    ensures IsDigit(c)
  {
    ('0' as int + d) as char
  }

  function DigitValue(c: char): nat
    requires IsDigit(c)
  {
    c as int - '0' as int
  }

  /** `str(n)` for a natural number: its decimal digits without leading zeros. */
  function NatToString(n: nat): (r: string)
    ensures |r| >= 1 && AllDigits(r)
    ensures r[0] != '0' || n == 0
    decreases n
  {
    if n < 10 then [DigitChar(n)] else NatToString(n / 10) + [DigitChar(n % 10)]
  }

  /** The value of a string of decimal digits ("" reads as 0). */
  function ParseDigits(s: string): nat
    requires AllDigits(s)
    decreases |s|
  {
    if s == [] then 0 else 10 * ParseDigits(s[..|s| - 1]) + DigitValue(s[|s| - 1])
  }

  /** Reading back the decimal form of `n` gives `n`. */
  lemma {:induction false} ParseNatToString(n: nat)
    ensures ParseDigits(NatToString(n)) == n
    decreases n
  {
    var s := NatToString(n);
    if n >= 10 {
      ParseNatToString(n / 10);
      assert s[..|s| - 1] == NatToString(n / 10);
    }
  }

  /** Numbers below 1000 print in at most three digits, and from 100 on in exactly three. */
  lemma {:induction false} NatToStringWidth(n: nat)
    ensures n < 10 ==> |NatToString(n)| == 1
    ensures 10 <= n < 100 ==> |NatToString(n)| == 2
    ensures 100 <= n < 1000 ==> |NatToString(n)| == 3
    decreases n
  {
    if n >= 10 {
      NatToStringWidth(n / 10);
    }
  }

  /** `str(i)` for any integer: a minus sign before the digits of a negative number. */
  function IntToString(i: int): (r: string)
    ensures i >= 0 ==> r == NatToString(i)
    ensures i < 0 ==> |r| >= 2 && r[0] == '-' && r[1..] == NatToString(-i)
  {
    if i < 0 then "-" + NatToString(-i) else NatToString(i)
  }

  /** `s` contains no path separator. */
  predicate NoSlash(s: string) {
    forall i :: 0 <= i < |s| ==> s[i] != '/'
  }

  /** POSIX `os.path.join(a, b)`: an absolute `b` replaces `a`; otherwise a
      separator is inserted unless `a` is empty or already ends with one. */
  function Join(a: string, b: string): (r: string)
    ensures |b| > 0 && b[0] == '/' ==> r == b
    ensures |b| <= |r| && r[|r| - |b|..] == b
    ensures !(|b| > 0 && b[0] == '/') ==> |a| <= |r| && r[..|a|] == a
    ensures !(|b| > 0 && b[0] == '/') && a != [] && a[|a| - 1] != '/' ==>
      |r| == |a| + 1 + |b| && r[|a|] == '/'
    ensures !(|b| > 0 && b[0] == '/') && (a == [] || a[|a| - 1] == '/') ==>
      |r| == |a| + |b|
  {
    if |b| > 0 && b[0] == '/' then b
    else if a == [] || a[|a| - 1] == '/' then a + b
    else a + "/" + b
  }

  /** POSIX `os.path.basename(s)`: everything after the last '/'. */
  function Basename(s: string): (r: string)
    ensures NoSlash(r)
    decreases |s|
  {
    if s == [] || s[|s| - 1] == '/' then []
    else Basename(s[..|s| - 1]) + [s[|s| - 1]]
  }

  /** The basename is a suffix of the path, and the character before it, if
      any, is the separator. */
  lemma {:induction false} BasenameIsSuffix(s: string)
    ensures var r := Basename(s);
      && |r| <= |s| && r == s[|s| - |r|..]
      && (|r| < |s| ==> s[|s| - |r| - 1] == '/')
    decreases |s|
  {
    if s != [] && s[|s| - 1] != '/' {
      var init := s[..|s| - 1];
      BasenameIsSuffix(init);
      var r := Basename(s);
      assert r == Basename(init) + [s[|s| - 1]];
      assert s[|s| - |r|..] == init[|init| - |Basename(init)|..] + [s[|s| - 1]];
    }
  }

  /** Joining a plain name (no '/') onto any directory and taking the basename
      gives the name back: a joined path names the entry it was built from. */
  lemma {:induction false} BasenameOfJoin(dir: string, name: string)
    requires NoSlash(name)
    ensures Basename(Join(dir, name)) == name
  {
    var j := Join(dir, name);
    var head := j[..|j| - |name|];
    assert j == head + name;
    assert head == [] || head[|head| - 1] == '/';
    BasenameAppend(head, name);
  }

  /** Appending slash-free text to a path extends its basename by that text. */
  lemma {:induction false} BasenameAppend(head: string, name: string)
    requires NoSlash(name)
    requires head == [] || head[|head| - 1] == '/'
    ensures Basename(head + name) == name
    decreases |name|
  {
    if name == [] {
      assert head + name == head;
    } else {
      var init, last := name[..|name| - 1], name[|name| - 1];
      assert NoSlash(init) && last != '/' by {
        assert forall i :: 0 <= i < |init| ==> init[i] == name[i];
      }
      BasenameAppend(head, init);
      assert head + name == (head + init) + [last];
      BasenameSnoc(head + init, last);
      assert init + [last] == name;
    }
  }

  /** A character other than '/' appended to a path ends up in its basename. */
  lemma BasenameSnoc(s: string, c: char)
    requires c != '/'
    ensures Basename(s + [c]) == Basename(s) + [c]
  {
    var t := s + [c];
    assert t[..|t| - 1] == s;
  }
}
