/** The parts of Python's `str` and `int` behaviour that the scripts rely on:
    `strip`, `split`, `int(text)`, `str(number)` and `<` on strings. */
module Text {
  import opened Wrappers
  import opened Ordering

  /** `c.isspace()`: the characters that an argument-less `strip()` removes. */
  predicate IsSpace(c: char) {
    || '\t' <= c <= '\r'
    || '\U{1c}' <= c <= ' '
    || c == '\U{85}' || c == '\U{a0}' || c == '\U{1680}'
    || '\U{2000}' <= c <= '\U{200a}'
    || c == '\U{2028}' || c == '\U{2029}' || c == '\U{202f}' || c == '\U{205f}' || c == '\U{3000}'
  }

  /** `s.lstrip(...)`: drops the leading characters that satisfy `drop`. */
  function TrimLeft(s: string, drop: char -> bool): string {
    if s != [] && drop(s[0]) then TrimLeft(s[1..], drop) else s
  }

  /** `lstrip` keeps a suffix and drops only a prefix of dropped characters,
      up to the first kept one. */
  lemma {:induction false} TrimLeftSuffix(s: string, drop: char -> bool)
    ensures var r := TrimLeft(s, drop);
      && |r| <= |s| && r == s[|s| - |r|..]
      && (forall c | c in s[..|s| - |r|] :: drop(c))
      && (r != [] ==> !drop(r[0]))
  {
    if s != [] && drop(s[0]) {
      var t := s[1..];
      var r := TrimLeft(t, drop);
      TrimLeftSuffix(t, drop);
      assert t[|t| - |r|..] == s[|s| - |r|..];
      assert s[..|s| - |r|] == [s[0]] + t[..|t| - |r|];
    }
  }

  /** `s.rstrip(...)`: drops the trailing characters that satisfy `drop`. */
  function TrimRight(s: string, drop: char -> bool): string {
    if s != [] && drop(s[|s| - 1]) then TrimRight(s[..|s| - 1], drop) else s
  }

  /** `rstrip` keeps a prefix and drops only a suffix of dropped characters,
      back to the last kept one. */
  lemma {:induction false} TrimRightPrefix(s: string, drop: char -> bool)
    ensures var r := TrimRight(s, drop);
      && |r| <= |s| && r == s[..|r|]
      && (forall c | c in s[|r|..] :: drop(c))
      && (r != [] ==> !drop(r[|r| - 1]))
  {
    if s != [] && drop(s[|s| - 1]) {
      var t := s[..|s| - 1];
      var r := TrimRight(t, drop);
      TrimRightPrefix(t, drop);
      assert t[..|r|] == s[..|r|];
      assert s[|r|..] == t[|r|..] + [s[|s| - 1]];
    }
  }

  /** `s.strip(...)` for the characters that satisfy `drop`. */
  function Trim(s: string, drop: char -> bool): string {
    TrimRight(TrimLeft(s, drop), drop)
  }

  /** Trimming removes exactly a padding of dropped characters around a core
      that neither starts nor ends with one. */
  lemma TrimPadded(pre: string, core: string, post: string, drop: char -> bool)
    requires forall i :: 0 <= i < |pre| ==> drop(pre[i])
    requires forall i :: 0 <= i < |post| ==> drop(post[i])
    requires core != [] ==> !drop(core[0]) && !drop(core[|core| - 1])
    ensures Trim(pre + core + post, drop) == core
  {
    if core == [] {
      var all := pre + core + post;
      assert forall i :: 0 <= i < |all| ==> drop(all[i]) by {
        forall i | 0 <= i < |all| ensures drop(all[i]) {
          if i >= |pre| {
            assert all[i] == post[i - |pre|];
          }
        }
      }
      TrimLeftPadding(all, [], drop);
      assert all + [] == all;
    } else {
      assert pre + core + post == pre + (core + post);
      TrimLeftPadding(pre, core + post, drop);
      TrimRightPadding(core, post, drop);
    }
  }

  lemma {:induction false} TrimLeftPadding(pre: string, rest: string, drop: char -> bool)
    requires forall i :: 0 <= i < |pre| ==> drop(pre[i])
    requires rest != [] ==> !drop(rest[0])
    ensures TrimLeft(pre + rest, drop) == rest
    decreases |pre|
  {
    if pre != [] {
      assert (pre + rest)[1..] == pre[1..] + rest;
      TrimLeftPadding(pre[1..], rest, drop);
    } else {
      assert pre + rest == rest;
    }
  }

  lemma {:induction false} TrimRightPadding(rest: string, post: string, drop: char -> bool)
    requires forall i :: 0 <= i < |post| ==> drop(post[i])
    requires rest != [] ==> !drop(rest[|rest| - 1])
    ensures TrimRight(rest + post, drop) == rest
    decreases |post|
  {
    if post != [] {
      var p := post[..|post| - 1];
      assert (rest + post)[..|rest + post| - 1] == rest + p;
      TrimRightPadding(rest, p, drop);
    } else {
      assert rest + post == rest;
    }
  }

  /** Python's argument-less `s.strip()`. */
  function Strip(s: string): string {
    Trim(s, IsSpace)
  }

  /** Python's `s.strip("'")`: every leading and trailing single quote goes. */
  function StripQuotes(s: string): string {
    Trim(s, IsQuote)
  }

  predicate IsQuote(c: char) {
    c == '\''
  }

  /** `s.startswith(p)`, compared one character at a time. */
  predicate StartsWith(s: string, p: string) {
    |p| <= |s| && (p == [] || (s[0] == p[0] && StartsWith(s[1..], p[1..])))
  }

  lemma {:induction false} StartsWithSlice(s: string, p: string)
    ensures StartsWith(s, p) <==> |p| <= |s| && s[..|p|] == p
  {
    if p != [] && |p| <= |s| {
      StartsWithSlice(s[1..], p[1..]);
      assert s[..|p|] == [s[0]] + s[1..][..|p| - 1];
      assert p == [p[0]] + p[1..];
    }
  }

  /** The position of the first `c` in `s`. */
  function IndexOf(s: string, c: char): (i: nat)
    requires c in s
    ensures i < |s| && s[i] == c && c !in s[..i]
  {
    if s[0] == c then 0 else
      assert c in s[1..] by { var k :| 0 <= k < |s| && s[k] == c; assert s[1..][k - 1] == c; }
      var i := IndexOf(s[1..], c);
      assert s[..i + 1] == [s[0]] + s[1..][..i];
      i + 1
  }

  /** The inverse of `Split`: the fields separated by `sep`. */
  function Join(fields: seq<string>, sep: char): string
    requires fields != []
  {
    if |fields| == 1 then fields[0] else fields[0] + [sep] + Join(fields[1..], sep)
  }

  /** Python's `s.split(sep)` for a one-character separator. */
  function Split(s: string, sep: char): (r: seq<string>)
    ensures r != []
    decreases |s|
  {
    if sep !in s then [s]
    else
      var i := IndexOf(s, sep);
      [s[..i]] + Split(s[i + 1..], sep)
  }

  /** The fields `Split` returns hold no separator and join back to the text. */
  lemma {:induction false} JoinSplit(s: string, sep: char)
    ensures forall k :: 0 <= k < |Split(s, sep)| ==> sep !in Split(s, sep)[k]
    ensures Join(Split(s, sep), sep) == s
    decreases |s|
  {
    if sep in s {
      var i := IndexOf(s, sep);
      JoinSplit(s[i + 1..], sep);
      assert s == s[..i] + [sep] + s[i + 1..];
      assert Split(s, sep)[1..] == Split(s[i + 1..], sep);
    }
  }

  /** Splitting what `Join` assembled gives the fields back. */
  lemma {:induction false} SplitJoin(fields: seq<string>, sep: char)
    requires fields != []
    requires forall k :: 0 <= k < |fields| ==> sep !in fields[k]
    ensures Split(Join(fields, sep), sep) == fields
    decreases |fields|
  {
    if |fields| > 1 {
      var s := Join(fields, sep);
      var f := fields[0];
      assert s == f + [sep] + Join(fields[1..], sep);
      assert s[|f|] == sep;
      assert sep in s;
      var i := IndexOf(s, sep);
      assert i == |f|;
      assert s[i + 1..] == Join(fields[1..], sep);
      SplitJoin(fields[1..], sep);
      assert s[..i] == f;
    } else {
      assert sep !in fields[0];
    }
  }

  predicate IsDigit(c: char) {
    '0' <= c <= '9'
  }

  predicate AllDigits(s: string) {
    forall i :: 0 <= i < |s| ==> IsDigit(s[i])
  }

  /** The value of a string of decimal digits; leading zeros are allowed. */
  function DigitsValue(s: string): nat
    requires AllDigits(s)
  {
    if s == [] then 0 else 10 * DigitsValue(s[..|s| - 1]) + (s[|s| - 1] as int - '0' as int)
  }

  function DigitChar(d: nat): (c: char)
    requires d < 10
    ensures IsDigit(c) && c as int - '0' as int == d
  {
    ('0' as int + d) as char
  }

  /** The shortest decimal spelling of `n`. */
  function DecimalDigits(n: nat): (s: string)
    ensures s != [] && AllDigits(s) && DigitsValue(s) == n
    ensures s[0] != '0' || n == 0
  {
    if n < 10 then [DigitChar(n)]
    else
      var init := DecimalDigits(n / 10);
      var s := init + [DigitChar(n % 10)];
      assert s[..|s| - 1] == init;
      s
  }

  /** Python's `str(n)` for an `int`. */
  function IntToString(n: int): string {
    if n < 0 then "-" + DecimalDigits(-n) else DecimalDigits(n)
  }

  /** Python's `int(s)` for a `str`: surrounding white space, one optional sign,
      at least one decimal digit. `None` stands for the `ValueError` it raises. */
  function ParseInt(s: string): Option<int> {
    var t := Strip(s);
    if t != [] && (t[0] == '-' || t[0] == '+') then
      var body := t[1..];
      if body != [] && AllDigits(body) then
        var v: int := DigitsValue(body);
        Some(if t[0] == '-' then -v else v)
      else None
    else if t != [] && AllDigits(t) then Some(DigitsValue(t))
    else None
  }

  /** A string that neither starts nor ends with white space is its own `strip()`. */
  lemma StripUnpadded(s: string)
    requires s != [] && !IsSpace(s[0]) && !IsSpace(s[|s| - 1])
    ensures Strip(s) == s
  {
    assert TrimLeft(s, IsSpace) == s;
  }

  /** `int(str(n)) == n`. */
  lemma ParseIntToString(n: int)
    ensures ParseInt(IntToString(n)) == Some(n)
  {
    var s := IntToString(n);
    if n < 0 {
      var d := DecimalDigits(-n);
      assert s == "-" + d && s[1..] == d;
      StripUnpadded(s);
    } else {
      StripUnpadded(s);
    }
  }

  /** `str` on integers is injective: distinct numbers never share a key. */
  lemma IntToStringInjective(a: int, b: int)
    requires IntToString(a) == IntToString(b)
    ensures a == b
  {
    ParseIntToString(a);
    ParseIntToString(b);
  }

  /** Python's `a < b` on `str`: code point by code point, a proper prefix first. */
  predicate StrLess(a: string, b: string) {
    if a == [] then b != []
    else if b == [] then false
    else if a[0] != b[0] then a[0] < b[0]
    else StrLess(a[1..], b[1..])
  }

  lemma {:induction false} StrLessIrreflexive(a: string)
    ensures !StrLess(a, a)
  {
    if a != [] {
      StrLessIrreflexive(a[1..]);
    }
  }

  lemma {:induction false} StrLessTransitive(a: string, b: string, c: string)
    requires StrLess(a, b) && StrLess(b, c)
    ensures StrLess(a, c)
  {
    if a != [] && b != [] && c != [] && a[0] == b[0] && b[0] == c[0] {
      StrLessTransitive(a[1..], b[1..], c[1..]);
    }
  }

  lemma {:induction false} StrLessTotal(a: string, b: string)
    ensures a == b || StrLess(a, b) || StrLess(b, a)
  {
    if a != [] && b != [] && a[0] == b[0] {
      StrLessTotal(a[1..], b[1..]);
      assert a == [a[0]] + a[1..] && b == [b[0]] + b[1..];
    }
  }

  /** Python's ordering of strings is a strict total order, so `sorted` on a set
      of names has one answer. */
  lemma StrLessIsStrictTotalOrder()
    ensures StrictTotalOrder(StrLess)
  {
    forall x ensures !StrLess(x, x) {
      StrLessIrreflexive(x);
    }
    forall x, y, z | StrLess(x, y) && StrLess(y, z) ensures StrLess(x, z) {
      StrLessTransitive(x, y, z);
    }
    forall x, y | x != y ensures StrLess(x, y) || StrLess(y, x) {
      StrLessTotal(x, y);
    }
  }

  /** Python's `sorted` on a set of strings. */
  ghost function SortedStrings(s: set<string>): (r: seq<string>)
    ensures SortedEnumeration(r, s, StrLess) && Distinct(r) && |r| == |s|
  {
    StrLessIsStrictTotalOrder();
    StrictlySortedIsDistinct(SortedOf(s, StrLess), StrLess);
    SortedEnumerationLength(SortedOf(s, StrLess), s, StrLess);
    SortedOf(s, StrLess)
  }

  method SortStrings(s: set<string>) returns (r: seq<string>)
    ensures r == SortedStrings(s)
  {
    StrLessIsStrictTotalOrder();
    r := SortedElements(s, StrLess);
  }
}
