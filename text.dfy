/** String helpers shared by the whole model: JavaScript's whitespace class, `split` and
    `join` on a separator, `trim`, prefix and containment tests, `toLowerCase` as far as
    the keyword tests need it, decimal rendering of numbers and UTF-8 length. Strings are
    sequences of Unicode code points. */
module Text {

  /** JavaScript's WhiteSpace and LineTerminator code points: the `\s` class of a regular
      expression and the characters that `String.prototype.trim` removes. */
  predicate IsSpace(c: char) {
    c == ' ' || c == '\t' || c == '\n' || c == '\r' || c == '\U{B}' || c == '\U{C}'
    || c == '\U{A0}' || c == '\U{1680}' || ('\U{2000}' <= c <= '\U{200A}')
    || c == '\U{2028}' || c == '\U{2029}' || c == '\U{202F}' || c == '\U{205F}'
    || c == '\U{3000}' || c == '\U{FEFF}'
  }

  /** `\d` without the `u` flag. */
  predicate IsDigit(c: char) { '0' <= c <= '9' }

  predicate IsLetter(c: char) { 'a' <= c <= 'z' || 'A' <= c <= 'Z' }

  /** `[a-zA-Z0-9]`. */
  predicate IsAlnum(c: char) { IsLetter(c) || IsDigit(c) }

  /** `\w` without the `u` flag: the characters a `\b` boundary looks at. */
  predicate IsWordChar(c: char) { IsAlnum(c) || c == '_' }

  predicate IsQuote(c: char) { c == '"' || c == '\'' }

  /** Every character of `s` is whitespace, i.e. `!s.trim()` holds in JavaScript. */
  predicate Blank(s: string) {
    forall i :: 0 <= i < |s| ==> IsSpace(s[i])
  }

  predicate StartsWith(s: string, p: string) {
    |p| <= |s| && s[..|p|] == p
  }

  predicate EndsWith(s: string, p: string) {
    |p| <= |s| && s[|s| - |p|..] == p
  }

  /** `t` occurs in `s` starting at index `i`. */
  predicate OccursAt(s: string, t: string, i: nat) {
    i + |t| <= |s| && s[i..i + |t|] == t
  }

  /** `s.includes(t)`. */
  predicate Contains(s: string, t: string) {
    exists i: nat | i <= |s| :: OccursAt(s, t, i)
  }

  /** A string that contains `t` contains the first character of `t`; used to refute
      containment of keywords. */
  lemma ContainsFirstChar(s: string, t: string)
    requires |t| > 0 && Contains(s, t)
    ensures t[0] in s
  {
    var i: nat :| i <= |s| && OccursAt(s, t, i);
    assert s[i..i + |t|][0] == t[0];
  }

  /** `String.prototype.trimStart`. */
  function TrimStart(s: string): (r: string)
    ensures |r| <= |s| && r == s[|s| - |r|..]
    ensures Blank(s[..|s| - |r|])
    ensures r == [] || !IsSpace(r[0])
  {
    if |s| > 0 && IsSpace(s[0]) then
      var r := TrimStart(s[1..]);
      assert s[..|s| - |r|] == [s[0]] + s[1..][..|s[1..]| - |r|];
      r
    else s
  }

  /** `String.prototype.trimEnd`. */
  function TrimEnd(s: string): (r: string)
    ensures |r| <= |s| && r == s[..|r|]
    ensures Blank(s[|r|..])
    ensures r == [] || !IsSpace(r[|r| - 1])
  {
    if |s| > 0 && IsSpace(s[|s| - 1]) then
      var r := TrimEnd(s[..|s| - 1]);
      assert s[|r|..] == s[..|s| - 1][|r|..] + [s[|s| - 1]];
      r
    else s
  }

  /** `String.prototype.trim`. */
  function Trim(s: string): string {
    TrimEnd(TrimStart(s))
  }

  /** `s.trim()` is the empty string exactly when `s` is blank. */
  lemma TrimEmptyIffBlank(s: string)
    ensures Trim(s) == [] <==> Blank(s)
  {
    var t := TrimStart(s);
    if !Blank(s) {
      var k :| 0 <= k < |s| && !IsSpace(s[k]);
      assert k >= |s| - |t|;
      assert t[k - (|s| - |t|)] == s[k];
    }
  }

  lemma TrimOfBlank(s: string)
    requires Blank(s)
    ensures Trim(s) == []
  {
    TrimEmptyIffBlank(s);
  }

  /** `s.split(sep)` for a one-character separator: the pieces between separators. */
  function Split(s: string, sep: char): (r: seq<string>)
    ensures |r| >= 1
    decreases |s|
  {
    if |s| == 0 then [""]
    else
      var rest := Split(s[1..], sep);
      if s[0] == sep then [""] + rest else [[s[0]] + rest[0]] + rest[1..]
  }

  /** `parts.join(sep)`. */
  function Join(parts: seq<string>, sep: string): string
    decreases |parts|
  {
    if |parts| == 0 then ""
    else if |parts| == 1 then parts[0]
    else parts[0] + sep + Join(parts[1..], sep)
  }

  /** Joining one more piece adds the separator and the piece. */
  lemma {:induction false} JoinAppend(parts: seq<string>, x: string, sep: string)
    requires |parts| >= 1
    ensures Join(parts + [x], sep) == Join(parts, sep) + sep + x
    decreases |parts|
  {
    if |parts| == 1 {
      assert (parts + [x])[1..] == [x];
    } else {
      assert (parts + [x])[1..] == parts[1..] + [x];
      JoinAppend(parts[1..], x, sep);
    }
  }

  function Last<T>(s: seq<T>): T
    requires |s| > 0
  {
    s[|s| - 1]
  }

  /** The concatenation of a sequence of strings, built from the left. */
  function Concat(ss: seq<string>): string
    decreases |ss|
  {
    if |ss| == 0 then "" else Concat(ss[..|ss| - 1]) + ss[|ss| - 1]
  }

  lemma {:induction false} ConcatAppend(a: seq<string>, b: seq<string>)
    ensures Concat(a + b) == Concat(a) + Concat(b)
    decreases |b|
  {
    if |b| == 0 {
      assert a + b == a;
    } else {
      assert (a + b)[..|a + b| - 1] == a + b[..|b| - 1];
      ConcatAppend(a, b[..|b| - 1]);
    }
  }

  predicate NoSep(parts: seq<string>, sep: char) {
    forall k :: 0 <= k < |parts| ==> sep !in parts[k]
  }

  /** No piece of a split contains the separator. */
  lemma {:induction false} SplitNoSep(s: string, sep: char)
    ensures NoSep(Split(s, sep), sep)
    decreases |s|
  {
    if |s| > 0 {
      SplitNoSep(s[1..], sep);
    }
  }

  /** Joining the pieces of a split gives back the string. */
  lemma {:induction false} JoinSplit(s: string, sep: char)
    ensures Join(Split(s, sep), [sep]) == s
    decreases |s|
  {
    if |s| > 0 {
      var rest := Split(s[1..], sep);
      JoinSplit(s[1..], sep);
      if s[0] == sep {
        assert ([""] + rest)[1..] == rest;
      } else {
        var r := [[s[0]] + rest[0]] + rest[1..];
        if |rest| == 1 {
          assert s == [s[0]] + s[1..];
        } else {
          assert r[1..] == rest[1..];
          assert Join(rest, [sep]) == rest[0] + [sep] + Join(rest[1..], [sep]);
          assert s == [s[0]] + s[1..];
        }
      }
    }
  }

  /** Splitting a join of separator-free pieces gives back the pieces. */
  lemma {:induction false} SplitJoin(parts: seq<string>, sep: char)
    requires |parts| >= 1 && NoSep(parts, sep)
    ensures Split(Join(parts, [sep]), sep) == parts
    decreases |parts|
  {
    if |parts| == 1 {
      SplitNoSepPiece(parts[0], sep);
    } else {
      var tail := Join(parts[1..], [sep]);
      SplitJoin(parts[1..], sep);
      SplitPieceThenSep(parts[0], sep, tail);
    }
  }

  /** A string without the separator splits into itself. */
  lemma {:induction false} SplitNoSepPiece(p: string, sep: char)
    requires sep !in p
    ensures Split(p, sep) == [p]
    decreases |p|
  {
    if |p| > 0 {
      SplitNoSepPiece(p[1..], sep);
      assert p == [p[0]] + p[1..];
    }
  }

  lemma {:induction false} SplitPieceThenSep(p: string, sep: char, t: string)
    requires sep !in p
    ensures Split(p + [sep] + t, sep) == [p] + Split(t, sep)
    decreases |p|
  {
    if |p| == 0 {
      assert p + [sep] + t == [sep] + t;
      assert ([sep] + t)[1..] == t;
    } else {
      var s := p + [sep] + t;
      assert s[1..] == p[1..] + [sep] + t;
      SplitPieceThenSep(p[1..], sep, t);
      assert [p[0]] + p[1..] == p;
    }
  }

  /** Splitting `t + r` splits `t`, except that the last piece of `t` runs on into `r`. */
  lemma {:induction false} SplitAppend(t: string, r: string, sep: char)
    ensures SplitRunsOn(t, r, sep)
    decreases |t|
  {
    if |t| == 0 {
      assert t + r == r;
      assert Last(Split(t, sep)) + r == r;
    } else {
      SplitAppend(t[1..], r, sep);
      assert t == [t[0]] + t[1..];
      if t[0] == sep {
        SplitAppendSep(t[1..], r, sep);
      } else if |Split(t[1..], sep)| == 1 {
        SplitAppendOne(t[0], t[1..], r, sep);
      } else {
        SplitAppendMany(t[0], t[1..], r, sep);
      }
    }
  }

  predicate SplitRunsOn(t: string, r: string, sep: char) {
    var st := Split(t, sep);
    Split(t + r, sep) == st[..|st| - 1] + Split(Last(st) + r, sep)
  }

  lemma SplitConsSep(t: string, sep: char)
    ensures Split([sep] + t, sep) == [""] + Split(t, sep)
  {
    assert ([sep] + t)[1..] == t;
  }

  lemma SplitConsOther(c: char, t: string, sep: char)
    requires c != sep
    ensures Split([c] + t, sep) == [[c] + Split(t, sep)[0]] + Split(t, sep)[1..]
  {
    assert ([c] + t)[1..] == t;
  }

  lemma SplitAppendSep(t: string, r: string, sep: char)
    requires SplitRunsOn(t, r, sep)
    ensures SplitRunsOn([sep] + t, r, sep)
  {
    SplitConsSep(t, sep);
    SplitConsSep(t + r, sep);
    ConsAssoc(sep, t, r);
    ConsPieces(Split(t, sep));
  }

  lemma ConsPieces(st: seq<string>)
    requires |st| > 0
    ensures ([""] + st)[..|st|] == [""] + st[..|st| - 1] && Last([""] + st) == Last(st)
  {
  }

  lemma SplitAppendOne(c: char, t: string, r: string, sep: char)
    requires c != sep && |Split(t, sep)| == 1 && SplitRunsOn(t, r, sep)
    ensures SplitRunsOn([c] + t, r, sep)
  {
    var st := Split(t, sep);
    SplitConsOther(c, t, sep);
    SplitConsOther(c, t + r, sep);
    SplitConsOther(c, st[0] + r, sep);
    ConsAssoc(c, t, r);
    ConsAssoc(c, st[0], r);
    assert st[..0] == [];
  }

  lemma SplitAppendMany(c: char, t: string, r: string, sep: char)
    requires c != sep && |Split(t, sep)| > 1 && SplitRunsOn(t, r, sep)
    ensures SplitRunsOn([c] + t, r, sep)
  {
    var st := Split(t, sep);
    var x := Split(t + r, sep);
    var y := Split(Last(st) + r, sep);
    SplitConsOther(c, t, sep);
    SplitConsOther(c, t + r, sep);
    ConsAssoc(c, t, r);
    ManyPieces(c, st, x, y);
  }

  lemma ConsAssoc(c: char, t: string, r: string)
    ensures [c] + t + r == [c] + (t + r)
  {
  }

  /** The list manipulation behind `SplitAppendMany`. */
  lemma ManyPieces(c: char, st: seq<string>, x: seq<string>, y: seq<string>)
    requires |st| > 1 && x == st[..|st| - 1] + y
    ensures var head := [[c] + st[0]] + st[1..];
      [[c] + x[0]] + x[1..] == head[..|head| - 1] + y && Last(head) == Last(st)
  {
    var head := [[c] + st[0]] + st[1..];
    assert x[0] == st[0];
    assert x[1..] == st[1..|st| - 1] + y;
    assert head[..|head| - 1] == [[c] + st[0]] + st[1..|st| - 1];
  }

  /** JavaScript's `toLowerCase` as far as it can matter for the extraction keywords:
      ASCII capitals become small letters and U+0130 becomes "i" followed by U+0307.
      No other character's lower-case form contains a keyword character. */
  function LowerChar(c: char): string {
    if 'A' <= c <= 'Z' then [(c as int + 32) as char]
    else if c == '\U{130}' then ['i', '\U{307}']
    else [c]
  }

  function ToLower(s: string): string
    decreases |s|
  {
    if |s| == 0 then "" else LowerChar(s[0]) + ToLower(s[1..])
  }

  function DigitChar(d: nat): char
    requires d < 10
  {
    ('0' as int + d) as char
  }

  /** The decimal rendering of a natural number, as a template literal renders it. */
  function NatString(n: nat): (r: string)
    ensures |r| >= 1 && forall k :: 0 <= k < |r| ==> IsDigit(r[k])
    decreases n
  {
    if n < 10 then [DigitChar(n)] else NatString(n / 10) + [DigitChar(n % 10)]
  }

  /** Reads a string of decimal digits back as a number. */
  function ParseNat(s: string): nat
    decreases |s|
  {
    if |s| == 0 then 0
    else ParseNat(s[..|s| - 1]) * 10 + (if IsDigit(s[|s| - 1]) then s[|s| - 1] as int - '0' as int else 0)
  }

  lemma {:induction false} ParseNatString(n: nat)
    ensures ParseNat(NatString(n)) == n
    decreases n
  {
    if n >= 10 {
      var r := NatString(n);
      assert r[..|r| - 1] == NatString(n / 10);
      ParseNatString(n / 10);
    }
  }

  /** The decimal rendering of an integer, with a leading minus sign when negative. */
  function IntString(i: int): string {
    if i < 0 then "-" + NatString(-i) else NatString(i)
  }

  /** A rendering starts with the minus sign exactly when the number is negative. */
  lemma IntStringSign(i: int)
    ensures |IntString(i)| >= 1 && (IntString(i)[0] == '-' <==> i < 0)
  {
    if i >= 0 {
      assert IsDigit(NatString(i)[0]);
    }
  }

  /** Different integers render differently. */
  lemma IntStringInjective(i: int, j: int)
    requires IntString(i) == IntString(j)
    ensures i == j
  {
    IntStringSign(i);
    IntStringSign(j);
    if i < 0 && j < 0 {
      NegativeReadBack(i);
      NegativeReadBack(j);
    } else if i >= 0 && j >= 0 {
      ParseNatString(i);
      ParseNatString(j);
    }
  }

  lemma NegativeReadBack(i: int)
    requires i < 0
    ensures |IntString(i)| >= 1 && ParseNat(IntString(i)[1..]) == -i
  {
    assert NatString(-i) == IntString(i)[1..];
    ParseNatString(-i);
  }

  /** Bytes taken by one code point in UTF-8 (RFC 3629, section 3). */
  function Utf8Width(c: char): nat {
    if c as int < 0x80 then 1
    else if c as int < 0x800 then 2
    else if c as int < 0x1_0000 then 3
    else 4
  }

  /** The UTF-8 length of a string, i.e. `new TextEncoder().encode(s).length`. */
  function Utf8Length(s: string): nat
    decreases |s|
  {
    if |s| == 0 then 0 else Utf8Length(s[..|s| - 1]) + Utf8Width(s[|s| - 1])
  }

  lemma {:induction false} Utf8LengthAppend(a: string, b: string)
    ensures Utf8Length(a + b) == Utf8Length(a) + Utf8Length(b)
    decreases |b|
  {
    if |b| > 0 {
      assert (a + b)[..|a + b| - 1] == a + b[..|b| - 1];
      Utf8LengthAppend(a, b[..|b| - 1]);
    } else {
      assert a + b == a;
    }
  }

  lemma Utf8LengthCons(c: char, s: string)
    ensures Utf8Length([c] + s) == Utf8Width(c) + Utf8Length(s)
  {
    Utf8LengthAppend([c], s);
    assert [c][..0] == [];
  }

  lemma {:induction false} Utf8LengthAtLeastLength(s: string)
    ensures Utf8Length(s) >= |s|
    decreases |s|
  {
    if |s| > 0 {
      Utf8LengthAtLeastLength(s[..|s| - 1]);
    }
  }
}
