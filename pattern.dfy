/** The fragment of JavaScript regular expressions that the masking rules use: a
    sequence of single-character classes, each under a greedy quantifier (`x`, `x?`,
    `x*`, `x+`, `x{n,}`, `x{n,m}`), and the word boundary `\b`, without the `u` flag.
    `Match` is the backtracking matcher of that fragment, trying the larger count of each
    quantifier first exactly as the JavaScript engine does, and `Accepts` says
    declaratively when a sequence of positions witnesses a match. `ReplaceAll` is
    `String.prototype.replace` with a global (`g`) expression: the expression is tried at
    every position from left to right and the scan resumes after each match. */
module Pattern {
  import opened Types
  import opened Text

  /** A character class: the characters listed, the ASCII letters and digits, `\d`,
      the ASCII letters, `\s`, a union of two classes or a negated class (`[^...]`). */
  datatype CharClass =
    | Chars(cs: string)
    | Alnum
    | Digit
    | Letter
    | Space
    | Union(left: CharClass, right: CharClass)
    | Not(negated: CharClass)

  predicate Has(k: CharClass, c: char) {
    match k
    case Chars(cs) => c in cs
    case Alnum => IsAlnum(c)
    case Digit => IsDigit(c)
    case Letter => IsLetter(c)
    case Space => IsSpace(c)
    case Union(a, b) => Has(a, c) || Has(b, c)
    case Not(n) => !Has(n, c)
  }

  /** One element of an expression: a class repeated between `min` and `max` times
      (no `max` for an unbounded repetition), or `\b`. */
  datatype Item = Rep(cls: CharClass, min: nat, max: Option<nat>) | Boundary

  /** A literal character; under the `i` flag the two ASCII cases of a letter. */
  function Lit(c: char): Item {
    Rep(Chars([c]), 1, Some(1))
  }

  function LitNoCase(c: char): Item {
    if 'a' <= c <= 'z' then Rep(Chars([c, (c as int - 32) as char]), 1, Some(1)) else Lit(c)
  }

  function Lits(t: string): (r: seq<Item>)
    ensures |r| == |t| && forall k :: 0 <= k < |t| ==> r[k] == Lit(t[k])
    decreases |t|
  {
    if |t| == 0 then [] else [Lit(t[0])] + Lits(t[1..])
  }

  function LitsNoCase(t: string): seq<Item>
    decreases |t|
  {
    if |t| == 0 then [] else [LitNoCase(t[0])] + LitsNoCase(t[1..])
  }

  predicate WordAt(s: string, k: int) {
    0 <= k < |s| && IsWordChar(s[k])
  }

  /** `\b` at position `p`: exactly one of the characters around `p` is a word character. */
  predicate AtBoundary(s: string, p: int) {
    WordAt(s, p - 1) != WordAt(s, p)
  }

  /** The length of the longest run of characters of class `k` starting at `i`. */
  function RunLen(k: CharClass, s: string, i: nat): (n: nat)
    requires i <= |s|
    ensures i + n <= |s|
    decreases |s| - i
  {
    if i < |s| && Has(k, s[i]) then 1 + RunLen(k, s, i + 1) else 0
  }

  /** The run is made of characters of the class and is followed by one that is not. */
  lemma {:induction false} RunLenMaximal(k: CharClass, s: string, i: nat)
    requires i <= |s|
    ensures var n := RunLen(k, s, i);
            (forall j :: i <= j < i + n ==> Has(k, s[j])) && (i + n == |s| || !Has(k, s[i + n]))
    decreases |s| - i
  {
    if i < |s| && Has(k, s[i]) {
      RunLenMaximal(k, s, i + 1);
    }
  }

  function Capped(n: nat, max: Option<nat>): (r: nat)
    ensures r <= n && (max.None? || r <= max.value)
    ensures r == n || (max.Some? && r == max.value)
  {
    if max.Some? && max.value < n then max.value else n
  }

  /** The position before item `j` of a match that starts at `i` and has trace `ps`. */
  function Before(i: nat, ps: seq<nat>, j: nat): nat
    requires j <= |ps|
  {
    if j == 0 then i else ps[j - 1]
  }

  /** The position where a match with trace `ps` ends. */
  function End(i: nat, ps: seq<nat>): nat {
    if |ps| == 0 then i else ps[|ps| - 1]
  }

  /** Item `item` matches exactly `s[a..b]`. */
  predicate Fits(item: Item, s: string, a: nat, b: nat) {
    a <= b <= |s| &&
    match item
    case Boundary => a == b && AtBoundary(s, a)
    case Rep(k, mn, mx) =>
      mn <= b - a && (mx.None? || b - a <= mx.value) && forall j :: a <= j < b ==> Has(k, s[j])
  }

  /** `ps` witnesses a match of `items` starting at `i`: `ps[j]` is the position after
      item `j`. */
  predicate Accepts(items: seq<Item>, s: string, i: nat, ps: seq<nat>) {
    |ps| == |items| && forall j {:trigger Fits(items[j], s, Before(i, ps, j), ps[j])} {:trigger items[j], ps[j]} :: 0 <= j < |items| ==> Fits(items[j], s, Before(i, ps, j), ps[j])
  }

  function Prepend(p: nat, o: Option<seq<nat>>): Option<seq<nat>> {
    match o
    case None => None
    case Some(t) => Some([p] + t)
  }

  /** The first match of `items` at `i` in backtracking order, as a trace. */
  function Match(items: seq<Item>, s: string, i: nat): Option<seq<nat>>
    requires i <= |s|
    decreases |items|, |s| - i + 1
  {
    if |items| == 0 then Some([])
    else
      match items[0]
      case Boundary => if AtBoundary(s, i) then Prepend(i, Match(items[1..], s, i)) else None
      case Rep(k, _, mx) => TryCounts(items, s, i, Capped(RunLen(k, s, i), mx))
  }

  /** Tries the counts `c`, `c - 1`, ..., `min` for the leading quantifier. */
  function TryCounts(items: seq<Item>, s: string, i: nat, c: nat): Option<seq<nat>>
    requires |items| > 0 && items[0].Rep? && i + c <= |s|
    decreases |items|, c
  {
    if c < items[0].min then None
    else
      match Match(items[1..], s, i + c)
      case Some(t) => Some([i + c] + t)
      case None => if c == 0 then None else TryCounts(items, s, i, c - 1)
  }

  /** A trace for the first item followed by a trace for the others is a trace for all. */
  lemma AcceptsPrepend(items: seq<Item>, s: string, i: nat, p: nat, t: seq<nat>)
    requires |items| > 0 && Fits(items[0], s, i, p) && Accepts(items[1..], s, p, t)
    ensures Accepts(items, s, i, [p] + t)
  {
    var ps := [p] + t;
    forall j | 0 <= j < |items|
      ensures Fits(items[j], s, Before(i, ps, j), ps[j])
    {
      if j > 0 {
        assert items[j] == items[1..][j - 1];
        assert Before(i, ps, j) == Before(p, t, j - 1);
      }
    }
  }

  /** A trace for all the items splits into one for the first item and one for the rest. */
  lemma AcceptsSplit(items: seq<Item>, s: string, i: nat, p: nat, t: seq<nat>)
    requires |items| > 0 && Accepts(items, s, i, [p] + t)
    ensures Fits(items[0], s, i, p) && Accepts(items[1..], s, p, t)
  {
    var ps := [p] + t;
    assert Fits(items[0], s, Before(i, ps, 0), ps[0]);
    forall j | 0 <= j < |items| - 1
      ensures Fits(items[1..][j], s, Before(p, t, j), t[j])
    {
      assert Fits(items[j + 1], s, Before(i, ps, j + 1), ps[j + 1]);
    }
  }

  /** Every trace `Match` returns witnesses a match. */
  lemma {:induction false} MatchSound(items: seq<Item>, s: string, i: nat)
    requires i <= |s|
    ensures Match(items, s, i).Some? ==> Accepts(items, s, i, Match(items, s, i).value)
    decreases |items|, |s| - i + 1
  {
    if |items| > 0 {
      match items[0]
      case Boundary =>
        if AtBoundary(s, i) && Match(items[1..], s, i).Some? {
          MatchSound(items[1..], s, i);
          AcceptsPrepend(items, s, i, i, Match(items[1..], s, i).value);
        }
      case Rep(k, _, mx) =>
        TryCountsSound(items, s, i, Capped(RunLen(k, s, i), mx));
    }
  }

  lemma {:induction false} TryCountsSound(items: seq<Item>, s: string, i: nat, c: nat)
    requires |items| > 0 && items[0].Rep? && i + c <= |s|
    requires c <= RunLen(items[0].cls, s, i)
    requires items[0].max.None? || c <= items[0].max.value
    ensures TryCounts(items, s, i, c).Some? ==> Accepts(items, s, i, TryCounts(items, s, i, c).value)
    decreases |items|, c
  {
    if c >= items[0].min {
      var rest := Match(items[1..], s, i + c);
      if rest.Some? {
        RunPrefixFits(items[0], s, i, c);
        MatchSound(items[1..], s, i + c);
        AcceptsPrepend(items, s, i, i + c, rest.value);
      } else if c > 0 {
        TryCountsSound(items, s, i, c - 1);
      }
    }
  }

  /** A quantifier fits any count between its minimum and the run of its class. */
  lemma RunPrefixFits(item: Item, s: string, i: nat, c: nat)
    requires item.Rep? && i + c <= |s| && item.min <= c <= RunLen(item.cls, s, i)
    requires item.max.None? || c <= item.max.value
    ensures Fits(item, s, i, i + c)
  {
    RunLenMaximal(item.cls, s, i);
  }

  /** Whenever some trace witnesses a match at `i`, `Match` finds one. */
  lemma {:induction false} MatchComplete(items: seq<Item>, s: string, i: nat, ps: seq<nat>)
    requires i <= |s| && Accepts(items, s, i, ps)
    ensures Match(items, s, i).Some?
    decreases |items|
  {
    if |items| > 0 {
      var p, t := ps[0], ps[1..];
      assert ps == [p] + t;
      AcceptsSplit(items, s, i, p, t);
      MatchComplete(items[1..], s, p, t);
      match items[0]
      case Boundary =>
      case Rep(k, mn, mx) =>
        var n := RunLen(k, s, i);
        RunLenAtLeast(k, s, i, p);
        TryCountsComplete(items, s, i, Capped(n, mx), p - i);
    }
  }

  lemma {:induction false} TryCountsComplete(items: seq<Item>, s: string, i: nat, c: nat, c0: nat)
    requires |items| > 0 && items[0].Rep? && i + c <= |s|
    requires items[0].min <= c0 <= c
    requires Match(items[1..], s, i + c0).Some?
    ensures TryCounts(items, s, i, c).Some?
    decreases c
  {
    if c > c0 && Match(items[1..], s, i + c).None? {
      TryCountsComplete(items, s, i, c - 1, c0);
    }
  }

  /** The rest of the expression after the leading quantifier finds no match at `p`. */
  predicate RestFails(items: seq<Item>, s: string, p: nat)
    requires |items| > 0 && p <= |s|
  {
    Match(items[1..], s, p).None?
  }

  /** Greedy backtracking: the leading quantifier takes the largest count `c0` (not above
      `c`) after which the rest of the expression matches. */
  lemma {:induction false} TryCountsPicks(items: seq<Item>, s: string, i: nat, c: nat, c0: nat)
    requires |items| > 0 && items[0].Rep? && i + c <= |s|
    requires items[0].min <= c0 <= c
    requires Match(items[1..], s, i + c0).Some?
    requires forall p :: i + c0 < p <= i + c ==> RestFails(items, s, p)
    ensures TryCounts(items, s, i, c) == Some([i + c0] + Match(items[1..], s, i + c0).value)
    decreases c
  {
    if c > c0 {
      assert RestFails(items, s, i + c);
      TryCountsPicks(items, s, i, c - 1, c0);
    }
  }

  /** When the rest matches after the longest run the quantifier may take, that run is
      taken. */
  lemma GreedyTakesAll(items: seq<Item>, s: string, i: nat)
    requires i <= |s| && |items| > 0 && items[0].Rep?
    requires Capped(RunLen(items[0].cls, s, i), items[0].max) >= items[0].min
    requires Match(items[1..], s, i + Capped(RunLen(items[0].cls, s, i), items[0].max)).Some?
    ensures var n := Capped(RunLen(items[0].cls, s, i), items[0].max);
            Match(items, s, i) == Some([i + n] + Match(items[1..], s, i + n).value)
  {
    var n := Capped(RunLen(items[0].cls, s, i), items[0].max);
    assert Match(items, s, i) == TryCounts(items, s, i, n);
  }

  /** The expression cannot match the empty string: some item needs a character. */
  predicate Mandatory(items: seq<Item>) {
    exists j :: 0 <= j < |items| && items[j].Rep? && items[j].min >= 1
  }

  /** A match ends at or after its start, and strictly after it when some item needs a
      character. */
  lemma {:induction false} EndAfterStart(items: seq<Item>, s: string, i: nat, ps: seq<nat>)
    requires i <= |s| && Accepts(items, s, i, ps)
    ensures i <= End(i, ps) <= |s|
    ensures Mandatory(items) ==> i < End(i, ps)
    decreases |items|
  {
    if |items| > 0 {
      var p, t := ps[0], ps[1..];
      assert ps == [p] + t;
      AcceptsSplit(items, s, i, p, t);
      EndAfterStart(items[1..], s, p, t);
      assert End(i, ps) == End(p, t);
      if Mandatory(items) && !(items[0].Rep? && items[0].min >= 1) {
        var j :| 0 <= j < |items| && items[j].Rep? && items[j].min >= 1;
        assert items[1..][j - 1] == items[j];
      }
    }
  }

  /** A piece of a replacement string: literal text, or the text matched by the items
      `from` to `to - 1` (a capture group written `$n`). */
  datatype Piece = Text(text: string) | Group(from: nat, to: nat)

  /** A global replacement: the expression, and the replacement string. */
  datatype Rule = Rule(items: seq<Item>, replacement: seq<Piece>)

  /** The text matched by the items `a` to `b - 1` of the match with trace `ps`. */
  function GroupText(s: string, i: nat, ps: seq<nat>, a: nat, b: nat): string {
    if a <= b <= |ps| && Before(i, ps, a) <= Before(i, ps, b) <= |s| then
      s[Before(i, ps, a)..Before(i, ps, b)]
    else ""
  }

  function Render(pieces: seq<Piece>, s: string, i: nat, ps: seq<nat>): string
    decreases |pieces|
  {
    if |pieces| == 0 then ""
    else
      (match pieces[0]
       case Text(t) => t
       case Group(a, b) => GroupText(s, i, ps, a, b))
      + Render(pieces[1..], s, i, ps)
  }

  /** Where a match of an expression that needs a character ends: strictly after its
      start, so that a global replacement moves on. */
  function MatchEnd(items: seq<Item>, s: string, i: nat, ps: seq<nat>): (e: nat)
    requires Mandatory(items) && i <= |s| && Match(items, s, i) == Some(ps)
    ensures e == End(i, ps) && i < e <= |s|
  {
    MatchSound(items, s, i);
    EndAfterStart(items, s, i, ps);
    End(i, ps)
  }

  /** The output of a global replacement from position `i` on. */
  function ReplaceFrom(r: Rule, s: string, i: nat): string
    requires Mandatory(r.items) && i <= |s|
    decreases |s| - i
  {
    if i == |s| then ""
    else
      match Match(r.items, s, i)
      case Some(ps) => Render(r.replacement, s, i, ps) + ReplaceFrom(r, s, MatchEnd(r.items, s, i, ps))
      case None => [s[i]] + ReplaceFrom(r, s, i + 1)
  }

  /** `s.replace(expression, replacement)` for a global expression. */
  function ReplaceAll(r: Rule, s: string): string
    requires Mandatory(r.items)
  {
    ReplaceFrom(r, s, 0)
  }

  /** A match that runs from the start of the text to its end replaces all of it. */
  lemma ReplaceWhole(r: Rule, s: string, ps: seq<nat>)
    requires Mandatory(r.items) && 0 < |s|
    requires Match(r.items, s, 0) == Some(ps) && End(0, ps) == |s|
    ensures ReplaceAll(r, s) == Render(r.replacement, s, 0, ps)
  {
    ReplaceWholeFrom(r, s, 0, ps);
  }

  lemma ReplaceWholeFrom(r: Rule, s: string, i: nat, ps: seq<nat>)
    requires Mandatory(r.items) && i < |s|
    requires Match(r.items, s, i) == Some(ps) && End(i, ps) == |s|
    ensures ReplaceFrom(r, s, i) == Render(r.replacement, s, i, ps)
  {
    assert ReplaceFrom(r, s, i) == Render(r.replacement, s, i, ps) + ReplaceFrom(r, s, |s|);
  }

  /** Where the expression matches nowhere from `i` on, the text is copied unchanged. */
  lemma {:induction false} NoMatchUnchanged(r: Rule, s: string, i: nat)
    requires Mandatory(r.items) && i <= |s|
    requires forall j :: i <= j < |s| ==> Match(r.items, s, j).None?
    ensures ReplaceFrom(r, s, i) == s[i..]
    decreases |s| - i
  {
    if i < |s| {
      NoMatchUnchanged(r, s, i + 1);
      assert s[i..] == [s[i]] + s[i + 1..];
    }
  }

  /** Where nothing matches from `i` up to `j`, that stretch is copied unchanged. */
  lemma {:induction false} NoMatchCopies(r: Rule, s: string, i: nat, j: nat)
    requires Mandatory(r.items) && i <= j <= |s|
    requires forall k :: i <= k < j ==> Match(r.items, s, k).None?
    ensures ReplaceFrom(r, s, i) == s[i..j] + ReplaceFrom(r, s, j)
    decreases j - i
  {
    if i < j {
      NoMatchCopies(r, s, i + 1, j);
      assert s[i..j] == [s[i]] + s[i + 1..j];
    }
  }

  /** The run of class `k` from `a` is exactly `s[a..b]` when every character there is in
      the class and the one at `b`, if any, is not. */
  lemma {:induction false} RunLenOver(k: CharClass, s: string, a: nat, b: nat)
    requires a <= b <= |s|
    requires forall j :: a <= j < b ==> Has(k, s[j])
    requires b == |s| || !Has(k, s[b])
    ensures RunLen(k, s, a) == b - a
    decreases b - a
  {
    if a < b {
      RunLenOver(k, s, a + 1, b);
    }
  }

  /** The positions `p + 1`, ..., `p + n`: the trace of `n` literal characters from `p`. */
  function Steps(p: nat, n: nat): (r: seq<nat>)
    ensures |r| == n && forall j :: 0 <= j < n ==> r[j] == p + j + 1
    decreases n
  {
    if n == 0 then [] else [p + 1] + Steps(p + 1, n - 1)
  }

  /** Character `c` is the letter `k` in either case (or `k` itself when it is not a
      small letter). */
  predicate SameLetter(c: char, k: char) {
    c == k || ('a' <= k <= 'z' && c == (k as int - 32) as char)
  }

  /** The word `key` occurs at `p`, each letter in either case. */
  predicate OccursIgnoringCase(s: string, key: string, p: nat) {
    p + |key| <= |s| && forall j :: 0 <= j < |key| ==> SameLetter(s[p + j], key[j])
  }

  /** A word that occurs in `x` occurs in any text around `x`, shifted by the text before. */
  lemma OccursInContext(pre: string, x: string, post: string, key: string)
    requires OccursIgnoringCase(x, key, 0)
    ensures OccursIgnoringCase(pre + x + post, key, |pre|)
  {
    var s := pre + x + post;
    forall j | 0 <= j < |key|
      ensures SameLetter(s[|pre| + j], key[j])
    {
      assert s[|pre| + j] == x[j];
      assert SameLetter(x[0 + j], key[j]);
    }
  }

  /** A case-insensitive literal matches the word at `p` in either case, one character
      per item. */
  lemma {:induction false} LitsNoCaseMatch(key: string, rest: seq<Item>, s: string, p: nat)
    requires OccursIgnoringCase(s, key, p)
    requires Match(rest, s, p + |key|).Some?
    ensures Match(LitsNoCase(key) + rest, s, p)
         == Some(Steps(p, |key|) + Match(rest, s, p + |key|).value)
    decreases |key|
  {
    if |key| > 0 {
      var items := LitsNoCase(key) + rest;
      assert items == [LitNoCase(key[0])] + (LitsNoCase(key[1..]) + rest);
      assert items[1..] == LitsNoCase(key[1..]) + rest;
      assert OccursIgnoringCase(s, key[1..], p + 1) by {
        forall j | 0 <= j < |key| - 1
          ensures SameLetter(s[p + 1 + j], key[1..][j])
        {
          assert SameLetter(s[p + (j + 1)], key[j + 1]);
        }
      }
      LitsNoCaseMatch(key[1..], rest, s, p + 1);
      assert SameLetter(s[p + 0], key[0]);
      LitNoCaseStep(key[0], LitsNoCase(key[1..]) + rest, s, p);
      assert p + 1 + |key[1..]| == p + |key|;
      var m := Match(rest, s, p + |key|).value;
      assert Match(LitsNoCase(key[1..]) + rest, s, p + 1) == Some(Steps(p + 1, |key| - 1) + m);
      assert Steps(p, |key|) + m == [p + 1] + (Steps(p + 1, |key| - 1) + m);
    } else {
      assert LitsNoCase(key) + rest == rest;
      assert Steps(p, 0) + Match(rest, s, p).value == Match(rest, s, p).value;
    }
  }

  lemma LitNoCaseStep(c: char, rest: seq<Item>, s: string, p: nat)
    requires p < |s| && SameLetter(s[p], c)
    requires Match(rest, s, p + 1).Some?
    ensures Match([LitNoCase(c)] + rest, s, p) == Some([p + 1] + Match(rest, s, p + 1).value)
  {
    var items := [LitNoCase(c)] + rest;
    assert items[1..] == rest;
    assert Has(items[0].cls, s[p]);
    assert RunLen(items[0].cls, s, p) >= 1;
    GreedyTakesAll(items, s, p);
  }

  /** One greedy step inside an expression: the quantifier `items[k]` at `a` takes the
      whole run up to `b`, and the rest matches from `b`. */
  lemma RepStepAt(items: seq<Item>, k: nat, s: string, a: nat, b: nat)
    requires k < |items| && items[k].Rep? && a <= b <= |s|
    requires forall j :: a <= j < b ==> Has(items[k].cls, s[j])
    requires b == |s| || !Has(items[k].cls, s[b]) || (items[k].max.Some? && b - a == items[k].max.value)
    requires items[k].max.None? || b - a <= items[k].max.value
    requires b - a >= items[k].min
    requires Match(items[k + 1..], s, b).Some?
    ensures Match(items[k..], s, a) == Some([b] + Match(items[k + 1..], s, b).value)
  {
    var n := RunLen(items[k].cls, s, a);
    assert n >= b - a by {
      RunLenAtLeast(items[k].cls, s, a, b);
    }
    if b == |s| || !Has(items[k].cls, s[b]) {
      RunLenOver(items[k].cls, s, a, b);
    }
    assert items[k..][0] == items[k] && items[k..][1..] == items[k + 1..];
    GreedyTakesAll(items[k..], s, a);
  }

  lemma {:induction false} RunLenAtLeast(k: CharClass, s: string, a: nat, b: nat)
    requires a <= b <= |s|
    requires forall j :: a <= j < b ==> Has(k, s[j])
    ensures RunLen(k, s, a) >= b - a
    decreases b - a
  {
    if a < b {
      RunLenAtLeast(k, s, a + 1, b);
    }
  }

  /** A mandatory quantifier fails where its class does not start. */
  lemma RepFailsAt(items: seq<Item>, s: string, p: nat)
    requires p <= |s| && |items| > 0 && items[0].Rep? && items[0].min >= 1
    requires p == |s| || !Has(items[0].cls, s[p])
    ensures Match(items, s, p).None?
  {
    assert RunLen(items[0].cls, s, p) == 0;
  }

  /** A word boundary inside an expression. */
  lemma BoundaryStepAt(items: seq<Item>, k: nat, s: string, a: nat)
    requires k < |items| && items[k].Boundary? && a <= |s| && AtBoundary(s, a)
    requires Match(items[k + 1..], s, a).Some?
    ensures Match(items[k..], s, a) == Some([a] + Match(items[k + 1..], s, a).value)
  {
    assert items[k..][0] == items[k] && items[k..][1..] == items[k + 1..];
  }
}
