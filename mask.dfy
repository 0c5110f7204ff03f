/** Masking of the code before it is sent to the model (src/shared/lib/mask.ts): the
    chain of substitutions that hides secret-looking text, as written, and beside it the
    same chain with the international telephone rule as evidently intended. */
module Mask {
  import opened Types
  import opened Text
  import opened Pattern

  const Masked: string := "***MASKED***"

  const Quote: CharClass := Chars("\"'")

  /** `\s*[:=]\s*["']?` followed by the value and `["']?`: the tail that the `api_key`,
      `password` and `secret` assignments share. Items 0 to 3 belong to the first capture
      group, `value` is the second group and the trailing optional quote the third. */
  function AssignmentItems(value: Item): seq<Item> {
    [Rep(Space, 0, None), Rep(Chars(":="), 1, Some(1)), Rep(Space, 0, None),
     Rep(Quote, 0, Some(1)), value, Rep(Quote, 0, Some(1))]
  }

  /** `\b(sk-[a-zA-Z0-9]{20,})\b`, global, replaced by `sk-***MASKED***`. */
  function SkRule(): (r: Rule)
    ensures Mandatory(r.items)
  {
    var r := Rule([Boundary, Lit('s'), Lit('k'), Lit('-'), Rep(Alnum, 20, None), Boundary],
           [Text("sk-" + Masked)]);
    assert r.items[1].min >= 1;
    r
  }

  /** `\b(AKIA[a-zA-Z0-9]{16,})\b`, global, replaced by `AKIA***MASKED***`. */
  function AkiaRule(): (r: Rule)
    ensures Mandatory(r.items)
  {
    var r := Rule([Boundary, Lit('A'), Lit('K'), Lit('I'), Lit('A'), Rep(Alnum, 16, None), Boundary],
           [Text("AKIA" + Masked)]);
    assert r.items[1].min >= 1;
    r
  }

  const ApiSeparator: Item := Rep(Chars("_-"), 0, Some(1))
  const ApiValue: Item := Rep(Alnum, 20, None)

  /** `\b(api[_-]?key\s*[:=]\s*["']?)([a-zA-Z0-9]{20,})(["']?)`, global and
      case-insensitive, replaced by `$1***MASKED***$3`. */
  function ApiKeyRule(): (r: Rule)
    ensures Mandatory(r.items)
  {
    var r := Rule([Boundary] + (LitsNoCase("api") + ([ApiSeparator] + (LitsNoCase("key")
           + AssignmentItems(ApiValue)))),
           [Group(0, 12), Text(Masked), Group(13, 14)]);
    assert r.items[1].min >= 1;
    r
  }

  /** `\b(ey[a-zA-Z0-9]{30,}\.[a-zA-Z0-9]+\.[a-zA-Z0-9_-]+)\b`, global, replaced by
      `ey***MASKED***.***MASKED***.***MASKED***`. */
  function JwtRule(): (r: Rule)
    ensures Mandatory(r.items)
  {
    var r := Rule([Boundary, Lit('e'), Lit('y'), Rep(Alnum, 30, None), Lit('.'), Rep(Alnum, 1, None),
            Lit('.'), Rep(Union(Alnum, Chars("_-")), 1, None), Boundary],
           [Text("ey" + Masked + "." + Masked + "." + Masked)]);
    assert r.items[1].min >= 1;
    r
  }

  const LocalPart: CharClass := Union(Alnum, Chars("._%+-"))
  const DomainPart: CharClass := Union(Alnum, Chars(".-"))

  /** `\b([a-zA-Z0-9._%+-]+)@([a-zA-Z0-9.-]+\.[a-zA-Z]{2,})\b`, global, replaced by
      `***@$2`. */
  function EmailRule(): (r: Rule)
    ensures Mandatory(r.items)
  {
    var r := Rule([Boundary, Rep(LocalPart, 1, None), Lit('@'), Rep(DomainPart, 1, None), Lit('.'),
            Rep(Letter, 2, None), Boundary],
           [Text("***@"), Group(3, 6)]);
    assert r.items[1].min >= 1;
    r
  }

  /** `\d{1,4}-?\d{1,4}-?\d{4}`, the digits of a Japanese telephone number. */
  const PhoneDigits: seq<Item> :=
    [Rep(Digit, 1, Some(4)), Rep(Chars("-"), 0, Some(1)), Rep(Digit, 1, Some(4)),
     Rep(Chars("-"), 0, Some(1)), Rep(Digit, 4, Some(4))]

  /** `\b(0\d{1,4}-?\d{1,4}-?\d{4})\b`, global, replaced by `***-****-****`. */
  function PhoneRule(): (r: Rule)
    ensures Mandatory(r.items)
  {
    var r := Rule([Boundary, Lit('0')] + PhoneDigits + [Boundary], [Text("***-****-****")]);
    assert r.items[1].min >= 1;
    r
  }

  const IntlPhoneMasked: string := "+81 ***-****-****"

  /** `\b(\+81\s?\d{1,4}-?\d{1,4}-?\d{4})\b`, global, replaced by `+81 ***-****-****`,
      as written. The leading `\b` sits before `+`, which is not a word character, so it
      holds only after a word character: see `IntlPhoneNeverAfterNonWord`. */
  function IntlPhoneRule(): (r: Rule)
    ensures Mandatory(r.items)
  {
    var r := Rule([Boundary] + IntlPhoneItems, [Text(IntlPhoneMasked)]);
    assert r.items[1].min >= 1;
    r
  }

  /** `\+81\s?\d{1,4}-?\d{1,4}-?\d{4}\b`: the international number without the leading
      boundary. */
  const IntlPhoneItems: seq<Item> :=
    [Lit('+'), Lit('8'), Lit('1'), Rep(Space, 0, Some(1))] + PhoneDigits + [Boundary]

  /** The international rule as evidently intended: `(\+81\s?\d{1,4}-?\d{1,4}-?\d{4})\b`,
      which also masks a number at the start of the text or after a space. */
  function IntlPhoneRuleCorrected(): (r: Rule)
    ensures Mandatory(r.items)
  {
    var r := Rule(IntlPhoneItems, [Text(IntlPhoneMasked)]);
    assert r.items[0].min >= 1;
    r
  }

  const Digits4: Item := Rep(Digit, 4, Some(4))
  const CardSeparator: Item := Rep(Union(Chars("-"), Space), 0, Some(1))

  /** `\b(\d{4}[-\s]?\d{4}[-\s]?\d{4}[-\s]?\d{4})\b`, global, replaced by
      `****-****-****-****`. */
  function CardRule(): (r: Rule)
    ensures Mandatory(r.items)
  {
    var r := Rule([Boundary, Digits4, CardSeparator, Digits4, CardSeparator, Digits4, CardSeparator,
            Digits4, Boundary],
           [Text("****-****-****-****")]);
    assert r.items[1].min >= 1;
    r
  }

  /** `(<key>\s*[:=]\s*["']?)([^"'\s]+)(["']?)`, global and case-insensitive, replaced
      by `$1***MASKED***$3`; used with the keys `password` and `secret`. */
  function SecretAssignmentRule(key: string): (r: Rule)
    requires |key| > 0
    ensures Mandatory(r.items)
  {
    var r := Rule(LitsNoCase(key) + AssignmentItems(Rep(Not(Union(Quote, Space)), 1, None)),
         [Group(0, |key| + 4), Text(Masked), Group(|key| + 5, |key| + 6)]);
    assert r.items[0] == LitNoCase(key[0]);
    r
  }

  function PasswordRule(): (r: Rule)
    ensures Mandatory(r.items)
  {
    SecretAssignmentRule("password")
  }

  function SecretRule(): (r: Rule)
    ensures Mandatory(r.items)
  {
    SecretAssignmentRule("secret")
  }

  /** The ten global replacements of `maskSensitiveData`, each applied to the output of
      the one before, with the given international telephone rule in seventh place. */
  function MaskChain(intlPhone: Rule, code: string): string
    requires Mandatory(intlPhone.items)
  {
    var apiKeys := ReplaceAll(ApiKeyRule(), ReplaceAll(AkiaRule(), ReplaceAll(SkRule(), code)));
    var tokens := ReplaceAll(JwtRule(), apiKeys);
    var emails := ReplaceAll(EmailRule(), tokens);
    var phones := ReplaceAll(intlPhone, ReplaceAll(PhoneRule(), emails));
    var cards := ReplaceAll(CardRule(), phones);
    ReplaceAll(SecretRule(), ReplaceAll(PasswordRule(), cards))
  }

  /** `maskSensitiveData` as written, with the international telephone rule whose leading
      `\b` keeps it from matching after a space or at the start of the text. */
  function MaskSensitiveData(code: string): string {
    MaskChain(IntlPhoneRule(), code)
  }

  /** `maskSensitiveData` with the international telephone rule as evidently intended. */
  function MaskSensitiveDataCorrected(code: string): string {
    MaskChain(IntlPhoneRuleCorrected(), code)
  }

  /** Item `k` of an expression needs a character, and only ASCII letters and digits can
      be that character. */
  predicate NeedsAlnum(items: seq<Item>, k: nat) {
    k < |items| && items[k].Rep? && items[k].min >= 1
    && forall c :: Has(items[k].cls, c) ==> IsAlnum(c)
  }

  /** A match of an expression with an item that needs a letter or a digit takes one. */
  lemma MatchTakesAlnum(items: seq<Item>, k: nat, s: string, i: nat)
    requires NeedsAlnum(items, k) && i <= |s|
    ensures Match(items, s, i).Some? ==> exists x :: 0 <= x < |s| && IsAlnum(s[x])
  {
    MatchSound(items, s, i);
    if Match(items, s, i).Some? {
      var ps := Match(items, s, i).value;
      var a := Before(i, ps, k);
      assert Fits(items[k], s, a, ps[k]);
      assert Has(items[k].cls, s[a]);
    }
  }

  /** An expression with an item that needs a letter or a digit matches nowhere in a text
      without letters and digits, so a global replacement keeps that text. */
  lemma PlainTextKept(r: Rule, k: nat, s: string)
    requires Mandatory(r.items) && NeedsAlnum(r.items, k)
    requires forall j :: 0 <= j < |s| ==> !IsAlnum(s[j])
    ensures ReplaceAll(r, s) == s
  {
    forall i | 0 <= i < |s|
      ensures Match(r.items, s, i).None?
    {
      MatchTakesAlnum(r.items, k, s, i);
    }
    NoMatchUnchanged(r, s, 0);
  }

  /** Where each of the ten rules needs a letter or a digit. */
  lemma TokenRulesNeedAlnum()
    ensures NeedsAlnum(SkRule().items, 1) && NeedsAlnum(AkiaRule().items, 1)
    ensures NeedsAlnum(JwtRule().items, 1)
  {
  }

  lemma ApiKeyRuleNeedsAlnum()
    ensures NeedsAlnum(ApiKeyRule().items, 1)
  {
    assert ApiKeyRule().items[1] == LitNoCase('a');
  }

  lemma PasswordRuleNeedsAlnum()
    ensures NeedsAlnum(PasswordRule().items, 0)
  {
    assert PasswordRule().items[0] == LitNoCase('p');
  }

  lemma SecretRuleNeedsAlnum()
    ensures NeedsAlnum(SecretRule().items, 0)
  {
    assert SecretRule().items[0] == LitNoCase('s');
  }

  lemma EmailRuleNeedsAlnum()
    ensures NeedsAlnum(EmailRule().items, 5)
  {
  }

  lemma NumberRulesNeedAlnum()
    ensures NeedsAlnum(PhoneRule().items, 1) && NeedsAlnum(CardRule().items, 1)
    ensures NeedsAlnum(IntlPhoneRule().items, 2) && NeedsAlnum(IntlPhoneRuleCorrected().items, 1)
  {
  }

  /** Every one of the ten rules needs an ASCII letter or digit somewhere: text without
      any (punctuation, white space, other scripts) passes through the masking unchanged,
      with either international telephone rule. */
  lemma MaskKeepsPlainText(code: string)
    requires forall j :: 0 <= j < |code| ==> !IsAlnum(code[j])
    ensures MaskSensitiveData(code) == code
    ensures MaskSensitiveDataCorrected(code) == code
  {
    TokenRulesNeedAlnum();
    ApiKeyRuleNeedsAlnum();
    PasswordRuleNeedsAlnum();
    SecretRuleNeedsAlnum();
    EmailRuleNeedsAlnum();
    NumberRulesNeedAlnum();
    PlainTextKept(SkRule(), 1, code);
    PlainTextKept(AkiaRule(), 1, code);
    PlainTextKept(ApiKeyRule(), 1, code);
    PlainTextKept(JwtRule(), 1, code);
    PlainTextKept(EmailRule(), 5, code);
    PlainTextKept(PhoneRule(), 1, code);
    PlainTextKept(IntlPhoneRule(), 2, code);
    PlainTextKept(IntlPhoneRuleCorrected(), 1, code);
    PlainTextKept(CardRule(), 1, code);
    PlainTextKept(PasswordRule(), 0, code);
    PlainTextKept(SecretRule(), 0, code);
  }

  /** `\b<w>[a-zA-Z0-9]{n,}\b`: a fixed word followed by at least `n` letters and digits,
      with a word boundary on each side; the shape of the `sk-` and `AKIA` rules. */
  function TokenItems(w: string, n: nat): (items: seq<Item>)
    ensures |items| == |w| + 3 && items[0] == Boundary
    ensures forall m :: 1 <= m <= |w| ==> items[m] == Lit(w[m - 1])
    ensures items[|w| + 1] == Rep(Alnum, n, None) && items[|w| + 2] == Boundary
  {
    [Boundary] + Lits(w) + [Rep(Alnum, n, None), Boundary]
  }

  /** The word `w` occurs in `s` at `j`. */
  predicate Spells(s: string, w: string, j: nat) {
    j + |w| <= |s| && s[j..j + |w|] == w
  }

  /** The word `w` occurs in `s` at `p` and nowhere else. */
  ghost predicate OnlyAt(s: string, w: string, p: nat) {
    forall j: nat :: Spells(s, w, j) ==> j == p
  }

  /** The first `m` literals of a token match spell the first `m` characters of the word. */
  lemma {:induction false} TokenLitsTrace(w: string, n: nat, s: string, j: nat, t: seq<nat>, m: nat)
    requires j <= |s| && Accepts(TokenItems(w, n), s, j, t) && m <= |w|
    ensures t[m] == j + m && j + m <= |s|
    ensures forall k :: 0 <= k < m ==> s[j + k] == w[k]
    decreases m
  {
    var items := TokenItems(w, n);
    assert Fits(items[m], s, Before(j, t, m), t[m]);
    if m > 0 {
      TokenLitsTrace(w, n, s, j, t, m - 1);
      assert items[m] == Lit(w[m - 1]);
    }
  }

  /** A token match at `j` spells the word from `j`, then runs over at least `n` letters
      and digits up to a word boundary, where it ends. */
  lemma TokenTrace(w: string, n: nat, s: string, j: nat, t: seq<nat>)
    requires j <= |s| && Accepts(TokenItems(w, n), s, j, t)
    ensures Spells(s, w, j)
    ensures j + |w| + n <= t[|w| + 1] <= |s| && End(j, t) == t[|w| + 1]
    ensures forall k :: j + |w| <= k < t[|w| + 1] ==> IsAlnum(s[k])
    ensures AtBoundary(s, t[|w| + 1])
  {
    var items := TokenItems(w, n);
    TokenLitsTrace(w, n, s, j, t, |w|);
    assert s[j..j + |w|] == w;
    assert Fits(items[|w| + 1], s, Before(j, t, |w| + 1), t[|w| + 1]);
    assert Fits(items[|w| + 2], s, Before(j, t, |w| + 2), t[|w| + 2]);
  }

  /** The trace of the token at `p`: the word's characters, then the tail's run. */
  lemma TokenAccepts(w: string, n: nat, s: string, p: nat, e: nat)
    requires 0 < |w| && 0 < n && p + |w| + n <= e <= |s|
    requires Spells(s, w, p) && IsWordChar(w[0]) && (p == 0 || !IsWordChar(s[p - 1]))
    requires forall k :: p + |w| <= k < e ==> IsAlnum(s[k])
    requires e == |s| || !IsWordChar(s[e])
    ensures Accepts(TokenItems(w, n), s, p, [p] + Steps(p, |w|) + [e, e])
  {
    var items := TokenItems(w, n);
    var ps := [p] + Steps(p, |w|) + [e, e];
    assert |ps| == |w| + 3 && ps[0] == p && ps[|w| + 1] == e && ps[|w| + 2] == e;
    assert forall m :: 1 <= m <= |w| ==> ps[m] == p + m;
    forall m | 0 <= m < |items|
      ensures Fits(items[m], s, Before(p, ps, m), ps[m])
    {
      if 1 <= m <= |w| {
        assert Before(p, ps, m) == p + (m - 1);
        assert w[m - 1] == s[p..p + |w|][m - 1];
        LitFits(w[m - 1], s, p + (m - 1));
      } else if m == |w| + 1 {
        assert Before(p, ps, m) == p + |w|;
      } else if m == |w| + 2 {
        assert Before(p, ps, m) == e;
        assert IsAlnum(s[e - 1]);
      } else {
        assert s[p] == w[0] by {
          assert w[0] == s[p..p + |w|][0];
        }
      }
    }
  }

  lemma LitFits(c: char, s: string, a: nat)
    requires a < |s| && s[a] == c
    ensures Fits(Lit(c), s, a, a + 1)
  {
  }

  /** A token expression matches at `p` of `pre + w + tail + post`, running to the end of
      the tail when the tail has at least `n` letters and digits. */
  lemma TokenMatchAt(w: string, n: nat, pre: string, tail: string, post: string) returns (t: seq<nat>)
    requires 0 < |w| && IsWordChar(w[0]) && 0 < n <= |tail|
    requires forall k :: 0 <= k < |tail| ==> IsAlnum(tail[k])
    requires |pre| == 0 || !IsWordChar(pre[|pre| - 1])
    requires |post| == 0 || !IsWordChar(post[0])
    ensures var s := pre + w + tail + post;
      Match(TokenItems(w, n), s, |pre|) == Some(t) && End(|pre|, t) == |pre| + |w| + |tail|
  {
    var s := pre + w + tail + post;
    var items := TokenItems(w, n);
    var p, e := |pre|, |pre| + |w| + |tail|;
    assert s[p..p + |w|] == w;
    assert forall k :: p + |w| <= k < e ==> s[k] == tail[k - p - |w|];
    assert e < |s| ==> s[e] == post[0];
    assert p > 0 ==> s[p - 1] == pre[p - 1];
    TokenAccepts(w, n, s, p, e);
    MatchComplete(items, s, p, [p] + Steps(p, |w|) + [e, e]);
    MatchSound(items, s, p);
    t := Match(items, s, p).value;
    TokenTrace(w, n, s, p, t);
  }

  /** What a token match at `j` needs: the word at `j`, then `n` letters and digits. */
  lemma TokenMatchShape(w: string, n: nat, s: string, j: nat)
    requires j <= |s|
    ensures Match(TokenItems(w, n), s, j).Some? ==>
      Spells(s, w, j) && j + |w| + n <= |s| && forall k :: j + |w| <= k < j + |w| + n ==> IsAlnum(s[k])
  {
    MatchSound(TokenItems(w, n), s, j);
    if Match(TokenItems(w, n), s, j).Some? {
      TokenTrace(w, n, s, j, Match(TokenItems(w, n), s, j).value);
    }
  }

  /** A token expression matches nowhere but where its word occurs. */
  lemma TokenOnlyAt(r: Rule, w: string, n: nat, s: string, p: nat)
    requires r.items == TokenItems(w, n) && OnlyAt(s, w, p)
    ensures forall j :: 0 <= j <= |s| && j != p ==> Match(r.items, s, j).None?
  {
    forall j | 0 <= j <= |s| && j != p
      ensures Match(r.items, s, j).None?
    {
      TokenMatchShape(w, n, s, j);
    }
  }

  /** The `sk-` and `AKIA` rules inside any code: a token whose word occurs nowhere else,
      standing between non-word characters or the ends of the text, is replaced by the
      rule's text when its tail of letters and digits is long enough; otherwise, and
      everywhere around it, the text is kept. */
  lemma TokenInContext(r: Rule, w: string, n: nat, masked: string, pre: string, tail: string, post: string)
    requires r.items == TokenItems(w, n) && r.replacement == [Text(masked)] && Mandatory(r.items)
    requires 0 < |w| && IsWordChar(w[0]) && 0 < n
    requires forall k :: 0 <= k < |tail| ==> IsAlnum(tail[k])
    requires |pre| == 0 || !IsWordChar(pre[|pre| - 1])
    requires |post| == 0 || !IsWordChar(post[0])
    requires OnlyAt(pre + w + tail + post, w, |pre|)
    ensures ReplaceAll(r, pre + w + tail + post) == pre + (if |tail| >= n then masked else w + tail) + post
  {
    if |tail| >= n {
      LongTokenMasked(r, w, n, masked, pre, tail, post);
    } else {
      ShortTokenKept(r, w, n, pre, tail, post);
    }
  }

  lemma LongTokenMasked(r: Rule, w: string, n: nat, masked: string, pre: string, tail: string, post: string)
    requires r.items == TokenItems(w, n) && r.replacement == [Text(masked)] && Mandatory(r.items)
    requires 0 < |w| && IsWordChar(w[0]) && 0 < n <= |tail|
    requires forall k :: 0 <= k < |tail| ==> IsAlnum(tail[k])
    requires |pre| == 0 || !IsWordChar(pre[|pre| - 1])
    requires |post| == 0 || !IsWordChar(post[0])
    requires OnlyAt(pre + w + tail + post, w, |pre|)
    ensures ReplaceAll(r, pre + w + tail + post) == pre + masked + post
  {
    var s := pre + w + tail + post;
    var p, e := |pre|, |pre| + |w| + |tail|;
    TokenOnlyAt(r, w, n, s, p);
    var t := TokenMatchAt(w, n, pre, tail, post);
    NoMatchCopies(r, s, 0, p);
    assert Render(r.replacement, s, p, t) == masked;
    assert MatchEnd(r.items, s, p, t) == e;
    assert ReplaceFrom(r, s, p) == masked + ReplaceFrom(r, s, e);
    NoMatchUnchanged(r, s, e);
    assert s[0..p] == pre && s[e..] == post;
  }

  lemma ShortTokenKept(r: Rule, w: string, n: nat, pre: string, tail: string, post: string)
    requires r.items == TokenItems(w, n) && Mandatory(r.items)
    requires |tail| < n
    requires |post| == 0 || !IsWordChar(post[0])
    requires OnlyAt(pre + w + tail + post, w, |pre|)
    ensures ReplaceAll(r, pre + w + tail + post) == pre + (w + tail) + post
  {
    var s := pre + w + tail + post;
    var p, e := |pre|, |pre| + |w| + |tail|;
    TokenOnlyAt(r, w, n, s, p);
    assert e < |s| ==> s[e] == post[0];
    TokenMatchShape(w, n, s, p);
    NoMatchUnchanged(r, s, 0);
    assert s[0..] == pre + (w + tail) + post;
  }

  /** `sk-` followed by letters and digits, inside any code where `sk-` occurs only
      there, between non-word characters: masked with 20 or more of them, else kept. */
  lemma SkTokenInContext(pre: string, tail: string, post: string)
    requires forall k :: 0 <= k < |tail| ==> IsAlnum(tail[k])
    requires |pre| == 0 || !IsWordChar(pre[|pre| - 1])
    requires |post| == 0 || !IsWordChar(post[0])
    requires OnlyAt(pre + "sk-" + tail + post, "sk-", |pre|)
    ensures ReplaceAll(SkRule(), pre + "sk-" + tail + post)
         == pre + (if |tail| >= 20 then "sk-" + Masked else "sk-" + tail) + post
  {
    assert SkRule().items == TokenItems("sk-", 20);
    TokenInContext(SkRule(), "sk-", 20, "sk-" + Masked, pre, tail, post);
  }

  /** `AKIA` followed by letters and digits, inside any code where `AKIA` occurs only
      there, between non-word characters: masked with 16 or more of them, else kept. */
  lemma AkiaTokenInContext(pre: string, tail: string, post: string)
    requires forall k :: 0 <= k < |tail| ==> IsAlnum(tail[k])
    requires |pre| == 0 || !IsWordChar(pre[|pre| - 1])
    requires |post| == 0 || !IsWordChar(post[0])
    requires OnlyAt(pre + "AKIA" + tail + post, "AKIA", |pre|)
    ensures ReplaceAll(AkiaRule(), pre + "AKIA" + tail + post)
         == pre + (if |tail| >= 16 then "AKIA" + Masked else "AKIA" + tail) + post
  {
    assert AkiaRule().items == TokenItems("AKIA", 16);
    TokenInContext(AkiaRule(), "AKIA", 16, "AKIA" + Masked, pre, tail, post);
  }

  /** A word-bounded `sk-` followed by 20 or more ASCII letters and digits is replaced
      as a whole by `sk-***MASKED***`; with a shorter tail nothing is replaced. */
  lemma SkTokenMasked(tail: string)
    requires forall j :: 0 <= j < |tail| ==> IsAlnum(tail[j])
    ensures ReplaceAll(SkRule(), "sk-" + tail)
         == if |tail| >= 20 then "sk-" + Masked else "sk-" + tail
  {
    var s := "sk-" + tail;
    var r := SkRule();
    assert forall j :: 3 <= j < |s| ==> s[j] == tail[j - 3];
    if |tail| >= 20 {
      var t := SkWholeMatch(tail);
      assert Render(r.replacement, s, 0, t) == "sk-" + Masked;
      ReplaceWhole(r, s, t);
    } else {
      forall j | 0 <= j < |s|
        ensures Match(r.items, s, j).None?
      {
        SkShortNoMatch(tail, j);
      }
      NoMatchUnchanged(r, s, 0);
    }
  }

  lemma SkShortNoMatch(tail: string, j: nat)
    requires forall k :: 0 <= k < |tail| ==> IsAlnum(tail[k])
    requires |tail| < 20 && j <= |tail| + 3
    ensures Match(SkRule().items, "sk-" + tail, j).None?
  {
    var s := "sk-" + tail;
    var items := SkRule().items;
    assert forall k :: 3 <= k < |s| ==> s[k] == tail[k - 3];
    var m := Match(items, s, j);
    MatchSound(items, s, j);
    if m.Some? {
      SkTraceShape(s, j, m.value);
    }
  }

  /** In a match of the `sk-` rule, a dash is followed by at least 20 more characters. */
  lemma SkTraceShape(s: string, j: nat, t: seq<nat>)
    requires j <= |s| && Accepts(SkRule().items, s, j, t)
    ensures 1 <= t[3] <= |s| && s[t[3] - 1] == '-' && t[3] + 20 <= |s|
  {
    var items := SkRule().items;
    assert Fits(items[0], s, Before(j, t, 0), t[0]);
    assert Fits(items[1], s, Before(j, t, 1), t[1]);
    assert Fits(items[2], s, Before(j, t, 2), t[2]);
    assert Fits(items[3], s, Before(j, t, 3), t[3]);
    assert Fits(items[4], s, Before(j, t, 4), t[4]);
  }

  /** A word-bounded `AKIA` followed by 16 or more ASCII letters and digits is replaced
      as a whole by `AKIA***MASKED***`; with a shorter tail nothing is replaced. */
  lemma AkiaTokenMasked(tail: string)
    requires forall j :: 0 <= j < |tail| ==> IsAlnum(tail[j])
    ensures ReplaceAll(AkiaRule(), "AKIA" + tail)
         == if |tail| >= 16 then "AKIA" + Masked else "AKIA" + tail
  {
    var s := "AKIA" + tail;
    var r := AkiaRule();
    if |tail| >= 16 {
      var t := AkiaWholeMatch(tail);
      assert Render(r.replacement, s, 0, t) == "AKIA" + Masked;
      ReplaceWhole(r, s, t);
    } else {
      forall j | 0 <= j < |s|
        ensures Match(r.items, s, j).None?
      {
        AkiaShortNoMatch(tail, j);
      }
      NoMatchUnchanged(r, s, 0);
    }
  }

  lemma SkWholeMatch(tail: string) returns (t: seq<nat>)
    requires forall j :: 0 <= j < |tail| ==> IsAlnum(tail[j])
    requires |tail| >= 20
    ensures Match(SkRule().items, "sk-" + tail, 0) == Some(t) && End(0, t) == |tail| + 3
  {
    assert SkRule().items == TokenItems("sk-", 20);
    t := TokenMatchAt("sk-", 20, "", tail, "");
    assert "" + "sk-" + tail + "" == "sk-" + tail;
  }

  lemma AkiaWholeMatch(tail: string) returns (t: seq<nat>)
    requires forall j :: 0 <= j < |tail| ==> IsAlnum(tail[j])
    requires |tail| >= 16
    ensures Match(AkiaRule().items, "AKIA" + tail, 0) == Some(t) && End(0, t) == |tail| + 4
  {
    assert AkiaRule().items == TokenItems("AKIA", 16);
    t := TokenMatchAt("AKIA", 16, "", tail, "");
    assert "" + "AKIA" + tail + "" == "AKIA" + tail;
  }

  lemma AkiaShortNoMatch(tail: string, j: nat)
    requires forall k :: 0 <= k < |tail| ==> IsAlnum(tail[k])
    requires |tail| < 16 && j <= |tail| + 4
    ensures Match(AkiaRule().items, "AKIA" + tail, j).None?
  {
    var s := "AKIA" + tail;
    var items := AkiaRule().items;
    var m := Match(items, s, j);
    MatchSound(items, s, j);
    if m.Some? {
      AkiaTraceShape(s, j, m.value);
    }
  }

  /** A match of the `AKIA` rule takes four letters and then at least 16 more
      characters. */
  lemma AkiaTraceShape(s: string, j: nat, t: seq<nat>)
    requires j <= |s| && Accepts(AkiaRule().items, s, j, t)
    ensures j + 20 <= |s|
  {
    var items := AkiaRule().items;
    assert Fits(items[0], s, Before(j, t, 0), t[0]);
    assert Fits(items[1], s, Before(j, t, 1), t[1]);
    assert Fits(items[2], s, Before(j, t, 2), t[2]);
    assert Fits(items[3], s, Before(j, t, 3), t[3]);
    assert Fits(items[4], s, Before(j, t, 4), t[4]);
    assert Fits(items[5], s, Before(j, t, 5), t[5]);
  }

  /** `q` is empty or a single quote: what an optional `["']?` can take. */
  predicate OptionalQuote(q: string) {
    |q| <= 1 && (q == [] || IsQuote(q[0]))
  }

  /** The shared assignment tail `\s*[:=]\s*["']?VALUE["']?` over text that ends with the
      value and its optional closing quote: every quantifier takes all it can, so the
      groups end at `p1` (spaces), `p1 + 1` (the operator), `p3` (spaces), `p4` (the
      opening quote), `p5` (the whole value) and the end of the text (the closing quote). */
  lemma AssignmentTailMatch(value: Item, s: string, p: nat, p1: nat, p3: nat, p4: nat, p5: nat)
    requires value.Rep? && value.max.None?
    requires p <= p1 < p1 + 1 <= p3 <= p4 < p5 <= |s|
    requires forall j :: p <= j < p1 ==> IsSpace(s[j])
    requires s[p1] == ':' || s[p1] == '='
    requires forall j :: p1 + 1 <= j < p3 ==> IsSpace(s[j])
    requires p4 - p3 <= 1 && (p3 < p4 ==> IsQuote(s[p3]))
    requires p5 - p4 >= value.min && forall j :: p4 <= j < p5 ==> Has(value.cls, s[j])
    requires !IsSpace(s[p4]) && !IsQuote(s[p4])
    requires |s| - p5 <= 1 && (p5 < |s| ==> IsQuote(s[p5]) && !Has(value.cls, s[p5]))
    ensures Match(AssignmentItems(value), s, p) == Some([p1, p1 + 1, p3, p4, p5, |s|])
  {
    AssignmentValueMatch(value, s, p3, p4, p5);
    assert !IsSpace(s[p3]) by {
      if p3 < p4 {
        assert IsQuote(s[p3]);
      }
    }
    var A := AssignmentItems(value);
    assert AssignmentHead(A);
    AssignmentOperatorMatch(A, s, p1, p3, [p4, p5, |s|]);
    AssignmentLeadMatch(A, s, p, p1, [p1 + 1, p3] + [p4, p5, |s|]);
    assert [p1] + ([p1 + 1, p3] + [p4, p5, |s|]) == [p1, p1 + 1, p3, p4, p5, |s|];
  }

  /** The items of the assignment tail up to the opening quote, as far as the steps
      below need to know them. */
  predicate AssignmentHead(A: seq<Item>) {
    |A| == 6 && A[0] == Rep(Space, 0, None) && A[1] == Rep(Chars(":="), 1, Some(1))
    && A[2] == Rep(Space, 0, None)
  }

  /** The spaces before the operator. */
  lemma AssignmentLeadMatch(A: seq<Item>, s: string, p: nat, p1: nat, t: seq<nat>)
    requires AssignmentHead(A)
    requires p <= p1 < |s|
    requires forall j :: p <= j < p1 ==> IsSpace(s[j])
    requires s[p1] == ':' || s[p1] == '='
    requires Match(A[1..], s, p1) == Some(t)
    ensures Match(A, s, p) == Some([p1] + t)
  {
    assert !IsSpace(s[p1]);
    RepStepAt(A, 0, s, p, p1);
    assert A[0..] == A;
  }

  /** The operator and the spaces after it. */
  lemma AssignmentOperatorMatch(A: seq<Item>, s: string, p1: nat, p3: nat, t: seq<nat>)
    requires AssignmentHead(A)
    requires p1 + 1 <= p3 < |s|
    requires s[p1] == ':' || s[p1] == '='
    requires forall j :: p1 + 1 <= j < p3 ==> IsSpace(s[j])
    requires !IsSpace(s[p3])
    requires Match(A[3..], s, p3) == Some(t)
    ensures Match(A[1..], s, p1) == Some([p1 + 1, p3] + t)
  {
    RepStepAt(A, 2, s, p1 + 1, p3);
    assert Has(A[1].cls, s[p1]);
    RepStepAt(A, 1, s, p1, p1 + 1);
    assert [p1 + 1] + ([p3] + t) == [p1 + 1, p3] + t;
  }

  /** The part of the assignment tail from the optional opening quote on. */
  lemma AssignmentValueMatch(value: Item, s: string, p3: nat, p4: nat, p5: nat)
    requires value.Rep? && value.max.None?
    requires p3 <= p4 < p5 <= |s|
    requires p4 - p3 <= 1 && (p3 < p4 ==> IsQuote(s[p3]))
    requires p5 - p4 >= value.min && forall j :: p4 <= j < p5 ==> Has(value.cls, s[j])
    requires !IsQuote(s[p4])
    requires |s| - p5 <= 1 && (p5 < |s| ==> IsQuote(s[p5]) && !Has(value.cls, s[p5]))
    ensures Match(AssignmentItems(value)[3..], s, p3) == Some([p4, p5, |s|])
  {
    var A := AssignmentItems(value);
    assert A[6..] == [];
    RepStepAt(A, 5, s, p5, |s|);
    assert [|s|] + [] == [|s|];
    RepStepAt(A, 4, s, p4, p5);
    assert [p5] + [|s|] == [p5, |s|];
    RepStepAt(A, 3, s, p3, p4);
    assert [p4] + [p5, |s|] == [p4, p5, |s|];
  }

  const SecretValue: Item := Rep(Not(Union(Quote, Space)), 1, None)

  /** The text of an assignment `KEY<spaces>OP<spaces>QUOTE VALUE QUOTE`, where the
      quotes may be absent. */
  function AssignmentText(k: string, ws1: string, op: char, ws2: string, q1: string,
                          v: string, q2: string): string {
    k + ws1 + [op] + ws2 + q1 + v + q2
  }

  /** What the text looks like in an assignment that the masking rules recognise. */
  predicate AssignmentShape(ws1: string, op: char, ws2: string, q1: string, q2: string) {
    Blank(ws1) && Blank(ws2) && (op == ':' || op == '=') && OptionalQuote(q1) && OptionalQuote(q2)
  }

  /** The positions of the parts of an assignment text, and the characters there. */
  lemma AssignmentLayout(k: string, ws1: string, op: char, ws2: string, q1: string,
                         v: string, q2: string)
    requires AssignmentShape(ws1, op, ws2, q1, q2) && |v| > 0
    ensures var s := AssignmentText(k, ws1, op, ws2, q1, v, q2);
            var p1 := |k| + |ws1|;
            var p3 := p1 + 1 + |ws2|;
            var p4 := p3 + |q1|;
            var p5 := p4 + |v|;
            && p5 + |q2| == |s|
            && s[..|k|] == k
            && (forall j :: |k| <= j < p1 ==> IsSpace(s[j]))
            && s[p1] == op
            && (forall j :: p1 + 1 <= j < p3 ==> IsSpace(s[j]))
            && (p3 < p4 ==> IsQuote(s[p3]))
            && s[p4..p5] == v
            && (p5 < |s| ==> s[p5] == q2[0])
            && s[..p4] == k + ws1 + [op] + ws2 + q1
            && s[p5..] == q2
  {
    var s := AssignmentText(k, ws1, op, ws2, q1, v, q2);
    var p1 := |k| + |ws1|;
    var p3 := p1 + 1 + |ws2|;
    assert s == (k + ws1 + [op] + ws2 + q1) + v + q2;
    assert forall j :: |k| <= j < p1 ==> s[j] == ws1[j - |k|];
    assert forall j :: p1 + 1 <= j < p3 ==> s[j] == ws2[j - p1 - 1];
  }

  /** Replacing the value of an assignment text by `***MASKED***` keeps the text around
      it. */
  lemma AssignmentValueReplaced(k: string, ws1: string, op: char, ws2: string, q1: string,
                                v: string, q2: string)
    ensures var s := AssignmentText(k, ws1, op, ws2, q1, v, q2);
            var p4 := |k| + |ws1| + 1 + |ws2| + |q1|;
            && |s| == p4 + |v| + |q2|
            && s[..p4] + Masked + s[p4 + |v|..] == AssignmentText(k, ws1, op, ws2, q1, Masked, q2)
  {
    var s := AssignmentText(k, ws1, op, ws2, q1, v, q2);
    var pre := k + ws1 + [op] + ws2 + q1;
    assert s == pre + v + q2;
    assert s[..|pre|] == pre;
    assert s[|pre| + |v|..] == q2;
  }

  /** A `password` or `secret` assignment (the key in any mix of cases) has its value,
      which runs up to the next quote or whitespace, replaced by `***MASKED***`; the key,
      the spaces, the operator and the quotes are kept. */
  lemma SecretAssignmentMasked(key: string, k: string, ws1: string, op: char, ws2: string,
                               q1: string, v: string, q2: string)
    requires key == "password" || key == "secret"
    requires |k| == |key| && OccursIgnoringCase(k, key, 0)
    requires AssignmentShape(ws1, op, ws2, q1, q2)
    requires |v| > 0 && forall j :: 0 <= j < |v| ==> !IsQuote(v[j]) && !IsSpace(v[j])
    ensures ReplaceAll(SecretAssignmentRule(key), AssignmentText(k, ws1, op, ws2, q1, v, q2))
         == AssignmentText(k, ws1, op, ws2, q1, Masked, q2)
  {
    var s := AssignmentText(k, ws1, op, ws2, q1, v, q2);
    var ps := SecretAssignmentTrace(key, k, ws1, op, ws2, q1, v, q2);
    assert ps[|key|..] == [ps[|key|], ps[|key| + 1], ps[|key| + 2], ps[|key| + 3], ps[|key| + 4], ps[|key| + 5]];
    ValueMasked(SecretAssignmentRule(key), s, ps, |key| + 4);
    AssignmentValueReplaced(k, ws1, op, ws2, q1, v, q2);
  }

  /** The match of a `password` or `secret` assignment: the key letters one by one, then
      the assignment tail. */
  lemma SecretAssignmentTrace(key: string, k: string, ws1: string, op: char, ws2: string,
                              q1: string, v: string, q2: string) returns (ps: seq<nat>)
    requires key == "password" || key == "secret"
    requires |k| == |key| && OccursIgnoringCase(k, key, 0)
    requires AssignmentShape(ws1, op, ws2, q1, q2)
    requires |v| > 0 && forall j :: 0 <= j < |v| ==> !IsQuote(v[j]) && !IsSpace(v[j])
    ensures var p4 := |k| + |ws1| + 1 + |ws2| + |q1|;
            var p1 := |k| + |ws1|;
            && Match(SecretAssignmentRule(key).items, AssignmentText(k, ws1, op, ws2, q1, v, q2), 0) == Some(ps)
            && ps == Steps(0, |key|) + [p1, p1 + 1, p1 + 1 + |ws2|, p4, p4 + |v|, |k| + |ws1| + 1 + |ws2| + |q1| + |v| + |q2|]
  {
    var s := AssignmentText(k, ws1, op, ws2, q1, v, q2);
    var t := SecretTailMatch(k, ws1, op, ws2, q1, v, q2);
    assert OccursIgnoringCase(s, key, 0) by {
      forall j | 0 <= j < |key|
        ensures SameLetter(s[0 + j], key[j])
      {
        assert s[j] == k[j];
        assert SameLetter(k[0 + j], key[j]);
      }
    }
    LitsNoCaseMatch(key, AssignmentItems(SecretValue), s, 0);
    ps := Steps(0, |key|) + t;
  }

  /** The assignment tail of an assignment text, from the end of the key on. */
  lemma AssignmentTextMatch(value: Item, k: string, ws1: string, op: char, ws2: string,
                            q1: string, v: string, q2: string) returns (t: seq<nat>)
    requires value.Rep? && value.max.None?
    requires AssignmentShape(ws1, op, ws2, q1, q2)
    requires |v| > 0 && |v| >= value.min && !IsQuote(v[0]) && !IsSpace(v[0])
    requires forall j :: 0 <= j < |v| ==> Has(value.cls, v[j])
    requires |q2| == 1 ==> !Has(value.cls, q2[0])
    ensures var p4 := |k| + |ws1| + 1 + |ws2| + |q1|;
            var p1 := |k| + |ws1|;
            && Match(AssignmentItems(value), AssignmentText(k, ws1, op, ws2, q1, v, q2), |k|) == Some(t)
            && t == [p1, p1 + 1, p1 + 1 + |ws2|, p4, p4 + |v|, |k| + |ws1| + 1 + |ws2| + |q1| + |v| + |q2|]
  {
    var s := AssignmentText(k, ws1, op, ws2, q1, v, q2);
    AssignmentLayout(k, ws1, op, ws2, q1, v, q2);
    var p1 := |k| + |ws1|;
    var p3 := p1 + 1 + |ws2|;
    var p4 := p3 + |q1|;
    var p5 := p4 + |v|;
    forall j | p4 <= j < p5
      ensures Has(value.cls, s[j])
    {
      assert s[j] == s[p4..p5][j - p4] == v[j - p4];
    }
    assert s[p4] == v[0];
    AssignmentTailMatch(value, s, |k|, p1, p3, p4, p5);
    t := [p1, p1 + 1, p3, p4, p5, |s|];
  }

  /** The assignment tail after the key of a `password` or `secret` assignment. */
  lemma SecretTailMatch(k: string, ws1: string, op: char, ws2: string,
                        q1: string, v: string, q2: string) returns (t: seq<nat>)
    requires AssignmentShape(ws1, op, ws2, q1, q2)
    requires |v| > 0 && forall j :: 0 <= j < |v| ==> !IsQuote(v[j]) && !IsSpace(v[j])
    ensures var p4 := |k| + |ws1| + 1 + |ws2| + |q1|;
            var p1 := |k| + |ws1|;
            && Match(AssignmentItems(SecretValue), AssignmentText(k, ws1, op, ws2, q1, v, q2), |k|) == Some(t)
            && t == [p1, p1 + 1, p1 + 1 + |ws2|, p4, p4 + |v|, |k| + |ws1| + 1 + |ws2| + |q1| + |v| + |q2|]
  {
    forall j | 0 <= j < |v|
      ensures Has(SecretValue.cls, v[j])
    {
      assert !IsQuote(v[j]) && !IsSpace(v[j]);
    }
    if |q2| == 1 {
      QuoteEndsSecret(q2[0]);
    }
    t := AssignmentTextMatch(SecretValue, k, ws1, op, ws2, q1, v, q2);
  }

  lemma QuoteEndsSecret(c: char)
    requires IsQuote(c)
    ensures !Has(SecretValue.cls, c)
  {
    assert Has(Quote, c);
  }

  /** An `api_key`, `api-key` or `apikey` assignment, written in any mix of cases at the
      start of the text, whose value is 20 or more ASCII letters and digits up to the
      end of the text or a closing quote, has only its value replaced by
      `***MASKED***`: the key, the separator, the spaces, the operator and the quotes
      are kept. */
  lemma ApiKeyMasked(api: string, sep: string, key: string, ws1: string, op: char, ws2: string,
                     q1: string, v: string, q2: string)
    requires |api| == 3 && OccursIgnoringCase(api, "api", 0)
    requires sep == "" || sep == "_" || sep == "-"
    requires |key| == 3 && OccursIgnoringCase(key, "key", 0)
    requires AssignmentShape(ws1, op, ws2, q1, q2)
    requires |v| >= 20 && forall j :: 0 <= j < |v| ==> IsAlnum(v[j])
    ensures ReplaceAll(ApiKeyRule(), AssignmentText(api + sep + key, ws1, op, ws2, q1, v, q2))
         == AssignmentText(api + sep + key, ws1, op, ws2, q1, Masked, q2)
  {
    ApiKeyValueAt(api, sep, key, ws1, op, ws2, q1, v, q2);
    AssignmentValueReplaced(api + sep + key, ws1, op, ws2, q1, v, q2);
  }

  lemma ApiKeyValueAt(api: string, sep: string, key: string, ws1: string, op: char, ws2: string,
                      q1: string, v: string, q2: string)
    requires |api| == 3 && OccursIgnoringCase(api, "api", 0)
    requires sep == "" || sep == "_" || sep == "-"
    requires |key| == 3 && OccursIgnoringCase(key, "key", 0)
    requires AssignmentShape(ws1, op, ws2, q1, q2)
    requires |v| >= 20 && forall j :: 0 <= j < |v| ==> IsAlnum(v[j])
    ensures var s := AssignmentText(api + sep + key, ws1, op, ws2, q1, v, q2);
            var p4 := |api + sep + key| + |ws1| + 1 + |ws2| + |q1|;
            p4 + |v| <= |s| && ReplaceAll(ApiKeyRule(), s) == s[..p4] + Masked + s[p4 + |v|..]
  {
    var s := AssignmentText(api + sep + key, ws1, op, ws2, q1, v, q2);
    var t := ApiKeyParts(api, sep, key, ws1, op, ws2, q1, v, q2);
    ApiKeyValueMasked(s, sep, t);
  }

  /** Where the parts of an `api_key` assignment are: the words, the separator and the
      match `t` of the assignment tail, which runs to the end of the text. */
  predicate ApiKeyLayout(s: string, sep: string, t: seq<nat>) {
    && (sep == "" || sep == "_" || sep == "-")
    && |sep| + 6 <= |s| && s[3..3 + |sep|] == sep
    && OccursIgnoringCase(s, "api", 0) && OccursIgnoringCase(s, "key", 3 + |sep|)
    && Match(AssignmentItems(ApiValue), s, |sep| + 6) == Some(t)
    && |t| == 6 && t[3] <= t[4] <= t[5] == |s|
  }

  lemma ApiKeyParts(api: string, sep: string, key: string, ws1: string, op: char, ws2: string,
                    q1: string, v: string, q2: string) returns (t: seq<nat>)
    requires |api| == 3 && OccursIgnoringCase(api, "api", 0)
    requires sep == "" || sep == "_" || sep == "-"
    requires |key| == 3 && OccursIgnoringCase(key, "key", 0)
    requires AssignmentShape(ws1, op, ws2, q1, q2)
    requires |v| >= 20 && forall j :: 0 <= j < |v| ==> IsAlnum(v[j])
    ensures var k := api + sep + key;
            var p4 := |k| + |ws1| + 1 + |ws2| + |q1|;
            && ApiKeyLayout(AssignmentText(k, ws1, op, ws2, q1, v, q2), sep, t)
            && t[3] == p4 && t[4] == p4 + |v|
  {
    var k := api + sep + key;
    var s := AssignmentText(k, ws1, op, ws2, q1, v, q2);
    var post := ws1 + [op] + ws2 + q1 + v + q2;
    assert s == api + sep + key + post;
    ApiKeyWords(api, sep, key, post);
    t := ApiValueTail(k, ws1, op, ws2, q1, v, q2);
  }

  /** An `api_key` assignment has the text between the opening quote (`t[3]`) and the
      end of the value (`t[4]`) replaced. */
  lemma ApiKeyValueMasked(s: string, sep: string, t: seq<nat>)
    requires ApiKeyLayout(s, sep, t)
    ensures ReplaceAll(ApiKeyRule(), s) == s[..t[3]] + Masked + s[t[4]..]
  {
    var ps := ApiKeyTrace(s, sep, t);
    assert ps[11] == t[3] && ps[12] == t[4] && ps[13] == t[5];
    ValueMasked(ApiKeyRule(), s, ps, 12);
  }

  lemma ValueMasked(r: Rule, s: string, ps: seq<nat>, g: nat)
    requires Mandatory(r.items) && r.replacement == [Group(0, g), Text(Masked), Group(g + 1, g + 2)]
    requires 1 <= g && |ps| == g + 2 && 0 < |s|
    requires Match(r.items, s, 0) == Some(ps)
    requires ps[g - 1] <= ps[g] <= ps[g + 1] == |s|
    ensures ReplaceAll(r, s) == s[..ps[g - 1]] + Masked + s[ps[g]..]
  {
    ValueRendered(r.replacement, s, ps, g);
    assert End(0, ps) == |s|;
    ReplaceWhole(r, s, ps);
  }

  lemma ValueRendered(rep: seq<Piece>, s: string, ps: seq<nat>, g: nat)
    requires rep == [Group(0, g), Text(Masked), Group(g + 1, g + 2)]
    requires 1 <= g && |ps| == g + 2
    requires ps[g - 1] <= ps[g] <= ps[g + 1] == |s|
    ensures Render(rep, s, 0, ps) == s[..ps[g - 1]] + Masked + s[ps[g]..]
  {
    assert GroupText(s, 0, ps, 0, g) == s[..ps[g - 1]];
    assert GroupText(s, 0, ps, g + 1, g + 2) == s[ps[g]..];
    assert rep[2..][1..] == [];
    assert Render(rep[2..], s, 0, ps) == s[ps[g]..] + "";
    assert rep[1..][1..] == rep[2..];
    assert Render(rep[1..], s, 0, ps) == Masked + s[ps[g]..];
  }

  /** The match of an `api_key` assignment: the boundary, the letters of `api`, the
      separator, the letters of `key` and the assignment tail `t`. */
  lemma ApiKeyTrace(s: string, sep: string, t: seq<nat>) returns (ps: seq<nat>)
    requires sep == "" || sep == "_" || sep == "-"
    requires |sep| + 6 <= |s| && s[3..3 + |sep|] == sep
    requires OccursIgnoringCase(s, "api", 0) && OccursIgnoringCase(s, "key", 3 + |sep|)
    requires Match(AssignmentItems(ApiValue), s, |sep| + 6) == Some(t)
    ensures Match(ApiKeyRule().items, s, 0) == Some(ps) && |ps| == 8 + |t| && ps[8..] == t
  {
    var m := |sep| + 3;
    var u := Steps(m, 3) + t;
    ApiSeparatorAndKey(s, sep, t);
    ApiKeyFromStart(s, m, u);
    ps := [0] + Steps(0, 3) + ([m] + u);
    TraceTail(ps, Steps(0, 3), m, Steps(m, 3), t);
  }

  lemma TraceTail(ps: seq<nat>, a: seq<nat>, m: nat, b: seq<nat>, t: seq<nat>)
    requires |a| == 3 && |b| == 3 && ps == [0] + a + ([m] + (b + t))
    ensures |ps| == 8 + |t| && ps[8..] == t
  {
    assert ps == ([0] + a + [m] + b) + t;
  }

  /** The separator, the letters of `key` and the assignment tail, matched from 3. */
  lemma ApiSeparatorAndKey(s: string, sep: string, t: seq<nat>)
    requires sep == "" || sep == "_" || sep == "-"
    requires |sep| + 6 <= |s| && s[3..3 + |sep|] == sep
    requires OccursIgnoringCase(s, "key", 3 + |sep|)
    requires Match(AssignmentItems(ApiValue), s, |sep| + 6) == Some(t)
    ensures Match([ApiSeparator] + (LitsNoCase("key") + AssignmentItems(ApiValue)), s, 3)
         == Some([|sep| + 3] + (Steps(|sep| + 3, 3) + t))
  {
    var m := |sep| + 3;
    var rest := LitsNoCase("key") + AssignmentItems(ApiValue);
    LitsNoCaseMatch("key", AssignmentItems(ApiValue), s, m);
    assert SameLetter(s[m + 0], "key"[0]);
    ApiSeparatorStep(s, 3, sep, rest, Steps(m, 3) + t);
  }

  /** The boundary at the start of the text and the letters of `api`. */
  lemma ApiKeyFromStart(s: string, m: nat, t: seq<nat>)
    requires 3 <= m <= |s| && OccursIgnoringCase(s, "api", 0)
    requires Match([ApiSeparator] + (LitsNoCase("key") + AssignmentItems(ApiValue)), s, 3) == Some([m] + t)
    ensures Match(ApiKeyRule().items, s, 0) == Some([0] + Steps(0, 3) + ([m] + t))
  {
    assert AtBoundary(s, 0) by {
      assert SameLetter(s[0 + 0], "api"[0]);
    }
    var rest := [ApiSeparator] + (LitsNoCase("key") + AssignmentItems(ApiValue));
    ApiKeyItems(rest);
    ApiKeyAt(ApiKeyRule().items, rest, s, 0, [m] + t);
  }

  lemma ApiKeyItems(rest: seq<Item>)
    requires rest == [ApiSeparator] + (LitsNoCase("key") + AssignmentItems(ApiValue))
    ensures ApiKeyRule().items == [Boundary] + (LitsNoCase("api") + rest)
  {
  }

  lemma ApiKeyAt(items: seq<Item>, rest: seq<Item>, s: string, i: nat, t: seq<nat>)
    requires items == [Boundary] + (LitsNoCase("api") + rest)
    requires i <= |s| && AtBoundary(s, i) && OccursIgnoringCase(s, "api", i)
    requires Match(rest, s, i + 3) == Some(t)
    ensures Match(items, s, i) == Some([i] + Steps(i, 3) + t)
  {
    LitsNoCaseMatch("api", rest, s, i);
    assert items[1..] == LitsNoCase("api") + rest;
    BoundaryStepAt(items, 0, s, i);
    assert items[0..] == items;
    assert [i] + (Steps(i, 3) + t) == [i] + Steps(i, 3) + t;
  }

  /** Where the words of an `api_key` assignment are. */
  lemma ApiKeyWords(api: string, sep: string, key: string, post: string)
    requires |api| == 3 && OccursIgnoringCase(api, "api", 0)
    requires |sep| <= 1
    requires |key| == 3 && OccursIgnoringCase(key, "key", 0)
    ensures var s := api + sep + key + post;
            && OccursIgnoringCase(s, "api", 0)
            && OccursIgnoringCase(s, "key", |sep| + 3)
            && s[..|sep| + 6] == api + sep + key
            && s[3..3 + |sep|] == sep
  {
    var s := api + sep + key + post;
    assert s == (api + sep) + key + post;
    OccursInContext(api + sep, key, post, "key");
    assert s == "" + api + (sep + key + post);
    OccursInContext("", api, sep + key + post, "api");
  }

  /** The optional separator between `api` and `key`. */
  lemma ApiSeparatorStep(s: string, a: nat, sep: string, rest: seq<Item>, t: seq<nat>)
    requires sep == "" || sep == "_" || sep == "-"
    requires a + |sep| < |s| && s[a..a + |sep|] == sep
    requires s[a + |sep|] == 'k' || s[a + |sep|] == 'K'
    requires Match(rest, s, a + |sep|) == Some(t)
    ensures Match([ApiSeparator] + rest, s, a) == Some([a + |sep|] + t)
  {
    var items := [ApiSeparator] + rest;
    assert items[1..] == rest;
    if |sep| == 1 {
      assert s[a] == sep[0];
    }
    RepStepAt(items, 0, s, a, a + |sep|);
    assert items[0..] == items;
  }

  /** The tail of an `api_key` assignment. */
  lemma ApiValueTail(k: string, ws1: string, op: char, ws2: string,
                     q1: string, v: string, q2: string) returns (t: seq<nat>)
    requires AssignmentShape(ws1, op, ws2, q1, q2)
    requires |v| >= 20 && forall j :: 0 <= j < |v| ==> IsAlnum(v[j])
    ensures var p4 := |k| + |ws1| + 1 + |ws2| + |q1|;
            var p1 := |k| + |ws1|;
            && Match(AssignmentItems(ApiValue), AssignmentText(k, ws1, op, ws2, q1, v, q2), |k|) == Some(t)
            && t == [p1, p1 + 1, p1 + 1 + |ws2|, p4, p4 + |v|, |k| + |ws1| + 1 + |ws2| + |q1| + |v| + |q2|]
  {
    assert IsAlnum(v[0]);
    t := AssignmentTextMatch(ApiValue, k, ws1, op, ws2, q1, v, q2);
  }

  /** An e-mail address `user@host.tld` that makes up the whole text, where the user
      part starts with a word character, keeps its domain and loses its user part:
      the text becomes `***@host.tld`. The domain may itself contain dots; the last
      dot is the one before the top-level label. */
  lemma EmailMasked(user: string, host: string, tld: string)
    requires |user| > 0 && IsWordChar(user[0]) && forall j :: 0 <= j < |user| ==> Has(LocalPart, user[j])
    requires |host| > 0 && forall j :: 0 <= j < |host| ==> Has(DomainPart, host[j])
    requires |tld| >= 2 && forall j :: 0 <= j < |tld| ==> IsLetter(tld[j])
    ensures ReplaceAll(EmailRule(), user + "@" + host + "." + tld) == "***@" + host + "." + tld
  {
    var s := user + "@" + host + "." + tld;
    var ps := EmailMatch(user, host, tld);
    var r := EmailRule();
    var rep := r.replacement;
    assert GroupText(s, 0, ps, 3, 6) == host + "." + tld;
    assert rep[1..][1..] == [];
    assert Render(rep[1..], s, 0, ps) == host + "." + tld + "";
    assert End(0, ps) == |s|;
    ReplaceWhole(r, s, ps);
  }

  /** The match of a whole-text e-mail address. */
  lemma EmailMatch(user: string, host: string, tld: string) returns (ps: seq<nat>)
    requires |user| > 0 && IsWordChar(user[0]) && forall j :: 0 <= j < |user| ==> Has(LocalPart, user[j])
    requires |host| > 0 && forall j :: 0 <= j < |host| ==> Has(DomainPart, host[j])
    requires |tld| >= 2 && forall j :: 0 <= j < |tld| ==> IsLetter(tld[j])
    ensures var s := user + "@" + host + "." + tld;
            && Match(EmailRule().items, s, 0) == Some(ps)
            && |ps| == 7 && ps[2] == |user| + 1 && ps[5] == |s| && ps[6] == |s|
  {
    var s := user + "@" + host + "." + tld;
    var a := |user|;
    var d := a + 1 + |host|;
    assert forall j :: 0 <= j < a ==> s[j] == user[j];
    assert s[a] == '@' && s[d] == '.';
    assert forall j :: a + 1 <= j < d ==> s[j] == host[j - a - 1];
    assert forall j :: d + 1 <= j < |s| ==> s[j] == tld[j - d - 1];
    assert IsWordChar(s[0]);
    EmailTrace(s, 0, a, d);
    ps := [0, a, a + 1, d, d + 1, |s|, |s|];
  }

  /** The match of an e-mail address that runs from `i` to the end of the text `s`,
      item by item: the user part ends at `a`, the host at the last dot `d`. */
  lemma EmailTrace(s: string, i: nat, a: nat, d: nat)
    requires i < a && a + 1 < d && d + 3 <= |s|
    requires AtBoundary(s, i) && forall j :: i <= j < a ==> Has(LocalPart, s[j])
    requires s[a] == '@' && forall j :: a + 1 <= j < d ==> Has(DomainPart, s[j])
    requires s[d] == '.' && forall j :: d + 1 <= j < |s| ==> IsLetter(s[j])
    ensures Match(EmailRule().items, s, i) == Some([i, a, a + 1, d, d + 1, |s|, |s|])
  {
    var items := EmailRule().items;
    EmailFromAt(items, s, a, d);
    assert !Has(LocalPart, s[a]);
    RepStepAt(items, 1, s, i, a);
    BoundaryStepAt(items, 0, s, i);
    assert items[0..] == items;
    assert [i] + ([a] + [a + 1, d, d + 1, |s|, |s|]) == [i, a, a + 1, d, d + 1, |s|, |s|];
  }

  /** From the `@` on. */
  lemma EmailFromAt(items: seq<Item>, s: string, a: nat, d: nat)
    requires items == EmailRule().items
    requires a + 1 < d && d + 3 <= |s|
    requires s[a] == '@' && forall j :: a + 1 <= j < d ==> Has(DomainPart, s[j])
    requires s[d] == '.' && forall j :: d + 1 <= j < |s| ==> IsLetter(s[j])
    ensures Match(items[2..], s, a) == Some([a + 1, d, d + 1, |s|, |s|])
  {
    EmailTopLevel(items, s, d);
    EmailDomain(items, s, a + 1, d);
    assert Has(items[2].cls, s[a]);
    RepStepAt(items, 2, s, a, a + 1);
    assert [a + 1] + [d, d + 1, |s|, |s|] == [a + 1, d, d + 1, |s|, |s|];
  }

  /** The dot, the top-level label and the closing boundary at the end of the text. */
  lemma EmailTopLevel(items: seq<Item>, s: string, d: nat)
    requires items == EmailRule().items
    requires d + 3 <= |s| && s[d] == '.'
    requires forall j :: d + 1 <= j < |s| ==> IsLetter(s[j])
    ensures Match(items[4..], s, d) == Some([d + 1, |s|, |s|])
  {
    assert items[7..] == [];
    assert IsLetter(s[|s| - 1]);
    assert AtBoundary(s, |s|);
    BoundaryStepAt(items, 6, s, |s|);
    assert [|s|] + [] == [|s|];
    assert Match(items[6..], s, |s|) == Some([|s|]);
    RepStepAt(items, 5, s, d + 1, |s|);
    assert [|s|] + [|s|] == [|s|, |s|];
    assert Match(items[5..], s, d + 1) == Some([|s|, |s|]);
    assert Has(items[4].cls, s[d]);
    RepStepAt(items, 4, s, d, d + 1);
    assert [d + 1] + [|s|, |s|] == [d + 1, |s|, |s|];
  }

  /** The domain quantifier backs off from the end of the text to the last dot. */
  lemma EmailDomain(items: seq<Item>, s: string, b: nat, d: nat)
    requires items == EmailRule().items
    requires b < d && d + 3 <= |s| && s[d] == '.'
    requires forall j :: b <= j < d ==> Has(DomainPart, s[j])
    requires forall j :: d + 1 <= j < |s| ==> IsLetter(s[j])
    requires Match(items[4..], s, d) == Some([d + 1, |s|, |s|])
    ensures Match(items[3..], s, b) == Some([d, d + 1, |s|, |s|])
  {
    var rest := items[3..];
    assert rest[1..] == items[4..];
    forall j | b <= j < |s|
      ensures Has(DomainPart, s[j])
    {
      if j > d {
        assert IsLetter(s[j]);
      }
    }
    RunLenOver(DomainPart, s, b, |s|);
    forall p | d < p <= |s|
      ensures RestFails(rest, s, p)
    {
      if p < |s| {
        assert IsLetter(s[p]);
      }
      RepFailsAt(rest[1..], s, p);
    }
    TryCountsPicks(rest, s, b, |s| - b, d - b);
    assert rest[0] == Rep(DomainPart, 1, None);
    assert Capped(RunLen(DomainPart, s, b), None) == |s| - b;
    assert Match(rest, s, b) == TryCounts(rest, s, b, |s| - b);
    assert [d] + [d + 1, |s|, |s|] == [d, d + 1, |s|, |s|];
  }

  /** The international rule as written masks nothing in a text where every `+` comes
      first or after a character that is not a word character, for example
      `+81 90-1234-5678` on its own or after a space. */
  lemma IntlPhoneNeverAfterNonWord(s: string)
    requires forall j :: 0 <= j < |s| && s[j] == '+' ==> j == 0 || !IsWordChar(s[j - 1])
    ensures ReplaceAll(IntlPhoneRule(), s) == s
  {
    var items := IntlPhoneRule().items;
    forall j | 0 <= j < |s|
      ensures Match(items, s, j).None?
    {
      IntlPhoneNoMatchAt(s, j);
    }
    NoMatchUnchanged(IntlPhoneRule(), s, 0);
  }

  lemma IntlPhoneNoMatchAt(s: string, j: nat)
    requires j < |s| && (s[j] == '+' ==> j == 0 || !IsWordChar(s[j - 1]))
    ensures Match(IntlPhoneRule().items, s, j).None?
  {
    var items := IntlPhoneRule().items;
    assert items[0] == Boundary && items[1..] == IntlPhoneItems;
    if AtBoundary(s, j) {
      assert s[j] != '+';
      RepFailsAt(IntlPhoneItems, s, j);
    }
  }

  /** `+81 90-1234-5678` stays as it is under the rule as written. */
  lemma IntlPhoneAsWrittenMissesNumber()
    ensures ReplaceAll(IntlPhoneRule(), "+81 90-1234-5678") == "+81 90-1234-5678"
  {
    var s := "+81 90-1234-5678";
    forall j | 0 <= j < |s| && s[j] == '+'
      ensures j == 0
    {
    }
    IntlPhoneNeverAfterNonWord(s);
  }

  /** The corrected rule masks a whole-text number `+81`, an optional space, one to
      four digits, `-`, one to four digits, `-` and four digits. */
  lemma IntlPhoneCorrectedMasks(sp: string, a: string, b: string, c: string)
    requires |sp| <= 1 && Blank(sp)
    requires 1 <= |a| <= 4 && 1 <= |b| <= 4 && |c| == 4
    requires forall j :: 0 <= j < |a| ==> IsDigit(a[j])
    requires forall j :: 0 <= j < |b| ==> IsDigit(b[j])
    requires forall j :: 0 <= j < |c| ==> IsDigit(c[j])
    ensures ReplaceAll(IntlPhoneRuleCorrected(), "+81" + sp + a + "-" + b + "-" + c) == IntlPhoneMasked
  {
    var s := "+81" + sp + a + "-" + b + "-" + c;
    var r := IntlPhoneRuleCorrected();
    var ps := IntlPhoneMatch(sp, a, b, c);
    assert r.replacement[1..] == [];
    assert Render(r.replacement, s, 0, ps) == IntlPhoneMasked + "";
    ReplaceWhole(r, s, ps);
  }

  lemma IntlPhoneMatch(sp: string, a: string, b: string, c: string) returns (ps: seq<nat>)
    requires |sp| <= 1 && Blank(sp)
    requires 1 <= |a| <= 4 && 1 <= |b| <= 4 && |c| == 4
    requires forall j :: 0 <= j < |a| ==> IsDigit(a[j])
    requires forall j :: 0 <= j < |b| ==> IsDigit(b[j])
    requires forall j :: 0 <= j < |c| ==> IsDigit(c[j])
    ensures var s := "+81" + sp + a + "-" + b + "-" + c;
            Match(IntlPhoneRuleCorrected().items, s, 0) == Some(ps) && End(0, ps) == |s|
  {
    var s := "+81" + sp + a + "-" + b + "-" + c;
    var p0 := 3 + |sp|;
    var pa := p0 + |a|;
    var pb := pa + 1 + |b|;
    assert s[..3] == "+81";
    assert forall j :: 3 <= j < p0 ==> s[j] == sp[j - 3];
    assert forall j :: p0 <= j < pa ==> s[j] == a[j - p0];
    assert s[pa] == '-' && s[pb] == '-';
    assert forall j :: pa + 1 <= j < pb ==> s[j] == b[j - pa - 1];
    assert forall j :: pb + 1 <= j < |s| ==> s[j] == c[j - pb - 1];
    IntlPhoneTrace(IntlPhoneRuleCorrected().items, s, 0, p0, pa, pb);
    ps := [0 + 1, 0 + 2, 0 + 3] + ([p0] + [pa, pa + 1, pb, pb + 1, |s|, |s|]);
  }

  /** The match of the corrected rule on an international number that runs from `i` to
      the end of the text: the prefix `+81`, the optional space up to `p0`, the groups of
      digits ending at `pa`, `pb` and the end, and the dashes after `pa` and `pb`. */
  lemma IntlPhoneTrace(items: seq<Item>, s: string, i: nat, p0: nat, pa: nat, pb: nat)
    requires items == IntlPhoneRuleCorrected().items
    requires i + 3 <= p0 <= i + 4 && p0 < pa <= p0 + 4 && pa + 1 < pb <= pa + 5 && pb + 5 == |s|
    requires s[i] == '+' && s[i + 1] == '8' && s[i + 2] == '1'
    requires forall j :: i + 3 <= j < p0 ==> IsSpace(s[j])
    requires forall j :: p0 <= j < pa ==> IsDigit(s[j])
    requires s[pa] == '-' && s[pb] == '-'
    requires forall j :: pa + 1 <= j < pb ==> IsDigit(s[j])
    requires forall j :: pb + 1 <= j < |s| ==> IsDigit(s[j])
    ensures Match(items, s, i) == Some([i + 1, i + 2, i + 3] + ([p0] + [pa, pa + 1, pb, pb + 1, |s|, |s|]))
  {
    IntlPhoneDigitsTrace(items, s, p0, pa, pb);
    var t := [pa, pa + 1, pb, pb + 1, |s|, |s|];
    assert IsDigit(s[p0]);
    IntlPhoneSpace(items, s, i + 3, p0, t);
    IntlPhonePrefix(items, s, i, [p0] + t);
  }

  /** The optional space after `+81`. */
  lemma IntlPhoneSpace(items: seq<Item>, s: string, a: nat, b: nat, t: seq<nat>)
    requires items == IntlPhoneRuleCorrected().items
    requires a <= b <= a + 1 && b < |s| && IsDigit(s[b])
    requires forall j :: a <= j < b ==> IsSpace(s[j])
    requires Match(items[4..], s, b) == Some(t)
    ensures Match(items[3..], s, a) == Some([b] + t)
  {
    assert items[3] == Rep(Space, 0, Some(1));
    RepStepAt(items, 3, s, a, b);
  }

  /** The literal `+81`. */
  lemma IntlPhonePrefix(items: seq<Item>, s: string, i: nat, t: seq<nat>)
    requires items == IntlPhoneRuleCorrected().items
    requires i + 3 <= |s| && s[i] == '+' && s[i + 1] == '8' && s[i + 2] == '1'
    requires Match(items[3..], s, i + 3) == Some(t)
    ensures Match(items, s, i) == Some([i + 1, i + 2, i + 3] + t)
  {
    assert items[2] == Lit('1') && items[1] == Lit('8') && items[0] == Lit('+');
    assert Has(items[2].cls, s[i + 2]);
    RepStepAt(items, 2, s, i + 2, i + 3);
    assert Has(items[1].cls, s[i + 1]);
    RepStepAt(items, 1, s, i + 1, i + 2);
    assert Has(items[0].cls, s[i]);
    RepStepAt(items, 0, s, i, i + 1);
    assert items[0..] == items;
    assert [i + 1] + ([i + 2] + ([i + 3] + t)) == [i + 1, i + 2, i + 3] + t;
  }

  /** The digits and dashes of an international number, from `p0` to the end of the text. */
  lemma IntlPhoneDigitsTrace(items: seq<Item>, s: string, p0: nat, pa: nat, pb: nat)
    requires items == IntlPhoneRuleCorrected().items
    requires p0 < pa <= p0 + 4 && pa + 1 < pb <= pa + 5 && pb + 5 == |s|
    requires forall j :: p0 <= j < pa ==> IsDigit(s[j])
    requires s[pa] == '-' && s[pb] == '-'
    requires forall j :: pa + 1 <= j < pb ==> IsDigit(s[j])
    requires forall j :: pb + 1 <= j < |s| ==> IsDigit(s[j])
    ensures Match(items[4..], s, p0) == Some([pa, pa + 1, pb, pb + 1, |s|, |s|])
  {
    IntlPhoneLast(items, s, pb);
    IntlPhoneMiddle(items, s, pa, pb);
    assert items[4] == Rep(Digit, 1, Some(4));
    assert !Has(items[4].cls, s[pa]);
    RepStepAt(items, 4, s, p0, pa);
    assert [pa] + [pa + 1, pb, pb + 1, |s|, |s|] == [pa, pa + 1, pb, pb + 1, |s|, |s|];
  }

  /** The last dash, the last four digits and the closing boundary. */
  lemma IntlPhoneLast(items: seq<Item>, s: string, pb: nat)
    requires items == IntlPhoneRuleCorrected().items
    requires pb + 5 == |s| && s[pb] == '-'
    requires forall j :: pb + 1 <= j < |s| ==> IsDigit(s[j])
    ensures Match(items[7..], s, pb) == Some([pb + 1, |s|, |s|])
  {
    assert items[10..] == [];
    assert IsDigit(s[|s| - 1]);
    BoundaryStepAt(items, 9, s, |s|);
    assert [|s|] + [] == [|s|];
    assert items[8] == Rep(Digit, 4, Some(4));
    RepStepAt(items, 8, s, pb + 1, |s|);
    assert [|s|] + [|s|] == [|s|, |s|];
    assert items[7] == Rep(Chars("-"), 0, Some(1));
    assert Has(items[7].cls, s[pb]);
    RepStepAt(items, 7, s, pb, pb + 1);
    assert [pb + 1] + [|s|, |s|] == [pb + 1, |s|, |s|];
  }

  lemma IntlPhoneMiddle(items: seq<Item>, s: string, pa: nat, pb: nat)
    requires items == IntlPhoneRuleCorrected().items
    requires pa + 1 < pb <= pa + 5 && pb + 5 == |s|
    requires s[pa] == '-' && s[pb] == '-'
    requires forall j :: pa + 1 <= j < pb ==> IsDigit(s[j])
    requires Match(items[7..], s, pb) == Some([pb + 1, |s|, |s|])
    ensures Match(items[5..], s, pa) == Some([pa + 1, pb, pb + 1, |s|, |s|])
  {
    assert items[6] == Rep(Digit, 1, Some(4)) && items[5] == Rep(Chars("-"), 0, Some(1));
    assert !Has(items[6].cls, s[pb]);
    RepStepAt(items, 6, s, pa + 1, pb);
    assert [pb] + [pb + 1, |s|, |s|] == [pb, pb + 1, |s|, |s|];
    assert Has(items[5].cls, s[pa]);
    RepStepAt(items, 5, s, pa, pa + 1);
    assert [pa + 1] + [pb, pb + 1, |s|, |s|] == [pa + 1, pb, pb + 1, |s|, |s|];
  }
}
