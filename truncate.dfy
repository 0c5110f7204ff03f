/** `truncateCode`: the code sent to the model is cut to a number of lines first and to
    a number of UTF-8 bytes second, and a fixed marker is appended to what was cut. The
    byte cut decodes a raw byte prefix, so it can end in a replacement character. */
module Truncate {
  import opened Text
  import opened Types

  /** Appended to truncated code: a newline and a comment line. */
  const Marker: string := "\n// ... (truncated)"
  const MarkerLine: string := "// ... (truncated)"

  /** What a non-fatal UTF-8 decoder produces for an incomplete code point. */
  const Replacement: char := '\U{FFFD}'

  /** The byte-order mark that UTF-8 decoding removes from the start of its input. */
  const Bom: char := '\U{FEFF}'

  /** How many whole code points of `s` fit in `n` bytes of its UTF-8 encoding. */
  function Fit(s: string, n: nat): (k: nat)
    ensures k <= |s|
    decreases |s|
  {
    if |s| == 0 || Utf8Width(s[0]) > n then 0 else 1 + Fit(s[1..], n - Utf8Width(s[0]))
  }

  /** The first `n` bytes of the UTF-8 encoding of `s`, decoded without the byte-order
      mark check: the code points that are whole and, when the cut falls inside one,
      a single replacement character for its leading bytes. */
  function DecodeFront(s: string, n: nat): string
    decreases |s|
  {
    if |s| == 0 then ""
    else if Utf8Width(s[0]) <= n then [s[0]] + DecodeFront(s[1..], n - Utf8Width(s[0]))
    else if n == 0 then ""
    else [Replacement]
  }

  /** `new TextDecoder().decode(new TextEncoder().encode(s).slice(0, n))`. */
  function DecodePrefix(s: string, n: nat): string {
    var d := DecodeFront(s, n);
    if |d| > 0 && d[0] == Bom then d[1..] else d
  }

  /** `truncateCode(code, maxLines, maxBytes)`. */
  function TruncateCode(code: string, maxLines: nat, maxBytes: nat): string {
    var lines := Split(code, '\n');
    if |lines| > maxLines then Join(lines[..maxLines], "\n") + Marker
    else if Utf8Length(code) > maxBytes then DecodePrefix(code, maxBytes) + Marker
    else code
  }

  /** `truncateCode(code)` with its default limits. */
  function TruncateDefault(code: string): string {
    TruncateCode(code, MaxLines, MaxBytes)
  }

  /** The whole code points that fit are the longest prefix whose encoding fits. */
  lemma {:induction false} FitMaximal(s: string, n: nat)
    ensures var k := Fit(s, n);
            Utf8Length(s[..k]) <= n && (k < |s| ==> n < Utf8Length(s[..k + 1]))
    decreases |s|
  {
    var k := Fit(s, n);
    if |s| > 0 {
      var w := Utf8Width(s[0]);
      if w <= n {
        FitMaximal(s[1..], n - w);
        assert s[..k] == [s[0]] + s[1..][..k - 1];
        Utf8LengthCons(s[0], s[1..][..k - 1]);
        if k < |s| {
          assert s[..k + 1] == [s[0]] + s[1..][..k];
          Utf8LengthCons(s[0], s[1..][..k]);
        }
      } else {
        assert s[..1] == [s[0]];
        Utf8LengthCons(s[0], "");
      }
    }
  }

  /** The replacement character that ends a decoded prefix when some, but not all, bytes
      of the next code point were kept. */
  function CutTail(s: string, n: nat): string {
    var k := Fit(s, n);
    if k < |s| && Utf8Length(s[..k]) < n then [Replacement] else []
  }

  /** The decoded prefix is the prefix of whole code points, followed by one replacement
      character exactly when some bytes of the next code point were kept. */
  lemma {:induction false} DecodeFrontShape(s: string, n: nat)
    ensures DecodeFront(s, n) == s[..Fit(s, n)] + CutTail(s, n)
    decreases |s|
  {
    if |s| > 0 {
      var w := Utf8Width(s[0]);
      if w <= n {
        DecodeFrontShape(s[1..], n - w);
        FitStep(s, n);
      }
    }
  }

  /** Taking a whole first code point moves the cut along by one code point. */
  lemma FitStep(s: string, n: nat)
    requires |s| > 0 && Utf8Width(s[0]) <= n
    ensures var k := Fit(s[1..], n - Utf8Width(s[0]));
            && s[..Fit(s, n)] == [s[0]] + s[1..][..k]
            && CutTail(s, n) == CutTail(s[1..], n - Utf8Width(s[0]))
  {
    var k := Fit(s[1..], n - Utf8Width(s[0]));
    assert s[..k + 1] == [s[0]] + s[1..][..k];
    Utf8LengthCons(s[0], s[1..][..k]);
  }

  /** A decoded prefix of `n` bytes takes at most `n + 2` bytes to encode again: the
      replacement character takes three bytes and stands for one to three. */
  lemma DecodePrefixLength(s: string, n: nat)
    ensures Utf8Length(DecodePrefix(s, n)) <= n + 2
  {
    var d := DecodeFront(s, n);
    DecodeFrontLength(s, n);
    if |d| > 0 && d[0] == Bom {
      assert d == [d[0]] + d[1..];
      Utf8LengthCons(d[0], d[1..]);
    }
  }

  lemma DecodeFrontLength(s: string, n: nat)
    ensures Utf8Length(DecodeFront(s, n)) <= n + 2
  {
    var k := Fit(s, n);
    FitMaximal(s, n);
    DecodeFrontShape(s, n);
    Utf8LengthAppend(s[..k], CutTail(s, n));
    ReplacementLength();
  }

  lemma ReplacementLength()
    ensures Utf8Length([Replacement]) == 3
  {
    Utf8LengthCons(Replacement, "");
  }

  /** More lines than the limit: the first `maxLines` lines are kept and the marker
      adds one more line, so the result has `maxLines + 1` lines (two when the limit is
      zero, since the marker starts with a newline); the byte limit plays no part. */
  lemma TruncateLines(code: string, maxLines: nat, maxBytes: nat)
    requires |Split(code, '\n')| > maxLines
    ensures var lines := Split(code, '\n');
            var r := TruncateCode(code, maxLines, maxBytes);
            && r == Join(lines[..maxLines], "\n") + Marker
            && Split(r, '\n') == (if maxLines == 0 then [""] else lines[..maxLines]) + [MarkerLine]
  {
    var lines := Split(code, '\n');
    SplitNoSep(code, '\n');
    var kept := if maxLines == 0 then [""] else lines[..maxLines];
    assert Join(lines[..maxLines], "\n") == Join(kept, "\n");
    assert NoSep(kept, '\n');
    SplitWithMarker(kept);
  }

  lemma MarkerLineOneLine()
    ensures '\n' !in MarkerLine && Marker == "\n" + MarkerLine
  {
  }

  lemma AppendSplit(x: string, y: string, z: string, yz: string)
    requires yz == y + z
    ensures x + yz == x + y + z
  {
  }

  /** Lines without a newline followed by the marker split back into those lines and
      the marker's comment line. */
  lemma SplitWithMarker(kept: seq<string>)
    requires |kept| >= 1 && NoSep(kept, '\n')
    ensures Split(Join(kept, "\n") + Marker, '\n') == kept + [MarkerLine]
  {
    MarkerLineOneLine();
    assert NoSep(kept + [MarkerLine], '\n');
    JoinAppend(kept, MarkerLine, "\n");
    AppendSplit(Join(kept, "\n"), "\n", MarkerLine, Marker);
    SplitJoin(kept + [MarkerLine], '\n');
  }

  /** Truncating the result of a line cut again changes nothing. */
  lemma TruncateLinesIdempotent(code: string, maxLines: nat, maxBytes: nat)
    requires |Split(code, '\n')| > maxLines
    ensures var r := TruncateCode(code, maxLines, maxBytes);
            TruncateCode(r, maxLines, maxBytes) == r
  {
    var lines := Split(code, '\n');
    var r := TruncateCode(code, maxLines, maxBytes);
    TruncateLines(code, maxLines, maxBytes);
    var kept := if maxLines == 0 then [""] else lines[..maxLines];
    assert Split(r, '\n')[..maxLines] == lines[..maxLines];
  }

  /** Within the line limit but over the byte limit: the result is the prefix of whole
      code points that fit in `maxBytes` bytes (without a leading byte-order mark),
      then a replacement character when the cut falls inside a code point, then the
      marker. At least one code point is lost, and the part before the marker takes at
      most `maxBytes + 2` bytes. */
  lemma TruncateBytes(code: string, maxLines: nat, maxBytes: nat)
    requires |Split(code, '\n')| <= maxLines && Utf8Length(code) > maxBytes
    ensures var k := Fit(code, maxBytes);
            var kept := if k > 0 && code[0] == Bom then code[1..k] else code[..k];
            var cut := k < |code| && Utf8Length(code[..k]) < maxBytes;
            var r := TruncateCode(code, maxLines, maxBytes);
            && k < |code|
            && r == kept + (if cut then [Replacement] else []) + Marker
            && Utf8Length(r[..|r| - |Marker|]) <= maxBytes + 2
  {
    var k := Fit(code, maxBytes);
    FitMaximal(code, maxBytes);
    assert code[..|code|] == code;
    DecodePrefixShape(code, maxBytes);
    DecodePrefixLength(code, maxBytes);
    var r := TruncateCode(code, maxLines, maxBytes);
    assert r[..|r| - |Marker|] == DecodePrefix(code, maxBytes);
  }

  /** The decoded byte prefix, with the byte-order mark removed. */
  lemma DecodePrefixShape(s: string, n: nat)
    ensures var k := Fit(s, n);
            var kept := if k > 0 && s[0] == Bom then s[1..k] else s[..k];
            var cut := k < |s| && Utf8Length(s[..k]) < n;
            DecodePrefix(s, n) == kept + (if cut then [Replacement] else [])
  {
    var k := Fit(s, n);
    DecodeFrontShape(s, n);
    var d := DecodeFront(s, n);
    var tail := CutTail(s, n);
    assert d == s[..k] + tail;
    if k > 0 {
      assert d[0] == s[0];
      if s[0] == Bom {
        assert d[1..] == s[1..k] + tail;
      }
    } else {
      assert d == tail;
    }
  }

  /** Within both limits the code is sent unchanged. */
  lemma TruncateWithinLimits(code: string, maxLines: nat, maxBytes: nat)
    requires |Split(code, '\n')| <= maxLines && Utf8Length(code) <= maxBytes
    ensures TruncateCode(code, maxLines, maxBytes) == code
  {
  }

  /** The byte cut is not safe for code points: with a two-byte `é` cut after its first
      byte, the result ends in a replacement character. */
  lemma TruncateSplitsCodePoint()
    ensures TruncateCode("aé", 200, 2) == "a" + [Replacement] + Marker
  {
    var s := "aé";
    SplitNoSepPiece(s, '\n');
    assert Utf8Length(s) == 3;
    assert DecodeFront(s, 2) == "a" + [Replacement];
  }
}
