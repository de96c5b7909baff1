/**
 * The Python string operations the bot relies on: `str.strip()`, `str.split(sep)`,
 * `str.split()`, `int(str)` and `str(int)`.  Strings are sequences of Unicode
 * code points, as in Python 3.
 */
module Text {
  import opened Wrappers

  /** Python's `str.isspace()` for a single code point. */
  predicate IsSpace(c: char)
  {
    c == ' ' || ('\t' <= c <= '\r') || ('\U{1C}' <= c <= '\U{1F}')
    || c == '\U{85}' || c == '\U{A0}' || c == '\U{1680}'
    || ('\U{2000}' <= c <= '\U{200A}') || c == '\U{2028}' || c == '\U{2029}'
    || c == '\U{202F}' || c == '\U{205F}' || c == '\U{3000}'
  }

  predicate IsAsciiDigit(c: char)
  {
    '0' <= c <= '9'
  }

  predicate AllDigits(s: string)
  {
    forall i :: 0 <= i < |s| ==> IsAsciiDigit(s[i])
  }

  /** Number of leading whitespace code points. */
  function LeadingSpaces(s: string): (k: nat)
    ensures k <= |s|
    ensures k < |s| ==> !IsSpace(s[k])
  {
    if s == [] || !IsSpace(s[0]) then 0 else 1 + LeadingSpaces(s[1..])
  }

  /** What `LeadingSpaces` skips is whitespace. */
  lemma {:induction false} LeadingSpacesAreSpaces(s: string)
    ensures forall i :: 0 <= i < LeadingSpaces(s) ==> IsSpace(s[i])
  {
    if s != [] && IsSpace(s[0]) {
      LeadingSpacesAreSpaces(s[1..]);
    }
  }

  /** Number of trailing whitespace code points. */
  function TrailingSpaces(s: string): (k: nat)
    ensures k <= |s|
    ensures k < |s| ==> !IsSpace(s[|s| - 1 - k])
  {
    if s == [] || !IsSpace(s[|s| - 1]) then 0 else 1 + TrailingSpaces(s[..|s| - 1])
  }

  /** Python's `s.strip()`: drops leading and trailing whitespace. */
  function Strip(s: string): (r: string)
    ensures |r| <= |s|
    ensures r == "" || (!IsSpace(r[0]) && !IsSpace(r[|r| - 1]))
  {
    var k := LeadingSpaces(s);
    if k == |s| then ""
    else
      var t := TrailingSpaces(s[k..]);
      s[k..|s| - t]
  }

  /** Stripping leaves nothing exactly when the text is all whitespace. */
  lemma StripEmptyIff(s: string)
    ensures Strip(s) == "" <==> forall i :: 0 <= i < |s| ==> IsSpace(s[i])
  {
    LeadingSpacesAreSpaces(s);
    var k := LeadingSpaces(s);
    if k < |s| {
      TrailingSpacesStopAt(s[k..]);
    }
  }

  /** Trailing whitespace stops before a first code point that is not whitespace. */
  lemma {:induction false} TrailingSpacesStopAt(t: string)
    requires t != [] && !IsSpace(t[0])
    ensures TrailingSpaces(t) < |t|
  {
    if |t| > 1 && IsSpace(t[|t| - 1]) {
      TrailingSpacesStopAt(t[..|t| - 1]);
    }
  }

  /** A string with no whitespace at either end is its own strip. */
  lemma StripOfStripped(s: string)
    requires s == "" || (!IsSpace(s[0]) && !IsSpace(s[|s| - 1]))
    ensures Strip(s) == s
  {
    if s != "" {
      assert LeadingSpaces(s) == 0;
      assert TrailingSpaces(s) == 0;
    }
  }

  /** Stripping twice is stripping once. */
  lemma StripIdempotent(s: string)
    ensures Strip(Strip(s)) == Strip(s)
  {
    StripOfStripped(Strip(s));
  }

  /** Python's truthiness of a string. */
  predicate NonBlank(s: string)
  {
    s != ""
  }

  /** Stripping only removes code points: what the text lacks, the stripped text lacks. */
  lemma StripWithin(s: string, c: char)
    requires c !in s
    ensures c !in Strip(s)
  {
    var k := LeadingSpaces(s);
    if k < |s| {
      var r := Strip(s);
      assert r == s[k..|s| - TrailingSpaces(s[k..])];
      forall i | 0 <= i < |r|
        ensures r[i] != c
      {
        assert r[i] == s[k + i];
      }
    }
  }

  /** Index of the first occurrence of `c`. */
  function IndexOf(s: string, c: char): (k: nat)
    requires c in s
    ensures k < |s| && s[k] == c && c !in s[..k]
  {
    if s[0] == c then 0
    else
      assert c in s[1..] by { assert s == [s[0]] + s[1..]; }
      var k := 1 + IndexOf(s[1..], c);
      assert s[..k] == [s[0]] + s[1..][..k - 1];
      k
  }

  /** Python's `s.split(sep)` for a one-character separator. */
  function Split(s: string, sep: char): (r: seq<string>)
    ensures |r| >= 1
    decreases |s|
  {
    if sep !in s then [s]
    else
      var k := IndexOf(s, sep);
      [s[..k]] + Split(s[k + 1..], sep)
  }

  /** No piece of a split holds the separator. */
  lemma {:induction false} SplitPiecesLackSeparator(s: string, sep: char)
    ensures forall i :: 0 <= i < |Split(s, sep)| ==> sep !in Split(s, sep)[i]
    decreases |s|
  {
    if sep in s {
      var k := IndexOf(s, sep);
      SplitPiecesLackSeparator(s[k + 1..], sep);
    }
  }

  /** Python's `sep.join(pieces)`. */
  function Join(pieces: seq<string>, sep: char): string
    requires |pieces| >= 1
  {
    if |pieces| == 1 then pieces[0] else pieces[0] + [sep] + Join(pieces[1..], sep)
  }

  /** Splitting and joining back on the same separator gives the original text. */
  lemma {:induction false} SplitJoin(s: string, sep: char)
    ensures Join(Split(s, sep), sep) == s
    decreases |s|
  {
    if sep in s {
      var k := IndexOf(s, sep);
      var rest := s[k + 1..];
      var tail := Split(rest, sep);
      calc {
        Join(Split(s, sep), sep);
        Join([s[..k]] + tail, sep);
        { assert ([s[..k]] + tail)[1..] == tail; }
        s[..k] + [sep] + Join(tail, sep);
        { SplitJoin(rest, sep); }
        s[..k] + [sep] + rest;
        { assert s == s[..k] + [sep] + rest; }
        s;
      }
    }
  }

  /** Index of the first whitespace code point, or `|s|` when there is none. */
  function WordEnd(s: string): (k: nat)
    ensures k <= |s|
    ensures forall i :: 0 <= i < k ==> !IsSpace(s[i])
    ensures k < |s| ==> IsSpace(s[k])
  {
    if s == [] || IsSpace(s[0]) then 0 else 1 + WordEnd(s[1..])
  }

  /** Python's `s.split()` with no argument: the maximal runs of non-whitespace. */
  function Words(s: string): (r: seq<string>)
    decreases |s|
  {
    var n := LeadingSpaces(s);
    var t := s[n..];
    if t == "" then []
    else
      assert t[0] == s[n];
      var k := WordEnd(t);
      [t[..k]] + Words(t[k..])
  }

  /** A word as `split()` yields it: non-empty and free of whitespace. */
  predicate IsWord(w: string)
  {
    w != [] && forall i :: 0 <= i < |w| ==> !IsSpace(w[i])
  }

  /** Every piece `split()` yields is a word. */
  lemma {:induction false} WordsAreWords(s: string)
    ensures forall w :: w in Words(s) ==> IsWord(w)
    decreases |s|
  {
    var n := LeadingSpaces(s);
    var t := s[n..];
    if t != "" {
      var k := WordEnd(t);
      assert t[0] == s[n];
      assert k > 0;
      assert IsWord(t[..k]);
      WordsAreWords(t[k..]);
      assert Words(s) == [t[..k]] + Words(t[k..]);
    }
  }

  /** `split()` yields nothing exactly when the text is all whitespace. */
  lemma WordsEmptyIff(s: string)
    ensures Words(s) == [] <==> forall i :: 0 <= i < |s| ==> IsSpace(s[i])
  {
    var n := LeadingSpaces(s);
    if n < |s| {
      assert s[n..] != "" && s[n..][0] == s[n];
      assert Words(s) != [];
      assert !IsSpace(s[n]);
    } else {
      assert s[n..] == "";
      assert Words(s) == [];
      LeadingSpacesAreSpaces(s);
    }
  }

  /** Leading whitespace is skipped: a space before a word adds nothing to the split. */
  lemma SpaceThenWords(b: string)
    requires b != "" && !IsSpace(b[0])
    ensures Words(" " + b) == Words(b)
  {
    assert LeadingSpaces(" " + b) == 1 && (" " + b)[1..] == b;
    assert LeadingSpaces(b) == 0 && b[0..] == b;
  }

  /** A word followed by whitespace or nothing is split off first. */
  lemma WordThenRest(w: string, rest: string)
    requires IsWord(w)
    requires rest == "" || IsSpace(rest[0])
    ensures Words(w + rest) == [w] + Words(rest)
  {
    var s := w + rest;
    assert s[0] == w[0] && LeadingSpaces(s) == 0 && s[0..] == s;
    WordEndAt(s, |w|);
    assert s[..|w|] == w && s[|w|..] == rest;
  }

  /** A single word is its own split. */
  lemma WordsOfOne(b: string)
    requires b != ""
    requires forall i :: 0 <= i < |b| ==> !IsSpace(b[i])
    ensures Words(b) == [b]
  {
    assert LeadingSpaces(b) == 0;
    assert b[0..] == b;
    WordEndAt(b, |b|);
    assert b[..|b|] == b && b[|b|..] == "";
  }

  /** A word runs up to the first whitespace. */
  lemma {:induction false} WordEndAt(s: string, k: nat)
    requires k <= |s|
    requires forall i :: 0 <= i < k ==> !IsSpace(s[i])
    requires k < |s| ==> IsSpace(s[k])
    ensures WordEnd(s) == k
  {
    if k > 0 {
      WordEndAt(s[1..], k - 1);
    }
  }

  /** The first and last code points of a join are those of the first and last pieces. */
  lemma {:induction false} JoinEnds(pieces: seq<string>, sep: char)
    requires |pieces| >= 1 && forall i :: 0 <= i < |pieces| ==> pieces[i] != ""
    ensures var j := Join(pieces, sep);
      j != "" && j[0] == pieces[0][0] && j[|j| - 1] == pieces[|pieces| - 1][|pieces[|pieces| - 1]| - 1]
  {
    if |pieces| > 1 {
      JoinEnds(pieces[1..], sep);
    }
  }

  /** Words joined by single spaces have no whitespace at either end. */
  lemma JoinOfWordsIsStripped(words: seq<string>)
    requires |words| >= 1
    requires forall i :: 0 <= i < |words| ==> IsWord(words[i])
    ensures Strip(Join(words, ' ')) == Join(words, ' ')
  {
    JoinEnds(words, ' ');
    assert IsWord(words[0]) && IsWord(words[|words| - 1]);
    StripOfStripped(Join(words, ' '));
  }

  /** Words joined by single spaces are split back into those words. */
  lemma {:induction false} WordsOfJoin(words: seq<string>)
    requires |words| >= 1
    requires forall i :: 0 <= i < |words| ==> IsWord(words[i])
    ensures Words(Join(words, ' ')) == words
  {
    if |words| == 1 {
      WordsOfOne(words[0]);
    } else {
      var rest := Join(words[1..], ' ');
      JoinEnds(words[1..], ' ');
      assert Join(words, ' ') == words[0] + (" " + rest);
      calc {
        Words(Join(words, ' '));
        { WordThenRest(words[0], " " + rest); }
        [words[0]] + Words(" " + rest);
        { SpaceThenWords(rest); }
        [words[0]] + Words(rest);
        { WordsOfJoin(words[1..]); }
        [words[0]] + words[1..];
        words;
      }
    }
  }

  /** Value of a run of ASCII digits, most significant first. */
  function DigitsValue(s: string): (n: nat)
    requires AllDigits(s)
  {
    if s == "" then 0 else DigitsValue(s[..|s| - 1]) * 10 + (s[|s| - 1] - '0') as int
  }

  /** Python's `int(s)` for a string: surrounding whitespace, an optional sign, ASCII digits. */
  function PyInt(s: string): (r: Option<int>)
    ensures r.Some? ==> Strip(s) != ""
  {
    var t := Strip(s);
    if t == "" then None
    else
      var body := if t[0] == '-' || t[0] == '+' then t[1..] else t;
      if body != "" && AllDigits(body) then Some(if t[0] == '-' then -(DigitsValue(body) as int) else DigitsValue(body))
      else None
  }

  function DigitChar(d: nat): (c: char)
    requires d < 10
    ensures IsAsciiDigit(c) && (c - '0') as int == d
  {
    ('0' as int + d) as char
  }

  /** Python's `str(n)` for a natural number. */
  function NatToString(n: nat): (s: string)
    ensures s != "" && AllDigits(s)
  {
    if n < 10 then [DigitChar(n)] else NatToString(n / 10) + [DigitChar(n % 10)]
  }

  /** Python's `str(n)` for an integer. */
  function IntToString(n: int): (s: string)
  {
    if n < 0 then "-" + NatToString(-n) else NatToString(n)
  }

  lemma {:induction false} NatToStringValue(n: nat)
    ensures DigitsValue(NatToString(n)) == n
  {
    if n >= 10 {
      NatToStringValue(n / 10);
      var s := NatToString(n);
      assert s[..|s| - 1] == NatToString(n / 10);
    }
  }

  /** `int(str(n)) == n`: decimal rendering and Python's integer parsing are inverse. */
  lemma IntToStringRoundTrip(n: int)
    ensures PyInt(IntToString(n)) == Some(n)
  {
    if n < 0 {
      var digits := NatToString(-n);
      calc {
        PyInt(IntToString(n));
        PyInt("-" + digits);
        { PyIntOfNegDigits(digits); }
        Some(-(DigitsValue(digits) as int));
        { NatToStringValue(-n); }
        Some(n);
      }
    } else {
      NatToStringValue(n);
      PyIntOfDigits(NatToString(n));
    }
  }

  /** Two-digit zero-padded rendering, as `strftime` prints `%m` and `%d`. */
  function Pad2(n: nat): (s: string)
    requires n < 100
    ensures |s| == 2 && AllDigits(s)
  {
    [DigitChar(n / 10), DigitChar(n % 10)]
  }

  /** Four-digit zero-padded rendering, as `strftime` prints `%Y`. */
  function Pad4(n: nat): (s: string)
    requires n < 10000
    ensures |s| == 4 && AllDigits(s)
  {
    [DigitChar(n / 10 / 10 / 10), DigitChar(n / 10 / 10 % 10), DigitChar(n / 10 % 10), DigitChar(n % 10)]
  }

  lemma Pad2Value(n: nat)
    requires n < 100
    ensures DigitsValue(Pad2(n)) == n
  {
    var s := Pad2(n);
    assert s[..|s| - 1][..0] == "";
    assert DigitsValue(s[..|s| - 1]) == n / 10;
  }

  lemma Pad4Value(n: nat)
    requires n < 10000
    ensures DigitsValue(Pad4(n)) == n
  {
    var s := Pad4(n);
    var q1 := n / 10;
    var q2 := q1 / 10;
    assert s[..3][..2][..1][..0] == "";
    assert s[..3][..2][..1] == s[..1];
    assert s[..3][..2] == s[..2];
    assert DigitsValue(s[..1]) == q2 / 10;
    assert DigitsValue(s[..2]) == q2;
    assert DigitsValue(s[..3]) == q1;
  }

  function Pow10(n: nat): (p: nat)
    ensures p >= 1
  {
    if n == 0 then 1 else 10 * Pow10(n - 1)
  }

  /** `n` digits hold a value below `10 ** n`. */
  lemma {:induction false} DigitsValueBound(s: string)
    requires AllDigits(s)
    ensures DigitsValue(s) < Pow10(|s|)
  {
    if s != "" {
      DigitsValueBound(s[..|s| - 1]);
    }
  }

  /** Digit strings of one length with one value are the same string. */
  lemma {:induction false} DigitsValueInjective(a: string, b: string)
    requires AllDigits(a) && AllDigits(b) && |a| == |b|
    requires DigitsValue(a) == DigitsValue(b)
    ensures a == b
  {
    if a != "" {
      var n := |a| - 1;
      assert IsAsciiDigit(a[n]) && IsAsciiDigit(b[n]);
      DigitsValueInjective(a[..n], b[..n]);
      assert a == a[..n] + [a[n]] && b == b[..n] + [b[n]];
    }
  }

  /** Two ASCII digits are the zero-padded printing of their value. */
  lemma Pad2OfDigits(t: string)
    requires |t| == 2 && AllDigits(t)
    ensures DigitsValue(t) < 100 && Pad2(DigitsValue(t)) == t
  {
    DigitsValueBound(t);
    Pad2Value(DigitsValue(t));
    DigitsValueInjective(Pad2(DigitsValue(t)), t);
  }

  /** Four ASCII digits are the zero-padded printing of their value. */
  lemma Pad4OfDigits(t: string)
    requires |t| == 4 && AllDigits(t)
    ensures DigitsValue(t) < 10000 && Pad4(DigitsValue(t)) == t
  {
    DigitsValueBound(t);
    Pad4Value(DigitsValue(t));
    DigitsValueInjective(Pad4(DigitsValue(t)), t);
  }

  /** Python's `a < b` on strings: lexicographic order of code points. */
  predicate StrLess(a: string, b: string)
  {
    if a == [] then b != []
    else if b == [] then false
    else if a[0] != b[0] then a[0] < b[0]
    else StrLess(a[1..], b[1..])
  }

  lemma {:induction false} StrLessAsymmetric(a: string, b: string)
    ensures StrLess(a, b) ==> !StrLess(b, a)
  {
    if a != [] && b != [] && a[0] == b[0] {
      StrLessAsymmetric(a[1..], b[1..]);
    }
  }

  lemma {:induction false} StrLessTotal(a: string, b: string)
    ensures a == b || StrLess(a, b) || StrLess(b, a)
  {
    if a != [] && b != [] && a[0] == b[0] {
      StrLessTotal(a[1..], b[1..]);
      if a[1..] == b[1..] {
        assert a == [a[0]] + a[1..] && b == [b[0]] + b[1..];
      }
    }
  }

  lemma {:induction false} StrLessTransitive(a: string, b: string, c: string)
    ensures StrLess(a, b) && StrLess(b, c) ==> StrLess(a, c)
  {
    if a != [] && b != [] && c != [] && a[0] == b[0] && b[0] == c[0] {
      StrLessTransitive(a[1..], b[1..], c[1..]);
    }
  }

  /** `a >= b` is transitive: the order the sorts below rely on. */
  lemma StrAtLeastTransitive(a: string, b: string, c: string)
    ensures !StrLess(a, b) && !StrLess(b, c) ==> !StrLess(a, c)
  {
    StrLessTotal(a, b);
    StrLessTotal(b, c);
    StrLessTransitive(c, b, a);
    StrLessAsymmetric(a, c);
  }

  /** Texts that start with heads of one length compare as their heads, or as their tails when the heads agree. */
  lemma {:induction false} StrLessAppend(p: string, q: string, s: string, t: string)
    requires |p| == |q|
    ensures StrLess(p + s, q + t) == if p == q then StrLess(s, t) else StrLess(p, q)
  {
    if p == [] {
      assert p + s == s && q + t == t;
    } else {
      assert (p + s)[0] == p[0] && (q + t)[0] == q[0];
      if p[0] == q[0] {
        assert (p + s)[1..] == p[1..] + s && (q + t)[1..] == q[1..] + t;
        StrLessAppend(p[1..], q[1..], s, t);
        assert p == [p[0]] + p[1..] && q == [q[0]] + q[1..];
      }
    }
  }

  /** The three pieces of a joined text sit one after another. */
  lemma JoinPieces(a: string, b: string, c: string)
    ensures var r := a + b + c;
      |r| == |a| + |b| + |c| && r[..|a|] == a && r[|a|..|a| + |b|] == b && r[|a| + |b|..] == c
  {
  }

  /** Two joins of heads of one length are equal exactly when heads and tails are. */
  lemma AppendSame(p: string, q: string, s: string, t: string)
    requires |p| == |q|
    ensures p + s == q + t <==> p == q && s == t
  {
    if p + s == q + t {
      assert p == (p + s)[..|p|] && q == (q + t)[..|q|];
      assert s == (p + s)[|p|..] && t == (q + t)[|q|..];
    }
  }

  /** Digit strings of one length have one value exactly when they are the same string. */
  lemma DigitsValueSame(a: string, b: string)
    requires AllDigits(a) && AllDigits(b) && |a| == |b|
    ensures DigitsValue(a) == DigitsValue(b) <==> a == b
  {
    if DigitsValue(a) == DigitsValue(b) {
      DigitsValueInjective(a, b);
    }
  }

  /** On digit strings of one length, Python's text order is the order of their values. */
  lemma {:induction false} DigitsLess(a: string, b: string)
    requires AllDigits(a) && AllDigits(b) && |a| == |b|
    ensures StrLess(a, b) <==> DigitsValue(a) < DigitsValue(b)
  {
    if a != [] {
      var n := |a| - 1;
      assert a == a[..n] + [a[n]] && b == b[..n] + [b[n]];
      assert IsAsciiDigit(a[n]) && IsAsciiDigit(b[n]);
      StrLessAppend(a[..n], b[..n], [a[n]], [b[n]]);
      DigitsLess(a[..n], b[..n]);
      DigitsValueSame(a[..n], b[..n]);
    }
  }

  /** Python's lenient slice `s[i:j]` for non-negative bounds: out-of-range ends are clipped. */
  function Slice(s: string, i: nat, j: nat): (r: string)
    ensures |r| == (if j <= i || i >= |s| then 0 else (if j < |s| then j else |s|) - i)
  {
    var hi := if j < |s| then j else |s|;
    if i >= hi then "" else s[i..hi]
  }

  /** Python's `s[i:]`. */
  function Drop(s: string, i: nat): (r: string)
    ensures |r| == if i < |s| then |s| - i else 0
  {
    if i < |s| then s[i..] else ""
  }

  /** Joining pieces that do not contain the separator and splitting again gives the pieces back. */
  lemma {:induction false} JoinSplit(pieces: seq<string>, sep: char)
    requires |pieces| >= 1
    requires forall i :: 0 <= i < |pieces| ==> sep !in pieces[i]
    ensures Split(Join(pieces, sep), sep) == pieces
  {
    if |pieces| > 1 {
      var rest := pieces[1..];
      assert sep !in pieces[0];
      assert forall i :: 0 <= i < |rest| ==> rest[i] == pieces[i + 1];
      calc {
        Split(Join(pieces, sep), sep);
        Split(pieces[0] + [sep] + Join(rest, sep), sep);
        { SplitCons(pieces[0], Join(rest, sep), sep); }
        [pieces[0]] + Split(Join(rest, sep), sep);
        { JoinSplit(rest, sep); }
        [pieces[0]] + rest;
        pieces;
      }
    }
  }

  /** A piece without the separator, the separator, then the rest: the piece is split off first. */
  lemma SplitCons(a: string, rest: string, sep: char)
    requires sep !in a
    ensures Split(a + [sep] + rest, sep) == [a] + Split(rest, sep)
  {
    var s := a + [sep] + rest;
    var k := |a|;
    assert s[..k] == a && s[k] == sep && s[k + 1..] == rest;
    IndexOfFirst(s, sep, k);
  }

  /** The first position holding `c` is the one `IndexOf` finds. */
  lemma IndexOfFirst(s: string, c: char, k: nat)
    requires k < |s| && s[k] == c && c !in s[..k]
    ensures IndexOf(s, c) == k
  {
  }

  /** `c * n` for a one-character string `c`. */
  function Repeat(c: char, n: nat): (r: string)
    ensures |r| == n && forall i :: 0 <= i < n ==> r[i] == c
  {
    if n == 0 then "" else [c] + Repeat(c, n - 1)
  }

  /** A run of ASCII digits parses as its decimal value. */
  lemma PyIntOfDigits(s: string)
    requires s != "" && AllDigits(s)
    ensures PyInt(s) == Some(DigitsValue(s))
  {
    assert IsAsciiDigit(s[0]) && IsAsciiDigit(s[|s| - 1]);
    StripOfStripped(s);
  }
  /** A minus sign before a run of ASCII digits parses as the negated value. */
  lemma PyIntOfNegDigits(s: string)
    requires s != "" && AllDigits(s)
    ensures PyInt("-" + s) == Some(-(DigitsValue(s) as int))
  {
    var t := "-" + s;
    assert t[0] == '-' && t[1..] == s && t[|t| - 1] == s[|s| - 1];
    assert IsAsciiDigit(s[|s| - 1]);
    StripOfStripped(t);
  }


  /** `sep.join(pieces + [last])` is `sep.join(pieces) + sep + last`. */
  lemma {:induction false} JoinSnoc(pieces: seq<string>, last: string, sep: char)
    requires |pieces| >= 1
    ensures Join(pieces + [last], sep) == Join(pieces, sep) + [sep] + last
  {
    if |pieces| > 1 {
      assert (pieces + [last])[1..] == pieces[1..] + [last];
      JoinSnoc(pieces[1..], last, sep);
    }
  }

  /** Joining two lists of pieces is joining each and putting the separator between. */
  lemma {:induction false} JoinConcat(a: seq<string>, b: seq<string>, sep: char)
    requires |a| >= 1 && |b| >= 1
    ensures Join(a + b, sep) == Join(a, sep) + [sep] + Join(b, sep)
  {
    if |a| > 1 {
      assert (a + b)[1..] == a[1..] + b;
      JoinConcat(a[1..], b, sep);
    }
  }

  /** The pieces `sep.join(lines)` stands for: the lines, or one empty piece when there are none. */
  function LinePieces(lines: seq<string>): (r: seq<string>)
    ensures |r| >= 1 && Join(r, '\n') == JoinAll(lines, '\n')
  {
    if lines == [] then [""] else lines
  }

  /**
   * A message laid out as a headline, a blank line, `"\n".join(lines)`, and closing lines:
   * split at line breaks, it gives those pieces back, provided none holds a break itself.
   */
  lemma SplitMessage(head: string, lines: seq<string>, tail: seq<string>)
    requires |tail| >= 1
    requires '\n' !in head
    requires forall i :: 0 <= i < |lines| ==> '\n' !in lines[i]
    requires forall i :: 0 <= i < |tail| ==> '\n' !in tail[i]
    ensures Split(head + "\n\n" + JoinAll(lines, '\n') + "\n" + Join(tail, '\n'), '\n')
            == [head, ""] + LinePieces(lines) + tail
  {
    var body := LinePieces(lines);
    var pieces := [head, ""] + body + tail;
    MessagePiecesSingle(head, body, tail);
    JoinMessage(head, body, tail);
    JoinSplit(pieces, '\n');
  }

  lemma JoinMessage(head: string, body: seq<string>, tail: seq<string>)
    requires |body| >= 1 && |tail| >= 1
    ensures Join([head, ""] + body + tail, '\n')
            == head + "\n\n" + Join(body, '\n') + "\n" + Join(tail, '\n')
  {
    var front := [head, ""];
    var x, y := Join(body, '\n'), Join(tail, '\n');
    assert front[1..] == [""];
    assert Join(front, '\n') == head + "\n" + "";
    JoinConcat(front, body, '\n');
    JoinConcat(front + body, tail, '\n');
    BreakPieces(head, x, y);
  }

  lemma BreakPieces(head: string, x: string, y: string)
    ensures head + "\n" + "" + ['\n'] + x + ['\n'] + y == head + "\n\n" + x + "\n" + y
  {
  }

  lemma MessagePiecesSingle(head: string, body: seq<string>, tail: seq<string>)
    requires '\n' !in head
    requires forall i :: 0 <= i < |body| ==> '\n' !in body[i]
    requires forall i :: 0 <= i < |tail| ==> '\n' !in tail[i]
    ensures forall i :: 0 <= i < |[head, ""] + body + tail| ==> '\n' !in ([head, ""] + body + tail)[i]
  {
    var pieces := [head, ""] + body + tail;
    forall i | 0 <= i < |pieces|
      ensures '\n' !in pieces[i]
    {
      if 2 <= i < 2 + |body| {
        assert pieces[i] == body[i - 2];
      } else if i >= 2 + |body| {
        assert pieces[i] == tail[i - 2 - |body|];
      }
    }
  }

  /** Decimal digits hold no line break. */
  lemma DigitsNoBreak(s: string)
    requires AllDigits(s)
    ensures '\n' !in s
  {
  }

  /** Text built from three pieces without line breaks has none. */
  lemma NoBreakJoin3(a: string, b: string, c: string)
    requires '\n' !in a && '\n' !in b && '\n' !in c
    ensures '\n' !in a + b + c
  {
  }

  /** Python's `sep.join(pieces)`, which is empty for an empty list. */
  function JoinAll(pieces: seq<string>, sep: char): string
  {
    if pieces == [] then "" else Join(pieces, sep)
  }
}
