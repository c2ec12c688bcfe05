/** The three pieces of Python string behaviour the connection handler relies on:
    `s.split(sep)` with an explicit one-character separator, `s.split()` with no
    separator (runs of whitespace), and `str(n)` / `format` of an `int`. */
module Text {

  /** The characters for which Python's `str.isspace()` holds; `str.split()` with no
      separator splits on runs of exactly these. */
  predicate IsSpace(c: char) {
    c == ' ' || c == '\t' || c == '\n' || c == '\r' || c == '\U{0B}' || c == '\U{0C}'
    || ('\U{1C}' <= c <= '\U{1F}')
    || c == '\U{85}' || c == '\U{A0}' || c == '\U{1680}'
    || ('\U{2000}' <= c <= '\U{200A}')
    || c == '\U{2028}' || c == '\U{2029}' || c == '\U{202F}' || c == '\U{205F}' || c == '\U{3000}'
  }

  /** A line holding nothing but whitespace (or nothing at all). */
  predicate IsBlank(s: string) {
    forall k :: 0 <= k < |s| ==> IsSpace(s[k])
  }

  /** A token as `str.split()` produces it: non-empty, no whitespace. */
  predicate IsWord(w: string) {
    |w| > 0 && forall k :: 0 <= k < |w| ==> !IsSpace(w[k])
  }

  // ---------------------------------------------------------------------------
  // s.split(sep) and its inverse sep.join(parts)

  /** Python's `s.split(sep)` for a one-character separator: every occurrence of `sep`
      cuts, empty pieces are kept, and the result is never empty (`"".split(sep) == [""]`). */
  function SplitOn(s: string, sep: char): (parts: seq<string>)
    ensures |parts| >= 1
    ensures forall k :: 0 <= k < |parts| ==> sep !in parts[k]
  {
    if s == "" then [""]
    else
      var rest := SplitOn(s[1..], sep);
      if s[0] == sep then [""] + rest
      else [[s[0]] + rest[0]] + rest[1..]
  }

  /** Python's `sep.join(parts)`. */
  function Join(parts: seq<string>, sep: char): string
  {
    if |parts| == 0 then ""
    else if |parts| == 1 then parts[0]
    else parts[0] + [sep] + Join(parts[1..], sep)
  }

  /** Joining the pieces back with the separator gives the original text: splitting
      loses nothing and reorders nothing. */
  lemma {:induction false} JoinSplitOn(s: string, sep: char)
    ensures Join(SplitOn(s, sep), sep) == s
  {
    if s != "" {
      var rest := SplitOn(s[1..], sep);
      JoinSplitOn(s[1..], sep);
      if s[0] == sep {
        assert SplitOn(s, sep) == [""] + rest;
        assert s == [sep] + s[1..];
      } else if |rest| == 1 {
        assert s == [s[0]] + s[1..];
      } else {
        assert Join(rest, sep) == rest[0] + [sep] + Join(rest[1..], sep);
        var parts := SplitOn(s, sep);
        assert parts[1..] == rest[1..];
        assert s == [s[0]] + s[1..];
      }
    }
  }

  /** A piece free of the separator followed by the separator splits off as one piece. */
  lemma {:induction false} SplitOnCons(p: string, sep: char, s: string)
    requires sep !in p
    ensures SplitOn(p + [sep] + s, sep) == [p] + SplitOn(s, sep)
  {
    if p == "" {
      assert p + [sep] + s == [sep] + s;
      assert ([sep] + s)[1..] == s;
    } else {
      SplitOnCons(p[1..], sep, s);
      assert (p + [sep] + s)[1..] == p[1..] + [sep] + s;
      assert [p[0]] + p[1..] == p;
    }
  }

  /** A text free of the separator is a single piece. */
  lemma {:induction false} SplitOnNone(p: string, sep: char)
    requires sep !in p
    ensures SplitOn(p, sep) == [p]
  {
    if p != "" {
      SplitOnNone(p[1..], sep);
      assert [p[0]] + p[1..] == p;
    }
  }

  /** Splitting a join of separator-free pieces gives the pieces back. */
  lemma {:induction false} SplitOnJoin(parts: seq<string>, sep: char)
    requires |parts| >= 1
    requires forall k :: 0 <= k < |parts| ==> sep !in parts[k]
    ensures SplitOn(Join(parts, sep), sep) == parts
  {
    if |parts| == 1 {
      SplitOnNone(parts[0], sep);
    } else {
      SplitOnJoin(parts[1..], sep);
      SplitOnCons(parts[0], sep, Join(parts[1..], sep));
      assert [parts[0]] + parts[1..] == parts;
    }
  }

  // ---------------------------------------------------------------------------
  // s.split(): tokens separated by runs of whitespace

  /** `s` without its leading whitespace. */
  function DropSpace(s: string): (t: string)
    ensures |t| <= |s|
    ensures t == "" || !IsSpace(t[0])
  {
    if s != "" && IsSpace(s[0]) then DropSpace(s[1..]) else s
  }

  /** The length of the longest whitespace-free prefix of `s`. */
  function WordLength(s: string): (n: nat)
    ensures n <= |s|
  {
    if s != "" && !IsSpace(s[0]) then 1 + WordLength(s[1..]) else 0
  }

  /** Python's `s.split()`: the maximal whitespace-free runs of `s`, in order. */
  function Tokens(s: string): seq<string>
    decreases |s|
  {
    var t := DropSpace(s);
    if t == "" then []
    else
      var n := WordLength(t);
      [t[..n]] + Tokens(t[n..])
  }

  /** What `DropSpace` removes is a whitespace prefix. */
  lemma {:induction false} DropSpaceSuffix(s: string)
    ensures var t := DropSpace(s);
            t == s[|s| - |t|..] && IsBlank(s[..|s| - |t|])
  {
    if s != "" && IsSpace(s[0]) {
      DropSpaceSuffix(s[1..]);
      var t := DropSpace(s);
      assert s[1..][..|s| - 1 - |t|] == s[1..|s| - |t|];
    }
  }

  /** `WordLength` measures a whitespace-free prefix that ends at whitespace or at the end. */
  lemma {:induction false} WordLengthMaximal(s: string)
    ensures var n := WordLength(s);
            IsWord(s[..n]) || n == 0
    ensures var n := WordLength(s);
            n == |s| || IsSpace(s[n])
  {
    if s != "" && !IsSpace(s[0]) {
      WordLengthMaximal(s[1..]);
      var n := WordLength(s);
      assert s[..n] == [s[0]] + s[1..][..n - 1];
    }
  }

  /** Every token is a word. */
  lemma {:induction false} TokensAreWords(s: string)
    ensures forall k :: 0 <= k < |Tokens(s)| ==> IsWord(Tokens(s)[k])
    decreases |s|
  {
    var t := DropSpace(s);
    if t != "" {
      var n := WordLength(t);
      WordLengthMaximal(t);
      TokensAreWords(t[n..]);
    }
  }

  /** `s.split()` is empty exactly for blank lines. */
  lemma TokensEmpty(s: string)
    ensures Tokens(s) == [] <==> IsBlank(s)
  {
    var t := DropSpace(s);
    DropSpaceSuffix(s);
    if t != "" {
      assert t[0] == s[|s| - |t|];
    } else {
      assert s[..|s|] == s;
    }
  }

  /** Leading whitespace does not change the tokens. */
  lemma TokensSpaceCons(c: char, s: string)
    requires IsSpace(c)
    ensures Tokens([c] + s) == Tokens(s)
  {
    assert ([c] + s)[1..] == s;
  }

  /** The whitespace-free prefix of a word followed by whitespace (or nothing) is the word. */
  lemma {:induction false} WordLengthOfWord(w: string, rest: string)
    requires forall k :: 0 <= k < |w| ==> !IsSpace(w[k])
    requires rest == "" || IsSpace(rest[0])
    ensures WordLength(w + rest) == |w|
  {
    if w != "" {
      assert (w + rest)[1..] == w[1..] + rest;
      WordLengthOfWord(w[1..], rest);
    } else {
      assert w + rest == rest;
    }
  }

  /** A word followed by a whitespace character: the word is the first token and the
      tokens of what follows are the rest. */
  lemma TokensCons(w: string, c: char, s: string)
    requires IsWord(w) && IsSpace(c)
    ensures Tokens(w + [c] + s) == [w] + Tokens(s)
  {
    var line := w + [c] + s;
    assert line == w + ([c] + s);
    assert DropSpace(line) == line;
    WordLengthOfWord(w, [c] + s);
    assert line[..|w|] == w;
    assert line[|w|..] == [c] + s;
    TokensSpaceCons(c, s);
  }

  /** A lone word is its own single token. */
  lemma TokensOfWord(w: string)
    requires IsWord(w)
    ensures Tokens(w) == [w]
  {
    assert DropSpace(w) == w;
    WordLengthOfWord(w, "");
    assert w + "" == w;
    assert w[|w|..] == "";
  }

  // A proof helper only: stated once here so that callers do not re-derive the
  // indexing of `[w] + ws`, which makes their proofs run out of resource.
  lemma WordsCons(w: string, ws: seq<string>)
    requires IsWord(w)
    requires forall k :: 0 <= k < |ws| ==> IsWord(ws[k])
    ensures forall k :: 0 <= k < |[w] + ws| ==> IsWord(([w] + ws)[k])
  {
  }

  /** A word followed by whitespace is determined by the text: two ways of writing the
      same text as a word then a whitespace-led tail agree on the word and the tail. */
  lemma FirstWordUnique(w1: string, t1: string, w2: string, t2: string)
    requires IsWord(w1) && IsWord(w2)
    requires |t1| > 0 && IsSpace(t1[0]) && |t2| > 0 && IsSpace(t2[0])
    requires w1 + t1 == w2 + t2
    ensures w1 == w2 && t1 == t2
  {
    var s := w1 + t1;
    assert forall k :: 0 <= k < |w1| ==> !IsSpace(s[k]);
    assert forall k :: 0 <= k < |w2| ==> !IsSpace(s[k]);
    assert IsSpace(s[|w1|]) && IsSpace(s[|w2|]);
    assert w1 == s[..|w1|] && w2 == s[..|w2|];
    assert t1 == s[|w1|..] && t2 == s[|w2|..];
  }

  /** Tokens joined by single spaces tokenise back to themselves. */
  lemma {:induction false} TokensOfJoin(ws: seq<string>)
    requires forall k :: 0 <= k < |ws| ==> IsWord(ws[k])
    ensures Tokens(Join(ws, ' ')) == ws
  {
    if |ws| == 1 {
      TokensOfWord(ws[0]);
    } else if |ws| > 1 {
      TokensOfJoin(ws[1..]);
      TokensCons(ws[0], ' ', Join(ws[1..], ' '));
      assert [ws[0]] + ws[1..] == ws;
    }
  }

  // ---------------------------------------------------------------------------
  // str(n) for Python ints

  function DigitChar(d: nat): (c: char)
    requires d < 10
    ensures '0' <= c <= '9'
  {
    "0123456789"[d]
  }

  function DigitValue(c: char): (d: nat)
    requires '0' <= c <= '9'
    ensures d < 10
  {
    (c as int - '0' as int) as nat
  }

  predicate IsDigits(s: string) {
    |s| >= 1 && forall k :: 0 <= k < |s| ==> '0' <= s[k] <= '9'
  }

  /** Decimal digits of `n`, most significant first, without leading zeros. */
  function NatToString(n: nat): (s: string)
    ensures IsDigits(s)
    ensures s[0] == '0' ==> n == 0
  {
    if n < 10 then [DigitChar(n)] else NatToString(n / 10) + [DigitChar(n % 10)]
  }

  /** Python's `str(n)` (equivalently `"{0}".format(n)`) for an `int`. */
  function IntToString(n: int): (s: string)
    ensures |s| >= 1
    ensures s[0] == '-' <==> n < 0
  {
    if n < 0 then "-" + NatToString(-n) else NatToString(n)
  }

  /** The value of a string of decimal digits. */
  function ParseNat(s: string): nat
    requires IsDigits(s)
  {
    if |s| == 1 then DigitValue(s[0])
    else ParseNat(s[..|s| - 1]) * 10 + DigitValue(s[|s| - 1])
  }

  /** The value of an optionally signed string of decimal digits. */
  predicate IsIntText(s: string) {
    IsDigits(s) || (|s| >= 2 && s[0] == '-' && IsDigits(s[1..]))
  }

  function ParseInt(s: string): int
    requires IsIntText(s)
  {
    if s[0] == '-' then -(ParseNat(s[1..]) as int) else ParseNat(s)
  }

  lemma {:induction false} ParseNatToString(n: nat)
    ensures ParseNat(NatToString(n)) == n
  {
    if n >= 10 {
      ParseNatToString(n / 10);
      var s := NatToString(n);
      assert s[..|s| - 1] == NatToString(n / 10);
    } else {
      assert DigitValue(DigitChar(n)) == n;
    }
  }

  /** Reading back what `str(n)` prints gives `n`. */
  lemma ParseIntToString(n: int)
    ensures IsIntText(IntToString(n)) && ParseInt(IntToString(n)) == n
  {
    if n < 0 {
      var digits := NatToString(-n);
      ParseNatToString(-n);
      assert IntToString(n) == "-" + digits;
      assert ("-" + digits)[1..] == digits;
    } else {
      ParseNatToString(n);
    }
  }

  /** Different numbers print differently. */
  lemma IntToStringInjective(a: int, b: int)
    requires IntToString(a) == IntToString(b)
    ensures a == b
  {
    ParseIntToString(a);
    ParseIntToString(b);
  }

  /** `str(n)` contains no whitespace and is never empty. */
  lemma IntToStringIsWord(n: int)
    ensures IsWord(IntToString(n))
  {
    var s := IntToString(n);
    if n < 0 {
      assert forall k :: 1 <= k < |s| ==> s[k] == NatToString(-n)[k - 1];
    }
  }

  /** A printed number followed by whitespace can be read back off the text: the number
      and what follows are determined. */
  lemma IntToStringFollowedBySpace(a: int, t1: string, b: int, t2: string)
    requires |t1| > 0 && IsSpace(t1[0]) && |t2| > 0 && IsSpace(t2[0])
    requires IntToString(a) + t1 == IntToString(b) + t2
    ensures a == b && t1 == t2
  {
    IntToStringIsWord(a);
    IntToStringIsWord(b);
    FirstWordUnique(IntToString(a), t1, IntToString(b), t2);
    IntToStringInjective(a, b);
  }

  /** Numbers from 100 to 999 print as exactly three digits. */
  lemma ThreeDigits(n: nat)
    requires 100 <= n < 1000
    ensures |NatToString(n)| == 3
    ensures NatToString(n)[0] == DigitChar(n / 100)
  {
    assert NatToString(n / 100) == [DigitChar(n / 100)];
    assert NatToString(n / 10) == [DigitChar(n / 100)] + [DigitChar((n / 10) % 10)];
  }
}
