/** The pieces of Rust's `str` API that the puzzle parsers rely on: `split` on a
    string pattern, `split_whitespace`, `lines`, and `parse` into unsigned and
    signed integers. Integer widths are not modelled: parsed values are
    unbounded naturals and integers. */
module Text {
  import opened Wrappers

  // ---------------------------------------------------------------------------
  // Whitespace splitting
  // ---------------------------------------------------------------------------

  /** Rust's `char::is_whitespace`: the characters with the Unicode
      White_Space property. */
  predicate IsWhitespace(c: char) {
    ('\t' <= c <= '\r') || c == ' ' || c == '\U{85}' || c == '\U{A0}' || c == '\U{1680}'
    || ('\U{2000}' <= c <= '\U{200A}') || c == '\U{2028}' || c == '\U{2029}'
    || c == '\U{202F}' || c == '\U{205F}' || c == '\U{3000}'
  }

  /** A word as `split_whitespace` yields it: non-empty, no whitespace inside. */
  predicate IsWord(w: string) {
    |w| > 0 && forall i :: 0 <= i < |w| ==> !IsWhitespace(w[i])
  }

  /** Length of the leading run of non-whitespace characters of `s`. */
  function WordLength(s: string): (n: nat)
    ensures n <= |s|
    ensures forall i :: 0 <= i < n ==> !IsWhitespace(s[i])
    ensures n < |s| ==> IsWhitespace(s[n])
  {
    if |s| == 0 || IsWhitespace(s[0]) then 0 else 1 + WordLength(s[1..])
  }

  /** Rust's `str::split_whitespace`: the maximal runs of non-whitespace
      characters, in order. */
  function SplitWhitespace(s: string): (words: seq<string>)
    ensures forall i :: 0 <= i < |words| ==> IsWord(words[i])
    decreases |s|
  {
    if |s| == 0 then []
    else if IsWhitespace(s[0]) then SplitWhitespace(s[1..])
    else
      var n := WordLength(s);
      [s[..n]] + SplitWhitespace(s[n..])
  }

  /** `s` with every whitespace character removed. */
  function RemoveWhitespace(s: string): string {
    if |s| == 0 then []
    else if IsWhitespace(s[0]) then RemoveWhitespace(s[1..])
    else [s[0]] + RemoveWhitespace(s[1..])
  }

  function Concat(words: seq<string>): string {
    if |words| == 0 then [] else words[0] + Concat(words[1..])
  }

  /** The words joined with one space between neighbours. */
  function JoinSpaced(words: seq<string>): string {
    if |words| == 0 then []
    else if |words| == 1 then words[0]
    else words[0] + " " + JoinSpaced(words[1..])
  }

  lemma {:induction false} RemoveWhitespaceAppend(a: string, b: string)
    ensures RemoveWhitespace(a + b) == RemoveWhitespace(a) + RemoveWhitespace(b)
    decreases |a|
  {
    if |a| == 0 {
      assert a + b == b;
    } else {
      assert (a + b)[1..] == a[1..] + b;
      RemoveWhitespaceAppend(a[1..], b);
    }
  }

  lemma {:induction false} RemoveWhitespaceOfWord(w: string)
    requires forall i :: 0 <= i < |w| ==> !IsWhitespace(w[i])
    ensures RemoveWhitespace(w) == w
    decreases |w|
  {
    if |w| > 0 {
      RemoveWhitespaceOfWord(w[1..]);
    }
  }

  /** Splitting keeps every non-whitespace character, in order, and nothing else. */
  lemma {:induction false} SplitWhitespaceKeepsContent(s: string)
    ensures Concat(SplitWhitespace(s)) == RemoveWhitespace(s)
    decreases |s|
  {
    if |s| == 0 {
    } else if IsWhitespace(s[0]) {
      SplitWhitespaceKeepsContent(s[1..]);
    } else {
      var n := WordLength(s);
      ConcatCons(s[..n], SplitWhitespace(s[n..]));
      SplitWhitespaceKeepsContent(s[n..]);
      assert s == s[..n] + s[n..];
      RemoveWhitespaceAppend(s[..n], s[n..]);
      RemoveWhitespaceOfWord(s[..n]);
    }
  }

  lemma ConcatCons(w: string, words: seq<string>)
    ensures Concat([w] + words) == w + Concat(words)
  {
    assert ([w] + words)[1..] == words;
  }

  lemma {:induction false} WordLengthOfWord(w: string, rest: string)
    requires forall i :: 0 <= i < |w| ==> !IsWhitespace(w[i])
    requires |rest| == 0 || IsWhitespace(rest[0])
    ensures WordLength(w + rest) == |w|
    decreases |w|
  {
    if |w| > 0 {
      assert (w + rest)[1..] == w[1..] + rest;
      WordLengthOfWord(w[1..], rest);
    } else {
      assert w + rest == rest;
    }
  }

  /** Joined words hold no whitespace but the separating spaces, and end
      in a non-whitespace character. */
  lemma {:induction false} JoinSpacedShape(words: seq<string>)
    requires |words| > 0
    requires forall i :: 0 <= i < |words| ==> IsWord(words[i])
    ensures var s := JoinSpaced(words); |s| > 0 && !IsWhitespace(s[|s| - 1])
    ensures var s := JoinSpaced(words); forall i :: 0 <= i < |s| && IsWhitespace(s[i]) ==> s[i] == ' '
    decreases |words|
  {
    if |words| > 1 {
      JoinSpacedShape(words[1..]);
      var w := words[0];
      var rest := JoinSpaced(words[1..]);
      var s := JoinSpaced(words);
      assert s == w + " " + rest;
      forall i | 0 <= i < |s| && IsWhitespace(s[i])
        ensures s[i] == ' '
      {
        if i > |w| {
          assert s[i] == rest[i - |w| - 1];
        }
      }
    }
  }

  lemma {:induction false} SplitWhitespaceOfJoinSpaced(words: seq<string>)
    requires forall i :: 0 <= i < |words| ==> IsWord(words[i])
    ensures SplitWhitespace(JoinSpaced(words)) == words
    decreases |words|
  {
    if |words| == 0 {
    } else if |words| == 1 {
      var w := words[0];
      WordLengthOfWord(w, []);
      assert w + [] == w;
      assert w[|w|..] == [];
    } else {
      var w := words[0];
      var rest := " " + JoinSpaced(words[1..]);
      var s := JoinSpaced(words);
      assert s == w + rest;
      WordLengthOfWord(w, rest);
      assert s[..|w|] == w;
      assert s[|w|..] == rest;
      assert rest[1..] == JoinSpaced(words[1..]);
      SplitWhitespaceOfJoinSpaced(words[1..]);
      assert words == [w] + words[1..];
    }
  }

  // ---------------------------------------------------------------------------
  // Splitting on a string pattern
  // ---------------------------------------------------------------------------

  /** `d` occurs in `s` starting at index `k`. */
  predicate OccursAt(s: string, d: string, k: nat) {
    k + |d| <= |s| && s[k..k + |d|] == d
  }

  predicate Contains(s: string, d: string) {
    exists k: nat :: k <= |s| && OccursAt(s, d, k)
  }

  /** The leftmost occurrence of the non-empty pattern `d` in `s`. */
  function IndexOf(s: string, d: string): (r: Option<nat>)
    requires |d| > 0
    ensures r.Some? ==> OccursAt(s, d, r.value)
    ensures r.Some? ==> forall k: nat :: k < r.value ==> !OccursAt(s, d, k)
    ensures r.None? ==> !Contains(s, d)
    decreases |s|
  {
    if |s| < |d| then None
    else if s[..|d|] == d then Some(0)
    else
      match IndexOf(s[1..], d)
      case None =>
        assert forall k: nat :: k <= |s| && OccursAt(s, d, k) ==> k > 0 && OccursAt(s[1..], d, k - 1);
        None
      case Some(k) =>
        assert OccursAt(s, d, k + 1) by {
          assert s[k + 1..k + 1 + |d|] == s[1..][k..k + |d|];
        }
        assert forall j: nat :: 0 < j < k + 1 && OccursAt(s, d, j) ==> OccursAt(s[1..], d, j - 1);
        Some(k + 1)
  }

  /** The parts joined back together with the pattern between neighbours. */
  function Join(parts: seq<string>, d: string): string {
    if |parts| == 0 then []
    else if |parts| == 1 then parts[0]
    else parts[0] + d + Join(parts[1..], d)
  }

  /** Rust's `str::split` with a non-empty pattern: the pieces between the
      leftmost non-overlapping occurrences of `d`, empty pieces included. */
  function SplitOn(s: string, d: string): (parts: seq<string>)
    requires |d| > 0
    ensures |parts| >= 1
    ensures forall i :: 0 <= i < |parts| ==> !Contains(parts[i], d)
    ensures Join(parts, d) == s
    decreases |s|
  {
    match IndexOf(s, d)
    case None => [s]
    case Some(k) =>
      var head := s[..k];
      var rest := SplitOn(s[k + |d|..], d);
      assert !Contains(head, d) by {
        forall j: nat | j <= |head| && OccursAt(head, d, j)
          ensures false
        {
          assert s[j..j + |d|] == head[j..j + |d|];
          assert OccursAt(s, d, j);
        }
      }
      assert s == head + d + s[k + |d|..] by {
        assert s[k..k + |d|] == d;
      }
      [head] + rest
  }

  /** A one-character pattern occurs exactly where the character does. */
  lemma ContainsChar(s: string, c: char)
    ensures Contains(s, [c]) <==> c in s
  {
    if c in s {
      var k :| 0 <= k < |s| && s[k] == c;
      assert OccursAt(s, [c], k);
    }
    if Contains(s, [c]) {
      var k: nat :| k <= |s| && OccursAt(s, [c], k);
      assert s[k] == s[k..k + 1][0];
    }
  }

  /** Splitting on a character undoes joining with it, as long as no part
      holds the character. */
  lemma {:induction false} SplitOnJoin(parts: seq<string>, c: char)
    requires |parts| >= 1
    requires forall i :: 0 <= i < |parts| ==> c !in parts[i]
    ensures SplitOn(Join(parts, [c]), [c]) == parts
    decreases |parts|
  {
    var s := Join(parts, [c]);
    if |parts| == 1 {
      ContainsChar(parts[0], c);
    } else {
      var p := parts[0];
      var tail := Join(parts[1..], [c]);
      assert s == p + [c] + tail;
      FirstSeparator(p, c, tail);
      SplitOnAt(s, [c], |p|);
      assert s[..|p|] == p;
      assert s[|p| + 1..] == tail;
      SplitOnJoin(parts[1..], c);
      assert parts == [p] + parts[1..];
    }
  }

  /** The first `c` after a `c`-free prefix is right after the prefix. */
  lemma FirstSeparator(p: string, c: char, tail: string)
    requires c !in p
    ensures IndexOf(p + [c] + tail, [c]) == Some(|p|)
  {
    var s := p + [c] + tail;
    assert OccursAt(s, [c], |p|) by {
      assert s[|p|..|p| + 1] == [c];
    }
    forall k: nat | k < |p|
      ensures !OccursAt(s, [c], k)
    {
      assert s[k] == p[k];
      assert s[k..k + 1] == [p[k]];
    }
  }

  /** One step of `SplitOn`: the piece before the leftmost occurrence,
      then the pieces of the rest. */
  lemma SplitOnAt(s: string, d: string, k: nat)
    requires |d| > 0 && IndexOf(s, d) == Some(k)
    ensures k + |d| <= |s|
    ensures SplitOn(s, d) == [s[..k]] + SplitOn(s[k + |d|..], d)
  {
  }

  /** The joined string ends with the last part. */
  lemma {:induction false} JoinEndsWithLast(parts: seq<string>, d: string)
    requires |parts| >= 1
    ensures var j := Join(parts, d); |parts[|parts| - 1]| <= |j| && j[|j| - |parts[|parts| - 1]|..] == parts[|parts| - 1]
    decreases |parts|
  {
    if |parts| > 1 {
      JoinEndsWithLast(parts[1..], d);
    }
  }

  /** Pieces joined on `c` into a string ending in `c`, the last of them
      free of `c`: that last piece is empty. */
  lemma LastPieceEmpty(parts: seq<string>, c: char)
    requires |parts| >= 1 && !Contains(parts[|parts| - 1], [c])
    requires var j := Join(parts, [c]); |j| > 0 && j[|j| - 1] == c
    ensures parts[|parts| - 1] == []
  {
    var last := parts[|parts| - 1];
    ContainsChar(last, c);
    JoinEndsWithLast(parts, [c]);
    EndsWithSeparator(Join(parts, [c]), last, c);
  }

  /** A non-empty suffix of a string ending in `c` holds `c`. */
  lemma EndsWithSeparator(s: string, suffix: string, c: char)
    requires |suffix| <= |s| && s[|s| - |suffix|..] == suffix
    requires |s| > 0 && s[|s| - 1] == c
    ensures |suffix| > 0 ==> c in suffix
  {
    if |suffix| > 0 {
      assert suffix[|suffix| - 1] == s[|s| - 1];
    }
  }

  /** Rust's `str::matches(d).count()`: the number of leftmost
      non-overlapping occurrences of `d`; the empty pattern matches at every
      character boundary. */
  function MatchCount(s: string, d: string): nat {
    if |d| == 0 then |s| + 1 else |SplitOn(s, d)| - 1
  }

  /** A one-character pattern is matched once per occurrence of the
      character. */
  lemma MatchCountChar(s: string, c: char)
    ensures MatchCount(s, [c]) == multiset(s)[c]
  {
    var parts := SplitOn(s, [c]);
    forall i | 0 <= i < |parts|
      ensures c !in parts[i]
    {
      ContainsChar(parts[i], c);
    }
    JoinCount(parts, c);
  }

  lemma {:induction false} JoinCount(parts: seq<string>, c: char)
    requires |parts| >= 1
    requires forall i :: 0 <= i < |parts| ==> c !in parts[i]
    ensures multiset(Join(parts, [c]))[c] == |parts| - 1
    decreases |parts|
  {
    if |parts| == 1 {
      assert multiset(parts[0])[c] == 0;
    } else {
      JoinCount(parts[1..], c);
      var tail := Join(parts[1..], [c]);
      assert Join(parts, [c]) == parts[0] + [c] + tail;
      assert multiset(parts[0])[c] == 0;
    }
  }

  /** Rust's `str::lines` (current standard library): the pieces between
      `'\n'` characters, a `'\r'` stripped from the end of a piece only when a
      `'\n'` followed it, and no final empty piece after a trailing newline. */
  function Lines(s: string): (lines: seq<string>)
    ensures forall i :: 0 <= i < |lines| ==> !Contains(lines[i], "\n")
    ensures |s| == 0 ==> lines == []
    ensures |lines| <= |SplitOn(s, "\n")|
  {
    LinesOfParts(SplitOn(s, "\n"))
  }

  /** The lines read from the pieces between newlines: every piece but the
      last was followed by a newline and loses a trailing `'\r'`; the last
      piece counts only when it is not empty. */
  function LinesOfParts(parts: seq<string>): (lines: seq<string>)
    requires |parts| >= 1
    requires forall i :: 0 <= i < |parts| ==> !Contains(parts[i], "\n")
    ensures forall i :: 0 <= i < |lines| ==> !Contains(lines[i], "\n")
    ensures |parts| == 1 && parts[0] == [] ==> lines == []
    ensures |lines| <= |parts|
  {
    var n := |parts| - 1;
    var terminated := StripEach(parts[..n]);
    assert forall i :: 0 <= i < n ==> !Contains(terminated[i], "\n") by {
      forall i | 0 <= i < n {
        StripKeepsNoPattern(parts[i], "\n");
      }
    }
    if parts[n] == [] then terminated else terminated + [parts[n]]
  }

  /** Each piece with its trailing `'\r'`, if any, removed. */
  function StripEach(pieces: seq<string>): (r: seq<string>)
    ensures |r| == |pieces|
    ensures forall i :: 0 <= i < |pieces| ==> r[i] == StripCarriageReturn(pieces[i])
  {
    seq(|pieces|, i requires 0 <= i < |pieces| => StripCarriageReturn(pieces[i]))
  }

  /** Lines joined with `"\n"` come back from `Lines`, as long as none holds
      a newline or ends in `'\r'` and the last is not empty. */
  lemma LinesOfJoin(lines: seq<string>)
    requires |lines| >= 1 && lines[|lines| - 1] != []
    requires forall i :: 0 <= i < |lines| ==> '\n' !in lines[i]
    requires forall i :: 0 <= i < |lines| ==> StripCarriageReturn(lines[i]) == lines[i]
    ensures Lines(Join(lines, "\n")) == lines
  {
    SplitOnJoin(lines, '\n');
    LinesOfPieces(lines);
  }

  lemma LinesOfPieces(lines: seq<string>)
    requires |lines| >= 1 && lines[|lines| - 1] != []
    requires forall i :: 0 <= i < |lines| ==> !Contains(lines[i], "\n")
    requires forall i :: 0 <= i < |lines| ==> StripCarriageReturn(lines[i]) == lines[i]
    ensures LinesOfParts(lines) == lines
  {
    var n := |lines| - 1;
    StripEachKeeps(lines[..n]);
    assert LinesOfParts(lines) == lines[..n] + [lines[n]];
    assert lines == lines[..n] + [lines[n]];
  }

  /** Pieces without a trailing `'\r'` are left as they are. */
  lemma StripEachKeeps(pieces: seq<string>)
    requires forall i :: 0 <= i < |pieces| ==> StripCarriageReturn(pieces[i]) == pieces[i]
    ensures StripEach(pieces) == pieces
  {
  }

  function StripCarriageReturn(line: string): string {
    if |line| > 0 && line[|line| - 1] == '\r' then line[..|line| - 1] else line
  }

  lemma StripKeepsNoPattern(line: string, d: string)
    requires !Contains(line, d)
    ensures !Contains(StripCarriageReturn(line), d)
  {
    var t := StripCarriageReturn(line);
    forall k: nat | k <= |t| && OccursAt(t, d, k)
      ensures false
    {
      assert line[k..k + |d|] == t[k..k + |d|];
      assert OccursAt(line, d, k);
    }
  }

  // ---------------------------------------------------------------------------
  // Integer parsing
  // ---------------------------------------------------------------------------

  predicate IsDigit(c: char) {
    '0' <= c <= '9'
  }

  predicate AllDigits(s: string) {
    forall i :: 0 <= i < |s| ==> IsDigit(s[i])
  }

  function DigitValue(c: char): nat
    requires IsDigit(c)
  {
    (c as int) - ('0' as int)
  }

  function DigitChar(d: nat): char
    requires d < 10
  {
    (('0' as int) + d) as char
  }

  /** The value of a string of decimal digits, most significant first. */
  function DigitsValue(s: string): nat
    requires AllDigits(s)
    decreases |s|
  {
    if |s| == 0 then 0 else DigitsValue(s[..|s| - 1]) * 10 + DigitValue(s[|s| - 1])
  }

  /** A non-empty string of decimal digits and its value. */
  function ParseDigits(s: string): (r: Option<nat>)
    ensures r.Some? <==> |s| > 0 && AllDigits(s)
  {
    if |s| > 0 && AllDigits(s) then Some(DigitsValue(s)) else None
  }

  /** Rust's `str::parse` into an unsigned integer: an optional `'+'` then
      at least one decimal digit. */
  function ParseUnsigned(s: string): (r: Option<nat>)
    ensures r.Some? ==> |s| > 0 && (IsDigit(s[0]) || s[0] == '+')
    ensures r.Some? <==> (|s| > 0 && s[0] == '+' && ParseDigits(s[1..]).Some?) || ParseDigits(s).Some?
  {
    if |s| > 0 && s[0] == '+' then ParseDigits(s[1..]) else ParseDigits(s)
  }

  /** Rust's `str::parse` into a signed integer: an optional `'+'` or `'-'`
      then at least one decimal digit. */
  function ParseSigned(s: string): (r: Option<int>)
    ensures r.Some? <==> ParseUnsigned(s).Some? || (|s| > 0 && s[0] == '-' && ParseDigits(s[1..]).Some?)
    ensures r.Some? && r.value < 0 ==> s[0] == '-'
  {
    if |s| > 0 && s[0] == '-' then
      match ParseDigits(s[1..])
      case None => None
      case Some(v) => Some(-(v as int))
    else ParseUnsigned(s)
  }

  /** Decimal rendering of a natural number, without sign or leading zeros. */
  function NatToString(n: nat): (s: string)
    ensures |s| > 0 && AllDigits(s)
    decreases n
  {
    if n < 10 then [DigitChar(n)] else NatToString(n / 10) + [DigitChar(n % 10)]
  }

  /** Decimal rendering of an integer with an explicit sign, as in `+4`, `-99`. */
  function SignedToString(i: int): (s: string)
  {
    if i < 0 then "-" + NatToString(-i) else "+" + NatToString(i)
  }

  lemma {:induction false} NatToStringValue(n: nat)
    ensures DigitsValue(NatToString(n)) == n
    decreases n
  {
    var s := NatToString(n);
    if n >= 10 {
      NatToStringValue(n / 10);
      assert s[..|s| - 1] == NatToString(n / 10);
    }
  }

  /** Parsing the decimal rendering of a natural gives it back. */
  lemma ParseUnsignedRoundTrip(n: nat)
    ensures ParseUnsigned(NatToString(n)) == Some(n)
  {
    NatToStringValue(n);
  }

  /** Parsing the signed rendering of an integer gives it back. */
  lemma ParseSignedRoundTrip(i: int)
    ensures ParseSigned(SignedToString(i)) == Some(i)
  {
    var s := SignedToString(i);
    if i < 0 {
      assert s[1..] == NatToString(-i);
      NatToStringValue(-i);
    } else {
      assert s[1..] == NatToString(i);
      NatToStringValue(i);
    }
  }

  /** Every word is an unsigned integer literal. */
  predicate AllUnsigned(words: seq<string>) {
    forall i :: 0 <= i < |words| ==> ParseUnsigned(words[i]).Some?
  }

  /** `values` are the parsed values of `words`, position by position. */
  predicate ParsedFrom(values: seq<nat>, words: seq<string>) {
    |values| == |words| && forall i :: 0 <= i < |words| ==> ParseUnsigned(words[i]) == Some(values[i])
  }

  /** Every word parsed as an unsigned integer; `None` as soon as one fails,
      as `collect::<Result<Vec<_>, _>>()` does. */
  function ParseAll(words: seq<string>): (r: Option<seq<nat>>)
    ensures r.Some? <==> AllUnsigned(words)
    ensures r.Some? ==> ParsedFrom(r.value, words)
    decreases |words|
  {
    if |words| == 0 then Some([])
    else
      match ParseUnsigned(words[0])
      case None => None
      case Some(v) =>
        match ParseAll(words[1..])
        case None => None
        case Some(vs) => Some([v] + vs)
  }

  /** Rust's `data.split_whitespace().map(str::parse).collect()` into unsigned
      integers. */
  function ParseNumbers(data: string): (r: Option<seq<nat>>)
    ensures r.Some? <==> AllUnsigned(SplitWhitespace(data))
    ensures r.Some? ==> ParsedFrom(r.value, SplitWhitespace(data))
  {
    ParseAll(SplitWhitespace(data))
  }
}
