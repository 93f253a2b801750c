/** The Python string operations the cascade code relies on:
    `s.split(sep)`, `sep.join(parts)`, `s.split()`, `int(s)` and `str(i)`. */
module Strings {
  import opened Wrappers

  // ---------------------------------------------------------------------------
  // s.split(sep) and sep.join(parts) for a one-character separator

  /** Python's `s.split(sep)`: the maximal separator-free pieces, empty pieces
      included, so there is always at least one. */
  function Split(s: string, sep: char): (parts: seq<string>)
    ensures |parts| >= 1
    ensures forall i :: 0 <= i < |parts| ==> sep !in parts[i]
    decreases |s|
  {
    if |s| == 0 then [""]
    else
      var rest := Split(s[1..], sep);
      if s[0] == sep then [""] + rest
      else [[s[0]] + rest[0]] + rest[1..]
  }

  /** Python's `sep.join(parts)`. */
  function Join(parts: seq<string>, sep: char): string
  {
    if |parts| == 0 then ""
    else if |parts| == 1 then parts[0]
    else parts[0] + [sep] + Join(parts[1..], sep)
  }

  /** The last '/'-separated segment of a path, `s.split('/')[-1]`. */
  function LastSegment(s: string): (r: string)
    ensures '/' !in r
  {
    var parts := Split(s, '/');
    parts[|parts| - 1]
  }

  /** Python's `s[: -k]` for k > 0: all but the last k characters, or "" when
      there are not that many. */
  function DropLast(s: string, k: nat): (r: string)
    ensures k <= |s| ==> s == r + s[|s| - k..]
    ensures k > |s| ==> r == ""
  {
    if k <= |s| then s[..|s| - k] else ""
  }

  /** Dropping the length of a suffix drops the suffix. */
  lemma DropLastConcat(a: string, b: string)
    ensures DropLast(a + b, |b|) == a
  {
    assert (a + b)[..|a|] == a;
  }

  /** Joining the pieces of a split gives back the string. */
  lemma {:induction false} JoinSplit(s: string, sep: char)
    ensures Join(Split(s, sep), sep) == s
    decreases |s|
  {
    if |s| > 0 {
      JoinSplit(s[1..], sep);
      var rest := Split(s[1..], sep);
      if s[0] == sep {
        assert ([""] + rest)[1..] == rest;
      } else if |rest| > 1 {
        assert ([[s[0]] + rest[0]] + rest[1..])[1..] == rest[1..];
      }
    }
  }

  /** A separator-free prefix extends the first piece of the split. */
  lemma {:induction false} SplitWordPrefix(w: string, t: string, sep: char)
    requires sep !in w
    ensures Split(w + t, sep) == [w + Split(t, sep)[0]] + Split(t, sep)[1..]
    decreases |w|
  {
    if |w| > 0 {
      assert (w + t)[1..] == w[1..] + t;
      assert (w + t)[0] == w[0];
      SplitWordPrefix(w[1..], t, sep);
      assert [w[0]] + (w[1..] + Split(t, sep)[0]) == w + Split(t, sep)[0];
    } else {
      assert w + t == t;
      assert w + Split(t, sep)[0] == Split(t, sep)[0];
      assert [Split(t, sep)[0]] + Split(t, sep)[1..] == Split(t, sep);
    }
  }

  /** A separator-free string splits into itself alone. */
  lemma SplitNoSeparator(w: string, sep: char)
    requires sep !in w
    ensures Split(w, sep) == [w]
  {
    SplitWordPrefix(w, "", sep);
    assert w + "" == w;
  }

  /** A word followed by a separator is split off as one piece. */
  lemma SplitWordThenSeparator(w: string, u: string, sep: char)
    requires sep !in w
    ensures Split(w + [sep] + u, sep) == [w] + Split(u, sep)
  {
    assert w + [sep] + u == w + ([sep] + u);
    SplitWordPrefix(w, [sep] + u, sep);
    assert ([sep] + u)[1..] == u;
    assert Split([sep] + u, sep) == [""] + Split(u, sep);
    assert w + "" == w;
  }

  /** Splitting undoes joining when the pieces hold no separator. */
  lemma {:induction false} SplitJoin(parts: seq<string>, sep: char)
    requires |parts| >= 1
    requires forall i :: 0 <= i < |parts| ==> sep !in parts[i]
    ensures Split(Join(parts, sep), sep) == parts
    decreases |parts|
  {
    if |parts| == 1 {
      SplitNoSeparator(parts[0], sep);
    } else {
      SplitJoin(parts[1..], sep);
      SplitWordThenSeparator(parts[0], Join(parts[1..], sep), sep);
      assert [parts[0]] + parts[1..] == parts;
    }
  }

  /** Joining two non-empty piece lists puts one separator between them. */
  lemma {:induction false} JoinConcat(xs: seq<string>, ys: seq<string>, sep: char)
    requires |xs| >= 1 && |ys| >= 1
    ensures Join(xs + ys, sep) == Join(xs, sep) + [sep] + Join(ys, sep)
    decreases |xs|
  {
    if |xs| == 1 {
      assert (xs + ys)[1..] == ys;
    } else {
      assert (xs + ys)[1..] == xs[1..] + ys;
      JoinConcat(xs[1..], ys, sep);
    }
  }

  /** Splitting at a separator splits each side separately. */
  lemma SplitConcat(a: string, b: string, sep: char)
    ensures Split(a + [sep] + b, sep) == Split(a, sep) + Split(b, sep)
  {
    var pa, pb := Split(a, sep), Split(b, sep);
    JoinSplit(a, sep);
    JoinSplit(b, sep);
    JoinConcat(pa, pb, sep);
    assert forall i :: 0 <= i < |pa + pb| ==> sep !in (pa + pb)[i] by {
      forall i | 0 <= i < |pa + pb| ensures sep !in (pa + pb)[i] {
        if i < |pa| { assert (pa + pb)[i] == pa[i]; } else { assert (pa + pb)[i] == pb[i - |pa|]; }
      }
    }
    SplitJoin(pa + pb, sep);
  }

  /** A string with several pieces is everything before its last separator,
      the separator, and the last piece. */
  lemma SplitLast(s: string, sep: char)
    requires |Split(s, sep)| >= 2
    ensures var parts := Split(s, sep);
      s == Join(parts[..|parts| - 1], sep) + [sep] + parts[|parts| - 1]
  {
    var parts := Split(s, sep);
    var n := |parts|;
    JoinSplit(s, sep);
    assert parts == parts[..n - 1] + [parts[n - 1]];
    JoinConcat(parts[..n - 1], [parts[n - 1]], sep);
  }

  /** A path of at least two pieces whose last piece is `file` is the join of
      the other pieces, the separator and `file`; dropping `file` and the
      separator leaves that join. */
  lemma SplitDirectory(s: string, sep: char, file: string)
    requires |Split(s, sep)| >= 2
    requires Split(s, sep)[|Split(s, sep)| - 1] == file
    ensures var parts := Split(s, sep);
      var dir := Join(parts[..|parts| - 1], sep);
      s == dir + [sep] + file && DropLast(s, |file| + 1) == dir
  {
    var parts := Split(s, sep);
    SplitLast(s, sep);
    DropSeparatorAndFile(s, Join(parts[..|parts| - 1], sep), sep, file);
  }

  lemma DropSeparatorAndFile(s: string, dir: string, sep: char, file: string)
    requires s == dir + [sep] + file
    ensures DropLast(s, |file| + 1) == dir
  {
    assert s[..|dir|] == dir;
  }

  /** A string has exactly one piece iff it holds no separator. */
  lemma SplitSingle(s: string, sep: char)
    ensures |Split(s, sep)| == 1 <==> sep !in s
  {
    if |Split(s, sep)| == 1 {
      JoinSplit(s, sep);
    }
    if sep !in s {
      SplitNoSeparator(s, sep);
    }
  }

  // ---------------------------------------------------------------------------
  // s.split() with no argument

  /** The characters Python's `str.split()` treats as whitespace: tab to
      carriage return, the four separators and the space, next line, no-break
      space, the Ogham space mark, the en quad to the hair space, the line and
      paragraph separators, the narrow no-break space, the medium mathematical
      space and the ideographic space. */
  predicate IsSpace(c: char)
  {
    || ('\t' <= c <= '\r')
    || ('\U{001C}' <= c <= ' ')
    || c == '\U{0085}' || c == '\U{00A0}' || c == '\U{1680}'
    || ('\U{2000}' <= c <= '\U{200A}')
    || c == '\U{2028}' || c == '\U{2029}' || c == '\U{202F}' || c == '\U{205F}' || c == '\U{3000}'
  }

  predicate NoSpace(w: string) { forall i :: 0 <= i < |w| ==> !IsSpace(w[i]) }

  /** Python's `s.split()`: the maximal runs of non-whitespace characters, in order. */
  function Tokens(s: string): (toks: seq<string>)
    ensures forall i :: 0 <= i < |toks| ==> |toks[i]| > 0 && NoSpace(toks[i])
    ensures |s| > 0 && !IsSpace(s[0]) ==> |toks| > 0 && toks[0][0] == s[0]
    decreases |s|
  {
    if |s| == 0 then []
    else
      var rest := Tokens(s[1..]);
      if IsSpace(s[0]) then rest
      else if |s| > 1 && !IsSpace(s[1]) then [[s[0]] + rest[0]] + rest[1..]
      else [[s[0]]] + rest
  }

  /** A word followed by the end or by whitespace is one token. */
  lemma {:induction false} TokensWord(w: string, t: string)
    requires |w| > 0 && NoSpace(w)
    requires t == [] || IsSpace(t[0])
    ensures Tokens(w + t) == [w] + Tokens(t)
    decreases |w|
  {
    var s := w + t;
    assert s[1..] == w[1..] + t;
    if |w| > 1 {
      TokensWord(w[1..], t);
      assert s[1] == w[1];
      assert [s[0]] + w[1..] == w;
    } else {
      assert w[1..] + t == t;
      assert |s| > 1 ==> s[1] == t[0];
      assert [s[0]] == w;
    }
  }

  /** Splitting on whitespace undoes joining non-empty words with single blanks:
      `' '.join(words).split() == words`. */
  lemma {:induction false} TokensOfJoin(words: seq<string>)
    requires forall i :: 0 <= i < |words| ==> |words[i]| > 0 && NoSpace(words[i])
    ensures Tokens(Join(words, ' ')) == words
    decreases |words|
  {
    if |words| == 1 {
      TokensWord(words[0], "");
      assert words[0] + "" == words[0];
    } else if |words| > 1 {
      var rest := Join(words[1..], ' ');
      TokensOfJoin(words[1..]);
      LeadingBlank(rest);
      TokensWord(words[0], [' '] + rest);
      JoinFirst(words, ' ');
      assert [words[0]] + words[1..] == words;
    }
  }

  /** A leading blank starts no token. */
  lemma LeadingBlank(s: string)
    ensures Tokens([' '] + s) == Tokens(s)
  {
    assert IsSpace(' ');
    assert ([' '] + s)[1..] == s;
  }

  lemma JoinFirst(parts: seq<string>, sep: char)
    requires |parts| > 1
    ensures Join(parts, sep) == parts[0] + ([sep] + Join(parts[1..], sep))
  {
  }

  // ---------------------------------------------------------------------------
  // int(s) and str(i)

  predicate IsDigit(c: char) { '0' <= c <= '9' }

  predicate AllDigits(s: string) { forall i :: 0 <= i < |s| ==> IsDigit(s[i]) }

  function DigitsValue(s: string): nat
    requires AllDigits(s)
    decreases |s|
  {
    if |s| == 0 then 0
    else DigitsValue(s[..|s| - 1]) * 10 + (s[|s| - 1] as int - '0' as int)
  }

  /** Python's `int(s)` on a token: an optional sign and one or more decimal digits. */
  function ParseInt(s: string): Option<int>
  {
    if |s| > 1 && (s[0] == '-' || s[0] == '+') && AllDigits(s[1..]) then
      var magnitude: int := DigitsValue(s[1..]);
      Some(if s[0] == '-' then -magnitude else magnitude)
    else if |s| > 0 && AllDigits(s) then Some(DigitsValue(s))
    else None
  }

  /** Python's `str(n)` for a non-negative integer. */
  function NatToString(n: nat): (s: string)
    ensures |s| > 0 && AllDigits(s)
  {
    var d := ['0' + (n % 10) as char];
    if n < 10 then d else NatToString(n / 10) + d
  }

  /** Python's `str(i)`. */
  function IntToString(i: int): string
  {
    if i < 0 then "-" + NatToString(-i) else NatToString(i)
  }

  lemma {:induction false} DigitsOfNatToString(n: nat)
    ensures DigitsValue(NatToString(n)) == n
  {
    var s := NatToString(n);
    if n >= 10 {
      DigitsOfNatToString(n / 10);
      assert s[..|s| - 1] == NatToString(n / 10);
    }
  }

  /** `int(str(i)) == i`. */
  lemma ParseIntToString(i: int)
    ensures ParseInt(IntToString(i)) == Some(i)
  {
    if i < 0 {
      DigitsOfNatToString(-i);
      ParseNegative(NatToString(-i));
    } else {
      DigitsOfNatToString(i);
      ParseUnsigned(NatToString(i));
    }
  }

  lemma ParseNegative(t: string)
    requires |t| > 0 && AllDigits(t)
    ensures ParseInt("-" + t) == Some(-(DigitsValue(t) as int))
  {
    assert ("-" + t)[1..] == t;
  }

  lemma ParseUnsigned(t: string)
    requires |t| > 0 && AllDigits(t)
    ensures ParseInt(t) == Some(DigitsValue(t))
  {
    assert IsDigit(t[0]);
  }
}
