// Text helpers shared by the models of the Python back end and the
// JavaScript client: one-character splitting and joining (Python
// `str.split(sep)` / `sep.join`, JavaScript `split` / template joins),
// whitespace-run tokenising (Python `str.split()`), trimming with the two
// languages' different whitespace sets, prefix and substring tests, and
// decimal rendering of naturals.

module Strings {

  /** The characters for which Python's `str.isspace` holds (the ones
      Python strips and splits on by default): space, tab to carriage
      return, the four information separators, next line, no-break space,
      ogham space mark, the en quad to hair space block, the line and
      paragraph separators, narrow no-break space, medium mathematical
      space and ideographic space. */
  const PySpaces: set<char> := {
    ' ', '\t', '\n', '\U{0B}', '\U{0C}', '\r', '\U{1C}', '\U{1D}', '\U{1E}', '\U{1F}',
    '\U{85}', '\U{A0}', '\U{1680}',
    '\U{2000}', '\U{2001}', '\U{2002}', '\U{2003}', '\U{2004}', '\U{2005}', '\U{2006}',
    '\U{2007}', '\U{2008}', '\U{2009}', '\U{200A}',
    '\U{2028}', '\U{2029}', '\U{202F}', '\U{205F}', '\U{3000}'
  }

  /** The characters `String.prototype.trim` removes in JavaScript (the
      WhiteSpace and LineTerminator productions of ECMAScript): Python's set
      without the information separators and next line, plus the byte order
      mark. */
  const JsSpaces: set<char> := {
    ' ', '\t', '\n', '\U{0B}', '\U{0C}', '\r',
    '\U{A0}', '\U{1680}',
    '\U{2000}', '\U{2001}', '\U{2002}', '\U{2003}', '\U{2004}', '\U{2005}', '\U{2006}',
    '\U{2007}', '\U{2008}', '\U{2009}', '\U{200A}',
    '\U{2028}', '\U{2029}', '\U{202F}', '\U{205F}', '\U{3000}',
    '\U{FEFF}'
  }

  predicate IsPySpace(c: char)
  {
    c in PySpaces
  }

  predicate IsJsSpace(c: char)
  {
    c in JsSpaces
  }

  /** Number of occurrences of `c` in `s`. */
  function Count(s: string, c: char): nat
  {
    if s == [] then 0 else (if s[0] == c then 1 else 0) + Count(s[1..], c)
  }

  /** `s.split(sep)` for a one-character separator: the maximal pieces
      between separators, empty pieces included. */
  function Split(s: string, sep: char): (parts: seq<string>)
    ensures |parts| >= 1
    ensures |parts| == Count(s, sep) + 1
    decreases |s|
  {
    if s == [] then [""]
    else if s[0] == sep then [""] + Split(s[1..], sep)
    else
      var rest := Split(s[1..], sep);
      [[s[0]] + rest[0]] + rest[1..]
  }

  /** `"".join(parts)`: the strings one after the other. */
  function Concat(parts: seq<string>): string
  {
    if parts == [] then "" else parts[0] + Concat(parts[1..])
  }

  lemma {:induction false} ConcatSnoc(parts: seq<string>, last: string)
    ensures Concat(parts + [last]) == Concat(parts) + last
  {
    if parts != [] {
      assert (parts + [last])[1..] == parts[1..] + [last];
      ConcatSnoc(parts[1..], last);
    }
  }

  /** `sep.join(parts)`. */
  function Join(parts: seq<string>, sep: string): string
  {
    if parts == [] then ""
    else if |parts| == 1 then parts[0]
    else parts[0] + sep + Join(parts[1..], sep)
  }

  predicate NoneContains(parts: seq<string>, c: char)
  {
    forall i :: 0 <= i < |parts| ==> c !in parts[i]
  }

  /** Splitting yields pieces free of the separator, and joining them with
      the separator gives the text back. */
  lemma {:induction false} SplitJoin(s: string, sep: char)
    ensures NoneContains(Split(s, sep), sep)
    ensures Join(Split(s, sep), [sep]) == s
    decreases |s|
  {
    if s == [] {
    } else if s[0] == sep {
      SplitJoin(s[1..], sep);
      var rest := Split(s[1..], sep);
      assert Split(s, sep) == [""] + rest;
      assert Join([""] + rest, [sep]) == "" + [sep] + Join(rest, [sep]);
      assert s == [sep] + s[1..];
    } else {
      SplitJoin(s[1..], sep);
      var rest := Split(s[1..], sep);
      var parts := Split(s, sep);
      assert parts == [[s[0]] + rest[0]] + rest[1..];
      if |rest| == 1 {
        assert Join(parts, [sep]) == [s[0]] + rest[0];
      } else {
        assert Join(rest, [sep]) == rest[0] + [sep] + Join(rest[1..], [sep]);
        assert parts[1..] == rest[1..];
        assert Join(parts, [sep]) == [s[0]] + rest[0] + [sep] + Join(rest[1..], [sep]);
      }
      assert s == [s[0]] + s[1..];
    }
  }

  /** The converse round trip: joining separator-free pieces and splitting
      again recovers exactly those pieces. */
  lemma {:induction false} JoinSplit(parts: seq<string>, sep: char)
    requires |parts| >= 1
    requires NoneContains(parts, sep)
    ensures Split(Join(parts, [sep]), sep) == parts
    decreases |parts|, |parts[0]|
  {
    if |parts| == 1 {
      NoSeparatorSplit(parts[0], sep);
    } else if parts[0] == [] {
      JoinSplit(parts[1..], sep);
      assert Join(parts, [sep]) == [sep] + Join(parts[1..], [sep]);
      assert parts == [""] + parts[1..];
    } else {
      var p := parts[0];
      var shorter := [p[1..]] + parts[1..];
      assert NoneContains(shorter, sep) by {
        forall i | 0 <= i < |shorter| ensures sep !in shorter[i] {
          if i == 0 { assert forall x :: x in p[1..] ==> x in p; } else { assert shorter[i] == parts[i]; }
        }
      }
      JoinSplit(shorter, sep);
      assert shorter[1..] == parts[1..];
      assert Join(shorter, [sep]) == p[1..] + [sep] + Join(parts[1..], [sep]);
      assert Join(parts, [sep]) == [p[0]] + Join(shorter, [sep]);
      assert p[0] != sep by { assert p[0] in p; }
      assert [p[0]] + p[1..] == p;
    }
  }

  lemma {:induction false} NoSeparatorSplit(s: string, sep: char)
    requires sep !in s
    ensures Split(s, sep) == [s]
    decreases |s|
  {
    if s != [] {
      assert s[0] in s;
      assert forall x :: x in s[1..] ==> x in s;
      NoSeparatorSplit(s[1..], sep);
      assert [s[0]] + s[1..] == s;
    }
  }

  /** Splitting around one separator splits each side independently. */
  lemma SplitAround(a: string, sep: char, b: string)
    ensures Split(a + [sep] + b, sep) == Split(a, sep) + Split(b, sep)
  {
    var pa, pb := Split(a, sep), Split(b, sep);
    SplitJoin(a, sep);
    SplitJoin(b, sep);
    JoinAppend(pa, pb, [sep]);
    assert NoneContains(pa + pb, sep) by {
      forall i | 0 <= i < |pa + pb| ensures sep !in (pa + pb)[i] {
        if i < |pa| { assert (pa + pb)[i] == pa[i]; } else { assert (pa + pb)[i] == pb[i - |pa|]; }
      }
    }
    JoinSplit(pa + pb, sep);
  }

  lemma {:induction false} JoinAppend(xs: seq<string>, ys: seq<string>, sep: string)
    requires |xs| >= 1 && |ys| >= 1
    ensures Join(xs + ys, sep) == Join(xs, sep) + sep + Join(ys, sep)
    decreases |xs|
  {
    if |xs| == 1 {
      assert (xs + ys)[1..] == ys;
    } else {
      assert (xs + ys)[1..] == xs[1..] + ys;
      JoinAppend(xs[1..], ys, sep);
    }
  }

  /** Joining one more piece onto a non-empty list puts exactly one
      separator in front of it. */
  lemma JoinSnoc(xs: seq<string>, w: string, sep: string)
    requires |xs| >= 1
    ensures Join(xs + [w], sep) == Join(xs, sep) + sep + w
  {
    JoinAppend(xs, [w], sep);
  }

  /** `s.startswith(prefix)`. */
  predicate StartsWith(s: string, prefix: string)
  {
    |prefix| <= |s| && s[..|prefix|] == prefix
  }

  /** `s.includes(sub)` / `sub in s`. */
  predicate Contains(s: string, sub: string)
    decreases |s|
  {
    |sub| <= |s| && (s[..|sub|] == sub || Contains(s[1..], sub))
  }

  /** A substring placed anywhere in a text is found there. */
  lemma {:induction false} ContainsInfix(a: string, sub: string, b: string)
    ensures Contains(a + sub + b, sub)
    decreases |a|
  {
    var s := a + sub + b;
    if a == [] {
      assert s[..|sub|] == sub;
    } else {
      assert s[1..] == a[1..] + sub + b;
      ContainsInfix(a[1..], sub, b);
    }
  }

  /** A text that never contains the first character of `sub` does not
      contain `sub`. */
  lemma {:induction false} NotContainsWithoutFirst(s: string, sub: string)
    requires |sub| >= 1 && sub[0] !in s
    ensures !Contains(s, sub)
    decreases |s|
  {
    if |sub| <= |s| {
      assert s[0] in s;
      assert forall x :: x in s[1..] ==> x in s;
      NotContainsWithoutFirst(s[1..], sub);
    }
  }

  /** Removes leading characters satisfying `isSpace`. */
  function TrimStart(s: string, isSpace: char -> bool): string
    decreases |s|
  {
    if s != [] && isSpace(s[0]) then TrimStart(s[1..], isSpace) else s
  }

  /** Removes trailing characters satisfying `isSpace`. */
  function TrimEnd(s: string, isSpace: char -> bool): string
    decreases |s|
  {
    if s != [] && isSpace(s[|s| - 1]) then TrimEnd(s[..|s| - 1], isSpace) else s
  }

  /** What `TrimStart` removes is a run of whitespace, and what it keeps is a
      suffix that does not start with whitespace. */
  lemma {:induction false} TrimStartProps(s: string, isSpace: char -> bool)
    ensures var r := TrimStart(s, isSpace);
      && |r| <= |s| && r == s[|s| - |r|..]
      && (r != [] ==> !isSpace(r[0]))
      && (forall i :: 0 <= i < |s| - |r| ==> isSpace(s[i]))
    decreases |s|
  {
    if s != [] && isSpace(s[0]) {
      TrimStartProps(s[1..], isSpace);
    }
  }

  /** What `TrimEnd` removes is a run of whitespace, and what it keeps is a
      prefix that does not end with whitespace. */
  lemma {:induction false} TrimEndProps(s: string, isSpace: char -> bool)
    ensures var r := TrimEnd(s, isSpace);
      && |r| <= |s| && r == s[..|r|]
      && (r != [] ==> !isSpace(r[|r| - 1]))
      && (forall i :: |r| <= i < |s| ==> isSpace(s[i]))
    decreases |s|
  {
    if s != [] && isSpace(s[|s| - 1]) {
      TrimEndProps(s[..|s| - 1], isSpace);
    }
  }

  /** Python `s.strip()`. */
  function PyStrip(s: string): string
  {
    TrimEnd(TrimStart(s, IsPySpace), IsPySpace)
  }

  /** JavaScript `s.trim()`. */
  function JsTrim(s: string): string
  {
    TrimEnd(TrimStart(s, IsJsSpace), IsJsSpace)
  }

  predicate HasNonSpace(s: string, isSpace: char -> bool)
  {
    exists i :: 0 <= i < |s| && !isSpace(s[i])
  }

  /** Trimming leaves something exactly when the text has a character that
      is not whitespace. */
  lemma TrimNonEmpty(s: string, isSpace: char -> bool)
    ensures TrimEnd(TrimStart(s, isSpace), isSpace) != [] <==> HasNonSpace(s, isSpace)
  {
    TrimmedHasNonSpace(s, isSpace);
    NonSpaceSurvivesTrim(s, isSpace);
  }

  lemma TrimmedHasNonSpace(s: string, isSpace: char -> bool)
    ensures TrimEnd(TrimStart(s, isSpace), isSpace) != [] ==> HasNonSpace(s, isSpace)
  {
    var t := TrimStart(s, isSpace);
    TrimStartProps(s, isSpace);
    TrimEndProps(t, isSpace);
    if t != [] {
      var off := |s| - |t|;
      assert t[0] == s[off];
    }
  }

  lemma NonSpaceSurvivesTrim(s: string, isSpace: char -> bool)
    ensures HasNonSpace(s, isSpace) ==> TrimEnd(TrimStart(s, isSpace), isSpace) != []
  {
    if HasNonSpace(s, isSpace) {
      var t := TrimStart(s, isSpace);
      TrimStartProps(s, isSpace);
      var i :| 0 <= i < |s| && !isSpace(s[i]);
      var off := |s| - |t|;
      assert t[i - off] == s[i];
      TrimEndProps(t, isSpace);
    }
  }

  /** The leading word of `s`: its longest prefix free of whitespace. */
  function LeadingWord(s: string, isSpace: char -> bool): (w: string)
    ensures |w| <= |s| && w == s[..|w|]
    ensures forall i :: 0 <= i < |w| ==> !isSpace(w[i])
    ensures |w| < |s| ==> isSpace(s[|w|])
    decreases |s|
  {
    if s == [] || isSpace(s[0]) then [] else [s[0]] + LeadingWord(s[1..], isSpace)
  }

  /** `s.split()` with no argument: the maximal runs of non-whitespace
      characters, in order. */
  function Words(s: string, isSpace: char -> bool): (ws: seq<string>)
    ensures forall i :: 0 <= i < |ws| ==> ws[i] != [] && forall j :: 0 <= j < |ws[i]| ==> !isSpace(ws[i][j])
    decreases |s|
  {
    if s == [] then []
    else if isSpace(s[0]) then Words(s[1..], isSpace)
    else
      var w := LeadingWord(s, isSpace);
      [w] + Words(s[|w|..], isSpace)
  }

  /** `s` with its whitespace removed. */
  function WithoutSpaces(s: string, isSpace: char -> bool): (r: string)
    ensures |r| <= |s|
    decreases |s|
  {
    if s == [] then [] else (if isSpace(s[0]) then [] else [s[0]]) + WithoutSpaces(s[1..], isSpace)
  }

  lemma {:induction false} WithoutSpacesAppend(a: string, b: string, isSpace: char -> bool)
    ensures WithoutSpaces(a + b, isSpace) == WithoutSpaces(a, isSpace) + WithoutSpaces(b, isSpace)
    decreases |a|
  {
    if a != [] {
      assert (a + b)[0] == a[0] && (a + b)[1..] == a[1..] + b;
      WithoutSpacesAppend(a[1..], b, isSpace);
      var head := if isSpace(a[0]) then [] else [a[0]];
      assert WithoutSpaces(a + b, isSpace) == head + (WithoutSpaces(a[1..], isSpace) + WithoutSpaces(b, isSpace));
    } else {
      assert a + b == b;
    }
  }

  lemma {:induction false} WithoutSpacesOfWord(w: string, isSpace: char -> bool)
    requires forall i :: 0 <= i < |w| ==> !isSpace(w[i])
    ensures WithoutSpaces(w, isSpace) == w
    decreases |w|
  {
    if w != [] {
      WithoutSpacesOfWord(w[1..], isSpace);
    }
  }

  /** The words hold every non-whitespace character of the text, in order,
      and nothing else. */
  lemma {:induction false} WordsKeepText(s: string, isSpace: char -> bool)
    ensures Concat(Words(s, isSpace)) == WithoutSpaces(s, isSpace)
    decreases |s|
  {
    if s != [] {
      if isSpace(s[0]) {
        WordsKeepText(s[1..], isSpace);
      } else {
        var w := LeadingWord(s, isSpace);
        WordsKeepText(s[|w|..], isSpace);
        assert s == w + s[|w|..];
        WithoutSpacesAppend(w, s[|w|..], isSpace);
        WithoutSpacesOfWord(w, isSpace);
      }
    }
  }

  /** A text of whitespace only has no words. */
  lemma {:induction false} WordsOfSpaces(s: string, isSpace: char -> bool)
    requires forall i :: 0 <= i < |s| ==> isSpace(s[i])
    ensures Words(s, isSpace) == []
    decreases |s|
  {
    if s != [] {
      WordsOfSpaces(s[1..], isSpace);
    }
  }

  /** A non-empty text without whitespace is one word. */
  lemma WordsOfWord(s: string, isSpace: char -> bool)
    requires s != [] && forall i :: 0 <= i < |s| ==> !isSpace(s[i])
    ensures Words(s, isSpace) == [s]
  {
    LeadingWordOfWord(s, isSpace);
    assert s[|s|..] == [];
  }

  lemma {:induction false} LeadingWordOfWord(s: string, isSpace: char -> bool)
    requires forall i :: 0 <= i < |s| ==> !isSpace(s[i])
    ensures LeadingWord(s, isSpace) == s
    decreases |s|
  {
    if s != [] {
      LeadingWordOfWord(s[1..], isSpace);
    }
  }

  /** The leading word stops at the first whitespace character. */
  lemma {:induction false} LeadingWordBeforeSpace(a: string, c: char, b: string, isSpace: char -> bool)
    requires isSpace(c)
    ensures LeadingWord(a + [c] + b, isSpace) == LeadingWord(a, isSpace)
    decreases |a|
  {
    if a != [] && !isSpace(a[0]) {
      assert (a + [c] + b)[1..] == a[1..] + [c] + b;
      LeadingWordBeforeSpace(a[1..], c, b, isSpace);
    }
  }

  /** A whitespace character separates words: the words of `a`, then those
      of `b`, nothing joined across it. With the two lemmas above this
      determines `Words` completely: the words are the maximal runs of
      non-whitespace characters. */
  lemma {:induction false} WordsAtSpace(a: string, c: char, b: string, isSpace: char -> bool)
    requires isSpace(c)
    ensures Words(a + [c] + b, isSpace) == Words(a, isSpace) + Words(b, isSpace)
    decreases |a|
  {
    var s := a + [c] + b;
    if a == [] {
      assert s[1..] == b;
    } else if isSpace(a[0]) {
      assert s[1..] == a[1..] + [c] + b;
      WordsAtSpace(a[1..], c, b, isSpace);
    } else {
      var w := LeadingWord(s, isSpace);
      LeadingWordBeforeSpace(a, c, b, isSpace);
      assert s[|w|..] == a[|w|..] + [c] + b;
      WordsAtSpace(a[|w|..], c, b, isSpace);
    }
  }

  /** Python `s.split()`. */
  function PyWords(s: string): seq<string>
  {
    Words(s, IsPySpace)
  }

  /** Decimal digits of a natural number, as JavaScript and Python print it. */
  function NatToString(n: nat): (s: string)
    ensures |s| >= 1
    ensures forall i :: 0 <= i < |s| ==> '0' <= s[i] <= '9'
  {
    if n < 10 then [Digit(n)] else NatToString(n / 10) + [Digit(n % 10)]
  }

  function Digit(d: nat): (c: char)
    requires d < 10
    ensures '0' <= c <= '9'
  {
    ['0', '1', '2', '3', '4', '5', '6', '7', '8', '9'][d]
  }

  /** Reading the digits back gives the number: the rendering loses nothing. */
  function DigitsValue(s: string): nat
    requires forall i :: 0 <= i < |s| ==> '0' <= s[i] <= '9'
  {
    if s == [] then 0 else DigitsValue(s[..|s| - 1]) * 10 + ((s[|s| - 1] as int) - ('0' as int))
  }

  lemma {:induction false} NatToStringRoundTrip(n: nat)
    ensures DigitsValue(NatToString(n)) == n
  {
    var s := NatToString(n);
    if n >= 10 {
      NatToStringRoundTrip(n / 10);
      assert s[..|s| - 1] == NatToString(n / 10);
    }
  }
}
