/** The string operations of Python that the pipeline relies on: `str.isspace`,
    `strip`, `lower`, `split()`, `split(sep)` and `sep.join`, over `seq<char>`. */
module Text {
  import opened Wrappers

  /** Python's `str.isspace`, which `split()`, `strip()` and the `\s` class of
      `re` all use: the ASCII controls 9 to 13 and 28 to 31, the space, and the
      Unicode separators. */
  predicate IsSpace(c: char) {
    || c == ' '
    || ('\t' <= c <= '\r')
    || ('\U{1c}' <= c <= '\U{1f}')
    || c == '\U{85}' || c == '\U{a0}' || c == '\U{1680}'
    || ('\U{2000}' <= c <= '\U{200a}')
    || c == '\U{2028}' || c == '\U{2029}' || c == '\U{202f}' || c == '\U{205f}' || c == '\U{3000}'
  }

  /** The `\w` class of `re`, restricted to ASCII: letters, digits and `_`. */
  predicate IsWordChar(c: char) {
    ('a' <= c <= 'z') || ('A' <= c <= 'Z') || ('0' <= c <= '9') || c == '_'
  }

  predicate IsBlank(s: string) {
    forall i | 0 <= i < |s| :: IsSpace(s[i])
  }

  /** Neither starts nor ends with whitespace. */
  predicate IsStripped(s: string) {
    s == [] || (!IsSpace(s[0]) && !IsSpace(s[|s| - 1]))
  }

  /** What `split()` yields: a non-empty run of non-whitespace characters. */
  predicate IsWord(w: string) {
    w != [] && forall k | 0 <= k < |w| :: !IsSpace(w[k])
  }

  function TrimStart(s: string): (r: string)
    ensures |r| <= |s| && r == s[|s| - |r|..]
    ensures IsBlank(s[..|s| - |r|])
    ensures r == [] || !IsSpace(r[0])
  {
    if s != [] && IsSpace(s[0]) then
      var r := TrimStart(s[1..]);
      assert s[..|s| - |r|] == [s[0]] + s[1..][..|s[1..]| - |r|];
      r
    else s
  }

  function TrimEnd(s: string): (r: string)
    ensures |r| <= |s| && r == s[..|r|]
    ensures IsBlank(s[|r|..])
    ensures r == [] || !IsSpace(r[|r| - 1])
  {
    if s != [] && IsSpace(s[|s| - 1]) then
      var r := TrimEnd(s[..|s| - 1]);
      assert s[|r|..] == s[..|s| - 1][|r|..] + [s[|s| - 1]];
      r
    else s
  }

  /** Python's `str.strip()`: drops the whitespace at both ends, nothing else. */
  function Strip(s: string): (r: string)
    ensures IsStripped(r)
    ensures r == [] <==> IsBlank(s)
    ensures |r| <= |s|
  {
    var t := TrimStart(s);
    var r := TrimEnd(t);
    assert r == [] ==> IsBlank(s) by {
      if r == [] {
        assert s == s[..|s| - |t|] + t;
        assert t == t[..0] + t[0..];
      }
    }
    assert r != [] ==> r[0] == t[0];
    r
  }

  lemma StripStripped(s: string)
    requires IsStripped(s)
    ensures Strip(s) == s
  {
  }

  lemma StripIdempotent(s: string)
    ensures Strip(Strip(s)) == Strip(s)
  {
    StripStripped(Strip(s));
  }

  /** Blank padding before a text that does not start with whitespace is
      exactly what `TrimStart` drops. */
  lemma {:induction false} TrimStartPadded(pad: string, s: string)
    requires IsBlank(pad) && (s == [] || !IsSpace(s[0]))
    ensures TrimStart(pad + s) == s
  {
    if pad == [] {
      assert pad + s == s;
    } else {
      assert (pad + s)[0] == pad[0];
      assert (pad + s)[1..] == pad[1..] + s;
      TrimStartPadded(pad[1..], s);
    }
  }

  /** Blank padding after a text that does not end with whitespace is
      exactly what `TrimEnd` drops. */
  lemma {:induction false} TrimEndPadded(s: string, pad: string)
    requires IsBlank(pad) && (s == [] || !IsSpace(s[|s| - 1]))
    ensures TrimEnd(s + pad) == s
  {
    if pad == [] {
      assert s + pad == s;
    } else {
      var n := |s + pad|;
      assert (s + pad)[n - 1] == pad[|pad| - 1];
      assert (s + pad)[..n - 1] == s + pad[..|pad| - 1];
      TrimEndPadded(s, pad[..|pad| - 1]);
    }
  }

  /** `strip` undoes blank padding around a stripped text. */
  lemma StripPadded(pre: string, s: string, post: string)
    requires IsBlank(pre) && IsBlank(post) && IsStripped(s)
    ensures Strip(pre + s + post) == s
  {
    assert pre + s + post == pre + (s + post);
    if s == [] {
      assert IsBlank(pre + post);
    } else {
      assert (s + post)[0] == s[0];
      TrimStartPadded(pre, s + post);
      TrimEndPadded(s, post);
    }
  }

  /** Python's `str.lower()` on ASCII letters; every other character is kept. */
  function LowerChar(c: char): char {
    if 'A' <= c <= 'Z' then (c as int - 'A' as int + 'a' as int) as char else c
  }

  function Lower(s: string): (r: string)
    ensures |r| == |s|
    ensures forall i | 0 <= i < |s| :: r[i] == LowerChar(s[i])
    ensures forall i | 0 <= i < |r| :: !('A' <= r[i] <= 'Z')
  {
    seq(|s|, i requires 0 <= i < |s| => LowerChar(s[i]))
  }

  lemma LowerIdempotent(s: string)
    ensures Lower(Lower(s)) == Lower(s)
  {
  }

  /** A string without capitals is its own lowercase form. */
  lemma LowerOfLowercase(s: string)
    requires forall i | 0 <= i < |s| :: !('A' <= s[i] <= 'Z')
    ensures Lower(s) == s
  {
  }

  /** Lowercasing maps whitespace to whitespace and nothing else to it. */
  lemma LowerCharSpace(c: char)
    ensures IsSpace(LowerChar(c)) <==> IsSpace(c)
  {
  }

  lemma {:induction false} TrimStartLower(s: string)
    ensures TrimStart(Lower(s)) == Lower(TrimStart(s))
    decreases |s|
  {
    if s != [] {
      LowerCharSpace(s[0]);
      if IsSpace(s[0]) {
        assert Lower(s)[1..] == Lower(s[1..]);
        TrimStartLower(s[1..]);
      }
    }
  }

  lemma {:induction false} TrimEndLower(s: string)
    ensures TrimEnd(Lower(s)) == Lower(TrimEnd(s))
    decreases |s|
  {
    if s != [] {
      LowerCharSpace(s[|s| - 1]);
      if IsSpace(s[|s| - 1]) {
        assert Lower(s)[..|s| - 1] == Lower(s[..|s| - 1]);
        TrimEndLower(s[..|s| - 1]);
      }
    }
  }

  /** `strip` and `lower` commute. */
  lemma StripLower(s: string)
    ensures Strip(Lower(s)) == Lower(Strip(s))
  {
    TrimStartLower(s);
    TrimEndLower(TrimStart(s));
  }

  /** The first position of `c` in `s`, if any. */
  function IndexOf(s: string, c: char): (r: Option<nat>)
    ensures r.None? ==> c !in s
    ensures r.Some? ==> r.value < |s| && s[r.value] == c && c !in s[..r.value]
  {
    if s == [] then None
    else if s[0] == c then Some(0)
    else match IndexOf(s[1..], c)
      case None => None
      case Some(i) =>
        assert s[..i + 1] == [s[0]] + s[1..][..i];
        Some(i + 1)
  }

  /** Python's `sep.join(parts)`. */
  function Join(sep: string, parts: seq<string>): string {
    if parts == [] then []
    else if |parts| == 1 then parts[0]
    else parts[0] + sep + Join(sep, parts[1..])
  }

  /** Joining non-empty stripped parts gives a non-empty stripped text. */
  lemma {:induction false} JoinStripped(sep: string, parts: seq<string>)
    requires parts != []
    requires forall k | 0 <= k < |parts| :: parts[k] != [] && IsStripped(parts[k])
    ensures Join(sep, parts) != [] && IsStripped(Join(sep, parts))
  {
    if |parts| > 1 {
      JoinStripped(sep, parts[1..]);
      var rest := Join(sep, parts[1..]);
      var j := parts[0] + sep + rest;
      assert j[0] == parts[0][0];
      assert j[|j| - 1] == rest[|rest| - 1];
    }
  }

  /** Python's `s.split(sep)` for a one-character separator: always at least
      one piece, and no piece contains the separator. */
  function SplitOn(s: string, sep: char): (r: seq<string>)
    ensures |r| >= 1
    ensures forall k | 0 <= k < |r| :: sep !in r[k]
    decreases |s|
  {
    match IndexOf(s, sep)
    case None => [s]
    case Some(i) => [s[..i]] + SplitOn(s[i + 1..], sep)
  }

  /** Joining the pieces with the separator gives the string back. */
  lemma {:induction false} JoinSplitOn(s: string, sep: char)
    ensures Join([sep], SplitOn(s, sep)) == s
    decreases |s|
  {
    match IndexOf(s, sep)
    case None =>
    case Some(i) =>
      var rest := SplitOn(s[i + 1..], sep);
      JoinSplitOn(s[i + 1..], sep);
      assert SplitOn(s, sep) == [s[..i]] + rest;
      assert s == s[..i] + [sep] + s[i + 1..];
  }

  /** Splitting a join of separator-free pieces gives the pieces back. */
  lemma {:induction false} SplitOnJoin(parts: seq<string>, sep: char)
    requires |parts| >= 1
    requires forall k | 0 <= k < |parts| :: sep !in parts[k]
    ensures SplitOn(Join([sep], parts), sep) == parts
  {
    if |parts| == 1 {
      assert IndexOf(parts[0], sep) == None;
    } else {
      var s := Join([sep], parts);
      assert s == parts[0] + [sep] + Join([sep], parts[1..]);
      var i := |parts[0]|;
      assert s[..i] == parts[0];
      assert s[i] == sep;
      assert IndexOf(s, sep) == Some(i);
      assert s[i + 1..] == Join([sep], parts[1..]);
      SplitOnJoin(parts[1..], sep);
      assert parts == [parts[0]] + parts[1..];
    }
  }

  lemma {:induction false} JoinAppend(sep: string, a: seq<string>, b: seq<string>)
    requires a != [] && b != []
    ensures Join(sep, a + b) == Join(sep, a) + sep + Join(sep, b)
  {
    if |a| == 1 {
      assert (a + b)[1..] == b;
    } else {
      assert (a + b)[1..] == a[1..] + b;
      JoinAppend(sep, a[1..], b);
    }
  }

  /** The pieces of `a + sep + b` are the pieces of `a` followed by those of `b`. */
  lemma SplitOnConcat(a: string, b: string, sep: char)
    ensures SplitOn(a + [sep] + b, sep) == SplitOn(a, sep) + SplitOn(b, sep)
  {
    var p, q := SplitOn(a, sep), SplitOn(b, sep);
    JoinSplitOn(a, sep);
    JoinSplitOn(b, sep);
    JoinAppend([sep], p, q);
    SplitOnJoin(p + q, sep);
  }

  /** Length of the longest prefix of `s` without whitespace. */
  function TokenLen(s: string): (n: nat)
    ensures n <= |s|
    ensures forall k | 0 <= k < n :: !IsSpace(s[k])
    ensures n < |s| ==> IsSpace(s[n])
  {
    if s == [] || IsSpace(s[0]) then 0 else 1 + TokenLen(s[1..])
  }

  /** Python's `str.split()` with no argument: the maximal runs of
      non-whitespace characters, in order. */
  function Words(s: string): (ws: seq<string>)
    ensures forall k | 0 <= k < |ws| :: IsWord(ws[k])
    decreases |s|
  {
    if s == [] then []
    else if IsSpace(s[0]) then Words(s[1..])
    else
      var n := TokenLen(s);
      [s[..n]] + Words(s[n..])
  }

  lemma {:induction false} TokenLenOfWord(w: string, rest: string)
    requires IsWord(w)
    requires rest == [] || IsSpace(rest[0])
    ensures TokenLen(w + rest) == |w|
  {
    if |w| > 1 {
      assert (w + rest)[1..] == w[1..] + rest;
      TokenLenOfWord(w[1..], rest);
    } else {
      assert (w + rest)[1..] == rest;
    }
  }

  /** `split()` undoes `" ".join` on words. */
  lemma {:induction false} WordsOfJoin(ws: seq<string>)
    requires forall k | 0 <= k < |ws| :: IsWord(ws[k])
    ensures Words(Join(" ", ws)) == ws
  {
    if ws == [] {
    } else if |ws| == 1 {
      TokenLenOfWord(ws[0], []);
      assert ws[0][|ws[0]|..] == [];
      assert ws[0][..|ws[0]|] == ws[0];
    } else {
      var w, tail := ws[0], Join(" ", ws[1..]);
      var s := w + " " + tail;
      TokenLenOfWord(w, " " + tail);
      assert s == w + (" " + tail);
      assert s[..|w|] == w;
      assert s[|w|..] == " " + tail;
      assert (" " + tail)[1..] == tail;
      WordsOfJoin(ws[1..]);
      assert ws == [w] + ws[1..];
    }
  }

  /** A join of words is a non-empty string when there is at least one word. */
  lemma JoinWordsNonEmpty(ws: seq<string>)
    requires ws != [] && IsWord(ws[0])
    ensures Join(" ", ws) != []
  {
  }

  /** The comprehension `[x.strip() for x in pieces if x.strip()]`. */
  function KeepStripped(pieces: seq<string>): (r: seq<string>)
    ensures |r| <= |pieces|
    ensures forall k | 0 <= k < |r| :: r[k] != [] && IsStripped(r[k])
  {
    if pieces == [] then []
    else
      var t := Strip(pieces[0]);
      (if t == [] then [] else [t]) + KeepStripped(pieces[1..])
  }

  /** What one piece contributes to `KeepStripped`. */
  function Kept(piece: string): seq<string> {
    if Strip(piece) == [] then [] else [Strip(piece)]
  }

  /** The pieces `f` gives each element, in turn. */
  function FlatMap(xs: seq<string>, f: string -> seq<string>): seq<string> {
    if xs == [] then [] else f(xs[0]) + FlatMap(xs[1..], f)
  }

  lemma {:induction false} FlatMapAppend(a: seq<string>, b: seq<string>, f: string -> seq<string>)
    ensures FlatMap(a + b, f) == FlatMap(a, f) + FlatMap(b, f)
  {
    if a != [] {
      assert (a + b)[0] == a[0];
      assert (a + b)[1..] == a[1..] + b;
      FlatMapAppend(a[1..], b, f);
    } else {
      assert a + b == b;
    }
  }

  lemma {:induction false} KeepStrippedFlatMap(pieces: seq<string>)
    ensures KeepStripped(pieces) == FlatMap(pieces, Kept)
  {
    if pieces != [] {
      KeepStrippedFlatMap(pieces[1..]);
    }
  }

  /** Order is kept: filtering a concatenation filters each part. */
  lemma KeepStrippedAppend(a: seq<string>, b: seq<string>)
    ensures KeepStripped(a + b) == KeepStripped(a) + KeepStripped(b)
  {
    KeepStrippedFlatMap(a + b);
    KeepStrippedFlatMap(a);
    KeepStrippedFlatMap(b);
    FlatMapAppend(a, b, Kept);
  }

  /** A blank string has no words. */
  lemma {:induction false} WordsOfBlank(s: string)
    requires IsBlank(s)
    ensures Words(s) == []
    decreases |s|
  {
    if s != [] {
      WordsOfBlank(s[1..]);
    }
  }

  lemma {:induction false} TokenLenConcat(a: string, b: string)
    requires b == [] || IsSpace(b[0])
    ensures TokenLen(a + b) == TokenLen(a)
  {
    if a == [] {
      assert a + b == b;
    } else if !IsSpace(a[0]) {
      assert (a + b)[1..] == a[1..] + b;
      TokenLenConcat(a[1..], b);
    }
  }

  /** Cutting a string just before whitespace cuts its word list there. */
  lemma {:induction false} WordsConcat(a: string, b: string)
    requires b == [] || IsSpace(b[0])
    ensures Words(a + b) == Words(a) + Words(b)
    decreases |a|
  {
    if a == [] {
      assert a + b == b;
    } else if IsSpace(a[0]) {
      assert (a + b)[1..] == a[1..] + b;
      WordsConcat(a[1..], b);
    } else {
      var n := TokenLen(a);
      TokenLenConcat(a, b);
      assert (a + b)[..n] == a[..n];
      assert (a + b)[n..] == a[n..] + b;
      WordsConcat(a[n..], b);
    }
  }

  /** Leading whitespace does not change the words. */
  lemma {:induction false} WordsBlankPrefix(p: string, t: string)
    requires IsBlank(p)
    ensures Words(p + t) == Words(t)
    decreases |p|
  {
    if p != [] {
      assert (p + t)[1..] == p[1..] + t;
      WordsBlankPrefix(p[1..], t);
    } else {
      assert p + t == t;
    }
  }

  lemma {:induction false} WordsOfTrimStart(s: string)
    ensures Words(TrimStart(s)) == Words(s)
  {
    if s != [] && IsSpace(s[0]) {
      WordsOfTrimStart(s[1..]);
    }
  }

  lemma WordsOfTrimEnd(s: string)
    ensures Words(TrimEnd(s)) == Words(s)
  {
    var r := TrimEnd(s);
    assert s == r + s[|r|..];
    WordsConcat(r, s[|r|..]);
    WordsOfBlank(s[|r|..]);
  }

  /** `strip()` does not change the words. */
  lemma WordsOfStrip(s: string)
    ensures Words(Strip(s)) == Words(s)
  {
    assert Strip(s) == TrimEnd(TrimStart(s));
    WordsOfTrimStart(s);
    WordsOfTrimEnd(TrimStart(s));
  }

  /** The words of each part, in order: what `" ".join(parts).split()` gives. */
  function AllWords(parts: seq<string>): seq<string> {
    if parts == [] then [] else Words(parts[0]) + AllWords(parts[1..])
  }

  lemma {:induction false} AllWordsAppend(a: seq<string>, b: seq<string>)
    ensures AllWords(a + b) == AllWords(a) + AllWords(b)
  {
    if a == [] {
      assert a + b == b;
    } else {
      assert (a + b)[1..] == a[1..] + b;
      AllWordsAppend(a[1..], b);
    }
  }

  /** Dropping the blank pieces and stripping the others keeps every word. */
  lemma {:induction false} AllWordsKeepStripped(pieces: seq<string>)
    ensures AllWords(KeepStripped(pieces)) == AllWords(pieces)
  {
    if pieces != [] {
      var t := Strip(pieces[0]);
      WordsOfStrip(pieces[0]);
      if t == [] {
        WordsOfBlank(pieces[0]);
      }
      AllWordsKeepStripped(pieces[1..]);
      AllWordsAppend(if t == [] then [] else [t], KeepStripped(pieces[1..]));
    }
  }

  /** Only blank pieces: nothing is kept. */
  lemma {:induction false} KeepStrippedOfBlanks(pieces: seq<string>)
    requires forall k | 0 <= k < |pieces| :: IsBlank(pieces[k])
    ensures KeepStripped(pieces) == []
  {
    if pieces != [] {
      KeepStrippedOfBlanks(pieces[1..]);
    }
  }

  /** When every part of a join is blank, so is the join's every part. */
  lemma {:induction false} BlankJoinParts(sep: string, parts: seq<string>)
    requires IsBlank(Join(sep, parts))
    ensures forall k | 0 <= k < |parts| :: IsBlank(parts[k])
  {
    if |parts| > 1 {
      var rest := Join(sep, parts[1..]);
      var s := parts[0] + sep + rest;
      assert forall i | 0 <= i < |parts[0]| :: s[i] == parts[0][i];
      assert forall i | 0 <= i < |rest| :: s[|parts[0]| + |sep| + i] == rest[i];
      BlankJoinParts(sep, parts[1..]);
      forall k | 0 <= k < |parts| ensures IsBlank(parts[k]) {
        if k > 0 {
          assert parts[k] == parts[1..][k - 1];
        }
      }
    }
  }

  /** Python's `template.replace(field, value)`, scanning left to right. */
  function Substitute(template: string, field: string, value: string): string
    requires field != []
    decreases |template|
  {
    if |template| < |field| then template
    else if template[..|field|] == field then value + Substitute(template[|field|..], field, value)
    else [template[0]] + Substitute(template[1..], field, value)
  }

  lemma SubstituteAtField(field: string, rest: string, value: string)
    requires field != []
    ensures Substitute(field + rest, field, value) == value + Substitute(rest, field, value)
  {
    var t := field + rest;
    assert t[..|field|] == field;
    assert t[|field|..] == rest;
  }

  lemma SubstituteSkip(c: char, rest: string, field: string, value: string)
    requires field != [] && c != field[0]
    ensures Substitute([c] + rest, field, value) == [c] + Substitute(rest, field, value)
  {
    var t := [c] + rest;
    if |t| >= |field| {
      assert t[..|field|][0] == c;
      assert t[1..] == rest;
    }
  }

  /** A template holding its field once, with the field's first character
      nowhere else, becomes the text around the field with the value between. */
  lemma {:induction false} SubstituteOnce(pre: string, field: string, post: string, value: string)
    requires field != [] && field[0] !in pre && field[0] !in post
    ensures Substitute(pre + field + post, field, value) == pre + value + post
    decreases |pre|
  {
    if pre == [] {
      assert pre + field + post == field + post;
      SubstituteAtField(field, post, value);
      SubstituteAbsent(post, field, value);
    } else {
      var rest := pre[1..] + field + post;
      assert pre + field + post == [pre[0]] + rest;
      SubstituteSkip(pre[0], rest, field, value);
      SubstituteOnce(pre[1..], field, post, value);
      assert [pre[0]] + (pre[1..] + value + post) == pre + value + post;
    }
  }

  /** Without the field's first character, substitution changes nothing. */
  lemma {:induction false} SubstituteAbsent(s: string, field: string, value: string)
    requires field != [] && field[0] !in s
    ensures Substitute(s, field, value) == s
    decreases |s|
  {
    if |s| >= |field| {
      assert s[..|field|][0] == s[0] != field[0];
      SubstituteAbsent(s[1..], field, value);
      assert s == [s[0]] + s[1..];
    }
  }

  /** Concatenation of a sequence of sequences. */
  function Flatten<T>(ss: seq<seq<T>>): seq<T> {
    if ss == [] then [] else ss[0] + Flatten(ss[1..])
  }

  lemma {:induction false} FlattenAppend<T>(a: seq<seq<T>>, b: seq<seq<T>>)
    ensures Flatten(a + b) == Flatten(a) + Flatten(b)
  {
    if a == [] {
      assert a + b == b;
    } else {
      assert (a + b)[1..] == a[1..] + b;
      FlattenAppend(a[1..], b);
    }
  }
}
