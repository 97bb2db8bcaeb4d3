/** The parts of Python's `str` the three scripts rely on: `strip` and `split()` (with the
    whitespace of `isspace`), the substring test `in`, `str(int)` and `join`; `startswith` is
    the prefix test `<=` on sequences. */
module Text {
  import opened Collections

  /** Python's `str.isspace()` for a single character. */
  predicate IsSpace(c: char) {
    c == ' ' || ('\t' <= c <= '\r') || ('\U{1C}' <= c <= '\U{1F}') || c == '\U{85}' || c == '\U{A0}'
    || c == '\U{1680}' || ('\U{2000}' <= c <= '\U{200A}') || c == '\U{2028}' || c == '\U{2029}'
    || c == '\U{202F}' || c == '\U{205F}' || c == '\U{3000}'
  }

  predicate AllSpace(s: string) {
    forall k :: 0 <= k < |s| ==> IsSpace(s[k])
  }

  /** `s.lstrip()`: drops exactly the longest all-whitespace prefix. */
  function TrimLeft(s: string): (r: string)
    ensures |r| <= |s| && r == s[|s| - |r|..]
    ensures r == [] || !IsSpace(r[0])
    ensures AllSpace(s[..|s| - |r|])
  {
    if |s| > 0 && IsSpace(s[0]) then
      var r := TrimLeft(s[1..]);
      AllSpaceCons(s[0], s[1..][..|s| - 1 - |r|]);
      assert s[..|s| - |r|] == [s[0]] + s[1..][..|s| - 1 - |r|];
      r
    else s
  }

  /** `s.rstrip()`: drops exactly the longest all-whitespace suffix. */
  function TrimRight(s: string): (r: string)
    ensures |r| <= |s| && r == s[..|r|]
    ensures r == [] || !IsSpace(r[|r| - 1])
    ensures AllSpace(s[|r|..])
  {
    if |s| > 0 && IsSpace(s[|s| - 1]) then
      var init := s[..|s| - 1];
      var r := TrimRight(init);
      AllSpaceSnoc(init[|r|..], s[|s| - 1]);
      assert s[|r|..] == init[|r|..] + [s[|s| - 1]];
      r
    else s
  }

  lemma AllSpaceCons(c: char, s: string)
    requires IsSpace(c) && AllSpace(s)
    ensures AllSpace([c] + s)
  {
    assert forall k :: 0 < k <= |s| ==> ([c] + s)[k] == s[k - 1];
  }

  lemma AllSpaceSnoc(s: string, c: char)
    requires AllSpace(s) && IsSpace(c)
    ensures AllSpace(s + [c])
  {
    assert forall k :: 0 <= k < |s| ==> (s + [c])[k] == s[k];
  }

  /** `s.strip()`: what is left of `s` once all-whitespace ends are cut off on both sides.
      The result is empty exactly when the line was blank. */
  function Strip(s: string): (r: string)
    ensures |r| <= |s|
    ensures r == [] || (!IsSpace(r[0]) && !IsSpace(r[|r| - 1]))
    ensures r == [] <==> AllSpace(s)
    ensures exists i, j :: CutsTo(s, i, j, r)
  {
    var t := TrimLeft(s);
    var r := TrimRight(t);
    TrimmedSlice(s);
    assert r == [] ==> AllSpace(s) by {
      if r == [] {
        assert s == s[..|s| - |t|] + t;
        assert AllSpace(t[|r|..]);
      }
    }
    r
  }

  /** `r` is `s[i..j]`, and what lies before `i` and after `j` is all whitespace. */
  predicate CutsTo(s: string, i: nat, j: nat, r: string) {
    i <= j <= |s| && r == s[i..j] && AllSpace(s[..i]) && AllSpace(s[j..])
  }

  /** Trimming both ends keeps a slice of `s` whose cut-off ends are all whitespace. */
  lemma TrimmedSlice(s: string)
    ensures exists i, j :: CutsTo(s, i, j, TrimRight(TrimLeft(s)))
  {
    var t := TrimLeft(s);
    var r := TrimRight(t);
    var i := |s| - |t|;
    var j := i + |r|;
    assert s[i..j] == r;
    assert s[j..] == t[|r|..];
    assert CutsTo(s, i, j, r);
  }

  lemma StripIdempotent(s: string)
    ensures Strip(Strip(s)) == Strip(s)
  {
    var r := Strip(s);
    assert r == [] || !IsSpace(r[0]);
    assert TrimLeft(r) == r;
    assert r == [] || !IsSpace(r[|r| - 1]);
  }

  /** A word of `str.split()`: non-empty, without whitespace. */
  predicate IsWord(w: string) {
    |w| > 0 && forall k :: 0 <= k < |w| ==> !IsSpace(w[k])
  }

  /** The longest whitespace-free prefix of `s`. */
  function TakeWord(s: string): (w: string)
    ensures |w| <= |s| && w == s[..|w|]
    ensures forall k :: 0 <= k < |w| ==> !IsSpace(w[k])
    ensures |w| == |s| || IsSpace(s[|w|])
    ensures |s| > 0 && !IsSpace(s[0]) ==> |w| > 0
  {
    if |s| > 0 && !IsSpace(s[0]) then [s[0]] + TakeWord(s[1..]) else []
  }

  /** Python's `s.split()` with no separator: the maximal runs of non-whitespace characters, in order. */
  function Split(s: string): (ws: seq<string>)
    ensures |ws| <= |s|
    decreases |s|
  {
    var t := TrimLeft(s);
    if t == [] then []
    else
      var w := TakeWord(t);
      [w] + Split(t[|w|..])
  }

  /** Every piece `split()` returns is a word. */
  lemma {:induction false} SplitWords(s: string)
    ensures forall i :: 0 <= i < |Split(s)| ==> IsWord(Split(s)[i])
    decreases |s|
  {
    var t := TrimLeft(s);
    if t != [] {
      var w := TakeWord(t);
      SplitWords(t[|w|..]);
      var rest := Split(t[|w|..]);
      assert Split(s) == [w] + rest;
      WordsCons(w, rest);
    }
  }

  lemma WordsCons(w: string, rest: seq<string>)
    requires IsWord(w) && forall i :: 0 <= i < |rest| ==> IsWord(rest[i])
    ensures forall i :: 0 <= i < |[w] + rest| ==> IsWord(([w] + rest)[i])
  {
    forall i | 0 <= i < |[w] + rest| ensures IsWord(([w] + rest)[i]) {
      if i > 0 {
        assert ([w] + rest)[i] == rest[i - 1];
      }
    }
  }

  predicate NotSpace(c: char) {
    !IsSpace(c)
  }

  /** `''.join(ws)`. */
  function Concat(ws: seq<string>): string {
    if ws == [] then "" else ws[0] + Concat(ws[1..])
  }

  /** The words of `split()`, put back together, are the non-whitespace characters of `s`, in order. */
  lemma {:induction false} SplitConcat(s: string)
    ensures Concat(Split(s)) == Filter(s, NotSpace)
    decreases |s|
  {
    var t := TrimLeft(s);
    var k := |s| - |t|;
    TakeDrop(s, k);
    FilterConcat(s[..k], t, NotSpace);
    FilterNone(s[..k], NotSpace);
    if t == [] {
      assert Filter(t, NotSpace) == [];
    } else {
      var w := TakeWord(t);
      var rest := t[|w|..];
      TakeDrop(t, |w|);
      FilterConcat(w, rest, NotSpace);
      FilterAll(w, NotSpace);
      SplitConcat(rest);
      assert Split(s) == [w] + Split(rest);
      assert ([w] + Split(rest))[1..] == Split(rest);
    }
  }

  /** The number of positions of `s` where a word begins; `afterSpace` says whether the
      character before `s` (if any) was whitespace. */
  function WordStarts(s: string, afterSpace: bool): nat {
    if s == [] then 0
    else (if afterSpace && !IsSpace(s[0]) then 1 else 0) + WordStarts(s[1..], IsSpace(s[0]))
  }

  lemma {:induction false} WordStartsAfterSpaces(sp: string, t: string)
    requires AllSpace(sp)
    ensures WordStarts(sp + t, true) == WordStarts(t, true)
  {
    if sp != [] {
      assert (sp + t)[1..] == sp[1..] + t;
      assert AllSpace(sp[1..]) by {
        assert forall k :: 0 <= k < |sp| - 1 ==> sp[1..][k] == sp[k + 1];
      }
      WordStartsAfterSpaces(sp[1..], t);
    } else {
      assert sp + t == t;
    }
  }

  lemma {:induction false} WordStartsOfWord(w: string, rest: string, afterSpace: bool)
    requires |w| > 0 && forall k :: 0 <= k < |w| ==> !IsSpace(w[k])
    ensures WordStarts(w + rest, afterSpace) == (if afterSpace then 1 else 0) + WordStarts(rest, false)
  {
    assert (w + rest)[0] == w[0];
    assert (w + rest)[1..] == w[1..] + rest;
    if |w| > 1 {
      assert forall k :: 0 <= k < |w| - 1 ==> w[1..][k] == w[k + 1];
      WordStartsOfWord(w[1..], rest, false);
    } else {
      assert w[1..] + rest == rest;
    }
  }

  /** Before whitespace or the end, whether the previous character was whitespace does not matter. */
  lemma WordStartsAtBreak(s: string)
    requires s == [] || IsSpace(s[0])
    ensures WordStarts(s, false) == WordStarts(s, true)
  {
  }

  /** The word count of `len(s.split())` is the number of positions where a word begins. */
  lemma {:induction false} SplitCount(s: string)
    ensures |Split(s)| == WordStarts(s, true)
    decreases |s|
  {
    var t := TrimLeft(s);
    var k := |s| - |t|;
    assert WordStarts(s, true) == WordStarts(t, true) by {
      TakeDrop(s, k);
      WordStartsAfterSpaces(s[..k], t);
    }
    if t != [] {
      var w := TakeWord(t);
      var rest := t[|w|..];
      assert WordStarts(t, true) == 1 + WordStarts(rest, true) by {
        TakeDrop(t, |w|);
        WordStartsOfWord(w, rest, true);
        WordStartsAtBreak(rest);
      }
      SplitCount(rest);
      assert Split(s) == [w] + Split(rest);
    }
  }

  /** `' '.join(ws)`. */
  function JoinWords(ws: seq<string>): string {
    Join(ws, " ")
  }

  /** `sep.join(parts)`. */
  function Join(parts: seq<string>, sep: string): string {
    if |parts| == 0 then ""
    else if |parts| == 1 then parts[0]
    else parts[0] + sep + Join(parts[1..], sep)
  }

  lemma {:induction false} TakeWordOfWord(w: string, rest: string)
    requires IsWord(w)
    requires rest == [] || IsSpace(rest[0])
    ensures TakeWord(w + rest) == w
  {
    if |w| > 1 {
      assert (w + rest)[1..] == w[1..] + rest;
      TakeWordOfWord(w[1..], rest);
    } else {
      assert (w + rest)[1..] == rest;
    }
  }

  /** A leading word followed by whitespace (or nothing) is the first piece of the split. */
  lemma SplitAfterWord(w: string, rest: string)
    requires IsWord(w)
    requires rest == [] || IsSpace(rest[0])
    ensures Split(w + rest) == [w] + Split(rest)
  {
    var s := w + rest;
    assert s[0] == w[0];
    assert TrimLeft(s) == s;
    TakeWordOfWord(w, rest);
    assert s[|w|..] == rest;
  }

  /** Leading whitespace does not change the split. */
  lemma SplitAfterSpace(c: char, t: string)
    requires IsSpace(c)
    ensures Split([c] + t) == Split(t)
  {
    assert ([c] + t)[1..] == t;
    assert TrimLeft([c] + t) == TrimLeft(t);
  }

  /** A word and a space in front of the rest become the first piece of the split. */
  lemma SplitWordSpace(w: string, rest: string)
    requires IsWord(w)
    ensures Split(w + ([' '] + rest)) == [w] + Split(rest)
  {
    SplitAfterWord(w, [' '] + rest);
    SplitAfterSpace(' ', rest);
  }

  /** Splitting words that were joined with single spaces gives the words back. */
  lemma {:induction false} SplitJoinWords(ws: seq<string>)
    requires forall i :: 0 <= i < |ws| ==> IsWord(ws[i])
    ensures Split(JoinWords(ws)) == ws
  {
    if |ws| == 0 {
      SplitEmpty();
    } else if |ws| == 1 {
      SplitJoinOne(ws[0]);
      assert [ws[0]] == ws;
    } else {
      var w, tail := ws[0], ws[1..];
      assert ws == [w] + tail;
      forall i | 0 <= i < |tail| ensures IsWord(tail[i]) {
        assert tail[i] == ws[i + 1];
      }
      assert JoinWords(ws) == w + ([' '] + JoinWords(tail)) by {
        assert Join(ws, " ") == w + " " + Join(tail, " ");
      }
      SplitJoinWords(tail);
      SplitWordSpace(w, JoinWords(tail));
    }
  }

  lemma SplitEmpty()
    ensures Split("") == []
  {
    assert TrimLeft("") == "";
  }

  lemma SplitJoinOne(w: string)
    requires IsWord(w)
    ensures Split(JoinWords([w])) == [w]
  {
    assert JoinWords([w]) == w;
    assert w + [] == w;
    SplitAfterWord(w, []);
    SplitEmpty();
    assert [w] + [] == [w];
  }

  /** ASCII lower case, as header names are folded by the case-insensitive header dictionary. */
  function LowerChar(c: char): char {
    if 'A' <= c <= 'Z' then (c as int + 32) as char else c
  }

  function Lower(s: string): (r: string)
    ensures |r| == |s|
  {
    seq(|s|, i requires 0 <= i < |s| => LowerChar(s[i]))
  }

  /** Python's `needle in hay` on strings. */
  predicate Contains(hay: string, needle: string)
    decreases |hay|
  {
    needle <= hay || (|hay| > 0 && Contains(hay[1..], needle))
  }

  /** The substring test holds exactly when `needle` starts at some position of `hay`. */
  lemma {:induction false} ContainsIff(hay: string, needle: string)
    ensures Contains(hay, needle) <==> exists i :: 0 <= i <= |hay| && needle <= hay[i..]
    decreases |hay|
  {
    if Contains(hay, needle) {
      if !(needle <= hay) {
        ContainsIff(hay[1..], needle);
        var i :| 0 <= i <= |hay[1..]| && needle <= hay[1..][i..];
        assert hay[1..][i..] == hay[i + 1..];
      } else {
        assert hay[0..] == hay;
      }
    } else {
      forall i | 0 <= i <= |hay| ensures !(needle <= hay[i..]) {
        if i == 0 {
          assert hay[0..] == hay;
        } else {
          ContainsIff(hay[1..], needle);
          assert hay[1..][i - 1..] == hay[i..];
        }
      }
    }
  }

  predicate IsDigit(c: char) {
    '0' <= c <= '9'
  }

  function DigitValue(c: char): nat
    requires IsDigit(c)
  {
    c as int - '0' as int
  }

  function DigitChar(d: nat): (c: char)
    requires d < 10
    ensures IsDigit(c) && c as int - '0' as int == d
  {
    (d + '0' as int) as char
  }

  /** Python's `str(n)` for a non-negative integer. */
  function NatToString(n: nat): (s: string)
    ensures |s| > 0 && forall k :: 0 <= k < |s| ==> IsDigit(s[k])
  {
    if n < 10 then [DigitChar(n)] else NatToString(n / 10) + [DigitChar(n % 10)]
  }

  /** The value of a decimal digit string (the inverse reading of `NatToString`). */
  function DigitsValue(s: string): nat
    requires forall k :: 0 <= k < |s| ==> IsDigit(s[k])
  {
    if s == [] then 0 else 10 * DigitsValue(s[..|s| - 1]) + DigitValue(s[|s| - 1])
  }

  lemma {:induction false} NatToStringRoundTrip(n: nat)
    ensures DigitsValue(NatToString(n)) == n
  {
    var s := NatToString(n);
    if n >= 10 {
      NatToStringRoundTrip(n / 10);
      assert s[..|s| - 1] == NatToString(n / 10);
    }
  }

  /** The longest all-digit prefix of `s`. */
  function TakeDigits(s: string): (d: string)
    ensures |d| <= |s|
    ensures forall k :: 0 <= k < |d| ==> IsDigit(d[k])
    ensures |d| == |s| || !IsDigit(s[|d|])
  {
    if |s| > 0 && IsDigit(s[0]) then [s[0]] + TakeDigits(s[1..]) else []
  }

  lemma {:induction false} TakeDigitsOfDigits(d: string, rest: string)
    requires forall k :: 0 <= k < |d| ==> IsDigit(d[k])
    requires rest == [] || !IsDigit(rest[0])
    ensures TakeDigits(d + rest) == d
  {
    if |d| > 0 {
      assert (d + rest)[1..] == d[1..] + rest;
      TakeDigitsOfDigits(d[1..], rest);
    } else {
      assert d + rest == rest;
    }
  }

  /** The non-blank lines of an input file, each stripped, in file order. */
  function NonBlankLines(lines: seq<string>): (seeds: seq<string>)
    ensures |seeds| <= |lines|
  {
    if lines == [] then []
    else
      var init := NonBlankLines(lines[..|lines| - 1]);
      var last := Strip(lines[|lines| - 1]);
      if last == "" then init else init + [last]
  }

  /** There are no seeds exactly when every line is blank. */
  lemma {:induction false} NoSeeds(lines: seq<string>)
    ensures NonBlankLines(lines) == [] <==> forall i :: 0 <= i < |lines| ==> AllSpace(lines[i])
  {
    if lines != [] {
      var init := lines[..|lines| - 1];
      NoSeeds(init);
      assert forall i :: 0 <= i < |init| ==> init[i] == lines[i];
    }
  }

  /** Reading one more line adds its stripped text when it is not blank. */
  lemma NonBlankLinesStep(lines: seq<string>, i: nat)
    requires i < |lines|
    ensures NonBlankLines(lines[..i + 1]) ==
      NonBlankLines(lines[..i]) + (if Strip(lines[i]) == "" then [] else [Strip(lines[i])])
  {
    assert lines[..i + 1][..i] == lines[..i];
  }

  lemma PrefixOfConcat<T>(a: seq<T>, b: seq<T>, c: seq<T>)
    requires a <= b
    ensures a <= b + c
  {
    assert (b + c)[..|a|] == b[..|a|];
  }

  /** The seeds of the first lines are the first seeds. */
  lemma {:induction false} NonBlankLinesPrefix(lines: seq<string>, i: nat)
    requires i <= |lines|
    ensures NonBlankLines(lines[..i]) <= NonBlankLines(lines)
    decreases |lines|
  {
    if i < |lines| {
      var init := lines[..|lines| - 1];
      assert init[..i] == lines[..i];
      NonBlankLinesPrefix(init, i);
      var last := Strip(lines[|lines| - 1]);
      var added: seq<string> := if last == "" then [] else [last];
      assert NonBlankLines(lines) == NonBlankLines(init) + added;
      PrefixOfConcat(NonBlankLines(lines[..i]), NonBlankLines(init), added);
    } else {
      assert lines[..i] == lines;
    }
  }

  predicate NonEmpty(s: string) {
    s != ""
  }

  /** `[line.strip() for line in lines]`. */
  function StripAll(lines: seq<string>): seq<string> {
    MapSeq(Strip, lines)
  }

  lemma StripAllSnoc(lines: seq<string>, line: string)
    ensures StripAll(lines + [line]) == StripAll(lines) + [Strip(line)]
  {
    MapSeqAppend(Strip, lines, line);
  }

  lemma NonEmptySnoc(xs: seq<string>, x: string)
    ensures Filter(xs + [x], NonEmpty) == Filter(xs, NonEmpty) + (if x == "" then [] else [x])
  {
    FilterSnoc(xs, x, NonEmpty);
  }

  /** The lines `main` processes are the stripped lines, with the empty ones dropped, in file order. */
  lemma {:induction false} NonBlankLinesFilter(lines: seq<string>)
    ensures NonBlankLines(lines) == Filter(StripAll(lines), NonEmpty)
    decreases |lines|
  {
    if lines != [] {
      var init, last := lines[..|lines| - 1], lines[|lines| - 1];
      var added: seq<string> := if Strip(last) == "" then [] else [Strip(last)];
      assert NonBlankLines(lines) == NonBlankLines(init) + added;
      NonBlankLinesFilter(init);
      SplitLast(lines);
      StripAllSnoc(init, last);
      NonEmptySnoc(StripAll(init), Strip(last));
    }
  }
}
