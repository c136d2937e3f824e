/**
 * The Python string operations the pipeline relies on: `in`, `lower()`,
 * `strip()`, `split('\n')`, `split()` and `sep.join(...)`.
 */
module Strings {

  /** `needle in hay`. */
  predicate Contains(hay: string, needle: string)
    decreases |hay|
  {
    needle <= hay || (|hay| > 0 && Contains(hay[1..], needle))
  }

  /** `needle` occurs in `hay` starting at index `i`. */
  predicate OccursAt(hay: string, needle: string, i: int) {
    0 <= i && i + |needle| <= |hay| && hay[i..i + |needle|] == needle
  }

  lemma {:induction false} ContainsAt(hay: string, needle: string, i: nat)
    requires OccursAt(hay, needle, i)
    ensures Contains(hay, needle)
    decreases i
  {
    if i > 0 {
      assert hay[1..][i - 1..i - 1 + |needle|] == hay[i..i + |needle|];
      ContainsAt(hay[1..], needle, i - 1);
    }
  }

  lemma {:induction false} ContainsWitness(hay: string, needle: string) returns (i: nat)
    requires Contains(hay, needle)
    ensures OccursAt(hay, needle, i)
    decreases |hay|
  {
    if needle <= hay {
      i := 0;
    } else {
      var j := ContainsWitness(hay[1..], needle);
      assert hay[1..][j..j + |needle|] == hay[j + 1..j + 1 + |needle|];
      i := j + 1;
    }
  }

  /** Every character of `needle` occurs in `hay` when `needle in hay`. */
  lemma ContainsChars(hay: string, needle: string, c: char)
    requires Contains(hay, needle) && c in needle
    ensures c in hay
  {
    var i := ContainsWitness(hay, needle);
    var k :| 0 <= k < |needle| && needle[k] == c;
    assert hay[i + k] == c;
  }

  /** A text without the character `c` contains no needle that has it. */
  lemma NotContainsForeignChar(hay: string, needle: string, c: char)
    requires c in needle && c !in hay
    ensures !Contains(hay, needle)
  {
    if Contains(hay, needle) {
      ContainsChars(hay, needle, c);
    }
  }

  /** `str.lower()` on ASCII letters; every other character is left alone. */
  function LowerChar(c: char): char {
    if 'A' <= c <= 'Z' then (c as int + 32) as char else c
  }

  function ToLower(s: string): (r: string)
    ensures |r| == |s|
    ensures forall i :: 0 <= i < |s| ==> r[i] == LowerChar(s[i])
  {
    seq(|s|, i requires 0 <= i < |s| => LowerChar(s[i]))
  }

  /** `str.isspace()` for one character, which is also what `\s` matches. */
  predicate IsSpace(c: char) {
    var n := c as int;
    n == 0x20 || 0x09 <= n <= 0x0D || 0x1C <= n <= 0x1F || n == 0x85 || n == 0xA0
    || n == 0x1680 || 0x2000 <= n <= 0x200A || n == 0x2028 || n == 0x2029
    || n == 0x202F || n == 0x205F || n == 0x3000
  }

  function LStrip(s: string): (r: string)
    ensures |r| <= |s| && r == s[|s| - |r|..]
    ensures r != [] ==> !IsSpace(r[0])
    ensures forall i :: 0 <= i < |s| - |r| ==> IsSpace(s[i])
    decreases |s|
  {
    if |s| > 0 && IsSpace(s[0]) then LStrip(s[1..]) else s
  }

  function RStrip(s: string): (r: string)
    ensures |r| <= |s| && r == s[..|r|]
    ensures r != [] ==> !IsSpace(r[|r| - 1])
    ensures forall i :: |r| <= i < |s| ==> IsSpace(s[i])
    decreases |s|
  {
    if |s| > 0 && IsSpace(s[|s| - 1]) then RStrip(s[..|s| - 1]) else s
  }

  lemma RStripKeepsHead(s: string)
    requires s != [] && !IsSpace(s[0])
    ensures RStrip(s) != [] && RStrip(s)[0] == s[0]
  {}

  /** `str.strip()`. */
  function Strip(s: string): (r: string)
    ensures r != [] ==> !IsSpace(r[0]) && !IsSpace(r[|r| - 1])
    ensures |r| <= |s|
    ensures forall c :: c in r ==> c in s
  {
    var l := LStrip(s);
    if l == [] then [] else RStripKeepsHead(l); RStrip(l)
  }

  predicate IsBlank(s: string) {
    forall i :: 0 <= i < |s| ==> IsSpace(s[i])
  }

  lemma StripBlank(s: string)
    ensures Strip(s) == [] <==> IsBlank(s)
  {
    var l := LStrip(s);
    if l != [] {
      RStripKeepsHead(l);
      assert s[|s| - |l|] == l[0];
    }
  }

  /** `sep.join(parts)`. */
  function JoinWith(sep: string, parts: seq<string>): string
    decreases |parts|
  {
    if |parts| == 0 then ""
    else if |parts| == 1 then parts[0]
    else parts[0] + sep + JoinWith(sep, parts[1..])
  }

  lemma JoinCons(sep: string, parts: seq<string>)
    requires |parts| > 1
    ensures JoinWith(sep, parts) == parts[0] + (sep + JoinWith(sep, parts[1..]))
  {
    assert parts[0] + sep + JoinWith(sep, parts[1..]) == parts[0] + (sep + JoinWith(sep, parts[1..]));
  }

  /** `s.split(c)` for a one-character separator: always at least one part. */
  function SplitOn(s: string, c: char): (parts: seq<string>)
    ensures |parts| >= 1
    decreases |s|
  {
    if |s| == 0 then [""]
    else
      var rest := SplitOn(s[1..], c);
      if s[0] == c then [""] + rest else [[s[0]] + rest[0]] + rest[1..]
  }

  /** No part of a split holds the separator. */
  lemma {:induction false} SplitOnPartsFree(s: string, c: char)
    ensures forall k :: 0 <= k < |SplitOn(s, c)| ==> c !in SplitOn(s, c)[k]
    decreases |s|
  {
    if |s| > 0 {
      SplitOnPartsFree(s[1..], c);
    }
  }

  /** Joining the parts of a split restores the text. */
  lemma {:induction false} JoinSplit(s: string, c: char)
    ensures JoinWith([c], SplitOn(s, c)) == s
    decreases |s|
  {
    if |s| > 0 {
      var rest := SplitOn(s[1..], c);
      JoinSplit(s[1..], c);
      if s[0] == c {
        assert SplitOn(s, c) == [""] + rest;
      } else {
        var parts := [[s[0]] + rest[0]] + rest[1..];
        assert SplitOn(s, c) == parts;
        if |rest| == 1 {
          assert JoinWith([c], rest) == rest[0];
        } else {
          assert parts[1..] == rest[1..];
          assert JoinWith([c], rest) == rest[0] + [c] + JoinWith([c], rest[1..]);
        }
      }
    }
  }

  lemma {:induction false} SplitPrefix(p: string, s: string, c: char)
    requires c !in p
    ensures SplitOn(p + s, c) == [p + SplitOn(s, c)[0]] + SplitOn(s, c)[1..]
    decreases |p|
  {
    if |p| > 0 {
      assert (p + s)[1..] == p[1..] + s;
      SplitPrefix(p[1..], s, c);
      var rest := SplitOn(p[1..] + s, c);
      assert (p + s)[0] == p[0] != c;
      assert SplitOn(p + s, c) == [[p[0]] + rest[0]] + rest[1..];
      assert [p[0]] + (p[1..] + SplitOn(s, c)[0]) == p + SplitOn(s, c)[0];
    } else {
      assert p + s == s;
      assert p + SplitOn(s, c)[0] == SplitOn(s, c)[0];
    }
  }

  /** Splitting a join of separator-free parts gives the parts back. */
  lemma {:induction false} SplitJoin(parts: seq<string>, c: char)
    requires |parts| >= 1
    requires forall k :: 0 <= k < |parts| ==> c !in parts[k]
    ensures SplitOn(JoinWith([c], parts), c) == parts
    decreases |parts|
  {
    if |parts| == 1 {
      SplitPrefix(parts[0], "", c);
      assert parts[0] + "" == parts[0];
    } else {
      var tail := JoinWith([c], parts[1..]);
      SplitJoin(parts[1..], c);
      assert JoinWith([c], parts) == parts[0] + ([c] + tail);
      SplitPrefix(parts[0], [c] + tail, c);
      assert ([c] + tail)[1..] == tail;
      assert SplitOn([c] + tail, c) == [""] + parts[1..];
      assert parts[0] + "" == parts[0];
    }
  }

  /** The first word of a text that starts with a non-space: its longest prefix of non-spaces. */
  function TakeWord(t: string): (w: string)
    ensures |w| <= |t| && w == t[..|w|]
    ensures forall i :: 0 <= i < |w| ==> !IsSpace(w[i])
    ensures |w| < |t| ==> IsSpace(t[|w|])
    ensures t != [] && !IsSpace(t[0]) ==> |w| >= 1
    decreases |t|
  {
    if |t| > 0 && !IsSpace(t[0]) then [t[0]] + TakeWord(t[1..]) else ""
  }

  /** `s.split()`: maximal runs of non-space characters. */
  function Words(s: string): seq<string>
    decreases |s|
  {
    var t := LStrip(s);
    if t == [] then []
    else
      var w := TakeWord(t);
      [w] + Words(t[|w|..])
  }

  predicate IsWord(w: string) {
    w != [] && forall i :: 0 <= i < |w| ==> !IsSpace(w[i])
  }

  /** Every part of `s.split()` is a non-empty run of non-spaces. */
  lemma {:induction false} WordsAreWords(s: string)
    ensures forall k :: 0 <= k < |Words(s)| ==> IsWord(Words(s)[k])
    decreases |s|
  {
    var t := LStrip(s);
    if t != [] {
      var w := TakeWord(t);
      var rest := Words(t[|w|..]);
      WordsAreWords(t[|w|..]);
      WordsFirst(s, t, w, rest);
    }
  }

  lemma WordsFirst(s: string, t: string, w: string, rest: seq<string>)
    requires t == LStrip(s) && t != [] && w == TakeWord(t) && rest == Words(t[|w|..])
    requires forall k :: 0 <= k < |rest| ==> IsWord(rest[k])
    ensures forall k :: 0 <= k < |Words(s)| ==> IsWord(Words(s)[k])
  {
    var ws := [w] + rest;
    assert Words(s) == ws;
    assert IsWord(w);
    forall k | 0 <= k < |ws| ensures IsWord(ws[k]) {
      if k > 0 {
        assert ws[k] == rest[k - 1];
      }
    }
  }

  lemma WordsOfBlank(s: string)
    ensures Words(s) == [] <==> IsBlank(s)
  {
    var t := LStrip(s);
    if t != [] {
      assert s[|s| - |t|] == t[0];
    }
  }

  lemma {:induction false} TakeWordOf(w: string, rest: string)
    requires IsWord(w)
    requires rest == [] || IsSpace(rest[0])
    ensures TakeWord(w + rest) == w
    decreases |w|
  {
    if |w| > 1 {
      assert (w + rest)[1..] == w[1..] + rest;
      TakeWordOf(w[1..], rest);
    } else {
      assert (w + rest)[1..] == rest;
    }
  }

  lemma WordsCons(w: string, rest: string)
    requires IsWord(w)
    requires rest == [] || IsSpace(rest[0])
    ensures Words(w + rest) == [w] + Words(rest)
  {
    var s := w + rest;
    assert s[0] == w[0];
    assert LStrip(s) == s;
    TakeWordOf(w, rest);
    assert s[|w|..] == rest;
  }

  lemma WordsSpace(t: string)
    ensures Words(" " + t) == Words(t)
  {
    assert (" " + t)[1..] == t;
    assert LStrip(" " + t) == LStrip(t);
  }

  lemma WordsJoinStep(ws: seq<string>, tail: string)
    requires |ws| > 1 && IsWord(ws[0]) && tail == JoinWith(" ", ws[1..]) && Words(tail) == ws[1..]
    ensures Words(JoinWith(" ", ws)) == ws
  {
    var rest := " " + tail;
    assert IsSpace(rest[0]);
    JoinCons(" ", ws);
    WordsCons(ws[0], rest);
    WordsSpace(tail);
    ConsTail(ws);
  }

  lemma WordsSingle(ws: seq<string>)
    requires |ws| == 1 && IsWord(ws[0])
    ensures Words(JoinWith(" ", ws)) == ws
  {
    assert JoinWith(" ", ws) == ws[0];
    WordsOfWord(ws[0]);
    assert [ws[0]] == ws;
  }

  lemma WordsOfWord(w: string)
    requires IsWord(w)
    ensures Words(w) == [w]
  {
    assert LStrip(w) == w;
    TakeWordOf(w, "");
    assert w + "" == w;
    assert w[|w|..] == "";
  }

  lemma ConsTail<T>(s: seq<T>)
    requires |s| > 0
    ensures [s[0]] + s[1..] == s
  {
  }

  /** Splitting a space-join of words on whitespace gives the words back. */
  lemma {:induction false} WordsJoin(ws: seq<string>)
    requires forall k :: 0 <= k < |ws| ==> IsWord(ws[k])
    ensures Words(JoinWith(" ", ws)) == ws
    decreases |ws|
  {
    if |ws| == 0 {
    } else if |ws| == 1 {
      WordsSingle(ws);
    } else {
      var tail := JoinWith(" ", ws[1..]);
      WordsJoin(ws[1..]);
      WordsJoinStep(ws, tail);
    }
  }
}
