/** The small text helpers used by the field parsers. */
module TextUtils {
  import opened Wrappers
  import opened Strings
  import opened Sequences

  // ---------------------------------------------------------------------------
  // clean_field
  // ---------------------------------------------------------------------------

  predicate IsStarRun(x: string) {
    |x| > 0 && forall i :: 0 <= i < |x| ==> x[i] == '*'
  }

  /** The text with its leading run of asterisks removed. */
  function DropStars(t: string): (r: string)
    ensures |r| <= |t| && r == t[|t| - |r|..]
    ensures r == [] || r[0] != '*'
    decreases |t|
  {
    if |t| > 0 && t[0] == '*' then DropStars(t[1..]) else t
  }

  /** The first substitution: blanks, one or more `*`, blanks, anchored at the start. */
  function CutLeadingStars(s: string): (r: string)
    ensures |r| <= |s|
  {
    var t := LStrip(s);
    if |t| > 0 && t[0] == '*' then LStrip(DropStars(t)) else s
  }

  /**
   * The second substitution: the leftmost position from `p` on where the rest
   * is blanks, one or more `*`, blanks up to the end; that suffix is deleted.
   */
  function CutTrailingStars(s: string, p: nat): (r: string)
    requires p <= |s| + 1
    ensures |r| <= |s|
    decreases |s| + 1 - p
  {
    if p > |s| then s
    else if IsStarRun(Strip(s[p..])) then s[..p]
    else CutTrailingStars(s, p + 1)
  }

  /** `clean_field`: None stays None; otherwise both substitutions and a final strip. */
  function CleanField(s: Option<string>): (r: Option<string>)
    ensures r.None? <==> s.None?
    ensures r.Some? ==> r.value == Strip(r.value)
  {
    match s
    case None => None
    case Some(v) =>
      var c := Strip(CutTrailingStars(CutLeadingStars(v), 0));
      StripFixed(c);
      Some(c)
  }

  lemma StripFixed(s: string)
    ensures Strip(Strip(s)) == Strip(s)
  {
    var t := Strip(s);
    if t != [] {
      assert LStrip(t) == t;
      RStripKeepsHead(t);
    }
  }

  lemma {:induction false} NoStarTrailing(s: string, p: nat)
    requires p <= |s| + 1
    requires '*' !in s
    ensures CutTrailingStars(s, p) == s
    decreases |s| + 1 - p
  {
    if p <= |s| {
      NoStarTrailing(s, p + 1);
    }
  }

  /** Without an asterisk, cleaning a field is stripping it. */
  lemma CleanFieldNoStars(s: string)
    requires '*' !in s
    ensures CleanField(Some(s)) == Some(Strip(s))
  {
    NoStarTrailing(s, 0);
  }

  // ---------------------------------------------------------------------------
  // normalize, is_arabic, header_missing_core_fields
  // ---------------------------------------------------------------------------

  /** The directional marks and embeddings that `normalize` deletes: U+200E, U+200F, U+202A to U+202E. */
  predicate IsInvisible(c: char) {
    c == '‎' || c == '‏' || '‪' <= c <= '‮'
  }

  function Normalize(text: string): (r: string)
    ensures |r| <= |text|
    ensures forall c :: c in r ==> c in text && !IsInvisible(c)
    decreases |text|
  {
    if |text| == 0 then ""
    else if IsInvisible(text[0]) then Normalize(text[1..])
    else [text[0]] + Normalize(text[1..])
  }

  /** Deleting characters commutes with concatenation, so order is kept. */
  lemma {:induction false} NormalizeAppend(a: string, b: string)
    ensures Normalize(a + b) == Normalize(a) + Normalize(b)
    decreases |a|
  {
    if |a| > 0 {
      assert (a + b)[0] == a[0] && (a + b)[1..] == a[1..] + b;
      NormalizeAppend(a[1..], b);
    } else {
      assert a + b == b;
    }
  }

  /** Text without the marks is left exactly as it is. */
  lemma {:induction false} NormalizeKeeps(text: string)
    requires forall i :: 0 <= i < |text| ==> !IsInvisible(text[i])
    ensures Normalize(text) == text
    decreases |text|
  {
    if |text| > 0 {
      NormalizeKeeps(text[1..]);
    }
  }

  /** Normalizing twice is normalizing once. */
  lemma NormalizeIdempotent(text: string)
    ensures Normalize(Normalize(text)) == Normalize(text)
  {
    var r := Normalize(text);
    forall i | 0 <= i < |r| ensures !IsInvisible(r[i]) {
      assert r[i] in r;
    }
    NormalizeKeeps(r);
  }

  predicate IsArabicChar(c: char) {
    '؀' <= c <= 'ۿ'
  }

  /** `is_arabic`: some character lies in the Arabic block. */
  function IsArabic(text: string): (r: bool)
    ensures r <==> exists i :: 0 <= i < |text| && IsArabicChar(text[i])
    decreases |text|
  {
    if |text| == 0 then false
    else if IsArabicChar(text[0]) then true
    else
      var rest := IsArabic(text[1..]);
      assert forall i :: 1 <= i < |text| ==> text[i] == text[1..][i - 1];
      rest
  }

  const CoreFields: seq<string> := ["رقم الدخول", "الرقم الطبي", "المريض"]

  /** `header_missing_core_fields`: none of the three core labels occurs in the header text. */
  function HeaderMissingCoreFields(text: string): (r: bool)
    ensures r <==> forall k :: 0 <= k < |CoreFields| ==> !Contains(text, CoreFields[k])
  {
    assert CoreFields[0] == "رقم الدخول" && CoreFields[1] == "الرقم الطبي" && CoreFields[2] == "المريض";
    !(Contains(text, "رقم الدخول") || Contains(text, "الرقم الطبي") || Contains(text, "المريض"))
  }

  // ---------------------------------------------------------------------------
  // remove_consecutive_duplicates (word level)
  // ---------------------------------------------------------------------------

  /** A line without words is kept as it is; otherwise its words, collapsed, joined by one space. */
  function CleanLine(line: string): string {
    var words := Words(line);
    if words == [] then line else JoinWith(" ", Dedup(words))
  }

  function CleanLines(lines: seq<string>): (r: seq<string>)
    ensures |r| == |lines|
    ensures forall k :: 0 <= k < |lines| ==> r[k] == CleanLine(lines[k])
  {
    seq(|lines|, k requires 0 <= k < |lines| => CleanLine(lines[k]))
  }

  /** What `remove_consecutive_duplicates` returns. */
  function RemoveDuplicateWords(text: string): string {
    if text == "" then text else JoinWith("\n", CleanLines(SplitOn(text, '\n')))
  }

  lemma DedupFirst(words: seq<string>)
    requires |words| > 0
    ensures Dedup(words[..1]) == [words[0]]
  {
    assert words[..1] == [words[0]];
    assert words[..1][..0] == [];
  }

  lemma DedupStep(words: seq<string>, i: nat)
    requires 1 <= i < |words|
    ensures var d := Dedup(words[..i]);
      |d| > 0 && Dedup(words[..i + 1]) == if d[|d| - 1] == words[i] then d else d + [words[i]]
  {
    assert words[..i + 1][..i] == words[..i];
  }

  method DedupWords(words: seq<string>) returns (result: seq<string>)
    requires |words| > 0
    ensures result == Dedup(words)
  {
    result := [words[0]];
    var i := 1;
    DedupFirst(words);
    while i < |words|
      invariant 1 <= i <= |words|
      invariant result == Dedup(words[..i])
    {
      DedupStep(words, i);
      if words[i] != result[|result| - 1] {
        result := result + [words[i]];
      }
      i := i + 1;
    }
    assert words[..i] == words;
  }

  /** One line: kept as it is when it has no words, otherwise its words with repeats dropped. */
  method CleanOne(line: string) returns (r: string)
    ensures r == CleanLine(line)
  {
    var words := Words(line);
    if words == [] {
      r := line;
    } else {
      var result := DedupWords(words);
      r := JoinWith(" ", result);
    }
  }

  lemma CleanLinesStep(lines: seq<string>, i: nat)
    requires i < |lines|
    ensures CleanLines(lines[..i + 1]) == CleanLines(lines[..i]) + [CleanLine(lines[i])]
  {
  }

  method RemoveConsecutiveDuplicates(text: string) returns (r: string)
    ensures r == RemoveDuplicateWords(text)
  {
    if text == "" {
      return text;
    }
    var lines := SplitOn(text, '\n');
    var cleaned: seq<string> := [];
    var i := 0;
    while i < |lines|
      invariant 0 <= i <= |lines|
      invariant cleaned == CleanLines(lines[..i])
    {
      var line := CleanOne(lines[i]);
      CleanLinesStep(lines, i);
      cleaned := cleaned + [line];
      i := i + 1;
    }
    assert lines[..i] == lines;
    r := JoinWith("\n", cleaned);
  }

  lemma {:induction false} JoinWithout(sep: string, parts: seq<string>, c: char)
    requires c !in sep
    requires forall k :: 0 <= k < |parts| ==> c !in parts[k]
    ensures c !in JoinWith(sep, parts)
    decreases |parts|
  {
    if |parts| > 1 {
      JoinWithout(sep, parts[1..], c);
    }
  }

  lemma CleanLineSingle(line: string)
    requires '\n' !in line
    ensures '\n' !in CleanLine(line)
  {
    var words := Words(line);
    if words != [] {
      WordsAreWords(line);
      var d := Dedup(words);
      var idx := DedupSubsequence(words);
      forall k | 0 <= k < |d| ensures '\n' !in d[k] {
        assert d[k] == words[idx[k]] && IsWord(words[idx[k]]);
        assert IsSpace('\n');
      }
      JoinWithout(" ", d, '\n');
    }
  }

  /** The lines of the output are the cleaned input lines, one for one. */
  lemma OutputLines(text: string)
    requires text != ""
    ensures SplitOn(RemoveDuplicateWords(text), '\n') == CleanLines(SplitOn(text, '\n'))
  {
    var lines := SplitOn(text, '\n');
    SplitOnPartsFree(text, '\n');
    var cl := CleanLines(lines);
    forall k | 0 <= k < |cl| ensures '\n' !in cl[k] {
      CleanLineSingle(lines[k]);
    }
    SplitJoin(cl, '\n');
  }

  /** The number of lines is preserved and blank lines come through verbatim. */
  lemma LinesPreserved(text: string, k: nat)
    requires text != "" && k < |SplitOn(text, '\n')|
    ensures |SplitOn(RemoveDuplicateWords(text), '\n')| == |SplitOn(text, '\n')|
    ensures IsBlank(SplitOn(text, '\n')[k]) ==> SplitOn(RemoveDuplicateWords(text), '\n')[k] == SplitOn(text, '\n')[k]
  {
    OutputLines(text);
    WordsOfBlank(SplitOn(text, '\n')[k]);
  }

  /** No output line has two equal adjacent words. */
  lemma NoAdjacentEqualWords(text: string, k: nat)
    requires text != "" && k < |SplitOn(text, '\n')|
    ensures k < |SplitOn(RemoveDuplicateWords(text), '\n')|
    ensures NoAdjacentEqual(Words(SplitOn(RemoveDuplicateWords(text), '\n')[k]))
  {
    OutputLines(text);
    var line := SplitOn(text, '\n')[k];
    var words := Words(line);
    if words == [] {
      WordsOfBlank(line);
      assert Words(line) == [];
    } else {
      WordsAreWords(line);
      var d := Dedup(words);
      var idx := DedupSubsequence(words);
      forall j | 0 <= j < |d| ensures IsWord(d[j]) {
        assert d[j] == words[idx[j]];
      }
      WordsJoin(d);
      DedupNoAdjacent(words);
    }
  }
}
