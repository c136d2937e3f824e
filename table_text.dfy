/**
 * The character-level pieces of the table parser: the digits that `\d` and
 * `int()` accept, `int()` itself on a cell, the tag-stripping `re.sub`, and
 * the section-row test.
 */
module TableText {
  import opened Wrappers
  import opened Strings

  /** The value of a decimal digit: ASCII, Arabic-Indic or Extended Arabic-Indic. */
  function DigitValue(c: char): (v: Option<nat>)
    ensures v.Some? ==> v.value < 10
  {
    var n := c as int;
    if 0x30 <= n <= 0x39 then Some(n - 0x30)
    else if 0x660 <= n <= 0x669 then Some(n - 0x660)
    else if 0x6F0 <= n <= 0x6F9 then Some(n - 0x6F0)
    else None
  }

  predicate IsDigit(c: char) {
    DigitValue(c).Some?
  }

  /** `[ء-ي]`: U+0621 to U+064A. */
  predicate IsArabicLetter(c: char) {
    0x621 <= c as int <= 0x64A
  }

  predicate HasDigit(s: string) {
    exists i :: 0 <= i < |s| && IsDigit(s[i])
  }

  predicate HasArabicLetter(s: string) {
    exists i :: 0 <= i < |s| && IsArabicLetter(s[i])
  }

  /**
   * The digits of an integer literal as `int()` takes them: digits, with
   * single underscores allowed between two digits.
   */
  predicate DigitRun(s: string) {
    |s| > 0 && IsDigit(s[0]) && IsDigit(s[|s| - 1])
    && (forall i :: 0 <= i < |s| ==> IsDigit(s[i]) || s[i] == '_')
    && (forall i :: 0 <= i < |s| - 1 && s[i] == '_' ==> s[i + 1] != '_')
  }

  /** The value of a run of digits and underscores, read left to right. */
  function RunValue(s: string): nat
    decreases |s|
  {
    if s == [] then 0
    else
      var d := DigitValue(s[|s| - 1]);
      if d.Some? then RunValue(s[..|s| - 1]) * 10 + d.value else RunValue(s[..|s| - 1])
  }

  /** `int(s)` on a string: surrounding whitespace, an optional sign, then a digit run; None where Python raises. */
  function ParseInt(s: string): (r: Option<int>)
    ensures r.Some? ==> Strip(s) != ""
  {
    ParseStripped(Strip(s))
  }

  /** `int()` once the surrounding whitespace is gone. */
  function ParseStripped(t: string): (r: Option<int>)
    ensures r.Some? ==> t != ""
  {
    if t == [] then None
    else if t[0] == '-' || t[0] == '+' then
      var body := t[1..];
      if DigitRun(body) then Some(if t[0] == '-' then -(RunValue(body) as int) else RunValue(body)) else None
    else if DigitRun(t) then Some(RunValue(t))
    else None
  }

  function DigitChar(d: nat): char
    requires d < 10
  {
    (0x30 + d) as char
  }

  /** `str(n)` for an integer. */
  function ShowNat(n: nat): (s: string)
    ensures |s| > 0 && forall i :: 0 <= i < |s| ==> '0' <= s[i] <= '9'
    decreases n
  {
    if n < 10 then [DigitChar(n)] else ShowNat(n / 10) + [DigitChar(n % 10)]
  }

  function ShowInt(n: int): string {
    if n < 0 then "-" + ShowNat(-n) else ShowNat(n)
  }

  lemma {:induction false} ShowNatValue(n: nat)
    ensures DigitRun(ShowNat(n)) && RunValue(ShowNat(n)) == n
    decreases n
  {
    var s := ShowNat(n);
    if n >= 10 {
      ShowNatValue(n / 10);
      assert s[..|s| - 1] == ShowNat(n / 10);
    }
  }

  lemma StripDigits(s: string)
    requires forall i :: 0 <= i < |s| ==> s[i] == '-' || '0' <= s[i] <= '9'
    ensures Strip(s) == s
  {
    if s != [] {
      assert !IsSpace(s[0]);
      assert !IsSpace(s[|s| - 1]);
      assert LStrip(s) == s;
    }
  }

  lemma ReadShowNat(n: nat)
    ensures ParseStripped(ShowNat(n)) == Some(n)
  {
    ShowNatValue(n);
  }

  lemma ReadShowNegative(n: nat)
    requires n > 0
    ensures ParseStripped("-" + ShowNat(n)) == Some(-(n as int))
  {
    ShowNatValue(n);
    assert ("-" + ShowNat(n))[1..] == ShowNat(n);
  }

  /** `int(str(n)) == n`: a quantity written out as an integer is read back as itself. */
  lemma ParseShowInt(n: int)
    ensures ParseInt(ShowInt(n)) == Some(n)
  {
    StripDigits(ShowInt(n));
    if n < 0 {
      ReadShowNegative(-n);
    } else {
      ReadShowNat(n);
    }
  }

  /** A cell with a letter, a decimal point or a blank is not an integer. */
  lemma ParseIntRejects(s: string, i: nat)
    requires i < |Strip(s)| && i > 0
    requires var c := Strip(s)[i]; !IsDigit(c) && c != '_'
    ensures ParseInt(s) == None
  {}

  /**
   * The end of a tag that opens just before `t`: the first '>' in `t`,
   * unless a newline comes first (`.` does not match a newline).
   */
  function TagEnd(t: string): (k: Option<nat>)
    ensures k.Some? ==> (k.value < |t| && t[k.value] == '>'
                         && forall i :: 0 <= i < k.value ==> t[i] != '>' && t[i] != '\n')
    ensures k.None? ==> forall j :: 0 <= j < |t| && t[j] == '>' ==> exists i :: 0 <= i < j && t[i] == '\n'
    decreases |t|
  {
    if t == [] then None
    else if t[0] == '>' then Some(0)
    else if t[0] == '\n' then None
    else
      var k := TagEnd(t[1..]);
      if k.Some? then
        Some(k.value + 1)
      else
        assert forall j :: 1 <= j < |t| && t[j] == '>' ==> t[1..][j - 1] == '>';
        None
  }

  /** `re.sub(r"<.*?>", "", s)`: every shortest `<...>` on one line is removed, left to right. */
  function StripTags(s: string): (r: string)
    ensures |r| <= |s|
    ensures forall c :: c in r ==> c in s
    decreases |s|
  {
    if s == [] then []
    else if s[0] == '<' && TagEnd(s[1..]).Some? then StripTags(s[1..][TagEnd(s[1..]).value + 1..])
    else [s[0]] + StripTags(s[1..])
  }

  /** No tag is left: no '<' is followed by a '>' on the same line. */
  predicate NoTag(r: string) {
    forall i :: 0 <= i < |r| && r[i] == '<' ==> TagEnd(r[i + 1..]).None?
  }

  /** A text with no closing '>' before its first newline keeps that property through `StripTags`. */
  lemma {:induction false} UnclosedStaysUnclosed(t: string)
    requires TagEnd(t).None?
    ensures TagEnd(StripTags(t)).None?
    decreases |t|
  {
    if t != [] && t[0] != '\n' {
      UnclosedStaysUnclosed(t[1..]);
      var r := StripTags(t);
      assert r == [t[0]] + StripTags(t[1..]);
      assert r[1..] == StripTags(t[1..]);
    }
  }

  /** Putting a character in front of a tag-free text keeps it tag-free unless it opens a tag. */
  lemma ConsNoTag(c: char, rest: string)
    requires NoTag(rest) && (c == '<' ==> TagEnd(rest).None?)
    ensures NoTag([c] + rest)
  {
    var r := [c] + rest;
    forall i | 0 <= i < |r| && r[i] == '<'
      ensures TagEnd(r[i + 1..]).None?
    {
      if i > 0 {
        assert r[i + 1..] == rest[i..];
        assert rest[i - 1] == '<';
      } else {
        assert r[1..] == rest;
      }
    }
  }

  /** The substitution leaves no tag behind. */
  lemma {:induction false} StripTagsComplete(s: string)
    ensures NoTag(StripTags(s))
    decreases |s|
  {
    if s == [] {
    } else if s[0] == '<' && TagEnd(s[1..]).Some? {
      StripTagsComplete(s[1..][TagEnd(s[1..]).value + 1..]);
    } else {
      StripTagsComplete(s[1..]);
      if s[0] == '<' {
        UnclosedStaysUnclosed(s[1..]);
      }
      ConsNoTag(s[0], StripTags(s[1..]));
    }
  }

  /** A text without '<' has no tag to remove. */
  lemma {:induction false} StripTagsPlain(s: string)
    requires '<' !in s
    ensures StripTags(s) == s
    decreases |s|
  {
    if s != [] {
      StripTagsPlain(s[1..]);
    }
  }

  /** The cells of a row that are not blank, in order. */
  function NonBlank(cells: seq<string>): (r: seq<string>)
    ensures |r| <= |cells|
    ensures forall c :: c in r ==> c in cells && Strip(c) != ""
    decreases |cells|
  {
    if cells == [] then []
    else (if Strip(cells[0]) != "" then [cells[0]] else []) + NonBlank(cells[1..])
  }

  /** `cells[k]` is the only cell with content. */
  predicate OnlyContent(cells: seq<string>, k: int) {
    0 <= k < |cells| && Strip(cells[k]) != "" && forall i :: 0 <= i < |cells| && i != k ==> Strip(cells[i]) == ""
  }

  lemma {:induction false} NonBlankOnly(cells: seq<string>, k: nat)
    requires OnlyContent(cells, k)
    ensures NonBlank(cells) == [cells[k]]
    decreases |cells|
  {
    var tail := cells[1..];
    if k == 0 {
      NonBlankNone(tail);
    } else {
      assert OnlyContent(tail, k - 1);
      NonBlankOnly(tail, k - 1);
    }
  }

  lemma {:induction false} NonBlankOne(cells: seq<string>) returns (k: nat)
    requires |NonBlank(cells)| == 1
    ensures OnlyContent(cells, k)
    decreases |cells|
  {
    var tail := cells[1..];
    assert NonBlank(cells) == (if Strip(cells[0]) != "" then [cells[0]] else []) + NonBlank(tail);
    if Strip(cells[0]) != "" {
      NonBlankEmpty(tail);
      k := 0;
      forall i | 0 < i < |cells| ensures Strip(cells[i]) == "" {
        assert cells[i] == tail[i - 1];
      }
    } else {
      var j := NonBlankOne(tail);
      k := j + 1;
      forall i | 0 < i < |cells| && i != k ensures Strip(cells[i]) == "" {
        assert cells[i] == tail[i - 1];
      }
    }
  }

  lemma NonBlankEmpty(cells: seq<string>)
    requires NonBlank(cells) == []
    ensures forall i :: 0 <= i < |cells| ==> Strip(cells[i]) == ""
  {
    forall i | 0 <= i < |cells| ensures Strip(cells[i]) == "" {
      if Strip(cells[i]) != "" {
        NonBlankHas(cells, i);
      }
    }
  }

  lemma {:induction false} NonBlankHas(cells: seq<string>, i: nat)
    requires i < |cells| && Strip(cells[i]) != ""
    ensures NonBlank(cells) != []
    decreases |cells|
  {
    if i > 0 && Strip(cells[0]) == "" {
      NonBlankHas(cells[1..], i - 1);
    }
  }

  lemma {:induction false} NonBlankNone(cells: seq<string>)
    requires forall i :: 0 <= i < |cells| ==> Strip(cells[i]) == ""
    ensures NonBlank(cells) == []
    decreases |cells|
  {
    if cells != [] {
      NonBlankNone(cells[1..]);
    }
  }

  /** What a category name looks like once its tags are stripped: an Arabic letter and no digit. */
  predicate SectionText(plain: string) {
    HasArabicLetter(plain) && !HasDigit(plain)
  }

  /** `is_section_row`: one cell with content, whose tag-free text is a category name. */
  function IsSectionRow(cells: seq<string>): (r: bool)
    ensures r ==> |NonBlank(cells)| == 1
  {
    var contentful := NonBlank(cells);
    |contentful| == 1 && SectionText(Strip(StripTags(contentful[0])))
  }

  /** A row is a section row exactly when one cell has content and that cell's tag-free text is a category name. */
  lemma SectionRowMeans(cells: seq<string>)
    ensures IsSectionRow(cells) <==> exists k :: OnlyContent(cells, k) && SectionText(Strip(StripTags(cells[k])))
  {
    if IsSectionRow(cells) {
      var k := NonBlankOne(cells);
      NonBlankOnly(cells, k);
    }
    forall k | OnlyContent(cells, k) ensures NonBlank(cells) == [cells[k]] {
      NonBlankOnly(cells, k);
    }
  }
}
