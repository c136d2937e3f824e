/** Line-level cleanup of OCR text in the generic PDF pipeline. */
module PdfText {
  import opened Wrappers
  import opened Strings
  import opened Sequences

  /** The text that `remove_consecutive_duplicates` returns: split on newlines, collapse equal neighbours, rejoin. */
  function DedupLines(text: string): string {
    JoinWith("\n", Dedup(SplitOn(text, '\n')))
  }

  /** The loop keeps a line when it differs from the last line it kept. */
  method RemoveConsecutiveDuplicates(text: string) returns (r: string)
    ensures r == DedupLines(text)
  {
    var lines := SplitOn(text, '\n');
    var result: seq<string> := [];
    var prev: Option<string> := None;
    var i := 0;
    while i < |lines|
      invariant 0 <= i <= |lines|
      invariant result == Dedup(lines[..i])
      invariant prev == if i == 0 then None else Some(lines[i - 1])
    {
      var line := lines[i];
      assert lines[..i + 1][..i] == lines[..i];
      if prev != Some(line) {
        result := result + [line];
      }
      prev := Some(line);
      i := i + 1;
    }
    assert lines[..i] == lines;
    r := JoinWith("\n", result);
  }

  /** The lines of the output are the collapsed lines of the input. */
  lemma OutputLines(text: string)
    ensures SplitOn(DedupLines(text), '\n') == Dedup(SplitOn(text, '\n'))
  {
    var lines := SplitOn(text, '\n');
    SplitOnPartsFree(text, '\n');
    var idx := DedupSubsequence(lines);
    var r := Dedup(lines);
    forall k | 0 <= k < |r| ensures '\n' !in r[k] {
      assert r[k] == lines[idx[k]];
    }
    SplitJoin(r, '\n');
  }

  /** No two adjacent output lines are equal. */
  lemma NoAdjacentEqualLines(text: string)
    ensures NoAdjacentEqual(SplitOn(DedupLines(text), '\n'))
  {
    OutputLines(text);
    DedupNoAdjacent(SplitOn(text, '\n'));
  }

  /** The output lines are a subsequence of the input lines that keeps the first line. */
  lemma OutputIsSubsequence(text: string) returns (idx: seq<nat>)
    ensures PicksOut(SplitOn(DedupLines(text), '\n'), SplitOn(text, '\n'), idx)
    ensures idx[0] == 0
  {
    OutputLines(text);
    idx := DedupSubsequence(SplitOn(text, '\n'));
  }

  /** Cleaning cleaned text changes nothing. */
  lemma Idempotent(text: string)
    ensures DedupLines(DedupLines(text)) == DedupLines(text)
  {
    OutputLines(text);
    DedupIdempotent(SplitOn(text, '\n'));
  }
}
