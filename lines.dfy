/** Newline-joined text, as Python's `"\n".join(lines)` builds it. */
module Lines {

  /** `"\n".join(lines)`: the lines with one newline between neighbours. */
  function JoinLines(lines: seq<string>): (s: string)
    ensures |lines| == 1 ==> s == lines[0]
    ensures |lines| > 0 ==> lines[0] <= s
  {
    if |lines| == 0 then ""
    else if |lines| == 1 then lines[0]
    else JoinLines(lines[..|lines| - 1]) + "\n" + lines[|lines| - 1]
  }

  /** Joining two non-empty runs of lines puts exactly one newline between them. */
  lemma {:induction false} JoinLinesAppend(a: seq<string>, b: seq<string>)
    requires |a| > 0 && |b| > 0
    ensures JoinLines(a + b) == JoinLines(a) + "\n" + JoinLines(b)
    decreases |b|
  {
    if |b| == 1 {
      assert (a + b)[..|a + b| - 1] == a;
    } else {
      var b' := b[..|b| - 1];
      assert (a + b)[..|a + b| - 1] == a + b';
      JoinLinesAppend(a, b');
    }
  }

  /** Joining an already joined run as a single line is the same as joining the whole run. */
  lemma JoinLinesFlatten(a: seq<string>, b: seq<string>)
    requires |a| > 0
    ensures JoinLines([JoinLines(a)] + b) == JoinLines(a + b)
  {
    if |b| > 0 {
      JoinLinesAppend([JoinLines(a)], b);
      JoinLinesAppend(a, b);
    } else {
      assert a + b == a;
    }
  }

  /** A join of lines whose first line is not empty is not empty. */
  lemma JoinLinesEmpty(lines: seq<string>)
    requires |lines| > 0 && |lines[0]| > 0
    ensures JoinLines(lines) != ""
  {
  }

  /** `[text] if text else []`: Python keeps a previously joined text only when it is not empty. */
  function PromoteText(text: string): seq<string> {
    if text == "" then [] else [text]
  }

  /** Re-joining a stored join, promoted as above, with more lines equals joining
      all the lines at once, provided the stored join is empty only for no lines. */
  lemma JoinPromoted(a: seq<string>, b: seq<string>)
    requires JoinLines(a) == "" ==> a == []
    ensures JoinLines(PromoteText(JoinLines(a)) + b) == JoinLines(a + b)
  {
    if a == [] {
      assert PromoteText(JoinLines(a)) + b == a + b;
    } else {
      JoinLinesFlatten(a, b);
    }
  }

  /** Continuing a stored join with `added` lines and then `trailer` gives the join
      of all the lines from an empty start. */
  lemma JoinContinues(a: seq<string>, added: seq<string>, trailer: seq<string>)
    requires JoinLines(a) == "" ==> a == []
    ensures JoinLines(PromoteText(JoinLines(a)) + added + trailer)
      == JoinLines(PromoteText("") + (a + added) + trailer)
  {
    JoinPromoted(a, added + trailer);
    assert PromoteText(JoinLines(a)) + added + trailer == PromoteText(JoinLines(a)) + (added + trailer);
    assert PromoteText("") + (a + added) + trailer == a + (added + trailer);
  }
}
