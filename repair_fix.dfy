/**
 * The suffix trim of `closeTruncatedFeed` (static/feeder.js:108-110) is
 * documented as removing a broken tag at the end, but its lookahead demands a
 * '>' after the last '<': it removes a complete trailing tag and keeps an
 * unterminated one. The kept fragment then swallows the first synthesized
 * closer when the output is scanned again, so the output is not balanced.
 * This module shows that on a concrete input and proves the balance property
 * for the trim that was evidently intended, `/<[^>]*$/`.
 */
module RepairFix {
  import opened Wrappers
  import opened Repair
  import opened RepairProperties

  /**
   * `s.replace(/<[^>]*$/, '')`: the text up to the first '<' after the last
   * '>'. What is removed starts with '<' and holds no '>', and what is kept
   * leaves no tag open-ended; these facts determine the result.
   */
  function DropBrokenTag(s: string): (r: string)
    ensures |r| <= |s| && r == s[..|r|]
    ensures |r| < |s| ==> s[|r|] == '<'
    ensures forall k :: |r| <= k < |s| ==> s[k] != '>'
    ensures Terminated(r)
  {
    var g := LastIndexOf(s, '>');
    var q := Find('<', s, g + 1);
    var r := s[..q];
    assert Terminated(r) by {
      var p := LastIndexOf(r, '<');
      if p >= 0 {
        assert r[p] == s[p] && p < g;
        assert r[g] == '>';
      }
    }
    r
  }

  /** The three facts of `DropBrokenTag`'s contract single out one prefix. */
  lemma DropBrokenTagUnique(s: string, r: string)
    requires |r| <= |s| && r == s[..|r|]
    requires |r| < |s| ==> s[|r|] == '<'
    requires forall k :: |r| <= k < |s| ==> s[k] != '>'
    requires Terminated(r)
    ensures r == DropBrokenTag(s)
  {
    var d := DropBrokenTag(s);
    if |d| < |r| {
      TerminatedCut(r, |d|);
    }
  }

  /** A text whose tail from a '<' on holds no '>' leaves a tag open-ended. */
  lemma TerminatedCut(t: string, i: nat)
    requires i < |t| && t[i] == '<'
    requires forall k :: i <= k < |t| ==> t[k] != '>'
    ensures !Terminated(t)
  {
    var p := LastIndexOf(t, '<');
    assert i <= p;
  }

  /** `closeTruncatedFeed` with the trim evidently intended. */
  function RepairedFixed(s: string): (r: string)
    ensures |DropBrokenTag(s)| <= |s| && |DropBrokenTag(s)| <= |r|
    ensures r[..|DropBrokenTag(s)|] == s[..|DropBrokenTag(s)|]
  {
    var t := DropBrokenTag(s);
    t + Closers(OpenTags(t))
  }

  /** With the intended trim, scanning the repaired output always ends with an empty stack. */
  lemma RepairedFixedIsBalanced(s: string)
    ensures Run([], Tokens(RepairedFixed(s))) == []
  {
    ClosingBalances(DropBrokenTag(s));
  }

  /**
   * As written, the unterminated `<b` survives the trim, the closer `</a>` is
   * appended after it, and the scan of the output reads `<b</a>` as one
   * opening tag: two names stay open.
   */
  lemma AsWrittenUnbalanced()
    ensures Run([], Tokens(Repaired("<a><b"))) == ["a", "b</a"]
  {
    AsWrittenOutput();
    ScanOutput();
    RunOutput();
  }

  lemma RunOutput()
    ensures Run([], [Open("a"), Open("b</a")]) == ["a", "b</a"]
  {
    var ts := [Open("a"), Open("b</a")];
    assert ts[1..] == [Open("b</a")] && ts[1..][1..] == [];
    assert Run(["a", "b</a"], []) == ["a", "b</a"];
    assert Run([], ts) == Run(["a"], ts[1..]);
  }

  lemma AsWrittenOutput()
    ensures Repaired("<a><b") == "<a><b</a>"
  {
    TrimKeepsFragment();
    ScanFragment();
    assert Run([], [Open("a")]) == ["a"];
    assert Closers(["a"]) == "</a>";
  }

  lemma TrimKeepsFragment()
    ensures TrimTrailingTag("<a><b") == "<a><b"
  {
    var s := "<a><b";
    assert s[..4][..3] == "<a>";
    assert LastIndexOf(s, '<') == 3;
  }

  lemma ScanFragment()
    ensures Tokens("<a><b") == [Open("a")]
  {
    var s := "<a><b";
    assert Find('>', s, 2) == 2;
    assert Exec(s, 0) == Some(TagMatch(0, 3));
    assert Find('>', s, 5) == 5;
    assert Exec(s, 3) == None;
    assert MatchText(s, TagMatch(0, 3)) == "<a>";
    assert Classify("<a>") == Open("a");
  }

  lemma ScanOutput()
    ensures Tokens("<a><b</a>") == [Open("a"), Open("b</a")]
  {
    var o := "<a><b</a>";
    assert Find('>', o, 2) == 2;
    assert Exec(o, 0) == Some(TagMatch(0, 3));
    assert Find('>', o, 5) == 8;
    assert Exec(o, 3) == Some(TagMatch(3, 6));
    assert Exec(o, 9) == None;
    assert MatchText(o, TagMatch(0, 3)) == "<a>";
    assert MatchText(o, TagMatch(3, 6)) == "<b</a>";
    assert Classify("<a>") == Open("a");
    assert Classify("<b</a>") == Open("b</a");
    assert TokensFrom(o, 3) == [Open("b</a")] + TokensFrom(o, 9);
  }

  /** With the intended trim the same input loses its fragment and comes out balanced. */
  lemma FixedOnExample()
    ensures RepairedFixed("<a><b") == "<a></a>"
  {
    var s := "<a><b";
    assert LastIndexOf(s, '>') == 2;
    assert Find('<', s, 3) == 3;
    assert DropBrokenTag(s) == "<a>";
    var t := "<a>";
    assert Find('>', t, 2) == 2;
    assert Exec(t, 0) == Some(TagMatch(0, 3));
    assert Exec(t, 3) == None;
    assert MatchText(t, TagMatch(0, 3)) == t;
    assert Classify(t) == Open("a");
    assert Tokens(t) == [Open("a")];
  }
}
