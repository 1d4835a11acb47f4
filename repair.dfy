/**
 * `closeTruncatedFeed` (static/feeder.js:99-145): repairs a feed body that was
 * cut off by the byte budget. It trims one trailing tag, scans the rest with
 * the tag regular expression keeping a stack of open tag names, and appends
 * one closing tag per name left on the stack, innermost first.
 *
 * The regex matching is modelled character by character:
 *  - trailingBrokenTagRegex (line 109) matches only at the last '<' of the
 *    text, and only when some '>' follows it; replacing the match with ''
 *    removes everything from that '<' on.
 *  - tagRegex (line 101) matches from a '<' to the first '>' after it, with at
 *    least one character that is not '>' in between; group 1 is everything
 *    in between, except that a leading '/' is left out when something else
 *    follows it.
 */
module Repair {
  import opened Wrappers

  // ---------------------------------------------------------------------------
  // Step 1: the trailing tag (lines 108-110)

  function LastIndexOf(s: string, c: char): (r: int)
    ensures -1 <= r < |s|
    ensures r >= 0 ==> s[r] == c
    ensures forall k :: r < k < |s| ==> s[k] != c
  {
    if s == [] then -1
    else if s[|s| - 1] == c then |s| - 1
    else LastIndexOf(s[..|s| - 1], c)
  }

  /** `p` is the last '<' of `s` and some '>' comes after it. */
  ghost predicate TrailingTagAt(s: string, p: int)
  {
    0 <= p < |s| && s[p] == '<' && (forall k :: p < k < |s| ==> s[k] != '<') && '>' in s[p + 1..]
  }

  /**
   * `result.replace(trailingBrokenTagRegex, '')`: the input itself or a prefix
   * of it; `TrimRule` says which.
   */
  function TrimTrailingTag(s: string): (r: string)
    ensures |r| <= |s| && r == s[..|r|]
  {
    var p := LastIndexOf(s, '<');
    if p >= 0 && '>' in s[p + 1..] then s[..p] else s
  }

  /**
   * If a '>' occurs after the last '<', the text from that '<' on is dropped;
   * otherwise (no '<' at all, or a last '<' that is never closed) the text is
   * returned unchanged.
   */
  lemma TrimRule(s: string)
    ensures forall p :: TrailingTagAt(s, p) ==> TrimTrailingTag(s) == s[..p]
    ensures (forall p :: !TrailingTagAt(s, p)) ==> TrimTrailingTag(s) == s
  {
    var p := LastIndexOf(s, '<');
    if p >= 0 && '>' in s[p + 1..] {
      assert TrailingTagAt(s, p);
    }
  }

  // ---------------------------------------------------------------------------
  // Step 2: the tag scan (lines 112-136)

  /** The index of the first `c` at or after `k`, or `|s|` if there is none; the scan looks for '>'. */
  function Find(c: char, s: string, k: nat): (j: nat)
    requires k <= |s|
    ensures k <= j <= |s|
    ensures j < |s| ==> s[j] == c
    ensures forall m :: k <= m < j ==> s[m] != c
    decreases |s| - k
  {
    if k == |s| || s[k] == c then k else Find(c, s, k + 1)
  }

  /** tagRegex can match starting at `i`: a '<', one character that is not '>', and a '>' later on. */
  predicate StartsTag(s: string, i: nat)
  {
    i + 1 < |s| && s[i] == '<' && s[i + 1] != '>' && Find('>', s, i + 2) < |s|
  }

  /** A match of tagRegex: `match.index` and `match[0].length`. */
  datatype TagMatch = TagMatch(index: nat, length: nat)

  /** `match[0]`: the text of the match. */
  function MatchText(s: string, m: TagMatch): string
    requires m.index + m.length <= |s|
  {
    s[m.index..m.index + m.length]
  }

  /** The shape of every tagRegex match: '<', at least one character that is not '>', then '>'. */
  ghost predicate IsTagText(u: string)
  {
    |u| >= 3 && u[0] == '<' && u[|u| - 1] == '>' && '>' !in u[1..|u| - 1]
  }

  /** `tagRegex.exec(s)` with `tagRegex.lastIndex == k`; `ExecIsLeftmost` states what it finds. */
  function Exec(s: string, k: nat): (m: Option<TagMatch>)
    requires k <= |s|
    ensures m.Some? ==> k <= m.value.index && 3 <= m.value.length && m.value.index + m.value.length <= |s|
    decreases |s| - k
  {
    if k == |s| then None
    else if StartsTag(s, k) then Some(TagMatch(k, Find('>', s, k + 2) + 1 - k))
    else Exec(s, k + 1)
  }

  /**
   * The regex semantics of `Exec`: no match when no position at or after `k`
   * can start one; otherwise the leftmost such position, its text running to
   * the first '>' after it.
   */
  lemma {:induction false} ExecIsLeftmost(s: string, k: nat)
    requires k <= |s|
    ensures Exec(s, k).None? ==> forall i :: k <= i < |s| ==> !StartsTag(s, i)
    ensures Exec(s, k).Some? ==>
      var m := Exec(s, k).value;
      && StartsTag(s, m.index)
      && (forall i :: k <= i < m.index ==> !StartsTag(s, i))
      && IsTagText(MatchText(s, m))
    decreases |s| - k
  {
    if k < |s| {
      if StartsTag(s, k) {
        var j := Find('>', s, k + 2);
        var m := TagMatch(k, j + 1 - k);
        assert Exec(s, k) == Some(m);
        var u := s[k..j + 1];
        assert MatchText(s, m) == u;
        InnerSlice(s, k, j + 1);
        assert '>' !in s[k + 1..j] by {
          assert forall i :: k + 1 <= i < j ==> s[i] != '>';
        }
      } else {
        ExecIsLeftmost(s, k + 1);
      }
    }
  }

  lemma InnerSlice(s: string, lo: nat, hi: nat)
    requires lo + 2 <= hi <= |s|
    ensures s[lo..hi][1..hi - lo - 1] == s[lo + 1..hi - 1]
  {
    var v, w := s[lo..hi][1..hi - lo - 1], s[lo + 1..hi - 1];
    assert |v| == |w|;
    forall i | 0 <= i < |v|
      ensures v[i] == w[i]
    {
    }
  }

  /**
   * `match[1]` for the match text `u`: what lies between '<' and '>', without
   * the '/' of a closing tag unless that '/' is all there is (the regex's
   * optional '/' gives way so that the group gets its one character).
   */
  function Group1(u: string): (r: string)
    requires |u| >= 3
  {
    if u[1] == '/' && |u| >= 4 then u[2..|u| - 1] else u[1..|u| - 1]
  }

  /** The three kinds of tag the scan tells apart. */
  datatype Tag = Open(name: string) | Close(name: string) | SelfClose(name: string)

  /** Lines 116-117: closing if '/' follows '<', otherwise self-closing if '/' precedes '>'. */
  function Classify(u: string): (t: Tag)
    requires |u| >= 3
  {
    if u[1] == '/' then Close(Group1(u))
    else if u[|u| - 2] == '/' then SelfClose(Group1(u))
    else Open(Group1(u))
  }

  /** The tags that the `while (tagRegex.exec(...))` loop visits from `lastIndex == k` on. */
  function TokensFrom(s: string, k: nat): (r: seq<Tag>)
    requires k <= |s|
    decreases |s| - k
  {
    match Exec(s, k)
    case None => []
    case Some(m) => [Classify(MatchText(s, m))] + TokensFrom(s, m.index + m.length)
  }

  function Tokens(s: string): (r: seq<Tag>)
  {
    TokensFrom(s, 0)
  }

  /** Lines 119-132: what one tag does to the stack of open tag names. */
  function Step(stack: seq<string>, t: Tag): (r: seq<string>)
  {
    match t
    case Close(n) => if |stack| > 0 && stack[|stack| - 1] == n then stack[..|stack| - 1] else stack
    case SelfClose(_) => stack
    case Open(n) => stack + [n]
  }

  function Run(stack: seq<string>, ts: seq<Tag>): seq<string>
    decreases |ts|
  {
    if ts == [] then stack else Run(Step(stack, ts[0]), ts[1..])
  }

  /** `openTags` once the scan of `s` is over. */
  function OpenTags(s: string): seq<string>
  {
    Run([], Tokens(s))
  }

  // ---------------------------------------------------------------------------
  // Step 3: closer synthesis (lines 138-141)

  function CloseTag(name: string): string
  {
    "</" + name + ">"
  }

  /** `openTags.reverse()` turned into closing tags: the last-pushed name is closed first. */
  function Closers(stack: seq<string>): (r: string)
  {
    if stack == [] then "" else Closers(stack[1..]) + CloseTag(stack[0])
  }

  /** One turn of the loop of lines 139-141: the text so far gains the closer of `stack[i]`. */
  lemma AppendCloser(t: string, stack: seq<string>, i: nat)
    requires i < |stack|
    ensures t + Closers(stack[i + 1..]) + "</" + stack[i] + ">" == t + Closers(stack[i..])
  {
    assert stack[i..][1..] == stack[i + 1..];
  }

  /** What `closeTruncatedFeed(s)` returns. */
  function Repaired(s: string): (r: string)
    ensures |TrimTrailingTag(s)| <= |r| && r[..|TrimTrailingTag(s)|] == TrimTrailingTag(s)
  {
    var t := TrimTrailingTag(s);
    t + Closers(OpenTags(t))
  }

  /** One turn of the scan loop: the next match's tag updates the stack, and the scan goes on after it. */
  lemma ScanStep(s: string, k: nat, stack: seq<string>)
    requires k <= |s| && Exec(s, k).Some?
    ensures var m := Exec(s, k).value;
      Run(stack, TokensFrom(s, k)) == Run(Step(stack, Classify(MatchText(s, m))), TokensFrom(s, m.index + m.length))
  {
    var m := Exec(s, k).value;
    var ts := TokensFrom(s, k);
    assert ts == [Classify(MatchText(s, m))] + TokensFrom(s, m.index + m.length);
    assert ts[1..] == TokensFrom(s, m.index + m.length);
  }

  /** Lines 119-132 as written, branch by branch, agree with `Step`. */
  lemma StepAsWritten(s: string, m: TagMatch, stack: seq<string>)
    requires 3 <= m.length && m.index + m.length <= |s|
    ensures var u := MatchText(s, m);
      Step(stack, Classify(u)) ==
        if s[m.index + 1] == '/' then
          (if |stack| > 0 && stack[|stack| - 1] == Group1(u) then stack[..|stack| - 1] else stack)
        else if s[m.index + m.length - 2] == '/' then stack
        else stack + [Group1(u)]
  {
    var u := MatchText(s, m);
    assert s[m.index + 1] == u[1];
    assert s[m.index + m.length - 2] == u[|u| - 2];
  }

  /**
   * Lines 113-136: the `while ((match = tagRegex.exec(result)) !== null)`
   * loop, with `openTags` as a sequence and `tagRegex.lastIndex` as `lastIndex`.
   */
  method ScanTags(result: string) returns (openTags: seq<string>)
    ensures openTags == OpenTags(result)
  {
    openTags := [];
    var lastIndex := 0;
    var found := Exec(result, lastIndex);
    while found.Some?
      invariant lastIndex <= |result|
      invariant found == Exec(result, lastIndex)
      invariant Run(openTags, TokensFrom(result, lastIndex)) == OpenTags(result)
      decreases |result| - lastIndex
    {
      var m := found.value;
      ScanStep(result, lastIndex, openTags);
      StepAsWritten(result, m, openTags);
      var tagName := Group1(result[m.index..m.index + m.length]);
      var isClosingTag := result[m.index + 1] == '/';
      var isSelfClosingTag := result[m.index + m.length - 2] == '/';
      if isClosingTag {
        if |openTags| > 0 && openTags[|openTags| - 1] == tagName {
          openTags := openTags[..|openTags| - 1];
        }
      } else if isSelfClosingTag {
      } else {
        openTags := openTags + [tagName];
      }
      lastIndex := m.index + m.length;
      found := Exec(result, lastIndex);
    }
  }

  /** `closeTruncatedFeed(feedData)`: trim, scan, then append the closers (lines 139-141). */
  method CloseTruncatedFeed(feedData: string) returns (result: string)
    ensures result == Repaired(feedData)
  {
    result := TrimTrailingTag(feedData);
    var openTags := ScanTags(result);
    ghost var scanned := result;
    var i := |openTags|;
    while i > 0
      invariant 0 <= i <= |openTags|
      invariant result == scanned + Closers(openTags[i..])
    {
      i := i - 1;
      AppendCloser(scanned, openTags, i);
      result := result + "</" + openTags[i] + ">";
    }
    assert openTags[0..] == openTags;
  }
}
