/**
 * What `closeTruncatedFeed` (static/feeder.js:100-145) guarantees about its
 * output: the shape of the result, the stack discipline, the number and order
 * of the synthesized closers, and when the repaired text is balanced.
 */
module RepairProperties {
  import opened Wrappers
  import opened Repair

  // ---------------------------------------------------------------------------
  // Output shape

  /** The result is a prefix of the input followed by the closers for that prefix; nothing kept is altered. */
  lemma RepairedShape(s: string)
    ensures var k := |TrimTrailingTag(s)|;
      k <= |s| && Repaired(s) == s[..k] + Closers(OpenTags(s[..k]))
  {
  }

  // ---------------------------------------------------------------------------
  // Stack discipline

  lemma {:induction false} RunAppend(stack: seq<string>, xs: seq<Tag>, ys: seq<Tag>)
    ensures Run(stack, xs + ys) == Run(Run(stack, xs), ys)
    decreases |xs|
  {
    if xs == [] {
      assert xs + ys == ys;
    } else {
      assert (xs + ys)[1..] == xs[1..] + ys;
      RunAppend(Step(stack, xs[0]), xs[1..], ys);
    }
  }

  /**
   * Properly nested tag sequences, as a grammar: empty, a self-closing tag
   * followed by a nested sequence, or an opening tag, a nested sequence, the
   * closing tag with the same name, and a nested sequence.
   */
  ghost predicate WellNested(ts: seq<Tag>)
    decreases |ts|
  {
    || ts == []
    || (ts[0].SelfClose? && WellNested(ts[1..]))
    || (ts[0].Open? &&
        exists k :: 1 <= k < |ts| && ts[k] == Close(ts[0].name) && WellNested(ts[1..k]) && WellNested(ts[k + 1..]))
  }

  /** A properly nested sequence of tags leaves the stack as it found it. */
  lemma {:induction false} WellNestedRun(stack: seq<string>, ts: seq<Tag>)
    requires WellNested(ts)
    ensures Run(stack, ts) == stack
    decreases |ts|
  {
    if ts == [] {
    } else if ts[0].SelfClose? && WellNested(ts[1..]) {
      WellNestedRun(stack, ts[1..]);
    } else {
      var n := ts[0].name;
      var k :| 1 <= k < |ts| && ts[k] == Close(n) && WellNested(ts[1..k]) && WellNested(ts[k + 1..]);
      WellNestedRun(stack + [n], ts[1..k]);
      WellNestedRun(stack, ts[k + 1..]);
      RunBlock(stack, ts, k);
    }
  }

  /** An opening tag, a part that restores the stack, and the matching closing tag cancel out. */
  lemma RunBlock(stack: seq<string>, ts: seq<Tag>, k: nat)
    requires 1 <= k < |ts| && ts[0].Open? && ts[k] == Close(ts[0].name)
    requires Run(stack + [ts[0].name], ts[1..k]) == stack + [ts[0].name]
    ensures Run(stack, ts) == Run(stack, ts[k + 1..])
  {
    var n := ts[0].name;
    assert ts == [ts[0]] + (ts[1..k] + ([ts[k]] + ts[k + 1..]));
    RunAppend(stack, [ts[0]], ts[1..k] + ([ts[k]] + ts[k + 1..]));
    RunAppend(stack + [n], ts[1..k], [ts[k]] + ts[k + 1..]);
    RunAppend(stack + [n], [ts[k]], ts[k + 1..]);
    assert Run(stack + [n], [Close(n)]) == stack;
  }

  /** If the scan of the trimmed text is properly nested, nothing is appended. */
  lemma BalancedAppendsNothing(s: string)
    requires WellNested(Tokens(TrimTrailingTag(s)))
    ensures Repaired(s) == TrimTrailingTag(s)
  {
    WellNestedRun([], Tokens(TrimTrailingTag(s)));
  }

  /** A name the scan can push: never empty, never holding '>'. */
  predicate IsTagName(n: string)
  {
    |n| >= 1 && '>' !in n
  }

  lemma {:induction false} TokensFromOpenNames(s: string, k: nat)
    requires k <= |s|
    ensures forall i :: 0 <= i < |TokensFrom(s, k)| && TokensFrom(s, k)[i].Open? ==> IsTagName(TokensFrom(s, k)[i].name)
    decreases |s| - k
  {
    ExecIsLeftmost(s, k);
    match Exec(s, k)
    case None =>
    case Some(m) =>
      TokensFromOpenNames(s, m.index + m.length);
      var u := MatchText(s, m);
      var rest := TokensFrom(s, m.index + m.length);
      assert TokensFrom(s, k) == [Classify(u)] + rest;
      ClassifyName(u);
      NamesCons(Classify(u), rest);
  }

  /** The name a tag text pushes is a tag name. */
  lemma ClassifyName(u: string)
    requires IsTagText(u)
    ensures Classify(u).Open? ==> IsTagName(Classify(u).name)
  {
    if Classify(u).Open? {
      assert Classify(u).name == u[1..|u| - 1];
    }
  }

  lemma NamesCons(t: Tag, rest: seq<Tag>)
    requires t.Open? ==> IsTagName(t.name)
    requires forall i :: 0 <= i < |rest| && rest[i].Open? ==> IsTagName(rest[i].name)
    ensures forall i :: 0 <= i < |[t] + rest| && ([t] + rest)[i].Open? ==> IsTagName(([t] + rest)[i].name)
  {
    forall i | 0 <= i < |[t] + rest| && ([t] + rest)[i].Open?
      ensures IsTagName(([t] + rest)[i].name)
    {
      if i > 0 {
        assert ([t] + rest)[i] == rest[i - 1];
      }
    }
  }

  lemma {:induction false} RunKeepsNames(stack: seq<string>, ts: seq<Tag>)
    requires forall i :: 0 <= i < |stack| ==> IsTagName(stack[i])
    requires forall i :: 0 <= i < |ts| && ts[i].Open? ==> IsTagName(ts[i].name)
    ensures forall i :: 0 <= i < |Run(stack, ts)| ==> IsTagName(Run(stack, ts)[i])
    decreases |ts|
  {
    if ts != [] {
      var next := Step(stack, ts[0]);
      assert forall i :: 0 <= i < |next| ==> IsTagName(next[i]);
      assert forall i :: 0 <= i < |ts[1..]| && ts[1..][i].Open? ==> IsTagName(ts[1..][i].name) by {
        forall i | 0 <= i < |ts[1..]| && ts[1..][i].Open? ensures IsTagName(ts[1..][i].name) {
          assert ts[1..][i] == ts[i + 1];
        }
      }
      RunKeepsNames(next, ts[1..]);
    }
  }

  /** Every name left open is the full text of an opening tag: non-empty and free of '>'. */
  lemma OpenTagsAreNames(s: string)
    ensures forall i :: 0 <= i < |OpenTags(s)| ==> IsTagName(OpenTags(s)[i])
  {
    TokensFromOpenNames(s, 0);
    RunKeepsNames([], Tokens(s));
  }

  // ---------------------------------------------------------------------------
  // Re-scanning text: tokens of a concatenation

  /**
   * The last '<' of `a`, if any, is followed by a '>' inside `a`; then so is
   * every '<' of `a`, and no tag of `a` can run past its end.
   */
  predicate Terminated(a: string)
  {
    var p := LastIndexOf(a, '<');
    p < 0 || Find('>', a, p + 1) < |a|
  }

  /** `Find('>', ...)` stops at the first '>'. */
  lemma {:induction false} FindGtAt(s: string, k: nat, j: nat)
    requires k <= j < |s| && s[j] == '>'
    requires forall m :: k <= m < j ==> s[m] != '>'
    ensures Find('>', s, k) == j
    decreases j - k
  {
    if k < j {
      FindGtAt(s, k + 1, j);
    }
  }

  function Shift(m: Option<TagMatch>, d: nat): Option<TagMatch>
  {
    match m
    case None => None
    case Some(t) => Some(TagMatch(d + t.index, t.length))
  }

  lemma {:induction false} FindGtShift(a: string, b: string, k: nat)
    requires k <= |b|
    ensures Find('>', a + b, |a| + k) == |a| + Find('>', b, k)
    decreases |b| - k
  {
    if k < |b| {
      assert (a + b)[|a| + k] == b[k];
      FindGtShift(a, b, k + 1);
    }
  }

  lemma StartsTagShift(a: string, b: string, i: nat)
    ensures StartsTag(a + b, |a| + i) <==> StartsTag(b, i)
  {
    if i + 1 < |b| {
      assert (a + b)[|a| + i] == b[i] && (a + b)[|a| + i + 1] == b[i + 1];
      FindGtShift(a, b, i + 2);
    }
  }

  lemma {:induction false} ExecShift(a: string, b: string, k: nat)
    requires k <= |b|
    ensures Exec(a + b, |a| + k) == Shift(Exec(b, k), |a|)
    decreases |b| - k
  {
    StartsTagShift(a, b, k);
    if k < |b| {
      if StartsTag(b, k) {
        FindGtShift(a, b, k + 2);
      } else {
        ExecShift(a, b, k + 1);
      }
    }
  }

  lemma {:induction false} TokensFromShift(a: string, b: string, k: nat)
    requires k <= |b|
    ensures TokensFrom(a + b, |a| + k) == TokensFrom(b, k)
    decreases |b| - k
  {
    ExecShift(a, b, k);
    match Exec(b, k)
    case None =>
    case Some(m) =>
      TokensFromShift(a, b, m.index + m.length);
      ShiftedText(a, b, m);
      TokensFromSame(a + b, |a| + k, TagMatch(|a| + m.index, m.length), b, k, m);
  }

  /** Two scans whose next matches have the same text, and whose rests agree, agree. */
  lemma TokensFromSame(s: string, i: nat, m: TagMatch, t: string, j: nat, n: TagMatch)
    requires i <= |s| && j <= |t| && Exec(s, i) == Some(m) && Exec(t, j) == Some(n)
    requires MatchText(s, m) == MatchText(t, n)
    requires TokensFrom(s, m.index + m.length) == TokensFrom(t, n.index + n.length)
    ensures TokensFrom(s, i) == TokensFrom(t, j)
  {
  }

  lemma ShiftedText(a: string, b: string, m: TagMatch)
    requires m.index + m.length <= |b|
    ensures MatchText(a + b, TagMatch(|a| + m.index, m.length)) == MatchText(b, m)
  {
    SliceShift(a, b, m.index, m.index + m.length);
  }

  lemma SliceShift(a: string, b: string, i: nat, j: nat)
    requires i <= j <= |b|
    ensures (a + b)[|a| + i..|a| + j] == b[i..j]
  {
    var v, w := (a + b)[|a| + i..|a| + j], b[i..j];
    assert |v| == |w|;
    forall n | 0 <= n < |v|
      ensures v[n] == w[n]
    {
    }
  }

  lemma StartsTagPrefix(a: string, b: string, i: nat)
    requires Terminated(a) && i < |a|
    ensures StartsTag(a + b, i) <==> StartsTag(a, i)
  {
    assert (a + b)[i] == a[i];
    if a[i] == '<' {
      var p := LastIndexOf(a, '<');
      assert i <= p && Find('>', a, p + 1) < |a|;
      assert Find('>', a, i + 1) <= Find('>', a, p + 1);
      assert (a + b)[i + 1] == a[i + 1];
      if a[i + 1] != '>' {
        assert Find('>', a, i + 1) == Find('>', a, i + 2);
        FindGtPrefix(a, b, i + 2);
      }
    }
  }

  lemma {:induction false} FindGtPrefix(a: string, b: string, k: nat)
    requires k <= |a| && Find('>', a, k) < |a|
    ensures Find('>', a + b, k) == Find('>', a, k)
    decreases |a| - k
  {
    assert (a + b)[k] == a[k];
    if a[k] != '>' {
      FindGtPrefix(a, b, k + 1);
    }
  }

  /** A scan position that lies inside a terminated `a` finds the same match in `a + b`, or goes on into `b`. */
  lemma {:induction false} ExecPrefix(a: string, b: string, k: nat)
    requires Terminated(a) && k <= |a|
    ensures Exec(a, k).Some? ==> Exec(a + b, k) == Exec(a, k)
    ensures Exec(a, k).None? ==> Exec(a + b, k) == Exec(a + b, |a|)
    decreases |a| - k
  {
    if k < |a| {
      StartsTagPrefix(a, b, k);
      if StartsTag(a, k) {
        FindGtPrefix(a, b, k + 2);
      } else {
        ExecPrefix(a, b, k + 1);
      }
    }
  }

  lemma {:induction false} TokensFromPrefix(a: string, b: string, k: nat)
    requires Terminated(a) && k <= |a|
    ensures TokensFrom(a + b, k) == TokensFrom(a, k) + Tokens(b)
    decreases |a| - k
  {
    ExecPrefix(a, b, k);
    match Exec(a, k)
    case None =>
      TokensFromPrefixDone(a, b, k);
    case Some(m) =>
      TokensFromPrefix(a, b, m.index + m.length);
      TokensFromPrefixNext(a, b, k);
  }

  /** A match that lies inside `a` gives the same tag in `a + b`, and the scans go on from the same place. */
  lemma TokensFromPrefixNext(a: string, b: string, k: nat)
    requires k <= |a| && Exec(a, k).Some? && Exec(a + b, k) == Exec(a, k)
    requires var m := Exec(a, k).value;
      TokensFrom(a + b, m.index + m.length) == TokensFrom(a, m.index + m.length) + Tokens(b)
    ensures TokensFrom(a + b, k) == TokensFrom(a, k) + Tokens(b)
  {
    var m := Exec(a, k).value;
    var e := m.index + m.length;
    ScanCons(a + b, k, m);
    ScanCons(a, k, m);
    PrefixText(a, b, m);
    ConsAssoc(Classify(MatchText(a, m)), TokensFrom(a, e), Tokens(b));
  }

  /** The scan from `k` is the tag of the next match followed by the scan after it. */
  lemma ScanCons(s: string, k: nat, m: TagMatch)
    requires k <= |s| && Exec(s, k) == Some(m)
    ensures TokensFrom(s, k) == [Classify(MatchText(s, m))] + TokensFrom(s, m.index + m.length)
  {
  }

  lemma PrefixText(a: string, b: string, m: TagMatch)
    requires m.index + m.length <= |a|
    ensures MatchText(a + b, m) == MatchText(a, m)
  {
    var v, w := MatchText(a + b, m), MatchText(a, m);
    assert |v| == |w|;
    forall n | 0 <= n < |v|
      ensures v[n] == w[n]
    {
    }
  }

  lemma ConsAssoc(x: Tag, p: seq<Tag>, q: seq<Tag>)
    ensures [x] + (p + q) == ([x] + p) + q
  {
  }

  /** Once no match of `a` is left, the scan of `a + b` carries on as the scan of `b`. */
  lemma TokensFromPrefixDone(a: string, b: string, k: nat)
    requires k <= |a| && Exec(a, k).None? && Exec(a + b, k) == Exec(a + b, |a|)
    ensures TokensFrom(a + b, k) == TokensFrom(a, k) + Tokens(b)
  {
    TokensFromShift(a, b, 0);
    SameScan(a + b, k, |a|);
    assert TokensFrom(a, k) == [];
  }

  /** Scans that find the same next match produce the same tags. */
  lemma SameScan(s: string, i: nat, j: nat)
    requires i <= |s| && j <= |s| && Exec(s, i) == Exec(s, j)
    ensures TokensFrom(s, i) == TokensFrom(s, j)
  {
  }

  /** The scan of `a + b` is the scan of `a` then the scan of `b`, provided no tag of `a` is left open-ended. */
  lemma TokensAppend(a: string, b: string)
    requires Terminated(a)
    ensures Tokens(a + b) == Tokens(a) + Tokens(b)
  {
    TokensFromPrefix(a, b, 0);
  }

  // ---------------------------------------------------------------------------
  // Closer count and order

  /** One `Close` per stack entry, last-pushed first. */
  function CloseAll(stack: seq<string>): (ts: seq<Tag>)
    ensures |ts| == |stack|
    ensures forall i :: 0 <= i < |stack| ==> ts[i] == Close(stack[|stack| - 1 - i])
  {
    if stack == [] then [] else CloseAll(stack[1..]) + [Close(stack[0])]
  }

  lemma CloseTagTokens(n: string)
    requires IsTagName(n)
    ensures Tokens(CloseTag(n)) == [Close(n)]
  {
    var c := CloseTag(n);
    assert forall m :: 2 <= m < |n| + 2 ==> c[m] != '>' by {
      forall m | 2 <= m < |n| + 2 ensures c[m] != '>' {
        assert c[m] == n[m - 2];
      }
    }
    FindGtAt(c, 2, |n| + 2);
    assert StartsTag(c, 0);
    assert Exec(c, 0) == Some(TagMatch(0, |c|));
    assert MatchText(c, TagMatch(0, |c|)) == c;
    assert c[2..|c| - 1] == n;
    assert Classify(c) == Close(n);
    assert TokensFrom(c, |c|) == [];
    assert Exec(c, 0) == Some(TagMatch(0, |n| + 3));
    assert c[2..|n| + 2] == n;
    assert TokensFrom(c, |c|) == [];
  }

  lemma ClosersTerminated(stack: seq<string>)
    ensures Terminated(Closers(stack))
  {
    if stack != [] {
      var c := Closers(stack);
      assert c[|c| - 1] == '>';
      var p := LastIndexOf(c, '<');
      assert p < |c| - 1;
    }
  }

  /** Re-scanning the synthesized closers gives exactly one `Close` per stack entry, innermost first. */
  lemma {:induction false} ClosersScan(stack: seq<string>)
    requires forall i :: 0 <= i < |stack| ==> IsTagName(stack[i])
    ensures Tokens(Closers(stack)) == CloseAll(stack)
    decreases |stack|
  {
    if stack != [] {
      ClosersTerminated(stack[1..]);
      TokensAppend(Closers(stack[1..]), CloseTag(stack[0]));
      CloseTagTokens(stack[0]);
      assert forall i :: 0 <= i < |stack[1..]| ==> IsTagName(stack[1..][i]) by {
        forall i | 0 <= i < |stack[1..]| ensures IsTagName(stack[1..][i]) {
          assert stack[1..][i] == stack[i + 1];
        }
      }
      ClosersScan(stack[1..]);
    } else {
      assert Exec("", 0) == None;
    }
  }

  /** The closers close what is open: each pops the current top of the stack. */
  lemma {:induction false} RunCloseAll(prefix: seq<string>, rest: seq<string>)
    ensures Run(prefix + rest, CloseAll(rest)) == prefix
    decreases |rest|
  {
    if rest != [] {
      var r0 := rest[0];
      assert prefix + rest == (prefix + [r0]) + rest[1..];
      RunCloseAll(prefix + [r0], rest[1..]);
      RunAppend(prefix + rest, CloseAll(rest[1..]), [Close(r0)]);
      assert Run(prefix + [r0], [Close(r0)]) == prefix;
    }
  }

  /** Appending the closers for a text that leaves no tag open-ended balances it. */
  lemma ClosingBalances(t: string)
    requires Terminated(t)
    ensures Run([], Tokens(t + Closers(OpenTags(t)))) == []
  {
    var open := OpenTags(t);
    TokensAppend(t, Closers(open));
    OpenTagsAreNames(t);
    ClosersScan(open);
    RunAppend([], Tokens(t), CloseAll(open));
    RunCloseAll([], open);
    assert [] + open == open;
  }

  /**
   * When the trimmed text leaves no tag open-ended, scanning the repaired
   * output ends with an empty stack: the closers balance every open tag.
   */
  lemma RepairedIsBalanced(s: string)
    requires Terminated(TrimTrailingTag(s))
    ensures Run([], Tokens(Repaired(s))) == []
  {
    ClosingBalances(TrimTrailingTag(s));
  }

  // ---------------------------------------------------------------------------
  // The building blocks of the scan

  /** tagRegex can start at `i` exactly when a '<' is followed by a character other than '>' and, somewhere later, a '>'. */
  lemma StartsTagRule(s: string, i: nat)
    ensures StartsTag(s, i) <==> i + 1 < |s| && s[i] == '<' && s[i + 1] != '>' && '>' in s[i + 2..]
  {
    if i + 1 < |s| {
      var j := Find('>', s, i + 2);
      if j < |s| {
        assert s[i + 2..][j - (i + 2)] == '>';
      }
      if '>' in s[i + 2..] {
        var m :| 0 <= m < |s[i + 2..]| && s[i + 2..][m] == '>';
        assert s[i + 2 + m] == '>';
      }
    }
  }

  /**
   * Lines 115-117: group 1 is the match without its angle brackets and without
   * the '/' of a closer; a match is a closer exactly when its second character
   * is '/', and self-closing exactly when it is not a closer and ends in "/>".
   */
  lemma ClassifyKinds(u: string)
    requires |u| >= 3
    ensures (if u[1] == '/' && |u| >= 4 then "/" + Group1(u) else Group1(u)) == u[1..|u| - 1]
    ensures Classify(u).name == Group1(u)
    ensures Classify(u).Close? <==> u[1] == '/'
    ensures Classify(u).SelfClose? <==> u[1] != '/' && u[|u| - 2] == '/'
  {
    if u[1] == '/' && |u| >= 4 {
      assert "/" + u[2..|u| - 1] == u[1..|u| - 1];
    }
  }

  /**
   * Lines 119-132: one tag either leaves the stack alone, pushes its own name,
   * or, when it is a closer, pops its own name off the top; only an opener
   * pushes.
   */
  lemma StepCases(stack: seq<string>, t: Tag)
    ensures t.SelfClose? ==> Step(stack, t) == stack
    ensures var r := Step(stack, t);
      r == stack || r == stack + [t.name] || (t.Close? && r + [t.name] == stack)
    ensures Step(stack, t) == stack + [t.name] <==> t.Open?
  {
    if t.Close? && |stack| > 0 && stack[|stack| - 1] == t.name {
      assert stack[..|stack| - 1] + [t.name] == stack;
    }
  }

  /** Every match is at least three characters long, so a text of length `n` holds at most `n / 3` tags. */
  lemma {:induction false} TokensBound(s: string, k: nat)
    requires k <= |s|
    ensures 3 * |TokensFrom(s, k)| <= |s| - k
    decreases |s| - k
  {
    match Exec(s, k)
    case None =>
    case Some(m) =>
      TokensBound(s, m.index + m.length);
  }

  /**
   * Lines 139-141: there is one closer per open tag, so the closers are empty
   * exactly for an empty stack; the last-pushed tag is closed first and the
   * first-pushed tag last.
   */
  lemma {:induction false} ClosersEnds(stack: seq<string>)
    ensures Closers(stack) == "" <==> stack == []
    ensures stack != [] ==> var c := CloseTag(stack[0]);
      |c| <= |Closers(stack)| && Closers(stack)[|Closers(stack)| - |c|..] == c
    ensures stack != [] ==> var c := CloseTag(stack[|stack| - 1]);
      |c| <= |Closers(stack)| && Closers(stack)[..|c|] == c
    decreases |stack|
  {
    if stack != [] {
      var rest := stack[1..];
      ClosersEnds(rest);
      assert Closers(stack) == Closers(rest) + CloseTag(stack[0]);
      if rest != [] {
        assert rest[|rest| - 1] == stack[|stack| - 1];
        var c := CloseTag(stack[|stack| - 1]);
        assert (Closers(rest) + CloseTag(stack[0]))[..|c|] == Closers(rest)[..|c|];
      } else {
        assert Closers(rest) == "";
        assert Closers(stack) == CloseTag(stack[0]);
      }
    }
  }
}
