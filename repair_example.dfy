/**
 * A worked example of `closeTruncatedFeed` (static/feeder.js:100-145): a feed
 * cut off inside the title of its second item loses the unfinished title,
 * and the three tags still open are closed innermost first.
 */
module RepairExample {
  import opened Wrappers
  import opened Repair
  import opened RepairProperties

  /** A text that ends with '>' leaves no tag open-ended. */
  lemma EndsWithGt(a: string)
    requires |a| >= 1 && a[|a| - 1] == '>'
    ensures Terminated(a)
  {
    var p := LastIndexOf(a, '<');
    if p >= 0 {
      assert p < |a| - 1;
      var j := Find('>', a, p + 1);
      assert j <= |a| - 1;
    }
  }

  /** A text without '<' holds no tag. */
  lemma PlainText(x: string)
    requires '<' !in x
    ensures Terminated(x) && Tokens(x) == []
  {
    ExecIsLeftmost(x, 0);
    assert LastIndexOf(x, '<') < 0;
  }

  /** An opening tag `<n>` scans as one opener of `n`. */
  lemma OpenTagTokens(n: string)
    requires IsTagName(n) && n[0] != '/' && n[|n| - 1] != '/'
    ensures Terminated("<" + n + ">") && Tokens("<" + n + ">") == [Open(n)]
  {
    var c := "<" + n + ">";
    EndsWithGt(c);
    assert forall m :: 1 <= m < |n| + 1 ==> c[m] != '>' by {
      forall m | 1 <= m < |n| + 1 ensures c[m] != '>' {
        assert c[m] == n[m - 1];
      }
    }
    FindGtAt(c, 2, |n| + 1);
    assert StartsTag(c, 0);
    assert Exec(c, 0) == Some(TagMatch(0, |n| + 2));
    assert MatchText(c, TagMatch(0, |n| + 2)) == c;
    assert c[1..|c| - 1] == n;
    assert Classify(c) == Open(n);
    assert TokensFrom(c, |n| + 2) == [];
  }

  /** A closing tag `</n>` scans as one closer of `n` and leaves no tag open-ended. */
  lemma CloseTagPiece(n: string)
    requires IsTagName(n)
    ensures Terminated(CloseTag(n)) && Tokens(CloseTag(n)) == [Close(n)]
  {
    EndsWithGt(CloseTag(n));
    CloseTagTokens(n);
  }

  function OpenText(n: string): string
  {
    "<" + n + ">"
  }

  /** A name that `<n>` pushes as it is, and that cannot be mistaken for the start of another tag. */
  predicate OpenName(n: string)
  {
    IsTagName(n) && n[0] != '/' && n[|n| - 1] != '/' && '<' !in n
  }

  /**
   * The shape of the example's kept part: a channel `a` holding `b`, a
   * finished item `c` with a field `d` of text `x`, and the start of a second
   * item `c`.
   */
  function KeptPrefix(a: string, b: string, c: string, d: string, x: string): string
  {
    OpenText(a) + (OpenText(b) + (OpenText(c) + (OpenText(d) + (x + (CloseTag(d) + (CloseTag(c) + OpenText(c)))))))
  }

  lemma ScanKept(a: string, b: string, c: string, d: string, x: string)
    requires OpenName(a) && OpenName(b) && OpenName(c) && OpenName(d) && '<' !in x
    ensures Tokens(KeptPrefix(a, b, c, d, x)) == [Open(a), Open(b), Open(c), Open(d), Close(d), Close(c), Open(c)]
  {
    OpenTagTokens(a);
    OpenTagTokens(b);
    OpenTagTokens(c);
    OpenTagTokens(d);
    PlainText(x);
    CloseTagPiece(d);
    CloseTagPiece(c);
    var t6 := CloseTag(c) + OpenText(c);
    var t5 := CloseTag(d) + t6;
    var t4 := x + t5;
    var t3 := OpenText(d) + t4;
    var t2 := OpenText(c) + t3;
    var t1 := OpenText(b) + t2;
    TokensAppend(CloseTag(c), OpenText(c));
    TokensAppend(CloseTag(d), t6);
    TokensAppend(x, t5);
    TokensAppend(OpenText(d), t4);
    TokensAppend(OpenText(c), t3);
    TokensAppend(OpenText(b), t2);
    TokensAppend(OpenText(a), t1);
    SevenTags(Open(a), Open(b), Open(c), Open(d), Close(d), Close(c), Open(c));
  }

  lemma SevenTags(p: Tag, q: Tag, r: Tag, s: Tag, t: Tag, u: Tag, v: Tag)
    ensures [p] + ([q] + ([r] + ([s] + ([] + ([t] + ([u] + [v])))))) == [p, q, r, s, t, u, v]
  {
  }

  lemma RunCons(stack: seq<string>, t: Tag, ts: seq<Tag>)
    ensures Run(stack, [t] + ts) == Run(Step(stack, t), ts)
  {
    assert ([t] + ts)[1..] == ts;
  }

  /** The stack after the kept part: the second item `c` is still open inside `b` inside `a`. */
  lemma KeptStack(a: string, b: string, c: string, d: string)
    ensures Run([], [Open(a), Open(b), Open(c), Open(d), Close(d), Close(c), Open(c)]) == [a, b, c]
  {
    assert Step([a, b], Open(c)) == [a, b, c];
    assert Step([a, b, c], Close(c)) == [a, b];
    assert Step([a, b, c, d], Close(d)) == [a, b, c];
    assert Step([a, b, c], Open(d)) == [a, b, c, d];
    assert Step([a], Open(b)) == [a, b];
    assert Step([], Open(a)) == [a];
    RunCons([a, b], Open(c), []);
    RunCons([a, b, c], Close(c), [Open(c)]);
    RunCons([a, b, c, d], Close(d), [Close(c), Open(c)]);
    RunCons([a, b, c], Open(d), [Close(d), Close(c), Open(c)]);
    RunCons([a, b], Open(c), [Open(d), Close(d), Close(c), Open(c)]);
    RunCons([a], Open(b), [Open(c), Open(d), Close(d), Close(c), Open(c)]);
    RunCons([], Open(a), [Open(b), Open(c), Open(d), Close(d), Close(c), Open(c)]);
  }

  /** The trim cuts at the last '<', the start of the unfinished `<d>y`. */
  lemma TrimCutsField(k: string, d: string, y: string)
    requires OpenName(d) && '<' !in y
    ensures TrimTrailingTag(k + (OpenText(d) + y)) == k
  {
    var tail := OpenText(d) + y;
    var s := k + tail;
    assert forall j :: 1 <= j < |tail| ==> tail[j] != '<' by {
      forall j | 1 <= j < |tail| ensures tail[j] != '<' {
        if j <= |d| {
          assert tail[j] == d[j - 1];
        } else if j > |d| + 1 {
          assert tail[j] == y[j - |d| - 2];
        }
      }
    }
    assert forall i :: |k| < i < |s| ==> s[i] != '<' by {
      forall i | |k| < i < |s| ensures s[i] != '<' {
        assert s[i] == tail[i - |k|];
      }
    }
    assert s[|k| + |d| + 1] == '>';
    assert '>' in s[|k| + 1..];
    assert TrailingTagAt(s, |k|);
    TrimRule(s);
    assert s[..|k|] == k;
  }

  /** Three closers, innermost first. */
  lemma ThreeClosers(a: string, b: string, c: string)
    ensures Closers([a, b, c]) == CloseTag(c) + CloseTag(b) + CloseTag(a)
  {
    var st := [a, b, c];
    assert st[1..] == [b, c] && st[1..][1..] == [c] && st[1..][1..][1..] == [];
    assert Closers([c]) == CloseTag(c) by {
      assert "" + CloseTag(c) == CloseTag(c);
    }
  }

  /**
   * The example for any names of its shape: the unfinished field is dropped
   * and `c`, `b` and `a` are closed in that order.
   */
  lemma RepairsExample(a: string, b: string, c: string, d: string, x: string, y: string)
    requires OpenName(a) && OpenName(b) && OpenName(c) && OpenName(d) && '<' !in x && '<' !in y
    ensures Repaired(KeptPrefix(a, b, c, d, x) + (OpenText(d) + y)) ==
      KeptPrefix(a, b, c, d, x) + (CloseTag(c) + CloseTag(b) + CloseTag(a))
  {
    var k := KeptPrefix(a, b, c, d, x);
    TrimCutsField(k, d, y);
    ScanKept(a, b, c, d, x);
    KeptStack(a, b, c, d);
    ThreeClosers(a, b, c);
  }

  /**
   * Group 1 runs up to the closing '>', so the attributes of an opener are
   * part of the name it pushes, and a closer of the bare name does not pop it:
   * `<n a>` followed by `</n>` leaves `n a` open.
   */
  lemma AttributesStayInName(stack: seq<string>, n: string, a: string)
    requires |n| >= 1 && n[0] != '/' && (a == [] || a[|a| - 1] != '/')
    ensures Classify("<" + n + " " + a + ">") == Open(n + " " + a)
    ensures Step(Step(stack, Classify("<" + n + " " + a + ">")), Classify(CloseTag(n))) == stack + [n + " " + a]
  {
    var u := "<" + n + " " + a + ">";
    assert u[1] == n[0];
    assert u[|u| - 2] == if a == [] then ' ' else a[|a| - 1];
    assert u[1..|u| - 1] == n + " " + a;
    var c := CloseTag(n);
    assert c[1] == '/' && c[2..|c| - 1] == n;
  }

  /** A processing instruction such as `<?xml …?>` is neither a closer nor self-closing, so it is pushed as an opener. */
  lemma InstructionPushed(stack: seq<string>, x: string)
    ensures Classify("<?" + x + "?>") == Open("?" + x + "?")
    ensures Step(stack, Classify("<?" + x + "?>")) == stack + ["?" + x + "?"]
  {
    var u := "<?" + x + "?>";
    assert u[1] == '?' && u[|u| - 2] == '?';
    assert u[1..|u| - 1] == "?" + x + "?";
  }

  /** A comment `<!--x-->` ends in "-->", not "/>", so it is pushed as an opener too. */
  lemma CommentPushed(stack: seq<string>, x: string)
    ensures Classify("<!--" + x + "-->") == Open("!--" + x + "--")
    ensures Step(stack, Classify("<!--" + x + "-->")) == stack + ["!--" + x + "--"]
  {
    var u := "<!--" + x + "-->";
    assert u[1] == '!' && u[|u| - 2] == '-';
    assert u[1..|u| - 1] == "!--" + x + "--";
  }

  /**
   * `<rss><channel><item><title>A</title></item><item><title>B` is repaired to
   * `<rss><channel><item><title>A</title></item><item></item></channel></rss>`.
   */
  lemma WorkedExample()
    ensures Repaired(KeptPrefix("rss", "channel", "item", "title", "A") + (OpenText("title") + "B")) ==
      KeptPrefix("rss", "channel", "item", "title", "A") + (CloseTag("item") + CloseTag("channel") + CloseTag("rss"))
  {
    RepairsExample("rss", "channel", "item", "title", "A", "B");
  }
}
