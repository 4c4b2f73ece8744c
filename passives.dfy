/**
 * The small-passive block of a cluster jewel: the lines
 * `Added Small Passive Skills grant: <text>` the cluster pattern captures, and the
 * canonical form `get_clusters_from_xml` stores, the texts joined by `", "`.
 */
module SmallPassives {
  import opened Text
  import opened Regex

  /** The prefix of every small-passive line. The `:` at index 32 is its only colon. */
  const Grant: string := "Added Small Passive Skills grant: "

  /** `[\w% \d]`: the characters of a small passive's text. */
  const PassiveChars: seq<ClassItem> := [Word, Char('%'), Char(' '), Digit]

  /** `p[\w% \d]+\n` for the literal prefix `p`. */
  function LineOf(p: string): Re
  {
    Cat(Lit(p), Cat(Plus(Class(PassiveChars)), Lit("\n")))
  }

  /** `Added Small Passive Skills grant: [\w% \d]+\n` */
  const GrantLine: Re := LineOf(Grant)

  /** `group.strip().replace('\n', ', ').replace('Added Small Passive Skills grant: ', '')` */
  function Canonical(block: string): string
  {
    ReplaceAll(ReplaceAll(Strip(block), "\n", ", "), Grant, "")
  }

  /** The text of a small passive. */
  predicate PassiveText(x: string)
  {
    x != [] && AllIn(PassiveChars, x)
  }

  /** One line `p + x + end` per text `x` of `xs`. */
  function Lines(p: string, xs: seq<string>, end: string): string
    decreases |xs|
  {
    if xs == [] then [] else p + (xs[0] + (end + Lines(p, xs[1..], end)))
  }

  /** The block made of one small-passive line per text in `xs`. */
  function Block(xs: seq<string>): string
  {
    Lines(Grant, xs, "\n")
  }

  lemma PassiveCharFacts(c: char)
    requires InClass(PassiveChars, c)
    ensures c != ':' && c != '\n' && (IsSpace(c) ==> c == ' ')
  {
    var r1 := PassiveChars[1..];
    var r2 := r1[1..];
    assert r1 == [Char('%'), Char(' '), Digit];
    assert r2 == [Char(' '), Digit];
    assert r2[1..] == [Digit];
    assert InClass(PassiveChars, c) <==> IsWordChar(c) || InClass(r1, c);
    assert InClass(r1, c) <==> c == '%' || InClass(r2, c);
    assert InClass(r2, c) <==> c == ' ' || InClass(r2[1..], c);
    InClassOne(Digit, c);
    if IsWordChar(c) {
      WordCharIsNotSpace(c);
    }
  }

  predicate NoColon(w: string)
  {
    forall k :: 0 <= k < |w| ==> w[k] != ':'
  }

  predicate NoNewline(w: string)
  {
    forall k :: 0 <= k < |w| ==> w[k] != '\n'
  }

  lemma PassiveTextFacts(x: string)
    requires AllIn(PassiveChars, x)
    ensures NoColon(x) && NoNewline(x)
  {
    forall k | 0 <= k < |x| ensures x[k] != ':' && x[k] != '\n' {
      PassiveCharFacts(x[k]);
    }
  }

  // ---------------------------------------------------------------------------
  // What the captured block looks like
  // ---------------------------------------------------------------------------

  /** A string of `Cat(Lit(p), b)` starts with `p`, and `b` describes the rest. */
  lemma LitFirst(p: string, b: Re, w: string)
    requires InLang(Cat(Lit(p), b), w)
    ensures |p| <= |w| && w[..|p|] == p && InLang(b, w[|p|..])
  {
    var k := CatSplit(Lit(p), b, w);
  }

  lemma RunThenNewline(items: seq<ClassItem>, v: string, j: nat)
    requires j <= |v| && InLang(Plus(Class(items)), v[..j]) && InLang(Lit("\n"), v[j..])
    ensures |v| >= 2 && v[..|v| - 1] != [] && AllIn(items, v[..|v| - 1]) && v[|v| - 1] == '\n'
  {
    PlusClassLang(items, v[..j]);
    assert v[j..] == "\n";
  }

  lemma TextThenNewline(v: string) returns (x: string)
    requires InLang(Cat(Plus(Class(PassiveChars)), Lit("\n")), v)
    ensures PassiveText(x) && v == x + "\n"
  {
    var j := CatSplit(Plus(Class(PassiveChars)), Lit("\n"), v);
    RunThenNewline(PassiveChars, v, j);
    x := v[..|v| - 1];
    assert v == x + [v[|v| - 1]];
  }

  lemma LineShape(p: string, u: string) returns (x: string)
    requires InLang(Cat(Lit(p), Cat(Plus(Class(PassiveChars)), Lit("\n"))), u)
    ensures PassiveText(x) && u == p + (x + "\n")
  {
    LitFirst(p, Cat(Plus(Class(PassiveChars)), Lit("\n")), u);
    x := TextThenNewline(u[|p|..]);
    SplitAfter(u, p, x + "\n");
  }

  lemma SplitAfter(u: string, p: string, v: string)
    requires |p| <= |u| && u[..|p|] == p && u[|p|..] == v
    ensures u == p + v
  {
    assert u == u[..|p|] + u[|p|..];
  }

  lemma {:induction false} StarLinesShape(p: string, w: string) returns (xs: seq<string>)
    requires InLang(Star(Cat(Lit(p), Cat(Plus(Class(PassiveChars)), Lit("\n")))), w)
    ensures (forall k :: 0 <= k < |xs| ==> PassiveText(xs[k])) && w == Lines(p, xs, "\n")
    decreases |w|
  {
    if w == [] {
      xs := [];
    } else {
      var L := Cat(Lit(p), Cat(Plus(Class(PassiveChars)), Lit("\n")));
      var k :| 0 < k <= |w| && InLang(L, w[..k]) && InLang(Star(L), w[k..]);
      var x := LineShape(p, w[..k]);
      var ys := StarLinesShape(p, w[k..]);
      xs := [x] + ys;
      LinesPrepend(p, x, ys, "\n");
      assert w == w[..k] + w[k..];
    }
  }

  lemma LinesPrepend(p: string, x: string, ys: seq<string>, end: string)
    ensures Lines(p, [x] + ys, end) == (p + (x + end)) + Lines(p, ys, end)
  {
    assert ([x] + ys)[1..] == ys;
  }

  lemma PlusLinesShape(p: string, w: string) returns (xs: seq<string>)
    requires InLang(Plus(Cat(Lit(p), Cat(Plus(Class(PassiveChars)), Lit("\n")))), w)
    ensures xs != [] && (forall k :: 0 <= k < |xs| ==> PassiveText(xs[k])) && w == Lines(p, xs, "\n")
  {
    var L := Cat(Lit(p), Cat(Plus(Class(PassiveChars)), Lit("\n")));
    var k := CatSplit(L, Star(L), w);
    var x := LineShape(p, w[..k]);
    var ys := StarLinesShape(p, w[k..]);
    xs := [x] + ys;
    LinesPrepend(p, x, ys, "\n");
    assert w == w[..k] + w[k..];
  }

  /** A string of `(Added Small Passive Skills grant: [\w% \d]+\n)+` is a block of one or more lines. */
  lemma GrantBlockShape(w: string) returns (xs: seq<string>)
    requires InLang(Plus(GrantLine), w)
    ensures xs != [] && (forall k :: 0 <= k < |xs| ==> PassiveText(xs[k])) && w == Block(xs)
  {
    xs := PlusLinesShape(Grant, w);
  }

  // ---------------------------------------------------------------------------
  // The canonical form of a block
  // ---------------------------------------------------------------------------

  lemma {:induction false} LinesSnoc(p: string, xs: seq<string>, x: string, end: string)
    ensures Lines(p, xs + [x], end) == Lines(p, xs, end) + (p + (x + end))
    decreases |xs|
  {
    if xs == [] {
      assert xs + [x] == [x];
      assert [x][1..] == xs;
    } else {
      assert (xs + [x])[1..] == xs[1..] + [x];
      LinesSnoc(p, xs[1..], x, end);
    }
  }

  lemma Regroup(l: string, p: string, r: string, rest: string, nl: string)
    ensures l + (p + ((r + rest) + nl)) == (l + (p + r)) + (rest + nl)
  {
  }

  /** The last line of a block, split where its trailing spaces start. */
  lemma LastLineSplit(p: string, init: seq<string>, last: string)
    ensures var r := RStrip(last);
      Lines(p, init + [last], "\n") == (Lines(p, init, "\n") + (p + r)) + (last[|r|..] + "\n")
  {
    var r := RStrip(last);
    LinesSnoc(p, init, last, "\n");
    assert last == r + last[|r|..];
    Regroup(Lines(p, init, "\n"), p, r, last[|r|..], "\n");
  }

  lemma TrailingSpaces(last: string)
    ensures AllSpace(last[|RStrip(last)|..] + "\n")
  {
    var rest := last[|RStrip(last)|..];
    assert forall k :: 0 <= k < |rest| ==> (rest + "\n")[k] == rest[k];
  }

  lemma LinesEnds(p: string, init: seq<string>, r: string)
    requires p != [] && !IsSpace(p[0]) && r != [] && !IsSpace(r[|r| - 1])
    ensures var w := Lines(p, init, "\n") + (p + r); w != [] && !IsSpace(w[0]) && !IsSpace(w[|w| - 1])
  {
    var w := Lines(p, init, "\n") + (p + r);
    LinesThenPrefix(p, init, "\n", r);
    assert w[0] == w[..|p|][0];
    assert w[|w| - 1] == r[|r| - 1];
  }

  /** Stripping a block removes its final newline and the spaces that end its last text. */
  lemma StripLines(p: string, init: seq<string>, last: string)
    requires p != [] && !IsSpace(p[0])
    requires RStrip(last) != []
    ensures Strip(Lines(p, init + [last], "\n")) == Lines(p, init, "\n") + (p + RStrip(last))
  {
    var r := RStrip(last);
    LastLineSplit(p, init, last);
    LinesEnds(p, init, r);
    TrailingSpaces(last);
    StripSpaceTail(Lines(p, init, "\n") + (p + r), last[|r|..] + "\n");
  }

  lemma NoNewlineSkip(a: string, b: string, rep: string)
    requires NoNewline(a)
    ensures ReplaceAll(a + b, "\n", rep) == a + ReplaceAll(b, "\n", rep)
  {
    forall k | 0 <= k < |a| ensures !OccursAt(a + b, "\n", k) {
      OccursChar(a + b, "\n", k, 0);
    }
    ReplaceSkip(a, b, "\n", rep);
  }

  /** The first line of `Lines(p, xs, end)`, regrouped. */
  lemma LinesCons(p: string, xs: seq<string>, end: string, tail: string)
    requires xs != []
    ensures Lines(p, xs, end) + tail == (p + xs[0]) + (end + (Lines(p, xs[1..], end) + tail))
  {
  }

  lemma NewlineStep(a: string, more: string, rep: string)
    requires NoNewline(a)
    ensures ReplaceAll(a + ("\n" + more), "\n", rep) == a + (rep + ReplaceAll(more, "\n", rep))
  {
    NoNewlineSkip(a, "\n" + more, rep);
    ReplaceFront(more, "\n", rep);
  }

  /** Replacing the newlines that end the lines by `", "`, before a newline-free `t`. */
  lemma {:induction false} NewlinesReplaced(p: string, init: seq<string>, t: string)
    requires NoNewline(p) && NoNewline(t)
    requires forall k :: 0 <= k < |init| ==> PassiveText(init[k])
    ensures ReplaceAll(Lines(p, init, "\n") + t, "\n", ", ") == Lines(p, init, ", ") + t
    decreases |init|
  {
    if init == [] {
      NoNewlineSkip(t, [], ", ");
      assert t + [] == t;
    } else {
      var x := init[0];
      PassiveTextFacts(x);
      assert NoNewline(p + x);
      LinesCons(p, init, "\n", t);
      LinesCons(p, init, ", ", t);
      NewlineStep(p + x, Lines(p, init[1..], "\n") + t, ", ");
      NewlinesReplaced(p, init[1..], t);
    }
  }

  /** The prefix `p` has its only colon at index `c`. */
  predicate ColonAt(p: string, c: nat)
  {
    c < |p| && p[c] == ':' && NoColon(p[..c])
  }

  /** No occurrence of `p` starts inside a colon-free `a` that `p` follows. */
  lemma NoPrefixBefore(p: string, c: nat, a: string, rest: string)
    requires ColonAt(p, c) && NoColon(a)
    requires |p| <= |rest| && rest[..|p|] == p
    ensures forall k :: 0 <= k < |a| ==> !OccursAt(a + rest, p, k)
  {
    var s := a + rest;
    forall k | 0 <= k < |a| ensures !OccursAt(s, p, k) {
      OccursChar(s, p, k, c);
      if k + c < |a| {
        assert s[k + c] == a[k + c];
      } else {
        assert s[k + c] == rest[..|p|][k + c - |a|] == p[..c][k + c - |a|];
      }
    }
  }

  lemma NoColonUnchanged(p: string, c: nat, w: string)
    requires ColonAt(p, c) && NoColon(w)
    ensures ReplaceAll(w, p, "") == w
  {
    forall k | 0 <= k < |w| ensures !OccursAt(w, p, k) {
      OccursChar(w, p, k, c);
    }
  }

  /** The first line of `Lines(p, xs, end)`, regrouped around its prefix. */
  lemma LinesFront(p: string, xs: seq<string>, end: string, tail: string)
    requires xs != []
    ensures Lines(p, xs, end) + tail == p + ((xs[0] + end) + (Lines(p, xs[1..], end) + tail))
  {
  }

  lemma LinesThenPrefix(p: string, xs: seq<string>, end: string, r: string)
    ensures |p| <= |Lines(p, xs, end) + (p + r)| && (Lines(p, xs, end) + (p + r))[..|p|] == p
  {
    if xs != [] {
      LinesFront(p, xs, end, p + r);
    }
  }

  lemma PrefixStep(p: string, c: nat, a: string, rest: string)
    requires ColonAt(p, c) && NoColon(a)
    requires |p| <= |rest| && rest[..|p|] == p
    ensures ReplaceAll(p + (a + rest), p, "") == a + ReplaceAll(rest, p, "")
  {
    ReplaceFront(a + rest, p, "");
    NoPrefixBefore(p, c, a, rest);
    ReplaceSkip(a, rest, p, "");
  }

  /** Removing the prefixes from the spliced lines leaves the texts joined by `", "`. */
  lemma {:induction false} PrefixesRemoved(p: string, c: nat, init: seq<string>, r: string)
    requires ColonAt(p, c) && NoColon(r)
    requires forall k :: 0 <= k < |init| ==> PassiveText(init[k])
    ensures ReplaceAll(Lines(p, init, ", ") + (p + r), p, "") == Join(", ", init + [r])
    decreases |init|
  {
    if init == [] {
      assert Lines(p, init, ", ") + (p + r) == p + r;
      ReplaceFront(r, p, "");
      NoColonUnchanged(p, c, r);
      assert init + [r] == [r];
    } else {
      var x := init[0];
      PassiveTextFacts(x);
      var a := x + ", ";
      assert NoColon(a);
      var rest := Lines(p, init[1..], ", ") + (p + r);
      LinesFront(p, init, ", ", p + r);
      LinesThenPrefix(p, init[1..], ", ", r);
      PrefixStep(p, c, a, rest);
      PrefixesRemoved(p, c, init[1..], r);
      assert (init + [r])[1..] == init[1..] + [r];
    }
  }

  lemma GrantFacts()
    ensures ColonAt(Grant, 32) && NoNewline(Grant) && !IsSpace(Grant[0])
  {
    forall k | 0 <= k < 32 ensures Grant[k] != ':' { }
    forall k | 0 <= k < |Grant| ensures Grant[k] != '\n' { }
  }

  /** The last text, once its trailing spaces are stripped, still has no colon and no newline. */
  lemma LastTextFacts(p: string, last: string)
    requires NoNewline(p) && PassiveText(last)
    ensures NoColon(RStrip(last)) && NoNewline(p + RStrip(last))
  {
    var r := RStrip(last);
    PassiveTextFacts(last);
    assert forall k :: 0 <= k < |r| ==> r[k] == last[k];
    assert forall k :: 0 <= k < |p + r| ==> (p + r)[k] == if k < |p| then p[k] else r[k - |p|];
  }

  /** The canonical form of the lines with prefix `p`, for a prefix whose only colon is at `c`. */
  lemma CanonicalLines(p: string, c: nat, init: seq<string>, last: string)
    requires ColonAt(p, c) && NoNewline(p) && !IsSpace(p[0])
    requires forall k :: 0 <= k < |init| ==> PassiveText(init[k])
    requires PassiveText(last) && RStrip(last) != []
    ensures ReplaceAll(ReplaceAll(Strip(Lines(p, init + [last], "\n")), "\n", ", "), p, "")
         == Join(", ", init + [RStrip(last)])
  {
    var r := RStrip(last);
    LastTextFacts(p, last);
    StripLines(p, init, last);
    NewlinesReplaced(p, init, p + r);
    PrefixesRemoved(p, c, init, r);
  }

  /**
   * The canonical form of a block is its texts joined by `", "`, except that the
   * spaces that end the last text are stripped with the block.
   */
  lemma CanonicalBlock(init: seq<string>, last: string)
    requires forall k :: 0 <= k < |init| ==> PassiveText(init[k])
    requires PassiveText(last) && RStrip(last) != []
    ensures Canonical(Block(init + [last])) == Join(", ", init + [RStrip(last)])
  {
    GrantFacts();
    CanonicalLines(Grant, 32, init, last);
  }

  /** When the last text does not end in a space, the canonical form is exactly the texts joined by `", "`. */
  lemma CanonicalJoin(xs: seq<string>)
    requires xs != [] && forall k :: 0 <= k < |xs| ==> PassiveText(xs[k])
    requires var last := xs[|xs| - 1]; last != [] && last[|last| - 1] != ' '
    ensures Canonical(Block(xs)) == Join(", ", xs)
  {
    var init, last := xs[..|xs| - 1], xs[|xs| - 1];
    assert xs == init + [last];
    PassiveCharFacts(last[|last| - 1]);
    assert RStrip(last) == last;
    CanonicalBlock(init, last);
  }

  /** A text made of letters, digits, spaces and `%`. */
  lemma PassiveTextOf(x: string)
    requires x != [] && forall k :: 0 <= k < |x| ==> x[k] == ' ' || x[k] == '%' || IsWordChar(x[k])
    ensures PassiveText(x)
  {
    forall k | 0 <= k < |x| ensures InClass(PassiveChars, x[k]) {
      var rest := PassiveChars[1..];
      assert rest == [Char('%'), Char(' '), Digit];
      assert rest[1..] == [Char(' '), Digit];
    }
  }

  lemma ExampleJoined()
    ensures Join(", ", ["5% increased Life", "4% increased Mana"]) == "5% increased Life, 4% increased Mana"
  {
    var xs := ["5% increased Life", "4% increased Mana"];
    assert xs[1..] == ["4% increased Mana"];
  }

  /** The two-line example: `5% increased Life` and `4% increased Mana`. */
  lemma TwoLineExample()
    ensures Canonical(Block(["5% increased Life", "4% increased Mana"])) == "5% increased Life, 4% increased Mana"
  {
    var x, y := "5% increased Life", "4% increased Mana";
    PassiveTextOf(x);
    PassiveTextOf(y);
    CanonicalJoin([x, y]);
    ExampleJoined();
  }
}
