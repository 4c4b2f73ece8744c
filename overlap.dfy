/**
 * One item text that both recognisers accept: a unique whose name line is followed by the
 * lines of a cluster jewel. `get_uniques_from_xml` and `get_clusters_from_xml` run their
 * patterns independently, so such an item is reported by both.
 */
module RecogniserOverlap {
  import opened Outcomes
  import opened Text
  import opened Regex
  import opened SmallPassives
  import opened ItemExtractor
  import opened Clusters
  import opened Document

  // ---------------------------------------------------------------------------
  // A text laid out as a sequence of segments
  // ---------------------------------------------------------------------------

  function Concat(ss: seq<string>): string
    decreases |ss|
  {
    if ss == [] then [] else ss[0] + Concat(ss[1..])
  }

  lemma ConcatThree(g: seq<string>)
    requires |g| == 3
    ensures Concat(g) == g[0] + g[1] + g[2]
  {
    var g1 := g[1..];
    assert g1[0] == g[1] && g1[1..][0] == g[2] && g1[1..][1..] == [];
    assert Concat(g1[1..]) == g[2];
  }

  /** Where segment `k` starts. */
  function Off(ss: seq<string>, k: nat): nat
    requires k <= |ss|
  {
    |Concat(ss[..k])|
  }

  lemma {:induction false} ConcatAppend(a: seq<string>, b: seq<string>)
    ensures Concat(a + b) == Concat(a) + Concat(b)
    decreases |a|
  {
    if a == [] {
      assert a + b == b;
    } else {
      assert (a + b)[1..] == a[1..] + b;
      ConcatAppend(a[1..], b);
    }
  }

  /** Segment `k` sits between the offsets `Off(ss, k)` and `Off(ss, k + 1)`. */
  lemma SegAt(ss: seq<string>, k: nat)
    requires k < |ss|
    ensures Off(ss, k) + |ss[k]| == Off(ss, k + 1) <= |Concat(ss)|
    ensures Concat(ss)[Off(ss, k)..Off(ss, k + 1)] == ss[k]
    ensures forall j :: 0 <= j < |ss[k]| ==> Concat(ss)[Off(ss, k) + j] == ss[k][j]
  {
    var a, b := ss[..k], ss[k + 1..];
    assert ss[..k + 1] == a + [ss[k]];
    assert ss == ss[..k + 1] + b;
    assert [ss[k]][1..] == [];
    ConcatAppend(a, [ss[k]]);
    ConcatAppend(ss[..k + 1], b);
  }

  lemma OffAll(ss: seq<string>)
    ensures Off(ss, |ss|) == |Concat(ss)|
  {
    assert ss[..|ss|] == ss;
  }

  /** The segments `j` to `k` together. */
  lemma {:induction false} SegsAt(ss: seq<string>, j: nat, k: nat)
    requires j <= k <= |ss|
    ensures Off(ss, j) <= Off(ss, k) <= |Concat(ss)|
    ensures Concat(ss)[Off(ss, j)..Off(ss, k)] == Concat(ss[j..k])
    decreases k - j
  {
    OffAll(ss);
    if j == k {
      assert ss[j..k] == [];
      if k < |ss| { SegAt(ss, k); }
    } else {
      SegAt(ss, j);
      SegsAt(ss, j + 1, k);
      assert ss[j..k][1..] == ss[j + 1..k];
    }
  }

  // ---------------------------------------------------------------------------
  // Reading a laid-out text with the cluster pattern
  // ---------------------------------------------------------------------------

  /** A literal segment. */
  lemma LitSeg(ss: seq<string>, k: nat, c: Caps)
    requires k < |ss| && ValidCaps(c, Concat(ss))
    ensures FirstIs(Lit(ss[k]), Concat(ss), Off(ss, k), c, Hit(Off(ss, k + 1), c))
  {
    SegAt(ss, k);
    FirstLit(ss[k], Concat(ss), Off(ss, k), c);
  }

  /** Segment `k` is a non-empty run of `items` that segment `k + 1` does not continue. */
  predicate RunAt(ss: seq<string>, k: nat, items: seq<ClassItem>)
  {
    k + 1 < |ss| && ss[k] != [] && AllIn(items, ss[k]) && ss[k + 1] != [] && !InClass(items, ss[k + 1][0])
  }

  /** A segment that is a longest run of `items`. */
  lemma RunSeg(ss: seq<string>, k: nat, items: seq<ClassItem>, c: Caps)
    requires RunAt(ss, k, items) && ValidCaps(c, Concat(ss))
    ensures FirstIs(Plus(Class(items)), Concat(ss), Off(ss, k), c, Hit(Off(ss, k + 1), c))
  {
    var t := Concat(ss);
    SegAt(ss, k);
    SegAt(ss, k + 1);
    forall j | Off(ss, k) <= j < Off(ss, k + 1) ensures InClass(items, t[j]) {
      assert t[j] == ss[k][j - Off(ss, k)];
    }
    assert t[Off(ss, k + 1)] == ss[k + 1][0];
    FirstPlusClass(items, t, Off(ss, k), Off(ss, k + 1), c);
  }

  /** A segment of one character of `items`. */
  lemma CharSeg(ss: seq<string>, k: nat, items: seq<ClassItem>, c: Caps)
    requires k < |ss| && ValidCaps(c, Concat(ss))
    requires |ss[k]| == 1 && InClass(items, ss[k][0])
    ensures FirstIs(Class(items), Concat(ss), Off(ss, k), c, Hit(Off(ss, k + 1), c))
  {
    SegAt(ss, k);
    assert Concat(ss)[Off(ss, k)] == ss[k][0];
    FirstClass(items, Concat(ss), Off(ss, k), c);
  }

  /**
   * A text of 28 segments that the cluster pattern reads one piece per segment. The size is
   * segment 5, the item level segment 8, the passive count segment 17 and the small-passive
   * line segments 24 to 26; segment 27 does not start another small-passive line.
   */
  predicate Layout(ss: seq<string>)
  {
    |ss| == 28 && PreambleLayout(ss) && LevelLayout(ss) && PassivesLayout(ss) && GrantsLayout(ss)
  }

  predicate PreambleLayout(ss: seq<string>)
    requires |ss| == 28
  {
    && ss[0] == "Rarity: " && RunAt(ss, 1, [Word]) && RunAt(ss, 2, [Space])
    && RunAt(ss, 3, WordOrSpace) && RunAt(ss, 4, [Space]) && RunAt(ss, 5, WordOrSpace)
  }

  predicate LevelLayout(ss: seq<string>)
    requires |ss| == 28
  {
    RunAt(ss, 6, [Space]) && ss[7] == "Item Level: " && RunAt(ss, 8, [Digit])
  }

  predicate PassivesLayout(ss: seq<string>)
    requires |ss| == 28
  {
    && RunAt(ss, 9, [Space]) && ss[10] == "LevelReq: " && RunAt(ss, 11, [Digit]) && RunAt(ss, 12, [Space])
    && ss[13] == "Implicits: " && |ss[14]| == 1 && InClass([Digit], ss[14][0]) && RunAt(ss, 15, [Space])
    && ss[16] == "{crafted}Adds " && |ss[17]| == 1 && InClass([Digit], ss[17][0])
  }

  predicate GrantsLayout(ss: seq<string>)
    requires |ss| == 28
  {
    && ss[18] == " Passive Skills" && RunAt(ss, 19, [Space]) && ss[20] == "{crafted}"
    && RunAt(ss, 21, [Word, Digit, Char(' ')]) && RunAt(ss, 22, [Space]) && ss[23] == "{crafted}"
    && ss[24] == Grant && RunAt(ss, 25, PassiveChars) && ss[26] == "\n"
    && ss[27] != [] && ss[27][0] != 'A'
  }

  function Caps1(ss: seq<string>): Caps
    requires |ss| == 28
  {
    map["size" := Span(Off(ss, 5), Off(ss, 6))]
  }

  function Caps2(ss: seq<string>): Caps
    requires |ss| == 28
  {
    Caps1(ss)["item_level" := Span(Off(ss, 8), Off(ss, 9))]
  }

  function Caps3(ss: seq<string>): Caps
    requires |ss| == 28
  {
    Caps2(ss)["num_passives" := Span(Off(ss, 17), Off(ss, 18))]
  }

  /** The captures of the cluster pattern on a laid-out text. */
  function Caps4(ss: seq<string>): Caps
    requires |ss| == 28
  {
    Caps3(ss)["small_passives" := Span(Off(ss, 24), Off(ss, 27))]
  }

  lemma CapsValid(ss: seq<string>)
    requires |ss| == 28
    ensures var t := Concat(ss);
      ValidCaps(Caps1(ss), t) && ValidCaps(Caps2(ss), t) && ValidCaps(Caps3(ss), t) && ValidCaps(Caps4(ss), t)
  {
    SegsAt(ss, 5, 6);
    SegsAt(ss, 8, 9);
    SegsAt(ss, 17, 18);
    SegsAt(ss, 24, 27);
  }

  /** `\w+\s+[\w ]+\s+` takes segments 1 to 4. */
  lemma PreambleRunsFirst(ss: seq<string>)
    requires |ss| == 28 && PreambleLayout(ss)
    ensures FirstIs(Cat(Plus(W), Cat(Plus(S), Cat(Plus(Class(WordOrSpace)), Plus(S)))),
      Concat(ss), Off(ss, 1), map[], Hit(Off(ss, 5), map[]))
  {
    var t := Concat(ss);
    var c: Caps := map[];
    RunSeg(ss, 1, [Word], c);
    RunSeg(ss, 2, [Space], c);
    RunSeg(ss, 3, WordOrSpace, c);
    RunSeg(ss, 4, [Space], c);
    var r3 := Cat(Plus(Class(WordOrSpace)), Plus(S));
    var r2 := Cat(Plus(S), r3);
    FirstCat(Plus(Class(WordOrSpace)), Plus(S), t, Off(ss, 3), c, Hit(Off(ss, 4), c), Hit(Off(ss, 5), c));
    FirstCat(Plus(S), r3, t, Off(ss, 2), c, Hit(Off(ss, 3), c), Hit(Off(ss, 5), c));
    FirstCat(Plus(W), r2, t, Off(ss, 1), c, Hit(Off(ss, 2), c), Hit(Off(ss, 5), c));
  }

  /** `Rarity: \w+\s+[\w ]+\s+` takes segments 0 to 4. */
  lemma PreambleFirst(ss: seq<string>)
    requires |ss| == 28 && PreambleLayout(ss)
    ensures FirstIs(Preamble, Concat(ss), 0, map[], Hit(Off(ss, 5), map[]))
  {
    var c: Caps := map[];
    assert ss[..0] == [];
    LitSeg(ss, 0, c);
    PreambleRunsFirst(ss);
    FirstCat(Lit("Rarity: "), Cat(Plus(W), Cat(Plus(S), Cat(Plus(Class(WordOrSpace)), Plus(S)))), Concat(ss), 0, c,
      Hit(Off(ss, 1), c), Hit(Off(ss, 5), c));
  }

  const UniqueId: Re := Cat(Lit("Unique ID: "), Cat(Plus(Class([Word, Digit])), Plus(S)))

  /** The optional `Unique ID: ` line is absent: segment 7 starts `It`, not `Un`. */
  lemma NoUniqueId(ss: seq<string>, c: Caps)
    requires |ss| == 28 && LevelLayout(ss) && ValidCaps(c, Concat(ss))
    ensures Off(ss, 7) <= |Concat(ss)|
    ensures FirstIs(Opt(UniqueId), Concat(ss), Off(ss, 7), c, Hit(Off(ss, 7), c))
  {
    var t := Concat(ss);
    SegAt(ss, 7);
    assert t[Off(ss, 7) + 1] == ss[7][1] == 't';
    OccursChar(t, "Unique ID: ", Off(ss, 7), 1);
    CatFails(Lit("Unique ID: "), Cat(Plus(Class([Word, Digit])), Plus(S)), t, Off(ss, 7), c);
    FirstOptSkip(UniqueId, t, Off(ss, 7), c);
  }

  /** `\s+(Unique ID: [\w\d]+\s+)?Item Level: ` takes segments 6 and 7. */
  lemma BeforeLevelFirst(ss: seq<string>)
    requires |ss| == 28 && LevelLayout(ss)
    ensures ValidCaps(Caps1(ss), Concat(ss))
    ensures FirstIs(BeforeLevel, Concat(ss), Off(ss, 6), Caps1(ss), Hit(Off(ss, 8), Caps1(ss)))
  {
    var t := Concat(ss);
    CapsValid(ss);
    var c := Caps1(ss);
    RunSeg(ss, 6, [Space], c);
    NoUniqueId(ss, c);
    LitSeg(ss, 7, c);
    FirstCat(Opt(UniqueId), Lit("Item Level: "), t, Off(ss, 7), c, Hit(Off(ss, 7), c), Hit(Off(ss, 8), c));
    FirstCat(Plus(S), Cat(Opt(UniqueId), Lit("Item Level: ")), t, Off(ss, 6), c, Hit(Off(ss, 7), c), Hit(Off(ss, 8), c));
  }

  /** `\s+LevelReq: \d+\s+Implicits: \d\s+{crafted}Adds ` takes segments 9 to 16. */
  lemma BeforePassivesFirst(ss: seq<string>)
    requires |ss| == 28 && PassivesLayout(ss)
    ensures ValidCaps(Caps2(ss), Concat(ss))
    ensures FirstIs(BeforePassives, Concat(ss), Off(ss, 9), Caps2(ss), Hit(Off(ss, 17), Caps2(ss)))
  {
    var t := Concat(ss);
    CapsValid(ss);
    var c := Caps2(ss);
    RunSeg(ss, 9, [Space], c);
    LitSeg(ss, 10, c);
    RunSeg(ss, 11, [Digit], c);
    RunSeg(ss, 12, [Space], c);
    LitSeg(ss, 13, c);
    CharSeg(ss, 14, [Digit], c);
    RunSeg(ss, 15, [Space], c);
    LitSeg(ss, 16, c);
    var r7 := Cat(Plus(S), Lit("{crafted}Adds "));
    var r6 := Cat(D, r7);
    var r5 := Cat(Lit("Implicits: "), r6);
    var r4 := Cat(Plus(S), r5);
    var r3 := Cat(Plus(D), r4);
    var r2 := Cat(Lit("LevelReq: "), r3);
    FirstCat(Plus(S), Lit("{crafted}Adds "), t, Off(ss, 15), c, Hit(Off(ss, 16), c), Hit(Off(ss, 17), c));
    FirstCat(D, r7, t, Off(ss, 14), c, Hit(Off(ss, 15), c), Hit(Off(ss, 17), c));
    FirstCat(Lit("Implicits: "), r6, t, Off(ss, 13), c, Hit(Off(ss, 14), c), Hit(Off(ss, 17), c));
    FirstCat(Plus(S), r5, t, Off(ss, 12), c, Hit(Off(ss, 13), c), Hit(Off(ss, 17), c));
    FirstCat(Plus(D), r4, t, Off(ss, 11), c, Hit(Off(ss, 12), c), Hit(Off(ss, 17), c));
    FirstCat(Lit("LevelReq: "), r3, t, Off(ss, 10), c, Hit(Off(ss, 11), c), Hit(Off(ss, 17), c));
    FirstCat(Plus(S), r2, t, Off(ss, 9), c, Hit(Off(ss, 10), c), Hit(Off(ss, 17), c));
  }

  /** ` Passive Skills\s+{crafted}[\w\d ]+\s+{crafted}` takes segments 18 to 23. */
  lemma BeforeGrantsFirst(ss: seq<string>)
    requires |ss| == 28 && GrantsLayout(ss)
    ensures ValidCaps(Caps3(ss), Concat(ss))
    ensures FirstIs(BeforeGrants, Concat(ss), Off(ss, 18), Caps3(ss), Hit(Off(ss, 24), Caps3(ss)))
  {
    var t := Concat(ss);
    CapsValid(ss);
    var c := Caps3(ss);
    var WDS := [Word, Digit, Char(' ')];
    LitSeg(ss, 18, c);
    RunSeg(ss, 19, [Space], c);
    LitSeg(ss, 20, c);
    RunSeg(ss, 21, WDS, c);
    RunSeg(ss, 22, [Space], c);
    LitSeg(ss, 23, c);
    var r4 := Cat(Plus(S), Lit("{crafted}"));
    var r3 := Cat(Plus(Class(WDS)), r4);
    var r2 := Cat(Lit("{crafted}"), r3);
    var r1 := Cat(Plus(S), r2);
    FirstCat(Plus(S), Lit("{crafted}"), t, Off(ss, 22), c, Hit(Off(ss, 23), c), Hit(Off(ss, 24), c));
    FirstCat(Plus(Class(WDS)), r4, t, Off(ss, 21), c, Hit(Off(ss, 22), c), Hit(Off(ss, 24), c));
    FirstCat(Lit("{crafted}"), r3, t, Off(ss, 20), c, Hit(Off(ss, 21), c), Hit(Off(ss, 24), c));
    FirstCat(Plus(S), r2, t, Off(ss, 19), c, Hit(Off(ss, 20), c), Hit(Off(ss, 24), c));
    FirstCat(Lit(" Passive Skills"), r1, t, Off(ss, 18), c, Hit(Off(ss, 19), c), Hit(Off(ss, 24), c));
  }

  /** Segment 27 does not start another small-passive line. */
  lemma NoMoreGrants(ss: seq<string>, c: Caps)
    requires |ss| == 28 && GrantsLayout(ss) && ValidCaps(c, Concat(ss))
    ensures Off(ss, 27) <= |Concat(ss)|
    ensures FirstIs(Star(GrantLine), Concat(ss), Off(ss, 27), c, Hit(Off(ss, 27), c))
  {
    var t := Concat(ss);
    SegAt(ss, 27);
    assert t[Off(ss, 27)] == ss[27][0];
    OccursChar(t, Grant, Off(ss, 27), 0);
    CatFails(Lit(Grant), Cat(Plus(Class(PassiveChars)), Lit("\n")), t, Off(ss, 27), c);
    FirstStarStop(GrantLine, t, Off(ss, 27), c);
  }

  /** The one small-passive line takes segments 24 to 26. */
  lemma GrantLineFirst(ss: seq<string>, c: Caps)
    requires |ss| == 28 && GrantsLayout(ss) && ValidCaps(c, Concat(ss))
    ensures FirstIs(GrantLine, Concat(ss), Off(ss, 24), c, Hit(Off(ss, 27), c))
  {
    var t := Concat(ss);
    LitSeg(ss, 24, c);
    RunSeg(ss, 25, PassiveChars, c);
    LitSeg(ss, 26, c);
    FirstCat(Plus(Class(PassiveChars)), Lit("\n"), t, Off(ss, 25), c, Hit(Off(ss, 26), c), Hit(Off(ss, 27), c));
    FirstCat(Lit(Grant), Cat(Plus(Class(PassiveChars)), Lit("\n")), t, Off(ss, 24), c,
      Hit(Off(ss, 25), c), Hit(Off(ss, 27), c));
  }

  /** The small-passive lines take segments 24 to 26. */
  lemma GrantsFirst(ss: seq<string>)
    requires |ss| == 28 && GrantsLayout(ss)
    ensures ValidCaps(Caps3(ss), Concat(ss))
    ensures FirstIs(Plus(GrantLine), Concat(ss), Off(ss, 24), Caps3(ss), Hit(Off(ss, 27), Caps3(ss)))
  {
    CapsValid(ss);
    var c := Caps3(ss);
    GrantLineFirst(ss, c);
    NoMoreGrants(ss, c);
    FirstCat(GrantLine, Star(GrantLine), Concat(ss), Off(ss, 24), c, Hit(Off(ss, 27), c), Hit(Off(ss, 27), c));
  }

  /** From the segment after the item level on, the pattern's first way ends after the small passives. */
  lemma PassivesOnFirst(ss: seq<string>)
    requires Layout(ss)
    ensures ValidCaps(Caps2(ss), Concat(ss))
    ensures FirstIs(Cat(BeforePassives, Cat(Group("num_passives", D), Cat(BeforeGrants, Group("small_passives", Plus(GrantLine))))),
      Concat(ss), Off(ss, 9), Caps2(ss), Hit(Off(ss, 27), Caps4(ss)))
  {
    var t := Concat(ss);
    CapsValid(ss);
    var c2, c3 := Caps2(ss), Caps3(ss);
    var g4 := Group("small_passives", Plus(GrantLine));
    var g3 := Group("num_passives", D);
    GrantsFirst(ss);
    FirstGroup("small_passives", Plus(GrantLine), t, Off(ss, 24), c3, Hit(Off(ss, 27), c3));
    BeforeGrantsFirst(ss);
    FirstCat(BeforeGrants, g4, t, Off(ss, 18), c3, Hit(Off(ss, 24), c3), Hit(Off(ss, 27), Caps4(ss)));
    CharSeg(ss, 17, [Digit], c2);
    FirstGroup("num_passives", D, t, Off(ss, 17), c2, Hit(Off(ss, 18), c2));
    FirstCat(g3, Cat(BeforeGrants, g4), t, Off(ss, 17), c2, Hit(Off(ss, 18), c3), Hit(Off(ss, 27), Caps4(ss)));
    BeforePassivesFirst(ss);
    FirstCat(BeforePassives, Cat(g3, Cat(BeforeGrants, g4)), t, Off(ss, 9), c2,
      Hit(Off(ss, 17), c2), Hit(Off(ss, 27), Caps4(ss)));
  }

  /** The cluster pattern reads a laid-out text one piece per segment, and reports `Caps4`. */
  lemma LayoutMatch(ss: seq<string>)
    requires Layout(ss)
    ensures ValidCaps(Caps4(ss), Concat(ss))
    ensures Match(ClusterPattern, Concat(ss)) == Some(Caps4(ss))
  {
    var t := Concat(ss);
    CapsValid(ss);
    var c0: Caps := map[];
    var c1, c2 := Caps1(ss), Caps2(ss);
    var h := Hit(Off(ss, 27), Caps4(ss));
    var r5 := Cat(BeforePassives, Cat(Group("num_passives", D), Cat(BeforeGrants, Group("small_passives", Plus(GrantLine)))));
    var r4 := Cat(Group("item_level", Plus(D)), r5);
    var r3 := Cat(BeforeLevel, r4);
    var r2 := Cat(Group("size", Plus(Class(WordOrSpace))), r3);
    PassivesOnFirst(ss);
    RunSeg(ss, 8, [Digit], c1);
    FirstGroup("item_level", Plus(D), t, Off(ss, 8), c1, Hit(Off(ss, 9), c1));
    FirstCat(Group("item_level", Plus(D)), r5, t, Off(ss, 8), c1, Hit(Off(ss, 9), c2), h);
    BeforeLevelFirst(ss);
    FirstCat(BeforeLevel, r4, t, Off(ss, 6), c1, Hit(Off(ss, 8), c1), h);
    RunSeg(ss, 5, WordOrSpace, c0);
    FirstGroup("size", Plus(Class(WordOrSpace)), t, Off(ss, 5), c0, Hit(Off(ss, 6), c0));
    assert c0["size" := Span(Off(ss, 5), Off(ss, 6))] == c1;
    FirstCat(Group("size", Plus(Class(WordOrSpace))), r3, t, Off(ss, 5), c0, Hit(Off(ss, 6), c1), h);
    PreambleFirst(ss);
    FirstCat(Preamble, r2, t, 0, c0, Hit(Off(ss, 5), c0), h);
    assert ClusterPattern == Cat(Preamble, r2);
    MatchFirst(ClusterPattern, t, h);
  }

  lemma DigitsOf(w: string)
    requires AllIn([Digit], w)
    ensures AllDigits(w)
  {
    forall k | 0 <= k < |w| ensures IsDigit(w[k]) {
      InClassOne(Digit, w[k]);
    }
  }

  /** What the four groups capture on a laid-out text. */
  lemma LayoutCaptures(ss: seq<string>)
    requires |ss| == 28
    ensures var t, c := Concat(ss), Caps4(ss);
      && ValidCaps(c, t) && "size" in c && "item_level" in c && "num_passives" in c && "small_passives" in c
      && Captured(t, c, "size") == ss[5] && Captured(t, c, "item_level") == ss[8]
      && Captured(t, c, "num_passives") == ss[17] && Captured(t, c, "small_passives") == Concat(ss[24..27])
  {
    CapsValid(ss);
    SegAt(ss, 5);
    SegAt(ss, 8);
    SegAt(ss, 17);
    SegsAt(ss, 24, 27);
  }

  /** The jewel built from those captures. */
  lemma LayoutJewel(ss: seq<string>)
    requires |ss| == 28 && AllIn([Digit], ss[8]) && |ss[17]| == 1 && InClass([Digit], ss[17][0])
    ensures AllDigits(ss[8]) && AllDigits(ss[17]) && ValidCaps(Caps4(ss), Concat(ss))
    ensures JewelFrom(Concat(ss), Caps4(ss)) ==
      Some(ClusterJewel(ss[5], DigitsValue(ss[8]), DigitsValue(ss[17]), Canonical(Concat(ss[24..27]))))
  {
    LayoutCaptures(ss);
    DigitsOf(ss[8]);
    InClassOne(Digit, ss[17][0]);
  }

  /**
   * A laid-out text is a cluster jewel: the size is segment 5, the item level and the passive
   * count the values of segments 8 and 17, and the small passives the canonical form of
   * segments 24 to 26.
   */
  lemma ClusterOfLayout(ss: seq<string>)
    requires Layout(ss)
    ensures AllDigits(ss[8]) && AllDigits(ss[17])
    ensures ClusterOf(Concat(ss)) ==
      Some(ClusterJewel(ss[5], DigitsValue(ss[8]), DigitsValue(ss[17]), Canonical(Concat(ss[24..27]))))
  {
    LayoutMatch(ss);
    LayoutJewel(ss);
  }

  // ---------------------------------------------------------------------------
  // An item text both recognisers accept
  // ---------------------------------------------------------------------------

  /**
   * A unique named `Foo` whose following lines are those of a large cluster jewel, cut where
   * the pieces of the cluster pattern meet.
   */
  const Segs: seq<string> := [
    "Rarity: ", "UNIQUE", "\n", "Foo", "\n", "Large Cluster Jewel", "\n",
    "Item Level: ", "1", "\n", "LevelReq: ", "1", "\n", "Implicits: ", "1", "\n",
    "{crafted}Adds ", "8", " Passive Skills", "\n", "{crafted}", "x", "\n", "{crafted}",
    Grant, "a", "\n", "Z"]

  /**
   * `Rarity: UNIQUE\nFoo\nLarge Cluster Jewel\nItem Level: 1\nLevelReq: 1\nImplicits: 1\n`
   * `{crafted}Adds 8 Passive Skills\n{crafted}x\n{crafted}Added Small Passive Skills grant: a\nZ`
   */
  const Overlapping: string := Concat(Segs)

  lemma WordOrSpaceFacts(c: char)
    ensures InClass(WordOrSpace, c) <==> IsWordChar(c) || c == ' '
  {
    assert WordOrSpace[1..] == [Char(' ')];
    InClassOne(Char(' '), c);
  }

  /** `ss` holds the segments of `Segs`; the lemmas below work on such an `ss`. */
  predicate IsOverlapping(ss: seq<string>)
  {
    |ss| == 28 && ItemLines(ss) && CraftedLines(ss)
  }

  /** The rarity, the name, the base type, the item level, the level requirement and implicits. */
  predicate ItemLines(ss: seq<string>)
    requires |ss| == 28
  {
    && ss[0] == "Rarity: " && ss[1] == "UNIQUE" && ss[2] == "\n" && ss[3] == "Foo" && ss[4] == "\n"
    && ss[5] == "Large Cluster Jewel" && ss[6] == "\n" && ss[7] == "Item Level: " && ss[8] == "1"
    && ss[9] == "\n" && ss[10] == "LevelReq: " && ss[11] == "1" && ss[12] == "\n"
    && ss[13] == "Implicits: " && ss[14] == "1" && ss[15] == "\n"
  }

  /** The three `{crafted}` lines and the last line. */
  predicate CraftedLines(ss: seq<string>)
    requires |ss| == 28
  {
    && ss[16] == "{crafted}Adds " && ss[17] == "8" && ss[18] == " Passive Skills" && ss[19] == "\n"
    && ss[20] == "{crafted}" && ss[21] == "x" && ss[22] == "\n" && ss[23] == "{crafted}"
    && ss[24] == Grant && ss[25] == "a" && ss[26] == "\n" && ss[27] == "Z"
  }

  lemma SegsOverlapping()
    ensures IsOverlapping(Segs)
  {
    SegsItemLines();
    SegsCraftedLines();
  }

  lemma SegsItemLines()
    ensures ItemLines(Segs)
  {
    SegsFrom0();
    SegsFrom8();
  }

  lemma SegsCraftedLines()
    ensures CraftedLines(Segs)
  {
    SegsFrom16();
    SegsFrom22();
  }

  lemma SegsFrom0()
    ensures Segs[0] == "Rarity: " && Segs[1] == "UNIQUE" && Segs[2] == "\n" && Segs[3] == "Foo"
    ensures Segs[4] == "\n" && Segs[5] == "Large Cluster Jewel" && Segs[6] == "\n" && Segs[7] == "Item Level: "
  {
  }

  lemma SegsFrom8()
    ensures Segs[8] == "1" && Segs[9] == "\n" && Segs[10] == "LevelReq: " && Segs[11] == "1"
    ensures Segs[12] == "\n" && Segs[13] == "Implicits: " && Segs[14] == "1" && Segs[15] == "\n"
  {
  }

  lemma SegsFrom16()
    ensures Segs[16] == "{crafted}Adds " && Segs[17] == "8" && Segs[18] == " Passive Skills"
    ensures Segs[19] == "\n" && Segs[20] == "{crafted}" && Segs[21] == "x"
  {
  }

  lemma SegsFrom22()
    ensures Segs[22] == "\n" && Segs[23] == "{crafted}" && Segs[24] == Grant && Segs[25] == "a"
    ensures Segs[26] == "\n" && Segs[27] == "Z"
  {
  }

  lemma NameRuns(ss: seq<string>)
    requires IsOverlapping(ss)
    ensures PreambleLayout(ss)
  {
    var w := "Large Cluster Jewel";
    forall k | 0 <= k < |w| ensures InClass(WordOrSpace, w[k]) {
      WordOrSpaceFacts(w[k]);
    }
    forall k | 0 <= k < 3 ensures InClass(WordOrSpace, "Foo"[k]) {
      WordOrSpaceFacts("Foo"[k]);
    }
    WordOrSpaceFacts('\n');
  }

  lemma NumberRuns(ss: seq<string>)
    requires IsOverlapping(ss)
    ensures LevelLayout(ss) && PassivesLayout(ss)
  {
  }

  lemma GrantRuns(ss: seq<string>)
    requires IsOverlapping(ss)
    ensures GrantsLayout(ss)
  {
    PassiveTextOf("a");
    if InClass(PassiveChars, '\n') {
      PassiveCharFacts('\n');
    }
  }

  /** The small-passive segments form the block of the one text `a`. */
  lemma OverlappingBlock(ss: seq<string>)
    requires IsOverlapping(ss)
    ensures Concat(ss[24..27]) == Block(["a"])
  {
    ConcatThree(ss[24..27]);
    assert ["a"][1..] == [];
  }

  lemma OverlappingLayout(ss: seq<string>)
    requires IsOverlapping(ss)
    ensures Layout(ss)
  {
    NameRuns(ss);
    NumberRuns(ss);
    GrantRuns(ss);
  }

  /** The canonical form of the one small-passive line `a`. */
  lemma CanonicalA()
    ensures Canonical(Block(["a"])) == "a"
  {
    PassiveTextOf("a");
    CanonicalJoin(["a"]);
  }

  lemma OverlappingClusterOf(ss: seq<string>)
    requires IsOverlapping(ss)
    ensures ClusterOf(Concat(ss)) == Some(ClusterJewel("Large Cluster Jewel", 1, 8, "a"))
  {
    OverlappingLayout(ss);
    ClusterOfLayout(ss);
    OverlappingBlock(ss);
    CanonicalA();
    assert DigitsValue(ss[8]) == 1 && DigitsValue(ss[17]) == 8;
  }

  lemma OverlappingUniqueOf(ss: seq<string>)
    requires IsOverlapping(ss)
    ensures UniqueOf(Concat(ss)) == Some(UniqueItem("Foo"))
  {
    var t := Concat(ss);
    ConcatThree(ss[..3]);
    assert "Rarity: " + "UNIQUE" + "\n" == UniqueHeader;
    assert Off(ss, 3) == 15;
    SegsAt(ss, 0, 3);
    assert ss[..0] == [];
    SegAt(ss, 3);
    SegAt(ss, 4);
    forall k | 0 <= k < 3 ensures InClass(NameChars, "Foo"[k]) {
      NameCharFacts("Foo"[k]);
    }
    UniqueOfIff(t, "Foo");
  }

  /** The cluster recogniser reads `Overlapping` as a large cluster jewel. */
  lemma OverlappingCluster()
    ensures ClusterOf(Overlapping) == Some(ClusterJewel("Large Cluster Jewel", 1, 8, "a"))
  {
    SegsOverlapping();
    OverlappingClusterOf(Segs);
  }

  /** The unique recogniser reads `Overlapping` as the unique `Foo`. */
  lemma OverlappingUnique()
    ensures UniqueOf(Overlapping) == Some(UniqueItem("Foo"))
  {
    SegsOverlapping();
    OverlappingUniqueOf(Segs);
  }

  /**
   * Both recognisers accept `Overlapping`: the item is reported by `get_uniques_from_xml` as
   * a unique and by `get_clusters_from_xml` as a cluster jewel.
   */
  lemma BothRecognisers()
    ensures UniqueOf(Overlapping).Some? && ClusterOf(Overlapping).Some?
  {
    OverlappingUnique();
    OverlappingCluster();
  }

  /** `Overlapping` starts with `R` and ends with `Z`, so `strip()` leaves it alone. */
  lemma OverlappingStripped()
    ensures Strip(Overlapping) == Overlapping
  {
    SegsFrom0();
    SegsFrom22();
    assert Segs[..0] == [];
    SegAt(Segs, 0);
    SegAt(Segs, 27);
    OffAll(Segs);
    StripNoSpaceEnds(Overlapping);
  }

  /** A document whose `Items` element holds one item with text `text`. */
  function OneItemRoot(text: string): Element
  {
    Element("PathOfBuilding", map[], None, [Element("Items", map[], None, [Element("Item", map[], Some(text), [])])])
  }

  /** Over such a document, an extractor reports what its recogniser makes of the stripped text. */
  lemma OneItemScan<T>(text: string, recognise: string -> Option<T>, x: T)
    requires recognise(Strip(text)) == Some(x)
    ensures ScanItems(OneItemRoot(text), recognise) == Returned([x])
  {
    var root := OneItemRoot(text);
    var item := Element("Item", map[], Some(text), []);
    assert FirstTagged(root.children, "Items") == 0;
    assert Find(root, "Items") == Some(Element("Items", map[], None, [item]));
    ScanSingle(item, recognise);
  }

  /** Both extractors report the one item `Overlapping`: once as a unique, once as a cluster jewel. */
  lemma BothExtractors()
    ensures GetUniques(OneItemRoot(Overlapping)) == Returned([UniqueItem("Foo")])
    ensures GetClusters(OneItemRoot(Overlapping)) == Returned([ClusterJewel("Large Cluster Jewel", 1, 8, "a")])
  {
    OverlappingStripped();
    OverlappingUnique();
    OverlappingCluster();
    OneItemScan(Overlapping, UniqueOf, UniqueItem("Foo"));
    OneItemScan(Overlapping, ClusterOf, ClusterJewel("Large Cluster Jewel", 1, 8, "a"));
  }
}
