/**
 * `get_clusters_from_xml`: the cluster-jewel pattern, the record built from its groups, and
 * what the groups are known to contain whenever the pattern matches.
 */
module Clusters {
  import opened Outcomes
  import opened Text
  import opened Regex
  import opened Document
  import opened SmallPassives
  import opened ItemExtractor

  datatype ClusterJewel = ClusterJewel(size: string, level: nat, numPassives: nat, smallPassives: string)

  // The pattern, piece by piece. Python reads a `{` that does not start a repetition count
  // as an ordinary character, so `{crafted}` is literal text.

  const W: Re := Class([Word])
  const S: Re := Class([Space])
  const D: Re := Class([Digit])
  const WordOrSpace: seq<ClassItem> := [Word, Char(' ')]

  /** `Rarity: \w+\s+[\w ]+\s+` */
  const Preamble: Re := Cat(Lit("Rarity: "), Cat(Plus(W), Cat(Plus(S), Cat(Plus(Class(WordOrSpace)), Plus(S)))))

  /** `\s+(Unique ID: [\w\d]+\s+)?Item Level: ` */
  const BeforeLevel: Re :=
    Cat(Plus(S), Cat(Opt(Cat(Lit("Unique ID: "), Cat(Plus(Class([Word, Digit])), Plus(S)))), Lit("Item Level: ")))

  /** `\s+LevelReq: \d+\s+Implicits: \d\s+{crafted}Adds ` */
  const BeforePassives: Re :=
    Cat(Plus(S), Cat(Lit("LevelReq: "), Cat(Plus(D), Cat(Plus(S), Cat(Lit("Implicits: "), Cat(D, Cat(Plus(S), Lit("{crafted}Adds "))))))))

  /** ` Passive Skills\s+{crafted}[\w\d ]+\s+{crafted}` */
  const BeforeGrants: Re :=
    Cat(Lit(" Passive Skills"), Cat(Plus(S), Cat(Lit("{crafted}"), Cat(Plus(Class([Word, Digit, Char(' ')])), Cat(Plus(S), Lit("{crafted}"))))))

  /**
   * The cluster pattern: the groups `size` (`[\w ]+`), `item_level` (`\d+`), `num_passives`
   * (one `\d`) and `small_passives` (one or more small-passive lines), between the pieces above.
   */
  const ClusterPattern: Re :=
    FourGroups(Preamble, Plus(Class(WordOrSpace)), BeforeLevel, Plus(D), BeforePassives, D, BeforeGrants, Plus(GrantLine))

  /** The `ClusterJewel` the comprehension builds from the captures `c` of a match of `t`. */
  function JewelFrom(t: string, c: Caps): Option<ClusterJewel>
    requires ValidCaps(c, t)
  {
    if "size" in c && "item_level" in c && "num_passives" in c && "small_passives" in c
       && AllDigits(Captured(t, c, "item_level")) && AllDigits(Captured(t, c, "num_passives"))
    then Some(ClusterJewel(
      size := Captured(t, c, "size"),
      level := DigitsValue(Captured(t, c, "item_level")),
      numPassives := DigitsValue(Captured(t, c, "num_passives")),
      smallPassives := Canonical(Captured(t, c, "small_passives"))))
    else None
  }

  /** What the comprehension yields for an item whose stripped text is `t`. */
  function ClusterOf(t: string): Option<ClusterJewel>
  {
    match Match(ClusterPattern, t)
    case None => None
    case Some(c) => JewelFrom(t, c)
  }

  /** `get_clusters_from_xml(root)`. */
  function GetClusters(root: Element): (r: Outcome<seq<ClusterJewel>>)
    ensures !HasItems(root) ==> r == Returned([])
  {
    ScanItems(root, ClusterOf)
  }
  // ---------------------------------------------------------------------------
  // The groups of the pattern
  // ---------------------------------------------------------------------------

  lemma PreamblePlain()
    ensures Plain(Preamble)
  {
  }

  lemma BeforeLevelPlain()
    ensures Plain(BeforeLevel)
  {
  }

  lemma BeforePassivesPlain()
    ensures Plain(BeforePassives)
  {
  }

  lemma BeforeGrantsPlain()
    ensures Plain(BeforeGrants)
  {
  }

  lemma GrantLinesPlain()
    ensures Plain(Plus(GrantLine)) && Plain(Plus(Class(WordOrSpace))) && Plain(Plus(D)) && Plain(D)
  {
  }

  /** The four named groups, each with a plain body, separated by the plain pieces `p1`..`p4`. */
  function FourGroups(p1: Re, b1: Re, p2: Re, b2: Re, p3: Re, b3: Re, p4: Re, b4: Re): Re
  {
    Cat(p1, Cat(Group("size", b1), Cat(p2, Cat(Group("item_level", b2),
      Cat(p3, Cat(Group("num_passives", b3), Cat(p4, Group("small_passives", b4))))))))
  }

  /** With plain pieces and bodies, every match captures the four groups. */
  lemma FourRequired(p1: Re, b1: Re, p2: Re, b2: Re, p3: Re, b3: Re, p4: Re, b4: Re)
    requires Plain(p1) && Plain(p2) && Plain(p3) && Plain(p4)
    requires Plain(b1) && Plain(b2) && Plain(b3) && Plain(b4)
    ensures Required(FourGroups(p1, b1, p2, b2, p3, b3, p4, b4)) == {"size", "item_level", "num_passives", "small_passives"}
  {
    var r7 := Cat(p4, Group("small_passives", b4));
    var r5 := Cat(p3, Cat(Group("num_passives", b3), r7));
    var r3 := Cat(p2, Cat(Group("item_level", b2), r5));
    RequiredLast(p4, "small_passives", b4);
    RequiredStep(p3, "num_passives", b3, r7);
    RequiredStep(p2, "item_level", b2, r5);
    RequiredStep(p1, "size", b1, r3);
  }

  /** With plain pieces and bodies, the bodies of the groups named `n`. */
  lemma BodiesAt(p1: Re, b1: Re, p2: Re, b2: Re, p3: Re, b3: Re, p4: Re, b4: Re, n: string)
    requires Plain(p1) && Plain(p2) && Plain(p3) && Plain(p4)
    requires Plain(b1) && Plain(b2) && Plain(b3) && Plain(b4)
    ensures Bodies(FourGroups(p1, b1, p2, b2, p3, b3, p4, b4), n) ==
      (if n == "size" then {b1} else {}) + ((if n == "item_level" then {b2} else {})
      + ((if n == "num_passives" then {b3} else {}) + (if n == "small_passives" then {b4} else {})))
  {
    var r7 := Cat(p4, Group("small_passives", b4));
    var r5 := Cat(p3, Cat(Group("num_passives", b3), r7));
    var r3 := Cat(p2, Cat(Group("item_level", b2), r5));
    BodiesLast(p4, "small_passives", b4, n);
    BodiesStep(p3, "num_passives", b3, r7, n);
    BodiesStep(p2, "item_level", b2, r5, n);
    BodiesStep(p1, "size", b1, r3, n);
  }

  /** With plain pieces and bodies, each of the four groups occurs once. */
  lemma FourBodies(p1: Re, b1: Re, p2: Re, b2: Re, p3: Re, b3: Re, p4: Re, b4: Re)
    requires Plain(p1) && Plain(p2) && Plain(p3) && Plain(p4)
    requires Plain(b1) && Plain(b2) && Plain(b3) && Plain(b4)
    ensures var r := FourGroups(p1, b1, p2, b2, p3, b3, p4, b4);
      && Bodies(r, "size") == {b1} && Bodies(r, "item_level") == {b2}
      && Bodies(r, "num_passives") == {b3} && Bodies(r, "small_passives") == {b4}
  {
    var r := FourGroups(p1, b1, p2, b2, p3, b3, p4, b4);
    assert |"size"| == 4 && |"item_level"| == 10 && |"num_passives"| == 12 && |"small_passives"| == 14;
    assert Bodies(r, "size") == {b1} by {
      BodiesAt(p1, b1, p2, b2, p3, b3, p4, b4, "size");
    }
    assert Bodies(r, "item_level") == {b2} by {
      BodiesAt(p1, b1, p2, b2, p3, b3, p4, b4, "item_level");
    }
    assert Bodies(r, "num_passives") == {b3} by {
      BodiesAt(p1, b1, p2, b2, p3, b3, p4, b4, "num_passives");
    }
    assert Bodies(r, "small_passives") == {b4} by {
      BodiesAt(p1, b1, p2, b2, p3, b3, p4, b4, "small_passives");
    }
  }

  /**
   * The four named groups of the cluster pattern: every match captures each of them, and
   * each occurs once, with the body given.
   */
  lemma ClusterGroups()
    ensures Required(ClusterPattern) == {"size", "item_level", "num_passives", "small_passives"}
    ensures Bodies(ClusterPattern, "size") == {Plus(Class(WordOrSpace))}
    ensures Bodies(ClusterPattern, "item_level") == {Plus(D)}
    ensures Bodies(ClusterPattern, "num_passives") == {D}
    ensures Bodies(ClusterPattern, "small_passives") == {Plus(GrantLine)}
  {
    PreamblePlain();
    BeforeLevelPlain();
    BeforePassivesPlain();
    BeforeGrantsPlain();
    GrantLinesPlain();
    FourRequired(Preamble, Plus(Class(WordOrSpace)), BeforeLevel, Plus(D), BeforePassives, D, BeforeGrants, Plus(GrantLine));
    FourBodies(Preamble, Plus(Class(WordOrSpace)), BeforeLevel, Plus(D), BeforePassives, D, BeforeGrants, Plus(GrantLine));
  }

  // ---------------------------------------------------------------------------
  // What a cluster match captures
  // ---------------------------------------------------------------------------

  lemma DigitRun(w: string)
    requires InLang(Plus(D), w)
    ensures w != [] && AllDigits(w)
  {
    PlusClassLang([Digit], w);
    forall k | 0 <= k < |w| ensures IsDigit(w[k]) {
      InClassOne(Digit, w[k]);
    }
  }

  lemma OneDigit(w: string)
    requires InLang(D, w)
    ensures AllDigits(w) && DigitsValue(w) < 10
  {
    InClassOne(Digit, w[0]);
    assert Pow10(1) == 10;
  }

  /** Each named group of a cluster match captured a string of its sub-pattern's language. */
  lemma ClusterCaptures(t: string, c: Caps)
    requires Match(ClusterPattern, t) == Some(c)
    ensures ValidCaps(c, t)
    ensures "size" in c && InLang(Plus(Class(WordOrSpace)), Captured(t, c, "size"))
    ensures "item_level" in c && InLang(Plus(D), Captured(t, c, "item_level"))
    ensures "num_passives" in c && InLang(D, Captured(t, c, "num_passives"))
    ensures "small_passives" in c && InLang(Plus(GrantLine), Captured(t, c, "small_passives"))
  {
    ClusterGroups();
    MatchedGroup(ClusterPattern, t, c, "size", Plus(Class(WordOrSpace)));
    MatchedGroup(ClusterPattern, t, c, "item_level", Plus(D));
    MatchedGroup(ClusterPattern, t, c, "num_passives", D);
    MatchedGroup(ClusterPattern, t, c, "small_passives", Plus(GrantLine));
  }

  /** An item yields a cluster jewel exactly when the cluster pattern matches its stripped text. */
  lemma ClusterOfMatches(t: string)
    ensures ClusterOf(t).Some? <==> Match(ClusterPattern, t).Some?
  {
    if Match(ClusterPattern, t).Some? {
      var c := Match(ClusterPattern, t).value;
      ClusterCaptures(t, c);
      DigitRun(Captured(t, c, "item_level"));
      OneDigit(Captured(t, c, "num_passives"));
    }
  }

  /**
   * The fields of a cluster jewel: a non-empty size of word characters and spaces, a
   * passive count below ten, and small passives in canonical form made from one or more
   * small-passive texts `xs` (which `CanonicalJoin` turns into their `", "`-join).
   */
  lemma ClusterFields(t: string) returns (xs: seq<string>)
    requires ClusterOf(t).Some?
    ensures var j := ClusterOf(t).value;
      && j.size != [] && AllIn(WordOrSpace, j.size)
      && j.numPassives < 10
      && xs != [] && (forall k :: 0 <= k < |xs| ==> PassiveText(xs[k]))
      && j.smallPassives == Canonical(Block(xs))
  {
    ClusterOfMatches(t);
    var c := Match(ClusterPattern, t).value;
    ClusterCaptures(t, c);
    PlusClassLang(WordOrSpace, Captured(t, c, "size"));
    OneDigit(Captured(t, c, "num_passives"));
    xs := GrantBlockShape(Captured(t, c, "small_passives"));
  }
}
