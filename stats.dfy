/**
 * `get_stats_from_xml`: the character summary and the allow-listed player stats read from
 * the `Build` element. `float(...)` is the parameter `parse`, which yields `None` where
 * Python raises `ValueError`; the numbers themselves stay abstract (the type `F`).
 */
module StatsExtractor {
  import opened Outcomes
  import opened Document

  /** `DISPLAY_STATS`: the player stats kept. */
  const DisplayStats: seq<string> := [
    "AverageHit", "AverageDamage", "Speed", "CritChance", "CritMultiplier", "CombinedDPS",
    "Dex", "Int", "Str", "PowerChargesMax", "FrenzyChargesMax", "EnduranceChargesMax",
    "TotalEHP", "Life", "Armour", "EnergyShield", "Evasion", "FireResist", "ColdResist",
    "LightningResist", "ChaosResist", "SpellSuppressionChance"]

  /** `name in DISPLAY_STATS` */
  predicate Displayed(name: string)
  {
    name in DisplayStats
  }

  /** One `(stat, float(value))` pair of `character['FullDPSSkill']`. */
  datatype Skill<F> = Skill(name: string, value: F)

  /**
   * The `character` dictionary of a build: its `level` and `class` entries, and its
   * `FullDPSSkill` entry when it has one.
   */
  datatype Character<F> = Character(level: string, characterClass: string, fullDps: Option<seq<Skill<F>>>)

  /** The pair `(character, display_stats)`; `character` is `None` for the empty dictionary `{}`. */
  datatype BuildStats<F> = BuildStats(character: Option<Character<F>>, display: map<string, F>)

  /** What the loop has gathered so far: the `FullDPSSkill` list, if created, and `display_stats`. */
  datatype Tally<F> = Tally(fullDps: Option<seq<Skill<F>>>, display: map<string, F>)

  function SkillsSoFar<F>(t: Tally<F>): seq<Skill<F>>
  {
    if t.fullDps.None? then [] else t.fullDps.value
  }

  /** One iteration of the loop, on the child `stat`. */
  function Visit<F>(t: Tally<F>, stat: Element, parse: string -> Option<F>): Outcome<Tally<F>>
  {
    var a := stat.attrib;
    if stat.tag != "PlayerStat" then
      if stat.tag == "FullDPSSkill" then
        if "stat" !in a then Raised(KeyError("stat"))
        else if "value" !in a then Raised(KeyError("value"))
        else match parse(a["value"])
          case None => Raised(ValueError)
          case Some(v) => Returned(Tally(Some(SkillsSoFar(t) + [Skill(a["stat"], v)]), t.display))
      else Returned(t)
    else if "stat" !in a then Raised(KeyError("stat"))
    else if "value" !in a then Raised(KeyError("value"))
    else if !Displayed(a["stat"]) then Returned(t)
    else match parse(a["value"])
      case None => Raised(ValueError)
      case Some(v) => Returned(Tally(t.fullDps, t.display[a["stat"] := v]))
  }

  /** The loop run over the children `cs`, in order; the first exception ends it. */
  function Tallied<F>(cs: seq<Element>, parse: string -> Option<F>): (r: Outcome<Tally<F>>)
    ensures r.Raised? ==> r.error == KeyError("stat") || r.error == KeyError("value") || r.error == ValueError
    ensures r.Returned? && r.value.fullDps.Some? ==> r.value.fullDps.value != []
    decreases |cs|
  {
    if cs == [] then Returned(Tally(None, map[]))
    else match Tallied(cs[..|cs| - 1], parse)
      case Raised(e) => Raised(e)
      case Returned(t) => Visit(t, cs[|cs| - 1], parse)
  }

  /** `get_stats_from_xml(root)`. */
  function BuildStatsOf<F>(root: Element, parse: string -> Option<F>): (r: Outcome<BuildStats<F>>)
    ensures !Truthy(Find(root, "Build")) ==> r == Returned(BuildStats(None, map[]))
    ensures r.Raised? ==> r.error.KeyError? || r.error == ValueError
    ensures r.Returned? ==> (r.value.character.Some? <==> Truthy(Find(root, "Build")))
  {
    var found := Find(root, "Build");
    if !Truthy(found) then Returned(BuildStats(None, map[]))
    else
      var a := found.value.attrib;
      if "level" !in a then Raised(KeyError("level"))
      // The default of `.get` is evaluated first, so `className` must be present.
      else if "className" !in a then Raised(KeyError("className"))
      else
        var cls := if "ascendClassName" in a then a["ascendClassName"] else a["className"];
        match Tallied(found.value.children, parse)
        case Raised(e) => Raised(e)
        case Returned(t) => Returned(BuildStats(Some(Character(a["level"], cls, t.fullDps)), t.display))
  }

  /** Once a prefix of the children has raised, the whole loop raises the same exception. */
  lemma {:induction false} RaisedStays<F>(cs: seq<Element>, i: nat, parse: string -> Option<F>)
    requires i <= |cs| && Tallied(cs[..i], parse).Raised?
    ensures Tallied(cs, parse) == Tallied(cs[..i], parse)
    decreases |cs| - i
  {
    if i < |cs| {
      var next := cs[..i + 1];
      assert next[..i] == cs[..i];
      RaisedStays(cs, i + 1, parse);
    } else {
      assert cs[..i] == cs;
    }
  }

  /** The loop's step on child `i`. */
  lemma VisitStep<F>(cs: seq<Element>, i: nat, t: Tally<F>, parse: string -> Option<F>)
    requires i < |cs| && Tallied(cs[..i], parse) == Returned(t)
    ensures Tallied(cs[..i + 1], parse) == Visit(t, cs[i], parse)
  {
    var p := cs[..i + 1];
    assert p[..|p| - 1] == cs[..i] && p[|p| - 1] == cs[i];
  }

  /** An exception of the loop escapes `get_stats_from_xml`. */
  lemma LoopRaises<F>(root: Element, parse: string -> Option<F>)
    requires Truthy(Find(root, "Build"))
    requires var a := Find(root, "Build").value.attrib; "level" in a && "className" in a
    requires Tallied(Find(root, "Build").value.children, parse).Raised?
    ensures BuildStatsOf(root, parse) == Raised(Tallied(Find(root, "Build").value.children, parse).error)
  {
  }

  /**
   * The body of the loop of `get_stats_from_xml` on the child `stat`: it updates the
   * `FullDPSSkill` list (created on the first such child) and `display_stats`.
   */
  method VisitChild<F>(fullDps: Option<seq<Skill<F>>>, display: map<string, F>, stat: Element, parse: string -> Option<F>)
    returns (r: Outcome<Tally<F>>)
    ensures r == Visit(Tally(fullDps, display), stat, parse)
  {
    var skills, stats := fullDps, display;
    if stat.tag != "PlayerStat" {
      if stat.tag == "FullDPSSkill" {
        if skills.None? {
          skills := Some([]);
        }
        if "stat" !in stat.attrib {
          return Raised(KeyError("stat"));
        }
        if "value" !in stat.attrib {
          return Raised(KeyError("value"));
        }
        var value := parse(stat.attrib["value"]);
        if value.None? {
          return Raised(ValueError);
        }
        skills := Some(skills.value + [Skill(stat.attrib["stat"], value.value)]);
      }
      return Returned(Tally(skills, stats));
    }
    if "stat" !in stat.attrib {
      return Raised(KeyError("stat"));
    }
    var statName := stat.attrib["stat"];
    if "value" !in stat.attrib {
      return Raised(KeyError("value"));
    }
    var statValue := stat.attrib["value"];
    if statName in DisplayStats {
      var value := parse(statValue);
      if value.None? {
        return Raised(ValueError);
      }
      stats := stats[statName := value.value];
    }
    return Returned(Tally(skills, stats));
  }

  /** `get_stats_from_xml(root)`, with its loop over the children of the `Build` element. */
  method GetStats<F>(root: Element, parse: string -> Option<F>) returns (r: Outcome<BuildStats<F>>)
    ensures r == BuildStatsOf(root, parse)
  {
    var statsRoot := Find(root, "Build");
    if !Truthy(statsRoot) {
      return Returned(BuildStats(None, map[]));
    }
    var build := statsRoot.value;
    if "level" !in build.attrib {
      return Raised(KeyError("level"));
    }
    if "className" !in build.attrib {
      return Raised(KeyError("className"));
    }
    var level := build.attrib["level"];
    var cls := if "ascendClassName" in build.attrib then build.attrib["ascendClassName"] else build.attrib["className"];
    var cs := build.children;
    var fullDps: Option<seq<Skill<F>>> := None;
    var display: map<string, F> := map[];
    var i := 0;
    while i < |cs|
      invariant i <= |cs|
      invariant Tallied(cs[..i], parse) == Returned(Tally(fullDps, display))
    {
      VisitStep(cs, i, Tally(fullDps, display), parse);
      var next := VisitChild(fullDps, display, cs[i], parse);
      if next.Raised? {
        RaisedStays(cs, i + 1, parse);
        LoopRaises(root, parse);
        return Raised(next.error);
      }
      fullDps, display := next.value.fullDps, next.value.display;
      i := i + 1;
    }
    assert cs[..i] == cs;
    return Returned(BuildStats(Some(Character(level, cls, fullDps)), display));
  }

  // ---------------------------------------------------------------------------
  // What the loop gathers
  // ---------------------------------------------------------------------------

  /** `e` is a `PlayerStat` child naming the stat `name`, with a `value` attribute. */
  predicate IsStatOf(e: Element, name: string)
  {
    e.tag == "PlayerStat" && "stat" in e.attrib && e.attrib["stat"] == name && "value" in e.attrib
  }

  /** A child the loop reads without raising. */
  predicate WellFormed<F>(e: Element, parse: string -> Option<F>)
  {
    var a := e.attrib;
    if e.tag == "PlayerStat" then
      "stat" in a && "value" in a && (Displayed(a["stat"]) ==> parse(a["value"]).Some?)
    else if e.tag == "FullDPSSkill" then
      "stat" in a && "value" in a && parse(a["value"]).Some?
    else true
  }

  /** The `(stat, value)` pairs of the well-formed `FullDPSSkill` children of `cs`, in order. */
  function DpsEntries<F>(cs: seq<Element>, parse: string -> Option<F>): seq<Skill<F>>
    decreases |cs|
  {
    if cs == [] then []
    else
      var e := cs[|cs| - 1];
      var entry := if e.tag == "FullDPSSkill" && WellFormed(e, parse)
        then [Skill(e.attrib["stat"], parse(e.attrib["value"]).value)] else [];
      DpsEntries(cs[..|cs| - 1], parse) + entry
  }

  predicate HasDpsChild(cs: seq<Element>)
  {
    exists k :: 0 <= k < |cs| && cs[k].tag == "FullDPSSkill"
  }

  /** A step raises exactly on a child that is not well-formed. */
  lemma VisitRaises<F>(t: Tally<F>, e: Element, parse: string -> Option<F>)
    ensures Visit(t, e, parse).Raised? <==> !WellFormed(e, parse)
  {
  }

  /** The last element of `cs`, and what comes before it. */
  lemma LastSplit<T>(cs: seq<T>)
    requires cs != []
    ensures cs == cs[..|cs| - 1] + [cs[|cs| - 1]]
  {
  }

  /** What a step that returns does to `display_stats`. */
  lemma VisitDisplay<F>(t: Tally<F>, e: Element, parse: string -> Option<F>)
    requires Visit(t, e, parse).Returned?
    ensures Visit(t, e, parse).value.display ==
      if e.tag == "PlayerStat" && Displayed(e.attrib["stat"])
      then t.display[e.attrib["stat"] := parse(e.attrib["value"]).value]
      else t.display
  {
  }

  /** What a step that returns does to the `FullDPSSkill` list. */
  lemma VisitDps<F>(t: Tally<F>, e: Element, parse: string -> Option<F>)
    requires Visit(t, e, parse).Returned?
    ensures Visit(t, e, parse).value.fullDps ==
      if e.tag == "FullDPSSkill"
      then Some(SkillsSoFar(t) + [Skill(e.attrib["stat"], parse(e.attrib["value"]).value)])
      else t.fullDps
  {
  }

  /** The loop raises exactly when some child is not well-formed. */
  lemma {:induction false} TalliedRaises<F>(cs: seq<Element>, parse: string -> Option<F>)
    ensures Tallied(cs, parse).Raised? <==> exists k :: 0 <= k < |cs| && !WellFormed(cs[k], parse)
    decreases |cs|
  {
    if cs != [] {
      var init, e := cs[..|cs| - 1], cs[|cs| - 1];
      TalliedRaises(init, parse);
      assert forall j :: 0 <= j < |init| ==> init[j] == cs[j];
      if Tallied(init, parse).Returned? {
        VisitRaises(Tallied(init, parse).value, e, parse);
      }
    }
  }

  /** Only allow-listed stats are kept. */
  lemma {:induction false} TalliedDisplayed<F>(cs: seq<Element>, parse: string -> Option<F>)
    requires Tallied(cs, parse).Returned?
    ensures forall n :: n in Tallied(cs, parse).value.display ==> Displayed(n)
    decreases |cs|
  {
    if cs != [] {
      TalliedDisplayed(cs[..|cs| - 1], parse);
    }
  }

  /** A stat is kept exactly when it is allow-listed and some `PlayerStat` child names it. */
  lemma {:induction false} TalliedKept<F>(cs: seq<Element>, parse: string -> Option<F>, n: string)
    requires Tallied(cs, parse).Returned?
    ensures n in Tallied(cs, parse).value.display <==> Displayed(n) && exists k :: 0 <= k < |cs| && IsStatOf(cs[k], n)
    decreases |cs|
  {
    if cs != [] {
      var init, e := cs[..|cs| - 1], cs[|cs| - 1];
      TalliedKept(init, parse, n);
      var t := Tallied(init, parse).value;
      VisitDisplay(t, e, parse);
      assert forall j :: 0 <= j < |init| ==> init[j] == cs[j];
      assert (exists k :: 0 <= k < |cs| && IsStatOf(cs[k], n))
        <==> (exists k :: 0 <= k < |init| && IsStatOf(init[k], n)) || IsStatOf(e, n) by {
        if IsStatOf(e, n) {
          assert IsStatOf(cs[|cs| - 1], n);
        }
      }
    }
  }

  /** Where the loop takes the value of stat `n` from: the last child, or the loop before it. */
  lemma LastWinsStep<F>(cs: seq<Element>, parse: string -> Option<F>, n: string)
    requires cs != [] && Tallied(cs, parse).Returned? && n in Tallied(cs, parse).value.display
    ensures var init, e, d := cs[..|cs| - 1], cs[|cs| - 1], Tallied(cs, parse).value.display;
      && Tallied(init, parse).Returned?
      && (IsStatOf(e, n) ==> parse(e.attrib["value"]) == Some(d[n]))
      && (!IsStatOf(e, n) ==> n in Tallied(init, parse).value.display && Tallied(init, parse).value.display[n] == d[n])
  {
    var init, e := cs[..|cs| - 1], cs[|cs| - 1];
    var t := Tallied(init, parse).value;
    assert Tallied(cs, parse) == Visit(t, e, parse);
    TalliedDisplayed(init, parse);
    VisitDisplay(t, e, parse);
    VisitRaises(t, e, parse);
  }

  /**
   * The value kept for stat `n` is the one of the last `PlayerStat` child naming it: a later
   * duplicate overwrites an earlier one.
   */
  lemma {:induction false} TalliedLastWins<F>(cs: seq<Element>, parse: string -> Option<F>, n: string) returns (k: nat)
    requires Tallied(cs, parse).Returned? && n in Tallied(cs, parse).value.display
    ensures k < |cs| && IsStatOf(cs[k], n)
    ensures parse(cs[k].attrib["value"]) == Some(Tallied(cs, parse).value.display[n])
    ensures forall j :: k < j < |cs| ==> !IsStatOf(cs[j], n)
    decreases |cs|
  {
    var init := cs[..|cs| - 1];
    LastWinsStep(cs, parse, n);
    if IsStatOf(cs[|cs| - 1], n) {
      k := |cs| - 1;
    } else {
      k := TalliedLastWins(init, parse, n);
      assert cs[k] == init[k];
      forall j | k < j < |cs|
        ensures !IsStatOf(cs[j], n)
      {
        if j < |init| {
          assert cs[j] == init[j];
        }
      }
    }
  }

  /**
   * The `FullDPSSkill` entry exists exactly when some child has that tag, and lists the
   * `(stat, value)` pairs of those children in document order.
   */
  lemma {:induction false} TalliedDps<F>(cs: seq<Element>, parse: string -> Option<F>)
    requires Tallied(cs, parse).Returned?
    ensures Tallied(cs, parse).value.fullDps == if HasDpsChild(cs) then Some(DpsEntries(cs, parse)) else None
    decreases |cs|
  {
    if cs != [] {
      var init, e := cs[..|cs| - 1], cs[|cs| - 1];
      TalliedDps(init, parse);
      var t := Tallied(init, parse).value;
      assert Tallied(cs, parse) == Visit(t, e, parse);
      VisitDps(t, e, parse);
      VisitRaises(t, e, parse);
      assert SkillsSoFar(t) == DpsEntries(init, parse) by {
        if !HasDpsChild(init) {
          NoDpsEntries(init, parse);
        }
      }
      assert HasDpsChild(cs) <==> HasDpsChild(init) || e.tag == "FullDPSSkill" by {
        assert forall j :: 0 <= j < |init| ==> init[j] == cs[j];
        if e.tag == "FullDPSSkill" {
          assert cs[|cs| - 1].tag == "FullDPSSkill";
        }
      }
      if e.tag == "FullDPSSkill" {
        assert DpsEntries(cs, parse) == DpsEntries(init, parse) + [Skill(e.attrib["stat"], parse(e.attrib["value"]).value)];
      } else {
        assert DpsEntries(cs, parse) == DpsEntries(init, parse);
      }
    }
  }

  lemma {:induction false} NoDpsEntries<F>(cs: seq<Element>, parse: string -> Option<F>)
    requires !HasDpsChild(cs)
    ensures DpsEntries(cs, parse) == []
    decreases |cs|
  {
    if cs != [] {
      var init := cs[..|cs| - 1];
      assert !HasDpsChild(init) by {
        assert forall j :: 0 <= j < |init| ==> init[j] == cs[j];
      }
      NoDpsEntries(init, parse);
      assert cs[|cs| - 1].tag != "FullDPSSkill";
    }
  }

  /** A child of any other tag changes nothing, wherever it stands. */
  lemma {:induction false} OtherTagsIgnored<F>(a: seq<Element>, e: Element, b: seq<Element>, parse: string -> Option<F>)
    requires e.tag != "PlayerStat" && e.tag != "FullDPSSkill"
    ensures Tallied(a + [e] + b, parse) == Tallied(a + b, parse)
    decreases |b|
  {
    if b == [] {
      assert a + [e] + b == a + [e];
      assert (a + [e])[..|a|] == a;
      assert a + b == a;
    } else {
      var b' := b[..|b| - 1];
      OtherTagsIgnored(a, e, b', parse);
      assert (a + [e] + b)[..|a + [e] + b| - 1] == a + [e] + b';
      assert (a + b)[..|a + b| - 1] == a + b';
      assert (a + [e] + b)[|a + [e] + b| - 1] == b[|b| - 1] == (a + b)[|a + b| - 1];
    }
  }

  // ---------------------------------------------------------------------------
  // What `get_stats_from_xml` returns
  // ---------------------------------------------------------------------------

  /** The children of the `Build` element of a document that has a non-empty one. */
  function BuildChildren(root: Element): seq<Element>
    requires Truthy(Find(root, "Build"))
  {
    Find(root, "Build").value.children
  }

  /**
   * `level` is read first and must be present; `className` is read next (as the default of
   * `.get`) and must be present too; `class` is `ascendClassName` when the build has one.
   */
  lemma ClassFallback<F>(root: Element, parse: string -> Option<F>)
    requires Truthy(Find(root, "Build"))
    ensures var a := Find(root, "Build").value.attrib;
      "level" !in a ==> BuildStatsOf(root, parse) == Raised(KeyError("level"))
    ensures var a := Find(root, "Build").value.attrib;
      "level" in a && "className" !in a ==> BuildStatsOf(root, parse) == Raised(KeyError("className"))
    ensures var a, r := Find(root, "Build").value.attrib, BuildStatsOf(root, parse);
      r.Returned? ==>
        && r.value.character.Some?
        && r.value.character.value.level == a["level"]
        && r.value.character.value.characterClass == (if "ascendClassName" in a then a["ascendClassName"] else a["className"])
  {
  }

  /** With `level` and `className` present, the call raises exactly when some child is not well-formed. */
  lemma StatsRaise<F>(root: Element, parse: string -> Option<F>)
    requires Truthy(Find(root, "Build"))
    requires var a := Find(root, "Build").value.attrib; "level" in a && "className" in a
    ensures var cs := BuildChildren(root);
      BuildStatsOf(root, parse).Raised? <==> exists k :: 0 <= k < |cs| && !WellFormed(cs[k], parse)
  {
    TalliedRaises(BuildChildren(root), parse);
  }

  /** Every key of `display_stats` is in `DISPLAY_STATS`. */
  lemma StatsAllowListed<F>(root: Element, parse: string -> Option<F>)
    ensures var r := BuildStatsOf(root, parse);
      r.Returned? ==> forall n :: n in r.value.display ==> n in DisplayStats
  {
    if Truthy(Find(root, "Build")) && BuildStatsOf(root, parse).Returned? {
      TalliedDisplayed(BuildChildren(root), parse);
    }
  }

  /** A stat is reported exactly when it is allow-listed and some `PlayerStat` child of `Build` names it. */
  lemma StatsKept<F>(root: Element, parse: string -> Option<F>, n: string)
    requires Truthy(Find(root, "Build")) && BuildStatsOf(root, parse).Returned?
    ensures var cs := BuildChildren(root);
      n in BuildStatsOf(root, parse).value.display
      <==> n in DisplayStats && exists k :: 0 <= k < |cs| && IsStatOf(cs[k], n)
  {
    TalliedKept(BuildChildren(root), parse, n);
  }

  /** The value reported for a stat is the one of the last `PlayerStat` child naming it. */
  lemma StatsLastWins<F>(root: Element, parse: string -> Option<F>, n: string) returns (k: nat)
    requires Truthy(Find(root, "Build")) && BuildStatsOf(root, parse).Returned?
    requires n in BuildStatsOf(root, parse).value.display
    ensures var cs := BuildChildren(root);
      && k < |cs| && IsStatOf(cs[k], n)
      && parse(cs[k].attrib["value"]) == Some(BuildStatsOf(root, parse).value.display[n])
      && forall j :: k < j < |cs| ==> !IsStatOf(cs[j], n)
  {
    k := TalliedLastWins(BuildChildren(root), parse, n);
  }

  /**
   * `character['FullDPSSkill']` exists exactly when `Build` has a `FullDPSSkill` child, and
   * lists the `(stat, value)` pairs of those children in document order.
   */
  lemma StatsFullDps<F>(root: Element, parse: string -> Option<F>)
    requires Truthy(Find(root, "Build")) && BuildStatsOf(root, parse).Returned?
    ensures var cs := BuildChildren(root);
      BuildStatsOf(root, parse).value.character.value.fullDps
      == if HasDpsChild(cs) then Some(DpsEntries(cs, parse)) else None
  {
    TalliedDps(BuildChildren(root), parse);
  }
}
