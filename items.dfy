/**
 * The item extractors' common part, and `get_uniques_from_xml`. Both extractors scan the
 * children of the document's `Items` element with the same list comprehension, and differ
 * only in the pattern that recognises an item's stripped text.
 */
module ItemExtractor {
  import opened Outcomes
  import opened Text
  import opened Regex
  import opened Document

  datatype UniqueItem = UniqueItem(name: string)

  // ---------------------------------------------------------------------------
  // The comprehension `[... for item in items_xml if item.tag == 'Item' and (m := p.match(item.text.strip()))]`
  // ---------------------------------------------------------------------------

  /** The comprehension's condition holds of child `c`. */
  predicate Accepted<T>(c: Element, recognise: string -> Option<T>)
  {
    c.tag == "Item" && c.text.Some? && recognise(Strip(c.text.value)).Some?
  }

  /** Child `c` makes `item.text.strip()` raise, because an `Item` element has no text. */
  predicate Textless(c: Element)
  {
    c.tag == "Item" && c.text.None?
  }

  /** What the comprehension yields for an accepted child. */
  function Entry<T>(c: Element, recognise: string -> Option<T>): T
    requires Accepted(c, recognise)
  {
    recognise(Strip(c.text.value)).value
  }

  /** The comprehension over `cs`. */
  function Scan<T>(cs: seq<Element>, recognise: string -> Option<T>): (r: Outcome<seq<T>>)
    ensures r.Raised? ==> r.error == AttributeError
    ensures r.Returned? ==> |r.value| <= |cs|
    decreases |cs|
  {
    if cs == [] then Returned([])
    else if cs[0].tag != "Item" then Scan(cs[1..], recognise)
    else if cs[0].text.None? then Raised(AttributeError)
    else match Scan(cs[1..], recognise)
      case Raised(e) => Raised(e)
      case Returned(rest) =>
        match recognise(Strip(cs[0].text.value))
        case None => Returned(rest)
        case Some(x) => Returned([x] + rest)
  }

  /** The comprehension raises exactly when some `Item` child has no text. */
  lemma {:induction false} ScanRaises<T>(cs: seq<Element>, recognise: string -> Option<T>)
    ensures Scan(cs, recognise).Raised? <==> exists k :: 0 <= k < |cs| && Textless(cs[k])
    decreases |cs|
  {
    if cs != [] {
      ScanRaises(cs[1..], recognise);
      if exists k :: 1 <= k < |cs| && Textless(cs[k]) {
        var k :| 1 <= k < |cs| && Textless(cs[k]);
        assert Textless(cs[1..][k - 1]);
      }
      if exists k :: 0 <= k < |cs[1..]| && Textless(cs[1..][k]) {
        var k :| 0 <= k < |cs[1..]| && Textless(cs[1..][k]);
        assert Textless(cs[k + 1]);
      }
    }
  }

  /** What the comprehension does with the single child `c`. */
  function Contribution<T>(c: Element, recognise: string -> Option<T>): Outcome<seq<T>>
  {
    if Textless(c) then Raised(AttributeError)
    else if Accepted(c, recognise) then Returned([Entry(c, recognise)])
    else Returned([])
  }

  /** The comprehension's result over two consecutive parts: the first error, else both lists in order. */
  function Combine<T>(x: Outcome<seq<T>>, y: Outcome<seq<T>>): Outcome<seq<T>>
  {
    if x.Raised? then x else if y.Raised? then y else Returned(x.value + y.value)
  }

  lemma CombineAssoc<T>(x: Outcome<seq<T>>, y: Outcome<seq<T>>, z: Outcome<seq<T>>)
    ensures Combine(x, Combine(y, z)) == Combine(Combine(x, y), z)
  {
    if x.Returned? && y.Returned? && z.Returned? {
      assert x.value + (y.value + z.value) == (x.value + y.value) + z.value;
    }
  }

  /** The comprehension over a child then `rest`. */
  lemma ScanCons<T>(c: Element, rest: seq<Element>, recognise: string -> Option<T>)
    ensures Scan([c] + rest, recognise) == Combine(Contribution(c, recognise), Scan(rest, recognise))
  {
    var cs := [c] + rest;
    assert cs[0] == c && cs[1..] == rest;
    if c.tag == "Item" && c.text.Some? {
      match recognise(Strip(c.text.value))
      case None =>
        if Scan(rest, recognise).Returned? {
          assert [] + Scan(rest, recognise).value == Scan(rest, recognise).value;
        }
      case Some(x) =>
    }
  }

  /** The comprehension over a single child is that child's contribution. */
  lemma ScanSingle<T>(c: Element, recognise: string -> Option<T>)
    ensures Scan([c], recognise) == Contribution(c, recognise)
  {
    ScanCons(c, [], recognise);
    assert [c] + [] == [c];
    if Contribution(c, recognise).Returned? {
      assert Contribution(c, recognise).value + [] == Contribution(c, recognise).value;
    }
  }

  /** The comprehension over `a + b`: it raises if either part does, else it concatenates. */
  lemma {:induction false} ScanConcat<T>(a: seq<Element>, b: seq<Element>, recognise: string -> Option<T>)
    ensures Scan(a + b, recognise) == Combine(Scan(a, recognise), Scan(b, recognise))
    decreases |a|
  {
    if a == [] {
      assert a + b == b;
      if Scan(b, recognise).Returned? {
        assert [] + Scan(b, recognise).value == Scan(b, recognise).value;
      }
    } else {
      var c, a' := a[0], a[1..];
      assert a == [c] + a';
      assert a + b == [c] + (a' + b);
      ScanCons(c, a' + b, recognise);
      ScanConcat(a', b, recognise);
      ScanCons(c, a', recognise);
      CombineAssoc(Contribution(c, recognise), Scan(a', recognise), Scan(b, recognise));
    }
  }

  /** `Items` in the shape the extractors read it. */
  predicate HasItems(root: Element)
  {
    Truthy(Find(root, "Items"))
  }

  function ItemChildren(root: Element): seq<Element>
    requires HasItems(root)
  {
    Find(root, "Items").value.children
  }

  /** The body of both extractors: `[]` when `Items` is missing or empty, else the comprehension. */
  function ScanItems<T>(root: Element, recognise: string -> Option<T>): (r: Outcome<seq<T>>)
    ensures !HasItems(root) ==> r == Returned([])
    ensures HasItems(root) ==> r == Scan(ItemChildren(root), recognise)
  {
    var items := Find(root, "Items");
    if !Truthy(items) then Returned([]) else Scan(items.value.children, recognise)
  }

  /**
   * When the extractors return `[]` and when they raise: `[]` without a non-empty `Items`;
   * otherwise `AttributeError` exactly when an `Item` child has no text. The entries
   * themselves, in document order, follow from `ScanSingle` and `ScanConcat`.
   */
  lemma ScanItemsSpec<T>(root: Element, recognise: string -> Option<T>)
    ensures !HasItems(root) ==> ScanItems(root, recognise) == Returned([])
    ensures HasItems(root) ==>
      var cs := ItemChildren(root);
      (ScanItems(root, recognise).Raised? <==> exists k :: 0 <= k < |cs| && Textless(cs[k]))
  {
    if HasItems(root) {
      var cs := ItemChildren(root);
      ScanRaises(cs, recognise);
    }
  }

  /** Two children with the same recognised text give two equal entries: nothing is deduplicated. */
  lemma DuplicatesKept<T>(c: Element, recognise: string -> Option<T>)
    requires Accepted(c, recognise)
    ensures Scan([c, c], recognise) == Returned([Entry(c, recognise), Entry(c, recognise)])
  {
    var x := Entry(c, recognise);
    assert Scan([c], recognise) == Returned([x]) by {
      ScanSingle(c, recognise);
    }
    assert Scan([c] + [c], recognise) == Returned([x] + [x]) by {
      ScanConcat([c], [c], recognise);
    }
    assert [c] + [c] == [c, c];
    assert [x] + [x] == [x, x];
  }

  // ---------------------------------------------------------------------------
  // What the matcher computes for a literal, then a named run ended by a newline
  // ---------------------------------------------------------------------------

  /** A pattern that starts with a literal matches at 0 only after that literal. */
  lemma MsAfterLit(h: string, rest: Re, t: string)
    ensures Ms(Cat(Lit(h), rest), t, 0, map[]) == if OccursAt(t, h, 0) then Ms(rest, t, |h|, map[]) else []
  {
    if OccursAt(t, h, 0) {
      ThenSingle(rest, t, Hit(|h|, map[]), 0);
    }
  }

  lemma OccursOne(t: string, ch: char, e: nat)
    ensures OccursAt(t, [ch], e) <==> e < |t| && t[e] == ch
  {
    if e < |t| {
      assert t[e..e + 1] == [t[e]];
    }
  }

  /** A shorter run than the longest is never followed by the newline. */
  lemma ShorterRunsFail(n: string, items: seq<ClassItem>, t: string, i: nat, c: Caps, g: seq<Hit>)
    requires i < |t| && ValidCaps(c, t) && !InClass(items, '\n')
    requires g == Ms(Group(n, Plus(Class(items))), t, i, c) && g != []
    ensures forall k :: 1 <= k < |g| ==> Ms(Lit("\n"), t, g[k].end, g[k].caps) == []
  {
    MsPlusClass(items, t, i, c);
    var e := RunEnd(items, t, i);
    forall k | 1 <= k < |g|
      ensures Ms(Lit("\n"), t, g[k].end, g[k].caps) == []
    {
      assert g[k].end == e - k;
      OccursOne(t, '\n', e - k);
    }
  }

  /**
   * `(?P<n>[items]+)\n` at `i`, for a set that excludes the newline: the longest run,
   * which must be non-empty and followed by a newline.
   */
  lemma MsRunThenNewline(n: string, items: seq<ClassItem>, t: string, i: nat, c: Caps)
    requires i <= |t| && ValidCaps(c, t) && !InClass(items, '\n')
    ensures Ms(Cat(Group(n, Plus(Class(items))), Lit("\n")), t, i, c) ==
      if i < |t| && InClass(items, t[i]) && RunEnd(items, t, i) < |t| && t[RunEnd(items, t, i)] == '\n'
      then [Hit(RunEnd(items, t, i) + 1, c[n := Span(i, RunEnd(items, t, i))])]
      else []
  {
    if i < |t| && InClass(items, t[i]) {
      RunThenNewlineFrom(n, items, t, i, c);
    } else {
      MsPlusClass(items, t, i, c);
      assert Ms(Group(n, Plus(Class(items))), t, i, c) == [];
    }
  }

  /** The case where the run is non-empty: only its longest version can be followed by the newline. */
  lemma RunThenNewlineFrom(n: string, items: seq<ClassItem>, t: string, i: nat, c: Caps)
    requires i < |t| && ValidCaps(c, t) && !InClass(items, '\n') && InClass(items, t[i])
    ensures Ms(Cat(Group(n, Plus(Class(items))), Lit("\n")), t, i, c) ==
      if RunEnd(items, t, i) < |t| && t[RunEnd(items, t, i)] == '\n'
      then [Hit(RunEnd(items, t, i) + 1, c[n := Span(i, RunEnd(items, t, i))])]
      else []
  {
    var g := Ms(Group(n, Plus(Class(items))), t, i, c);
    var e := RunEnd(items, t, i);
    var c' := c[n := Span(i, e)];
    assert g != [] && g[0] == Hit(e, c') by {
      MsPlusClass(items, t, i, c);
    }
    assert Ms(Cat(Group(n, Plus(Class(items))), Lit("\n")), t, i, c) == Ms(Lit("\n"), t, e, c') by {
      ShorterRunsFail(n, items, t, i, c, g);
      ThenFirstOnly(Lit("\n"), t, g, i);
    }
    assert OccursAt(t, "\n", e) <==> e < |t| && t[e] == '\n' by {
      OccursOne(t, '\n', e);
    }
  }

  // ---------------------------------------------------------------------------
  // Unique items: `^Rarity: UNIQUE\n(?P<item_name>[\w \']+)\n`
  // ---------------------------------------------------------------------------

  const UniqueHeader: string := "Rarity: UNIQUE\n"

  /** `[\w \']`: the characters of a unique item's name. */
  const NameChars: seq<ClassItem> := [Word, Char(' '), Char('\'')]

  /** `(?P<item_name>[\w \']+)\n` */
  const NameLine: Re := Cat(Group("item_name", Plus(Class(NameChars))), Lit("\n"))

  /** The unique pattern; `^` is implied, since `match` only tries position 0. */
  const UniquePattern: Re := Cat(Lit(UniqueHeader), NameLine)

  /** `UniqueItem(name=m.group('item_name'))` if the pattern matches `t`. */
  function UniqueOf(t: string): Option<UniqueItem>
  {
    match Match(UniquePattern, t)
    case None => None
    case Some(c) => if "item_name" in c then Some(UniqueItem(Captured(t, c, "item_name"))) else None
  }

  /** `get_uniques_from_xml(root)`. */
  function GetUniques(root: Element): (r: Outcome<seq<UniqueItem>>)
    ensures !HasItems(root) ==> r == Returned([])
  {
    ScanItems(root, UniqueOf)
  }

  /** `(?P<n>[items]+)\n` at `i` with nothing captured yet. */
  lemma RunThenNewlineFresh(n: string, items: seq<ClassItem>, t: string, i: nat)
    requires i <= |t| && !InClass(items, '\n')
    ensures Ms(Cat(Group(n, Plus(Class(items))), Lit("\n")), t, i, map[]) ==
      if i < |t| && InClass(items, t[i]) && RunEnd(items, t, i) < |t| && t[RunEnd(items, t, i)] == '\n'
      then [Hit(RunEnd(items, t, i) + 1, map[n := Span(i, RunEnd(items, t, i))])]
      else []
  {
    MsRunThenNewline(n, items, t, i, map[]);
    if i < |t| {
      var e := RunEnd(items, t, i);
      var empty: Caps := map[];
      assert empty[n := Span(i, e)] == map[n := Span(i, e)];
    }
  }

  /** A text of the shape `h`, `n`, newline is matched with the run ending after `n`. */
  lemma RunLineForward(h: string, items: seq<ClassItem>, t: string, n: string)
    requires |t| > |h| + |n| && t[..|h|] == h && t[|h|..|h| + |n|] == n && t[|h| + |n|] == '\n'
    requires n != [] && AllIn(items, n) && !InClass(items, '\n')
    ensures OccursAt(t, h, 0) && InClass(items, t[|h|]) && RunEnd(items, t, |h|) == |h| + |n|
  {
    forall k | |h| <= k < |h| + |n|
      ensures InClass(items, t[k])
    {
      assert t[k] == n[k - |h|];
    }
    RunEndIs(items, t, |h|, |h| + |n|);
    assert t[0..|h|] == t[..|h|];
  }

  /** Conversely, a match has that shape, with `n` the run after the header. */
  lemma RunLineBackward(h: string, items: seq<ClassItem>, t: string)
    requires OccursAt(t, h, 0) && |h| < |t| && InClass(items, t[|h|])
    requires RunEnd(items, t, |h|) < |t| && t[RunEnd(items, t, |h|)] == '\n'
    ensures var n := t[|h|..RunEnd(items, t, |h|)];
      && |t| > |h| + |n| && t[..|h|] == h && t[|h|..|h| + |n|] == n && t[|h| + |n|] == '\n'
      && n != [] && AllIn(items, n)
  {
    var e := RunEnd(items, t, |h|);
    var n := t[|h|..e];
    forall k | 0 <= k < |n|
      ensures InClass(items, n[k])
    {
      assert n[k] == t[|h| + k];
    }
  }

  lemma NameCharFacts(c: char)
    ensures InClass(NameChars, c) <==> IsWordChar(c) || c == ' ' || c == '\''
  {
    var r1 := NameChars[1..];
    assert r1 == [Char(' '), Char('\'')];
    assert r1[1..] == [Char('\'')];
    assert InClass(NameChars, c) <==> IsWordChar(c) || InClass(r1, c);
    assert InClass(r1, c) <==> c == ' ' || InClass(r1[1..], c);
    InClassOne(Char('\''), c);
  }

  /** The name the unique pattern finds in `t`, if it matches. */
  function NameEnd(t: string): nat
    requires 15 <= |t|
  {
    RunEnd(NameChars, t, 15)
  }

  /**
   * What the unique pattern computes: after the header, the longest run of name characters,
   * which must be non-empty and followed by a newline.
   */
  lemma UniqueOfComputed(t: string)
    ensures UniqueOf(t) ==
      if OccursAt(t, UniqueHeader, 0) && 15 < |t| && InClass(NameChars, t[15])
         && NameEnd(t) < |t| && t[NameEnd(t)] == '\n'
      then Some(UniqueItem(t[15..NameEnd(t)]))
      else None
  {
    assert |UniqueHeader| == 15;
    NameCharFacts('\n');
    MsAfterLit(UniqueHeader, NameLine, t);
    if OccursAt(t, UniqueHeader, 0) {
      RunThenNewlineFresh("item_name", NameChars, t, 15);
    }
  }

  /**
   * The unique pattern accepts `t` with name `n` exactly when `t` is the header, then `n`,
   * a non-empty string of word characters, spaces and apostrophes, then a newline.
   */
  lemma UniqueOfIff(t: string, n: string)
    ensures UniqueOf(t) == Some(UniqueItem(n)) <==>
      && |t| > 15 + |n|
      && t[..15] == UniqueHeader
      && t[15..15 + |n|] == n
      && t[15 + |n|] == '\n'
      && n != [] && AllIn(NameChars, n)
  {
    UniqueOfComputed(t);
    NameCharFacts('\n');
    assert |UniqueHeader| == 15;
    var shaped := |t| > 15 + |n| && t[..15] == UniqueHeader && t[15..15 + |n|] == n && t[15 + |n|] == '\n'
      && n != [] && AllIn(NameChars, n);
    if shaped {
      RunLineForward(UniqueHeader, NameChars, t, n);
    }
    if UniqueOf(t) == Some(UniqueItem(n)) {
      RunLineBackward(UniqueHeader, NameChars, t);
    }
  }

  /** The header, a name, then a newline and anything: the name is what the extractor reports. */
  lemma NamedItem(name: string, tail: string)
    requires name != [] && AllIn(NameChars, name)
    requires tail != [] && tail[0] == '\n'
    ensures UniqueOf(UniqueHeader + (name + tail)) == Some(UniqueItem(name))
  {
    var t := UniqueHeader + (name + tail);
    assert |UniqueHeader| == 15;
    assert t[..15] == UniqueHeader;
    assert t[15..15 + |name|] == name;
    assert t[15 + |name|] == tail[0];
    UniqueOfIff(t, name);
  }

  /** The example of a unique item's text block: its name is the line after the rarity. */
  lemma HeadhunterExample()
    ensures UniqueOf("Rarity: UNIQUE\nHeadhunter\nLeather Belt") == Some(UniqueItem("Headhunter"))
  {
    var n := "Headhunter";
    var tail := "\nLeather Belt";
    assert "Rarity: UNIQUE\nHeadhunter\nLeather Belt" == UniqueHeader + (n + tail);
    forall k | 0 <= k < |n| ensures InClass(NameChars, n[k]) {
      NameCharFacts(n[k]);
    }
    NamedItem(n, tail);
  }
}
