/**
 * The part of Python's `re` module the extractors rely on: a backtracking matcher for
 * patterns built from character sets, concatenation, greedy `?` and `*`, and named groups
 * `(?P<name>...)`. `Ms` lists every way a pattern can match at a position, in the order
 * Python's matcher tries them, so the first entry is the match `re` reports.
 */
module Regex {
  import opened Text
  import opened Outcomes

  /** One member of a character set `[...]`. */
  datatype ClassItem = Char(c: char) | Word | Digit | Space | NotNewline

  /** A pattern. Unnamed groups only group, so they are not represented. */
  datatype Re =
    | Empty                           // matches the empty string
    | Lit(text: string)               // the characters of `text`, in order
    | Class(items: seq<ClassItem>)    // one character from the union of `items`
    | Cat(first: Re, rest: Re)        // `first` then `rest`
    | Opt(body: Re)                   // greedy `body?`
    | Star(body: Re)                  // greedy `body*`
    | Group(name: string, body: Re)   // `(?P<name>body)`

  predicate ItemHas(item: ClassItem, x: char)
  {
    match item
    case Char(c) => x == c
    case Word => IsWordChar(x)
    case Digit => IsDigit(x)
    case Space => IsSpace(x)
    case NotNewline => x != '\n'
  }

  predicate InClass(items: seq<ClassItem>, x: char)
  {
    items != [] && (ItemHas(items[0], x) || InClass(items[1..], x))
  }

  lemma InClassOne(item: ClassItem, x: char)
    ensures InClass([item], x) <==> ItemHas(item, x)
  {
    assert [item][1..] == [];
  }

  /** Greedy `r+`. */
  function Plus(r: Re): Re
  {
    Cat(r, Star(r))
  }

  /** The span `[lo, hi)` of the subject that a group captured. */
  datatype Span = Span(lo: nat, hi: nat)

  type Caps = map<string, Span>

  /** One way of matching: where it ends and what the groups captured. */
  datatype Hit = Hit(end: nat, caps: Caps)

  predicate ValidCaps(c: Caps, s: string)
  {
    forall n :: n in c ==> c[n].lo <= c[n].hi <= |s|
  }

  predicate EndsWithin(hs: seq<Hit>, lo: nat, s: string)
  {
    forall k :: 0 <= k < |hs| ==> lo <= hs[k].end <= |s| && ValidCaps(hs[k].caps, s)
  }

  /**
   * All the ways `r` matches `s` starting at `i`, given the captures `caps` made so far,
   * in the order in which Python's backtracking matcher tries them.
   */
  function Ms(r: Re, s: string, i: nat, caps: Caps): (hs: seq<Hit>)
    requires i <= |s| && ValidCaps(caps, s)
    ensures EndsWithin(hs, i, s)
    decreases |s| - i, r, 0, 0
  {
    match r
    case Empty => [Hit(i, caps)]
    case Lit(t) => if OccursAt(s, t, i) then [Hit(i + |t|, caps)] else []
    case Class(items) => if i < |s| && InClass(items, s[i]) then [Hit(i + 1, caps)] else []
    case Cat(a, b) => Then(b, s, Ms(a, s, i, caps), i)
    case Opt(a) => Ms(a, s, i, caps) + [Hit(i, caps)]
    case Star(a) => Again(a, s, Ms(a, s, i, caps), i) + [Hit(i, caps)]
    case Group(n, a) => Tag(n, i, s, Ms(a, s, i, caps))
  }

  /** Continue each way in `hs` with `b`, in order. */
  function Then(b: Re, s: string, hs: seq<Hit>, i0: nat): (rs: seq<Hit>)
    requires i0 <= |s| && EndsWithin(hs, i0, s)
    ensures EndsWithin(rs, i0, s)
    decreases |s| - i0, b, 1, |hs|
  {
    if hs == [] then []
    else Ms(b, s, hs[0].end, hs[0].caps) + Then(b, s, hs[1..], i0)
  }

  /**
   * After one more iteration of a star's body ended at each entry of `hs`, go on with
   * the star. An iteration that consumed nothing is not repeated.
   */
  function Again(a: Re, s: string, hs: seq<Hit>, i0: nat): (rs: seq<Hit>)
    requires i0 <= |s| && EndsWithin(hs, i0, s)
    ensures EndsWithin(rs, i0, s)
    decreases |s| - i0, a, 1, |hs|
  {
    if hs == [] then []
    else
      (if hs[0].end > i0 then Ms(Star(a), s, hs[0].end, hs[0].caps) else [])
      + Again(a, s, hs[1..], i0)
  }

  /** Record that group `n` captured from `i` to the end of each way in `hs`. */
  function Tag(n: string, i: nat, s: string, hs: seq<Hit>): (rs: seq<Hit>)
    requires i <= |s| && EndsWithin(hs, i, s)
    ensures |rs| == |hs| && EndsWithin(rs, i, s)
    ensures forall k :: 0 <= k < |hs| ==> rs[k] == Hit(hs[k].end, hs[k].caps[n := Span(i, hs[k].end)])
  {
    seq(|hs|, k requires 0 <= k < |hs| => Hit(hs[k].end, hs[k].caps[n := Span(i, hs[k].end)]))
  }

  /** `pattern.match(s)`: the captures of the first match that starts at 0. */
  function Match(r: Re, s: string): (m: Option<Caps>)
    ensures m.Some? <==> Ms(r, s, 0, map[]) != []
    ensures m.Some? ==> m.value == Ms(r, s, 0, map[])[0].caps && ValidCaps(m.value, s)
  {
    var hs := Ms(r, s, 0, map[]);
    if hs == [] then None else Some(hs[0].caps)
  }

  /** `r` matches `s` at start position `q`. */
  predicate MatchesAt(r: Re, s: string, q: int)
  {
    0 <= q <= |s| && Ms(r, s, q, map[]) != []
  }

  /** `pattern.search(s)`: the captures of the first match at the leftmost start that has one. */
  function Search(r: Re, s: string): (m: Option<Caps>)
    ensures m.Some? <==> exists q :: MatchesAt(r, s, q)
    ensures m.Some? ==> ValidCaps(m.value, s)
  {
    SearchFrom(r, s, 0)
  }

  function SearchFrom(r: Re, s: string, q: nat): (m: Option<Caps>)
    requires q <= |s|
    ensures m.Some? <==> exists p :: q <= p && MatchesAt(r, s, p)
    ensures m.Some? ==> ValidCaps(m.value, s)
    ensures Ms(r, s, q, map[]) != [] ==> m == Some(Ms(r, s, q, map[])[0].caps)
    decreases |s| - q
  {
    var hs := Ms(r, s, q, map[]);
    if hs != [] then
      assert MatchesAt(r, s, q);
      Some(hs[0].caps)
    else if q == |s| then None
    else
      var m := SearchFrom(r, s, q + 1);
      assert (exists p :: q <= p && MatchesAt(r, s, p)) ==> m.Some? by {
        if p :| q <= p && MatchesAt(r, s, p) {
          assert p != q;
        }
      }
      m
  }

  /** The text a group captured. */
  function Captured(s: string, c: Caps, n: string): string
    requires n in c && ValidCaps(c, s)
  {
    s[c[n].lo..c[n].hi]
  }

  // ---------------------------------------------------------------------------
  // The language of a pattern, and soundness of the matcher with respect to it
  // ---------------------------------------------------------------------------

  /** `w` is one of the strings `r` describes. */
  predicate InLang(r: Re, w: string)
    decreases |w|, r
  {
    match r
    case Empty => w == []
    case Lit(t) => w == t
    case Class(items) => |w| == 1 && InClass(items, w[0])
    case Cat(a, b) => exists k :: 0 <= k <= |w| && InLang(a, w[..k]) && InLang(b, w[k..])
    case Opt(a) => w == [] || InLang(a, w)
    case Star(a) => w == [] || exists k :: 0 < k <= |w| && InLang(a, w[..k]) && InLang(Star(a), w[k..])
    case Group(_, a) => InLang(a, w)
  }

  /** The bodies of the groups named `n` in `r`. */
  function Bodies(r: Re, n: string): set<Re>
  {
    match r
    case Empty => {}
    case Lit(_) => {}
    case Class(_) => {}
    case Cat(a, b) => Bodies(a, n) + Bodies(b, n)
    case Opt(a) => Bodies(a, n)
    case Star(a) => Bodies(a, n)
    case Group(m, a) => (if m == n then {a} else {}) + Bodies(a, n)
  }

  /** The names of the groups every match of `r` captures. */
  function Required(r: Re): set<string>
  {
    match r
    case Cat(a, b) => Required(a) + Required(b)
    case Group(n, a) => {n} + Required(a)
    case _ => {}
  }

  /** `r` has no named group. */
  predicate Plain(r: Re)
  {
    match r
    case Empty => true
    case Lit(_) => true
    case Class(_) => true
    case Cat(a, b) => Plain(a) && Plain(b)
    case Opt(a) => Plain(a)
    case Star(a) => Plain(a)
    case Group(_, _) => false
  }

  /** A pattern without groups captures nothing. */
  lemma PlainNoGroups(r: Re, n: string)
    requires Plain(r)
    ensures Bodies(r, n) == {} && Required(r) == {}
  {
  }

  /** A plain piece, then a group with a plain body, then `rest`: the group's name is captured. */
  lemma RequiredStep(p: Re, m: string, b: Re, rest: Re)
    requires Plain(p) && Plain(b)
    ensures Required(Cat(p, Cat(Group(m, b), rest))) == {m} + Required(rest)
  {
    PlainNoGroups(p, m);
    PlainNoGroups(b, m);
    assert Required(Group(m, b)) == {m};
  }

  /** A plain piece, then a group with a plain body, then `rest`: the group's body is its only body. */
  lemma BodiesStep(p: Re, m: string, b: Re, rest: Re, n: string)
    requires Plain(p) && Plain(b)
    ensures Bodies(Cat(p, Cat(Group(m, b), rest)), n) == (if m == n then {b} else {}) + Bodies(rest, n)
  {
    PlainNoGroups(p, n);
    PlainNoGroups(b, n);
    assert Bodies(Group(m, b), n) == if m == n then {b} else {};
  }

  /** A plain piece, then a group with a plain body. */
  lemma RequiredLast(p: Re, m: string, b: Re)
    requires Plain(p) && Plain(b)
    ensures Required(Cat(p, Group(m, b))) == {m}
  {
    PlainNoGroups(p, m);
    PlainNoGroups(b, m);
    assert Required(Group(m, b)) == {m};
  }

  lemma BodiesLast(p: Re, m: string, b: Re, n: string)
    requires Plain(p) && Plain(b)
    ensures Bodies(Cat(p, Group(m, b)), n) == if m == n then {b} else {}
  {
    PlainNoGroups(p, n);
    PlainNoGroups(b, n);
    assert Bodies(Group(m, b), n) == if m == n then {b} else {};
  }

  /** The span `sp` of `s` is in the language of some group named `n` in `r`. */
  predicate FromGroup(r: Re, n: string, s: string, sp: Span)
  {
    sp.lo <= sp.hi <= |s| && exists g :: g in Bodies(r, n) && InLang(g, s[sp.lo..sp.hi])
  }

  /** The captures `c` extend `c0` by what the groups of `r` captured. */
  predicate CapsFrom(r: Re, s: string, c0: Caps, c: Caps)
  {
    && c0.Keys + Required(r) <= c.Keys
    && forall n :: n in c ==> (n in c0 && c[n] == c0[n]) || FromGroup(r, n, s, c[n])
  }

  lemma {:induction false} ThenMember(b: Re, s: string, hs: seq<Hit>, i0: nat, h: Hit) returns (k: nat)
    requires i0 <= |s| && EndsWithin(hs, i0, s)
    requires h in Then(b, s, hs, i0)
    ensures k < |hs| && h in Ms(b, s, hs[k].end, hs[k].caps)
    decreases |hs|
  {
    if h in Ms(b, s, hs[0].end, hs[0].caps) {
      k := 0;
    } else {
      var k' := ThenMember(b, s, hs[1..], i0, h);
      k := k' + 1;
    }
  }

  lemma {:induction false} AgainMember(a: Re, s: string, hs: seq<Hit>, i0: nat, h: Hit) returns (k: nat)
    requires i0 <= |s| && EndsWithin(hs, i0, s)
    requires h in Again(a, s, hs, i0)
    ensures k < |hs| && hs[k].end > i0 && h in Ms(Star(a), s, hs[k].end, hs[k].caps)
    decreases |hs|
  {
    var first := if hs[0].end > i0 then Ms(Star(a), s, hs[0].end, hs[0].caps) else [];
    var rest := Again(a, s, hs[1..], i0);
    assert Again(a, s, hs, i0) == first + rest;
    if h in first {
      k := 0;
    } else {
      assert h in rest;
      var k' := AgainMember(a, s, hs[1..], i0, h);
      k := k' + 1;
      assert hs[k] == hs[1..][k'];
    }
  }

  lemma CatLang(a: Re, b: Re, s: string, i: nat, j: nat, e: nat)
    requires i <= j <= e <= |s|
    requires InLang(a, s[i..j]) && InLang(b, s[j..e])
    ensures InLang(Cat(a, b), s[i..e])
  {
    var w := s[i..e];
    assert w[..j - i] == s[i..j] && w[j - i..] == s[j..e];
  }

  /** A split point of a string of `Cat(a, b)`. */
  lemma CatSplit(a: Re, b: Re, w: string) returns (j: nat)
    requires InLang(Cat(a, b), w)
    ensures j <= |w| && InLang(a, w[..j]) && InLang(b, w[j..])
  {
    j :| 0 <= j <= |w| && InLang(a, w[..j]) && InLang(b, w[j..]);
  }

  lemma StarLang(a: Re, s: string, i: nat, j: nat, e: nat)
    requires i < j <= e <= |s|
    requires InLang(a, s[i..j]) && InLang(Star(a), s[j..e])
    ensures InLang(Star(a), s[i..e])
  {
    var w := s[i..e];
    assert w[..j - i] == s[i..j] && w[j - i..] == s[j..e];
  }

  /**
   * Every way the matcher finds is a string of the pattern's language, and every
   * group it reports captured a string of that group's language.
   */
  lemma {:induction false} MsSound(r: Re, s: string, i: nat, caps: Caps, h: Hit)
    requires i <= |s| && ValidCaps(caps, s)
    requires h in Ms(r, s, i, caps)
    ensures i <= h.end <= |s|
    ensures InLang(r, s[i..h.end])
    ensures CapsFrom(r, s, caps, h.caps)
    decreases |s| - i, r, 1
  {
    var hs := Ms(r, s, i, caps);
    assert EndsWithin(hs, i, s);
    match r
    case Empty =>
    case Lit(t) =>
      assert h == Hit(i + |t|, caps);
    case Class(items) =>
    case Cat(a, b) =>
      MsSoundCat(a, b, s, i, caps, h);
    case Opt(a) =>
      if h in Ms(a, s, i, caps) {
        MsSound(a, s, i, caps, h);
      }
    case Star(a) =>
      MsSoundStar(a, s, i, caps, h);
    case Group(n0, a) =>
      MsSoundGroup(n0, a, s, i, caps, h);
  }

  lemma {:induction false} MsSoundCat(a: Re, b: Re, s: string, i: nat, caps: Caps, h: Hit)
    requires i <= |s| && ValidCaps(caps, s)
    requires h in Ms(Cat(a, b), s, i, caps)
    ensures i <= h.end <= |s|
    ensures InLang(Cat(a, b), s[i..h.end])
    ensures CapsFrom(Cat(a, b), s, caps, h.caps)
    decreases |s| - i, Cat(a, b), 0
  {
    var r := Cat(a, b);
    assert EndsWithin(Ms(r, s, i, caps), i, s);
    var ha := Ms(a, s, i, caps);
    var k := ThenMember(b, s, ha, i, h);
    var m := ha[k];
    MsSound(a, s, i, caps, m);
    MsSound(b, s, m.end, m.caps, h);
    CatLang(a, b, s, i, m.end, h.end);
    forall n | n in h.caps
      ensures (n in caps && h.caps[n] == caps[n]) || FromGroup(r, n, s, h.caps[n])
    {
      if !(n in m.caps && h.caps[n] == m.caps[n]) {
        var g :| g in Bodies(b, n) && InLang(g, s[h.caps[n].lo..h.caps[n].hi]);
        assert g in Bodies(r, n);
      } else if !(n in caps && m.caps[n] == caps[n]) {
        var g :| g in Bodies(a, n) && InLang(g, s[m.caps[n].lo..m.caps[n].hi]);
        assert g in Bodies(r, n);
      }
    }
  }

  lemma {:induction false} MsSoundStar(a: Re, s: string, i: nat, caps: Caps, h: Hit)
    requires i <= |s| && ValidCaps(caps, s)
    requires h in Ms(Star(a), s, i, caps)
    ensures i <= h.end <= |s|
    ensures InLang(Star(a), s[i..h.end])
    ensures CapsFrom(Star(a), s, caps, h.caps)
    decreases |s| - i, Star(a), 0
  {
    var r := Star(a);
    assert EndsWithin(Ms(r, s, i, caps), i, s);
    var ha := Ms(a, s, i, caps);
    if h in Again(a, s, ha, i) {
      var k := AgainMember(a, s, ha, i, h);
      var m := ha[k];
      MsSound(a, s, i, caps, m);
      MsSound(Star(a), s, m.end, m.caps, h);
      StarLang(a, s, i, m.end, h.end);
      forall n | n in h.caps
        ensures (n in caps && h.caps[n] == caps[n]) || FromGroup(r, n, s, h.caps[n])
      {
        if !(n in m.caps && h.caps[n] == m.caps[n]) {
          assert FromGroup(Star(a), n, s, h.caps[n]);
        } else if !(n in caps && m.caps[n] == caps[n]) {
          var g :| g in Bodies(a, n) && InLang(g, s[m.caps[n].lo..m.caps[n].hi]);
          assert g in Bodies(r, n);
        }
      }
    } else {
      assert h == Hit(i, caps);
      assert s[i..h.end] == [];
    }
  }

  lemma {:induction false} MsSoundGroup(n0: string, a: Re, s: string, i: nat, caps: Caps, h: Hit)
    requires i <= |s| && ValidCaps(caps, s)
    requires h in Ms(Group(n0, a), s, i, caps)
    ensures i <= h.end <= |s|
    ensures InLang(Group(n0, a), s[i..h.end])
    ensures CapsFrom(Group(n0, a), s, caps, h.caps)
    decreases |s| - i, Group(n0, a), 0
  {
    var r := Group(n0, a);
    var hs := Ms(r, s, i, caps);
    assert EndsWithin(hs, i, s);
    var ha := Ms(a, s, i, caps);
    var k :| 0 <= k < |ha| && h == hs[k];
    var m := ha[k];
    assert h == Hit(m.end, m.caps[n0 := Span(i, m.end)]);
    MsSound(a, s, i, caps, m);
    forall n | n in h.caps
      ensures (n in caps && h.caps[n] == caps[n]) || FromGroup(r, n, s, h.caps[n])
    {
      if n == n0 {
        assert a in Bodies(r, n);
      } else if !(n in caps && m.caps[n] == caps[n]) {
        var g :| g in Bodies(a, n) && InLang(g, s[m.caps[n].lo..m.caps[n].hi]);
        assert g in Bodies(r, n);
      }
    }
  }

  /** A group that every match captures, and that occurs once, captured a string of its language. */
  lemma MatchedGroup(r: Re, s: string, c: Caps, n: string, g: Re)
    requires Match(r, s) == Some(c) || Search(r, s) == Some(c)
    requires n in Required(r) && Bodies(r, n) == {g}
    ensures n in c && ValidCaps(c, s) && InLang(g, Captured(s, c, n))
  {
    var q: nat;
    if Match(r, s) == Some(c) {
      q := 0;
    } else {
      q := SearchStart(r, s, 0);
    }
    var hs := Ms(r, s, q, map[]);
    assert c == hs[0].caps;
    MsSound(r, s, q, map[], hs[0]);
  }

  /** The start position of the match `Search` reports. */
  lemma {:induction false} SearchStart(r: Re, s: string, q: nat) returns (p: nat)
    requires q <= |s| && SearchFrom(r, s, q).Some?
    ensures q <= p <= |s| && Ms(r, s, p, map[]) != [] && SearchFrom(r, s, q) == Some(Ms(r, s, p, map[])[0].caps)
    decreases |s| - q
  {
    if Ms(r, s, q, map[]) != [] {
      p := q;
    } else {
      p := SearchStart(r, s, q + 1);
    }
  }

  /** The search passes over start positions where the pattern does not match. */
  lemma {:induction false} SearchSkips(r: Re, s: string, q: nat, p: nat)
    requires q <= p <= |s|
    requires forall j :: q <= j < p ==> !MatchesAt(r, s, j)
    ensures SearchFrom(r, s, q) == SearchFrom(r, s, p)
    decreases p - q
  {
    if q < p {
      assert !MatchesAt(r, s, q);
      SearchSkips(r, s, q + 1, p);
    }
  }

  // ---------------------------------------------------------------------------
  // What the matcher computes for sequences and runs of one character set
  // ---------------------------------------------------------------------------

  lemma ThenSingle(b: Re, s: string, h: Hit, i0: nat)
    requires i0 <= h.end <= |s| && ValidCaps(h.caps, s)
    ensures Then(b, s, [h], i0) == Ms(b, s, h.end, h.caps)
  {
    assert [h][1..] == [];
  }

  /** The first way found by `Then` comes from the first way of `hs` that `b` can continue. */
  lemma ThenHead(b: Re, s: string, hs: seq<Hit>, i0: nat)
    requires i0 <= |s| && EndsWithin(hs, i0, s) && hs != []
    ensures Ms(b, s, hs[0].end, hs[0].caps) != [] ==>
      Then(b, s, hs, i0) != [] && Then(b, s, hs, i0)[0] == Ms(b, s, hs[0].end, hs[0].caps)[0]
    ensures Ms(b, s, hs[0].end, hs[0].caps) == [] ==> Then(b, s, hs, i0) == Then(b, s, hs[1..], i0)
  {
  }

  /** When `b` continues none of the ways but the first, only the first counts. */
  lemma {:induction false} ThenFirstOnly(b: Re, s: string, hs: seq<Hit>, i0: nat)
    requires i0 <= |s| && EndsWithin(hs, i0, s) && hs != []
    requires forall k :: 1 <= k < |hs| ==> Ms(b, s, hs[k].end, hs[k].caps) == []
    ensures Then(b, s, hs, i0) == Ms(b, s, hs[0].end, hs[0].caps)
  {
    ThenNone(b, s, hs[1..], i0);
  }

  lemma {:induction false} ThenNone(b: Re, s: string, hs: seq<Hit>, i0: nat)
    requires i0 <= |s| && EndsWithin(hs, i0, s)
    requires forall k :: 0 <= k < |hs| ==> Ms(b, s, hs[k].end, hs[k].caps) == []
    ensures Then(b, s, hs, i0) == []
    decreases |hs|
  {
    if hs != [] {
      ThenNone(b, s, hs[1..], i0);
    }
  }

  /** The end of the longest run of characters of `items` that starts at `i`. */
  function RunEnd(items: seq<ClassItem>, s: string, i: nat): (e: nat)
    requires i <= |s|
    ensures i <= e <= |s|
    ensures forall k :: i <= k < e ==> InClass(items, s[k])
    ensures e == |s| || !InClass(items, s[e])
    decreases |s| - i
  {
    if i < |s| && InClass(items, s[i]) then RunEnd(items, s, i + 1) else i
  }

  /** The ends `hi`, `hi - 1`, ..., `lo`, longest first. */
  function Run(lo: nat, hi: nat, c: Caps): (hs: seq<Hit>)
    requires lo <= hi
    ensures |hs| == hi - lo + 1
    ensures forall k :: 0 <= k < |hs| ==> hs[k] == Hit(hi - k, c)
    decreases hi - lo
  {
    if lo == hi then [Hit(lo, c)] else Run(lo + 1, hi, c) + [Hit(lo, c)]
  }

  /** A greedy star over one character set tries the longest run first, then each shorter one. */
  lemma {:induction false} MsStarClass(items: seq<ClassItem>, s: string, i: nat, c: Caps)
    requires i <= |s| && ValidCaps(c, s)
    ensures Ms(Star(Class(items)), s, i, c) == Run(i, RunEnd(items, s, i), c)
    decreases |s| - i
  {
    var C := Class(items);
    if i < |s| && InClass(items, s[i]) {
      var e := RunEnd(items, s, i);
      assert e == RunEnd(items, s, i + 1) && i < e;
      assert Ms(C, s, i, c) == [Hit(i + 1, c)];
      MsStarClass(items, s, i + 1, c);
      var longer := Ms(Star(C), s, i + 1, c);
      assert Again(C, s, [Hit(i + 1, c)], i) == longer + Again(C, s, [], i);
      assert longer + [] == longer;
      assert Run(i, e, c) == Run(i + 1, e, c) + [Hit(i, c)];
    } else {
      assert Ms(C, s, i, c) == [];
    }
  }

  /** A greedy `+` over one character set. */
  lemma MsPlusClass(items: seq<ClassItem>, s: string, i: nat, c: Caps)
    requires i <= |s| && ValidCaps(c, s)
    ensures Ms(Plus(Class(items)), s, i, c) ==
      if i < |s| && InClass(items, s[i]) then Run(i + 1, RunEnd(items, s, i), c) else []
  {
    var C := Class(items);
    if i < |s| && InClass(items, s[i]) {
      assert Ms(C, s, i, c) == [Hit(i + 1, c)];
      ThenSingle(Star(C), s, Hit(i + 1, c), i);
      MsStarClass(items, s, i + 1, c);
    } else {
      assert Ms(C, s, i, c) == [];
    }
  }

  // ---------------------------------------------------------------------------
  // The first way of a pattern, built from the first ways of its parts
  // ---------------------------------------------------------------------------

  /** `h` is the first way `r` matches `s` at `i` with captures `c`: the one `re` reports. */
  predicate FirstIs(r: Re, s: string, i: nat, c: Caps, h: Hit)
  {
    i <= |s| && ValidCaps(c, s) && Ms(r, s, i, c) != [] && Ms(r, s, i, c)[0] == h
  }

  /** A pattern whose first way is `h` is reported by `match` with `h`'s captures. */
  lemma MatchFirst(r: Re, s: string, h: Hit)
    requires FirstIs(r, s, 0, map[], h)
    ensures Match(r, s) == Some(h.caps)
  {
  }

  lemma FirstLit(t: string, s: string, i: nat, c: Caps)
    requires ValidCaps(c, s) && OccursAt(s, t, i)
    ensures FirstIs(Lit(t), s, i, c, Hit(i + |t|, c))
  {
  }

  lemma FirstClass(items: seq<ClassItem>, s: string, i: nat, c: Caps)
    requires ValidCaps(c, s) && i < |s| && InClass(items, s[i])
    ensures FirstIs(Class(items), s, i, c, Hit(i + 1, c))
  {
  }

  /** `a` then `b`: the first way of `a`, continued by the first way of `b` from there. */
  lemma FirstCat(a: Re, b: Re, s: string, i: nat, c: Caps, h1: Hit, h2: Hit)
    requires FirstIs(a, s, i, c, h1) && FirstIs(b, s, h1.end, h1.caps, h2)
    ensures FirstIs(Cat(a, b), s, i, c, h2)
  {
    ThenHead(b, s, Ms(a, s, i, c), i);
  }

  /** A group records the span of its body's first way. */
  lemma FirstGroup(n: string, a: Re, s: string, i: nat, c: Caps, h: Hit)
    requires FirstIs(a, s, i, c, h)
    ensures FirstIs(Group(n, a), s, i, c, Hit(h.end, h.caps[n := Span(i, h.end)]))
  {
  }

  /** When the body of `a?` does not match, `a?` matches the empty string. */
  lemma FirstOptSkip(a: Re, s: string, i: nat, c: Caps)
    requires i <= |s| && ValidCaps(c, s) && Ms(a, s, i, c) == []
    ensures FirstIs(Opt(a), s, i, c, Hit(i, c))
  {
  }

  /** When the body of `a*` does not match, `a*` matches the empty string. */
  lemma FirstStarStop(a: Re, s: string, i: nat, c: Caps)
    requires i <= |s| && ValidCaps(c, s) && Ms(a, s, i, c) == []
    ensures FirstIs(Star(a), s, i, c, Hit(i, c))
  {
  }

  /** A non-empty run of `items` from `i` to `e` that cannot be extended: `[...]+` takes all of it. */
  lemma FirstPlusClass(items: seq<ClassItem>, s: string, i: nat, e: nat, c: Caps)
    requires ValidCaps(c, s) && i < e <= |s|
    requires forall k :: i <= k < e ==> InClass(items, s[k])
    requires e == |s| || !InClass(items, s[e])
    ensures FirstIs(Plus(Class(items)), s, i, c, Hit(e, c))
  {
    MsPlusClass(items, s, i, c);
    RunEndIs(items, s, i, e);
  }

  lemma {:induction false} RunEndIs(items: seq<ClassItem>, s: string, i: nat, e: nat)
    requires i <= e <= |s|
    requires forall k :: i <= k < e ==> InClass(items, s[k])
    requires e == |s| || !InClass(items, s[e])
    ensures RunEnd(items, s, i) == e
    decreases e - i
  {
    if i < e {
      RunEndIs(items, s, i + 1, e);
    }
  }

  /** A concatenation whose first part cannot match does not match. */
  lemma CatFails(a: Re, b: Re, s: string, i: nat, c: Caps)
    requires i <= |s| && ValidCaps(c, s) && Ms(a, s, i, c) == []
    ensures Ms(Cat(a, b), s, i, c) == []
  {
  }

  // ---------------------------------------------------------------------------
  // Languages of literals and of runs of one character set
  // ---------------------------------------------------------------------------

  predicate AllIn(items: seq<ClassItem>, w: string)
  {
    forall k :: 0 <= k < |w| ==> InClass(items, w[k])
  }

  lemma {:induction false} StarClassLang(items: seq<ClassItem>, w: string)
    ensures InLang(Star(Class(items)), w) <==> AllIn(items, w)
    decreases |w|
  {
    if w != [] {
      if InLang(Star(Class(items)), w) {
        var k :| 0 < k <= |w| && InLang(Class(items), w[..k]) && InLang(Star(Class(items)), w[k..]);
        StarClassLang(items, w[k..]);
        assert k == 1;
        forall j | 0 <= j < |w| ensures InClass(items, w[j]) {
          if j > 0 { assert w[j] == w[k..][j - 1]; }
        }
      }
      if AllIn(items, w) {
        StarClassLang(items, w[1..]);
        assert InLang(Class(items), w[..1]);
      }
    }
  }

  lemma PlusClassLang(items: seq<ClassItem>, w: string)
    ensures InLang(Plus(Class(items)), w) <==> w != [] && AllIn(items, w)
  {
    if InLang(Plus(Class(items)), w) {
      var k :| 0 <= k <= |w| && InLang(Class(items), w[..k]) && InLang(Star(Class(items)), w[k..]);
      StarClassLang(items, w[k..]);
      assert k == 1;
      forall j | 0 <= j < |w| ensures InClass(items, w[j]) {
        if j > 0 { assert w[j] == w[k..][j - 1]; } else { assert w[j] == w[..k][0]; }
      }
    }
    if w != [] && AllIn(items, w) {
      StarClassLang(items, w[1..]);
      assert InLang(Class(items), w[..1]);
    }
  }
}
