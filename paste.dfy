/**
 * `get_pob_code_from_url`: a share link is reduced to its host and paste id, the host is
 * looked up in `BUILD_CODE_PATHS`, and the id is put into the host's raw-paste address.
 * The HTTP request is the parameter `get`.
 */
module PasteResolver {
  import opened Outcomes
  import opened Text
  import opened Regex

  /** `BUILD_CODE_PATHS`: the raw-paste address of each known host, `:id:` standing for the paste id. */
  const BuildCodePaths: map<string, string> := map[
    "pobb.in" := "https://pobb.in/:id:/raw",
    "pastebin.com" := "https://pastebin.com/raw/:id:"]

  const IdMarker: string := ":id:"

  const UrlWord: Re := Class([Word])

  /** `(http(s)?:\/\/)?(www.)?`, where `.` is any character but a newline. */
  const UrlPrefix: Re :=
    Cat(Opt(Cat(Lit("http"), Cat(Opt(Lit("s")), Lit("://")))), Opt(Cat(Lit("www"), Class([NotNewline]))))

  /** `\w+\.\w+` */
  const HostBody: Re := Cat(Plus(UrlWord), Cat(Lit("."), Plus(UrlWord)))

  /** The link pattern: the prefix, the group `url_base`, a `/`, and the group `paste_id` (`\w+`). */
  const UrlPattern: Re :=
    Cat(UrlPrefix, Cat(Group("url_base", HostBody), Cat(Lit("/"), Group("paste_id", Plus(UrlWord)))))

  /** What the walrus test keeps: the host and the paste id the search found, if `url` is non-empty. */
  function PasteLink(url: string): Option<(string, string)>
  {
    if url == [] then None
    else match Search(UrlPattern, url)
      case None => None
      case Some(c) =>
        // Both groups take part in every match (`UrlGroups`).
        if "url_base" in c && "paste_id" in c
        then Some((Captured(url, c, "url_base"), Captured(url, c, "paste_id")))
        else None
  }

  /** The address `get_pob_code_from_url` requests for `url`, or `None` when it returns before any request. */
  function RequestUrl(url: string): (r: Option<string>)
    ensures r.Some? ==> r.value != [] && PasteLink(url).Some? && PasteLink(url).value.0 in BuildCodePaths
  {
    match PasteLink(url)
    case None => None
    case Some((host, id)) =>
      var template := if host in BuildCodePaths then BuildCodePaths[host] else "";
      var u := ReplaceAll(template, IdMarker, id);
      if u == [] then None else Some(u)
  }

  /** The part of an HTTP response the function reads. */
  datatype Response = Response(status: int, text: string)

  /** `get_pob_code_from_url(url)`, where `get` performs `requests.get`. */
  function GetPobCodeFromUrl(url: string, get: string -> Outcome<Response>): (r: Outcome<Option<string>>)
    ensures RequestUrl(url).None? ==> r == Returned(None)
    ensures r.Returned? && r.value.Some? ==>
      RequestUrl(url).Some? && get(RequestUrl(url).value) == Returned(Response(200, r.value.value))
    ensures r.Raised? ==> RequestUrl(url).Some? && get(RequestUrl(url).value) == Raised(r.error)
    ensures RequestUrl(url).Some? && get(RequestUrl(url).value).Returned? && get(RequestUrl(url).value).value.status == 200 ==>
      r == Returned(Some(get(RequestUrl(url).value).value.text))
    ensures RequestUrl(url).Some? && get(RequestUrl(url).value).Returned? && get(RequestUrl(url).value).value.status != 200 ==>
      r == Returned(None)
    ensures RequestUrl(url).Some? && get(RequestUrl(url).value).Raised? ==> r == Raised(get(RequestUrl(url).value).error)
  {
    match RequestUrl(url)
    case None => Returned(None)
    case Some(u) =>
      match get(u)
      case Raised(e) => Raised(e)
      case Returned(resp) => if resp.status != 200 then Returned(None) else Returned(Some(resp.text))
  }

  // ---------------------------------------------------------------------------
  // The link pattern
  // ---------------------------------------------------------------------------

  lemma UrlPiecesPlain()
    ensures Plain(UrlPrefix) && Plain(HostBody) && Plain(Lit("/")) && Plain(Plus(UrlWord))
  {
  }

  /** Two groups with plain bodies, each after a plain piece, are both captured. */
  lemma TwoRequired(p: Re, m1: string, b1: Re, q: Re, m2: string, b2: Re)
    requires Plain(p) && Plain(b1) && Plain(q) && Plain(b2)
    ensures Required(Cat(p, Cat(Group(m1, b1), Cat(q, Group(m2, b2))))) == {m1, m2}
  {
    RequiredLast(q, m2, b2);
    RequiredStep(p, m1, b1, Cat(q, Group(m2, b2)));
  }

  /** Two differently named groups with plain bodies, each after a plain piece: the bodies of group `n`. */
  lemma TwoBodies(p: Re, m1: string, b1: Re, q: Re, m2: string, b2: Re, n: string)
    requires Plain(p) && Plain(b1) && Plain(q) && Plain(b2)
    ensures Bodies(Cat(p, Cat(Group(m1, b1), Cat(q, Group(m2, b2)))), n)
      == (if m1 == n then {b1} else {}) + (if m2 == n then {b2} else {})
  {
    BodiesLast(q, m2, b2, n);
    BodiesStep(p, m1, b1, Cat(q, Group(m2, b2)), n);
  }

  /** Every match of the link pattern captures both groups, each with the body given. */
  lemma UrlGroups()
    ensures Required(UrlPattern) == {"url_base", "paste_id"}
    ensures Bodies(UrlPattern, "url_base") == {HostBody}
    ensures Bodies(UrlPattern, "paste_id") == {Plus(UrlWord)}
  {
    UrlPiecesPlain();
    assert "url_base"[0] != "paste_id"[0];
    TwoRequired(UrlPrefix, "url_base", HostBody, Lit("/"), "paste_id", Plus(UrlWord));
    TwoBodies(UrlPrefix, "url_base", HostBody, Lit("/"), "paste_id", Plus(UrlWord), "url_base");
    TwoBodies(UrlPrefix, "url_base", HostBody, Lit("/"), "paste_id", Plus(UrlWord), "paste_id");
  }

  /** A string of `x`, then `d`, then `y`, split at its pieces. */
  lemma SplitAround(x: Re, d: string, y: Re, w: string) returns (a: string, b: string)
    requires InLang(Cat(x, Cat(Lit(d), y)), w)
    ensures w == a + d + b && InLang(x, a) && InLang(y, b)
  {
    var k := CatSplit(x, Cat(Lit(d), y), w);
    var rest := w[k..];
    var j := CatSplit(Lit(d), y, rest);
    a, b := w[..k], rest[j..];
    SplitThree(w, k, j, d);
  }

  lemma SplitThree(w: string, k: nat, j: nat, d: string)
    requires k <= |w| && j <= |w| - k && w[k..][..j] == d
    ensures w == w[..k] + d + w[k..][j..]
  {
    var rest := w[k..];
    assert rest == rest[..j] + rest[j..];
    assert w == w[..k] + rest;
  }

  /** A string of `\w+\.\w+`: two non-empty runs of word characters around a dot. */
  lemma HostShape(w: string) returns (a: string, b: string)
    requires InLang(HostBody, w)
    ensures w == a + "." + b
    ensures a != [] && AllIn([Word], a) && b != [] && AllIn([Word], b)
  {
    a, b := SplitAround(Plus(UrlWord), ".", Plus(UrlWord), w);
    PlusClassLang([Word], a);
    PlusClassLang([Word], b);
  }

  /**
   * A link is found exactly when `url` is non-empty and the pattern occurs in it; its host is
   * two runs of word characters around a dot, and its paste id a run of word characters.
   */
  lemma PasteLinkShape(url: string) returns (a: string, b: string)
    ensures PasteLink(url).Some? <==> url != [] && Search(UrlPattern, url).Some?
    ensures PasteLink(url).Some? ==>
      && PasteLink(url).value.0 == a + "." + b
      && a != [] && AllIn([Word], a) && b != [] && AllIn([Word], b)
      && PasteLink(url).value.1 != [] && AllIn([Word], PasteLink(url).value.1)
  {
    a, b := ".", ".";
    if url != [] && Search(UrlPattern, url).Some? {
      var c := Search(UrlPattern, url).value;
      UrlGroups();
      MatchedGroup(UrlPattern, url, c, "url_base", HostBody);
      MatchedGroup(UrlPattern, url, c, "paste_id", Plus(UrlWord));
      a, b := HostShape(Captured(url, c, "url_base"));
      PlusClassLang([Word], Captured(url, c, "paste_id"));
    }
  }

  // ---------------------------------------------------------------------------
  // The raw-paste addresses
  // ---------------------------------------------------------------------------

  /** No `:` in `w` is followed by an `i`. */
  predicate NoMarkerStart(w: string)
  {
    forall k :: 0 <= k < |w| - 1 ==> !(w[k] == ':' && w[k + 1] == 'i')
  }

  lemma MarkerChars(s: string, k: int)
    ensures OccursAt(s, IdMarker, k) ==> k + 1 < |s| && s[k] == ':' && s[k + 1] == 'i'
  {
    OccursChar(s, IdMarker, k, 0);
    OccursChar(s, IdMarker, k, 1);
  }

  /** The marker in `p + ":id:" + q` is replaced by `id`, when it starts in neither `p` nor `q`. */
  lemma ReplaceMarker(p: string, q: string, id: string)
    requires NoMarkerStart(p) && (p == [] || p[|p| - 1] != ':') && NoMarkerStart(q)
    ensures ReplaceAll(p + IdMarker + q, IdMarker, id) == p + id + q
  {
    var s := p + (IdMarker + q);
    assert p + IdMarker + q == s;
    forall k | 0 <= k < |p| ensures !OccursAt(s, IdMarker, k) {
      MarkerChars(s, k);
      if k + 1 < |p| {
        assert s[k] == p[k] && s[k + 1] == p[k + 1];
      } else {
        assert s[k] == p[|p| - 1];
      }
    }
    ReplaceSkip(p, IdMarker + q, IdMarker, id);
    ReplaceFront(q, IdMarker, id);
    forall k | 0 <= k < |q| ensures !OccursAt(q, IdMarker, k) {
      MarkerChars(q, k);
    }
  }

  lemma TemplateParts()
    ensures NoMarkerStart("https://pobb.in/") && NoMarkerStart("/raw") && NoMarkerStart("https://pastebin.com/raw/")
    ensures BuildCodePaths["pobb.in"] == "https://pobb.in/" + IdMarker + "/raw"
    ensures BuildCodePaths["pastebin.com"] == "https://pastebin.com/raw/" + IdMarker + []
  {
  }

  /** The address of a paste on `pobb.in`. */
  lemma PobbTemplate(id: string)
    ensures ReplaceAll(BuildCodePaths["pobb.in"], IdMarker, id) == "https://pobb.in/" + id + "/raw"
  {
    TemplateParts();
    ReplaceMarker("https://pobb.in/", "/raw", id);
  }

  /** The address of a paste on `pastebin.com`. */
  lemma PastebinTemplate(id: string)
    ensures ReplaceAll(BuildCodePaths["pastebin.com"], IdMarker, id) == "https://pastebin.com/raw/" + id
  {
    TemplateParts();
    ReplaceMarker("https://pastebin.com/raw/", [], id);
    assert "https://pastebin.com/raw/" + id + [] == "https://pastebin.com/raw/" + id;
  }

  /**
   * `get_pob_code_from_url` returns before any request exactly when the link is empty, the
   * pattern does not occur, or the host is not in `BUILD_CODE_PATHS`; otherwise it requests
   * the host's raw-paste address for the paste id.
   */
  lemma RequestUrlCases(url: string)
    ensures RequestUrl(url).None? <==> PasteLink(url).None? || PasteLink(url).value.0 !in BuildCodePaths
    ensures PasteLink(url).Some? && PasteLink(url).value.0 == "pobb.in" ==>
      RequestUrl(url) == Some("https://pobb.in/" + PasteLink(url).value.1 + "/raw")
    ensures PasteLink(url).Some? && PasteLink(url).value.0 == "pastebin.com" ==>
      RequestUrl(url) == Some("https://pastebin.com/raw/" + PasteLink(url).value.1)
  {
    if PasteLink(url).Some? {
      var (host, id) := PasteLink(url).value;
      PobbTemplate(id);
      PastebinTemplate(id);
      if host !in BuildCodePaths {
        assert ReplaceAll("", IdMarker, id) == [];
      }
    }
  }
}
