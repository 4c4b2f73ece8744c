# LeagueStartAuditor build reader, modelled in Dafny

LeagueStartAuditor reads a Path of Building share link or build code and extracts what it
needs for pricing. That is the unique items, the cluster jewels and the character's stats.
This project models that reading core, `pobutils.py`, and proves what it computes:

- **Link resolution** (`PasteResolver`, `get_pob_code_from_url`):
  - a paste link is reduced by its regular expression to a host and a paste id;
  - the host is looked up in `BUILD_CODE_PATHS`;
  - `:id:` in the host's template is replaced by the id;
  - the raw paste is requested, and its text is returned on status 200.
- **Decoding** (`BuildDecoder`, `read_pob_to_xml`):
  - an empty code gives `None`;
  - base64 and zlib errors give `None`;
  - an XML parse error escapes.
- **Item extraction** (`ItemExtractor`, `Clusters`, `SmallPassives`):
  - `get_uniques_from_xml` and `get_clusters_from_xml` scan the children of the `Items` element;
  - each child is matched against a pattern;
  - for a cluster jewel, the captured "Added Small Passive Skills grant:" lines are reduced to one comma-separated string.
- **Stats extraction** (`StatsExtractor`, `get_stats_from_xml`):
  - one loop over the children of the `Build` element;
  - it builds the character summary, with the ascendancy falling back to the base class and the `FullDPSSkill` list created on first use;
  - it builds the allow-listed `display_stats`.

Supporting modules:

- `Outcomes`: Python's `None`, and the exceptions that can escape a call.
- `Document`: the parsed XML tree, `Element.find` and `Element` truthiness.
- `Text`: `str.strip`, `str.replace` and `int` of a digit string, and `Join` (`", ".join`), against which the canonical small-passive string is stated.
- `Regex`: a backtracking matcher with Python's `re` priority.
  - `Ms` lists every way a pattern matches at a position, in the order `re` tries them.
  - `Match` and `Search` take the first one.
  - It is proved sound: every match is in the pattern's language, and every required group is captured.
  - `FirstCat` and its companions compute the reported match of a pattern from the first ways of its parts.
- `RecogniserOverlap`: one item text that both the unique pattern and the cluster pattern accept.
  - The cluster pattern is run on any text laid out as its pieces in order.
  - One such text is then instantiated: a unique whose name line is followed by cluster-jewel lines.

The three regular expressions of the source are written in that matcher's terms. Their
groups are proved to be captured whenever they match, so the record fields built from them
are always defined. Python exceptions are values (`Outcome`): a `KeyError` on a missing
attribute, an `AttributeError` for an `Item` without text, and a `ValueError` from
`float`.

`get_stats_from_xml` updates a dictionary and a list in a loop, so `StatsExtractor.GetStats`
is a method with a `while` loop. It is proved equal to the specification function
`BuildStatsOf`. Everything else in the source is an expression, so it is modelled as
functions with lemmas.

Behaviour of `pobutils.py` that a reader might not expect:

- `read_pob_to_xml` catches only `zlib.error` and `binascii.Error`. `ET.fromstring` runs in the `else` clause, so a parse error escapes.
- A transport error of `requests.get` escapes `get_pob_code_from_url`.
- The character `level` is the attribute's string; it is never converted to an integer.
- A cluster jewel's `size` is the captured text, whatever words it holds.
- The two recognisers are independent, and one item can satisfy both. A unique whose name line is followed by the lines of a cluster jewel is reported twice: by `get_uniques_from_xml` as the unique, and by `get_clusters_from_xml` as a cluster jewel (`RecogniserOverlap.BothExtractors`).

## Model

| member | source | states |
|---|---|---|
| Document.Find | pobutils.py:84 | `find` returns the first child with the tag, and `None` exactly when no child has that tag. |
| Document.Truthy | pobutils.py:112 | The `if not ...` tests of `find`'s result: an element is false when absent or when it has no children. The same test guards `Items` (lines 85 and 97). |
| Document.FirstTagged | pobutils.py:84 | The child `find` picks is the first one with the tag: no earlier child has it. |
| Text.Strip | pobutils.py:92 | The result is the input with an all-whitespace prefix and suffix removed, and neither of its ends is whitespace. |
| Text.StripSpaceTail | pobutils.py:105 | Stripping a string whose ends are not whitespace, followed by whitespace, gives back that string. |
| Text.RStripSpaceTail | pobutils.py:105 | A right strip removes exactly a trailing run of whitespace. |
| Text.ReplaceAll | pobutils.py:105 | `replace` leaves a string without an occurrence of the pattern unchanged. |
| Text.ReplaceSkip | pobutils.py:105 | `replace` copies a prefix in which no occurrence starts, and continues on the rest. |
| Text.ReplaceFront | pobutils.py:60 | An occurrence at the front is replaced, and scanning resumes after it: non-overlapping, left to right. |
| Text.DigitsValue | pobutils.py:103-104 | `int` of an n-digit string is below 10^n. |
| Regex.Ms | pobutils.py:87 | Every way a pattern can match at a position, in the order Python's backtracking tries them. Each ends within the text. Its properties are `MsSound`, `MsPlusClass` and `MsStarClass`. |
| Regex.Match | pobutils.py:87 | `match` succeeds exactly when the matcher finds a way to match at position 0. Its captures are those of the first way, which is Python's choice. |
| Regex.Search | pobutils.py:58 | `search` succeeds exactly when the pattern matches at some start position. |
| Regex.SearchFrom | pobutils.py:58 | A search from a position where the pattern matches reports that position's first match. |
| Regex.SearchStart | pobutils.py:58 | A successful search reports the first match at some start position where the pattern matches. |
| Regex.SearchSkips | pobutils.py:58 | The search passes over start positions where the pattern does not match, so it reports the leftmost match. |
| Regex.MsSound | pobutils.py:87 | Every way of matching spans a string of the pattern's language, and captures only that way's groups. |
| Regex.MatchedGroup | pobutils.py:90 | A group that every match takes part in is captured by a successful `match` or `search`, and its text is in the language of the group's body. |
| Regex.MsPlusClass | pobutils.py:87 | A greedy `[...]+` tries the longest run first, then each shorter non-empty run. |
| Regex.PlusClassLang | pobutils.py:87 | The strings of `[...]+` are the non-empty strings of the set's characters. |
| ItemExtractor.Scan | pobutils.py:89-92 | The comprehension can raise only `AttributeError`, and yields at most one entry per child. |
| ItemExtractor.ScanRaises | pobutils.py:92 | The comprehension raises exactly when some `Item` child has no text. |
| ItemExtractor.ScanSingle | pobutils.py:92 | One child yields its entry when it is an accepted `Item`, and nothing otherwise. |
| ItemExtractor.ScanConcat | pobutils.py:89-92 | The result for a concatenation of children is the two results in document order. |
| ItemExtractor.ScanItems | pobutils.py:84-86 | An absent or childless `Items` element gives `[]`. Otherwise the comprehension runs over its children. |
| ItemExtractor.ScanItemsSpec | pobutils.py:84-92 | `[]` without `Items` children. Otherwise it raises exactly when an `Item` child has no text. |
| ItemExtractor.DuplicatesKept | pobutils.py:89-92 | Two equal accepted children give two equal entries. |
| ItemExtractor.GetUniques | pobutils.py:83-86 | `get_uniques_from_xml` gives `[]` when `Items` is absent or has no children. |
| ItemExtractor.UniqueOf | pobutils.py:87-92 | The unique pattern's `match` on an item's stripped text, and the `UniqueItem` built from its `item_name` group. Its meaning is stated by `UniqueOfComputed` and `UniqueOfIff`. |
| ItemExtractor.UniqueOfComputed | pobutils.py:87-90 | Unique match: the header `Rarity: UNIQUE` and a newline, then the longest run of name characters. The run must be non-empty and followed by a newline, and it is the name. |
| ItemExtractor.UniqueOfIff | pobutils.py:87-92 | Both directions: a text yields the unique named `n` exactly when the header is followed by `n`, then a newline, and `n` is a non-empty string of word characters, spaces and apostrophes. |
| ItemExtractor.NamedItem | pobutils.py:87-90 | The header, a valid name and any text starting with a newline yield exactly that name. |
| ItemExtractor.HeadhunterExample | pobutils.py:87-90 | "Rarity: UNIQUE\nHeadhunter\nLeather Belt" yields the unique "Headhunter". |
| Clusters.GetClusters | pobutils.py:95-98 | `get_clusters_from_xml` gives `[]` when `Items` is absent or has no children. |
| Clusters.ClusterGroups | pobutils.py:99 | Every match of the cluster pattern captures `size`, `item_level`, `num_passives` and `small_passives`, each with the body written in the pattern. |
| Clusters.ClusterCaptures | pobutils.py:99-105 | After a cluster match, each of the four groups is captured, and its text is in the language of its body. |
| Clusters.JewelFrom | pobutils.py:101-106 | The `ClusterJewel` built from the four groups of a match: the `size` text, `int` of `item_level` and `num_passives`, and the canonical small-passive string. Its fields are stated by `ClusterFields`. |
| Clusters.ClusterOf | pobutils.py:99-107 | The cluster pattern's `match` on an item's stripped text, and the jewel built from it. `ClusterOfMatches` and `ClusterFields` state what it yields. |
| Clusters.ClusterOfMatches | pobutils.py:101-107 | An item yields a cluster jewel exactly when the cluster pattern matches its stripped text. `int(...)` never fails on the captured groups. |
| Clusters.ClusterFields | pobutils.py:102-105 | The fields of a cluster jewel: `size` is a non-empty run of word characters and spaces, and `num_passives` is a single digit. `small_passives` is the canonical form of one or more grant lines. |
| Clusters.DigitRun | pobutils.py:104 | The `item_level` group is a non-empty string of decimal digits. |
| Clusters.OneDigit | pobutils.py:103 | The `num_passives` group is one digit, so its value is below 10. |
| Regex.FirstCat | pobutils.py:99 | The match `re` reports for a concatenation: the first way of its first part, continued by the first way of the rest from where that part ended. |
| Regex.FirstPlusClass | pobutils.py:99 | A greedy `[...]+` over a run that cannot be extended reports the whole run first. |
| RecogniserOverlap.LayoutMatch | pobutils.py:99 | On any text laid out as the pattern's pieces in order (rarity, name line, size, item level, level requirement, implicits, crafted lines, small-passive line), `match` succeeds and reports each group's segment. |
| RecogniserOverlap.ClusterOfLayout | pobutils.py:99-107 | Such a text yields the cluster jewel with that size, `int` of the item-level and passive-count segments, and the canonical string of the small-passive line. |
| RecogniserOverlap.OverlappingCluster | pobutils.py:99-107 | The item text "Rarity: UNIQUE\nFoo\nLarge Cluster Jewel\nItem Level: 1\n...\n{crafted}Added Small Passive Skills grant: a\nZ" is the cluster jewel ("Large Cluster Jewel", level 1, 8 passives, "a"). |
| RecogniserOverlap.OverlappingUnique | pobutils.py:87-92 | The same text is the unique "Foo". |
| RecogniserOverlap.BothRecognisers | pobutils.py:87-107 | Both recognisers accept that one text. |
| RecogniserOverlap.BothExtractors | pobutils.py:83-107 | For a document whose `Items` holds that one item, `get_uniques_from_xml` gives `[UniqueItem("Foo")]`, and `get_clusters_from_xml` gives the one jewel. |
| SmallPassives.GrantBlockShape | pobutils.py:99 | The captured `small_passives` text is one `Added Small Passive Skills grant: <text>` line per text, each ending in a newline. |
| SmallPassives.StripLines | pobutils.py:105 | Step 1: when the last text is not all spaces, `strip()` removes only the final newline and the trailing spaces of the last text. |
| SmallPassives.NewlinesReplaced | pobutils.py:105 | Step 2: `replace('\n', ', ')` turns the line breaks into `", "` separators. |
| SmallPassives.PrefixesRemoved | pobutils.py:105 | Step 3: deleting the grant prefix leaves the texts joined by `", "`. |
| SmallPassives.Canonical | pobutils.py:105 | The three-step clean-up of the captured block: `strip()`, then `replace('\n', ', ')`, then deleting the grant prefix. `CanonicalBlock` and `CanonicalJoin` state its result. |
| SmallPassives.CanonicalBlock | pobutils.py:105 | The canonical string of a block is its texts joined by `", "`, with the last text right-stripped. |
| SmallPassives.CanonicalJoin | pobutils.py:105 | When the last text does not end in a space, the canonical string is exactly the texts joined by `", "`. |
| SmallPassives.TwoLineExample | pobutils.py:105 | Grant lines "5% increased Life" and "4% increased Mana" give "5% increased Life, 4% increased Mana". |
| StatsExtractor.BuildStatsOf | pobutils.py:111-117 | An absent or childless `Build` gives `({}, {})`. Any other outcome has a character summary. The only possible errors are a `KeyError` and a `ValueError`. |
| StatsExtractor.Tallied | pobutils.py:118-129 | The loop raises only `KeyError('stat')`, `KeyError('value')` or `ValueError`. A `FullDPSSkill` list, once made, is non-empty. |
| StatsExtractor.VisitChild | pobutils.py:120-129 | The body of the loop, with its lazy `FullDPSSkill` list, computes one step of the specification. |
| StatsExtractor.GetStats | pobutils.py:110-130 | The method's early returns and loop give exactly `BuildStatsOf`, including the error that stops the loop. |
| StatsExtractor.Visit | pobutils.py:119-129 | One iteration of the loop on one child. A `FullDPSSkill` pair is appended, an allow-listed `PlayerStat` is stored, and any other child changes nothing. Missing attributes raise `KeyError` and a rejected value raises `ValueError`. `VisitRaises`, `VisitDisplay` and `VisitDps` state this. |
| StatsExtractor.VisitRaises | pobutils.py:119-129 | One iteration raises exactly when the child is malformed: a `PlayerStat` or `FullDPSSkill` without `stat` or `value`, or with a value `float` rejects where it is used. |
| StatsExtractor.TalliedRaises | pobutils.py:119-129 | The loop raises exactly when some child is malformed. |
| StatsExtractor.TalliedDisplayed | pobutils.py:128-129 | Every key the loop stores is in `DISPLAY_STATS`. |
| StatsExtractor.TalliedKept | pobutils.py:126-129 | Both directions: a name is stored exactly when it is in `DISPLAY_STATS` and some `PlayerStat` child names it. |
| StatsExtractor.TalliedLastWins | pobutils.py:126-129 | A stored value is that of the last `PlayerStat` child naming the stat. No later child names it. |
| StatsExtractor.TalliedDps | pobutils.py:119-125 | The `FullDPSSkill` list exists exactly when some child has that tag. It holds their `(stat, value)` pairs in document order. |
| StatsExtractor.OtherTagsIgnored | pobutils.py:119-125 | Inserting a child with any other tag changes nothing in the result. |
| StatsExtractor.ClassFallback | pobutils.py:114-117 | A missing `level` raises `KeyError('level')`. A missing `className` raises `KeyError('className')`, even when `ascendClassName` is present, because the default is evaluated first. Otherwise the class is `ascendClassName` if present, else `className`. |
| StatsExtractor.StatsRaise | pobutils.py:114-129 | With both required attributes present, `get_stats_from_xml` raises exactly when some child is malformed. |
| StatsExtractor.StatsAllowListed | pobutils.py:128-129 | Every key of `display_stats` is in `DISPLAY_STATS`. |
| StatsExtractor.StatsKept | pobutils.py:126-129 | A stat is in `display_stats` exactly when it is allow-listed and some `PlayerStat` child names it. |
| StatsExtractor.StatsLastWins | pobutils.py:128-129 | A later duplicate `PlayerStat` overwrites an earlier one: the value kept is the last one's. |
| StatsExtractor.StatsFullDps | pobutils.py:119-125 | `character['FullDPSSkill']` exists only if a `FullDPSSkill` child exists. It lists their pairs in document order. |
| PasteResolver.UrlGroups | pobutils.py:57 | Every match of the link pattern captures `url_base` (`\w+\.\w+`) and `paste_id` (`\w+`). |
| PasteResolver.HostShape | pobutils.py:57 | A host the pattern captures is two non-empty runs of word characters around a dot. |
| PasteResolver.PasteLink | pobutils.py:57-58 | The walrus test: `None` for an empty url or no `search` match, otherwise the `url_base` and `paste_id` groups. `PasteLinkShape` states their shape. |
| PasteResolver.RequestUrl | pobutils.py:60-62 | The address requested, or `None` when the function returns before the request. A returned address is non-empty, and it exists only for a link whose host is in `BUILD_CODE_PATHS`. |
| PasteResolver.PasteLinkShape | pobutils.py:57-58 | A link is found exactly when the url is non-empty and the pattern occurs in it. Its host is `word.word` and its id a non-empty word run. |
| PasteResolver.ReplaceMarker | pobutils.py:60 | `replace(':id:', id)` on a template with a single marker puts the id in the marker's place. |
| PasteResolver.PobbTemplate | pobutils.py:16 | The `pobb.in` template gives `https://pobb.in/<id>/raw`. |
| PasteResolver.PastebinTemplate | pobutils.py:17 | The `pastebin.com` template gives `https://pastebin.com/raw/<id>`. |
| PasteResolver.RequestUrlCases | pobutils.py:58-62 | No request is made exactly when the url is empty, the pattern finds no match, or the host is not in `BUILD_CODE_PATHS`. For the two known hosts, the address requested is the one given. |
| PasteResolver.GetPobCodeFromUrl | pobutils.py:56-66 | Without a request address the result is `None`. Otherwise, a status-200 reply gives its text, any other status gives `None`, and an error the request raises escapes. Conversely a text comes only from a 200 reply, and an error only from the request. |
| BuildDecoder.Unpack | pobutils.py:72-74 | The `try` block succeeds exactly when both calls succeed, and otherwise raises the first call's error. |
| BuildDecoder.ReadPobToXml | pobutils.py:69-80 | An empty code gives `None`. A document is returned only if decoding, inflating and parsing all succeeded. |
| BuildDecoder.NoneCases | pobutils.py:70-78 | Both directions: the result is `None` exactly when the code is empty, or the base64 decoder or the decompressor raised `binascii.Error` or `zlib.error`. |
| BuildDecoder.DecodedDocument | pobutils.py:72-80 | A code that decodes, inflates and parses gives the parsed document. |
| BuildDecoder.RaisedCases | pobutils.py:72-80 | An error escapes exactly when the `try` block raised an uncaught one, or the parse raised. It is that error. |
| BuildDecoder.CodecErrorsNeverEscape | pobutils.py:75-80 | When the parser raises only parse errors, a base64 or zlib error never escapes `read_pob_to_xml`. |

## Left out

- The HTTP request of `get_pob_code_from_url` is the parameter `get`. What it returns is not modelled; only the status test and the result are.
- `base64.urlsafe_b64decode`, `zlib.decompress` and `ET.fromstring` are the parameters `b64`, `inflate` and `parse` of `read_pob_to_xml`. They are library code.
- `float(...)` is the parameter `parse` of the stats extractor, with `None` for a `ValueError`. Floating point is not modelled, and the numbers have an abstract type.
- `\w` is exact for characters up to U+00FF. Characters above U+00FF count as non-word characters, so Unicode letters beyond Latin-1 are not modelled. `\d` is `0`-`9`. Python's `\d` on a `str` pattern also matches the other Unicode decimal digits, such as U+0660, and the model rejects them. `\s`, and the set `strip()` removes, are Python's whitespace.
- The matcher does not implement Python's rule for a `*` iteration that matches the empty string. No starred body in the three patterns can match the empty string.
- `display_stats` and the `character` dictionary are Python dicts, which keep insertion order. The model's maps and records keep no order, so the order of their keys is not modelled.
- The parsed XML keeps only tags, attributes, text and children. Tails, namespaces, comments and attribute order are not modelled.
- SmallPassives.CanonicalBlock, SmallPassives.StripLines: they say nothing about a block whose last text is all spaces. There `strip()` also removes the space that ends that line's prefix, so that prefix is not deleted. `Clusters.ClusterFields` still states the canonical string for every block.
- `process_cluster_ids` (HTTP, JSON, pandas, CSV files), the `__main__` demo, the Dash pages, the server and the data setup script are not part of this model. They are I/O and UI.
- Price matching, item-level banding and the week-one price change are not in `pobutils.py`, and are not modelled.
