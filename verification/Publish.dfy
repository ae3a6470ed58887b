/**
 Publishing: the store's listing, the quality filter, the per-country selection
 served live, and the cache that pre-renders the same lists by country.
 */
module Publish {
  import opened Text
  import opened Wrappers
  import opened Sequences
  import Names = UniqueNames

  /** The part of a node that selection reads.  `passed` holds the engines whose dial check passed. */
  datatype Node = Node(
    id: string, protocol: string, name: string, country: string, uri: string,
    score: real, latency: int, alive: bool, tls: bool, verified: bool,
    dialTestedAt: Option<int>, passed: set<string>, lastSeen: Option<int>)

  datatype NodeFilter = NodeFilter(
    country: string, aliveOnly: bool, minScore: real, highQuality: bool, verifiedOnly: bool,
    dialTestedAfter: Option<int>, dialEngine: string, seenAfter: Option<int>, limit: int)

  datatype SortBy = ByScore | ByProtocol | ByName | ByLatency

  /** Configuration and the clock-derived instants of one selection. */
  datatype Config = Config(
    publishMinScore: real, filterMinScore: real, publishMaxNodes: int, filterMaxNodes: int,
    publishEnabled: bool, publishAliveOnly: bool, dialEnabled: bool, dialEngine: string,
    verifiedAfter: int, seenAfter: int,
    minSuccess: bool, maxLatencyMs: int, sortBy: SortBy, preferTls: bool, renameWithFlag: bool)

  function LatencyMs(n: Node): int {
    if n.latency <= 0 then 0 else n.latency / 1_000_000
  }

  // ------------------------------------------------------- store listing

  function Wanted(country: string): string {
    if Upper(country) == "UK" then "GB" else Upper(country)
  }

  function Located(country: string): string {
    if country == "" then "XX" else if Upper(country) == "UK" then "GB" else Upper(country)
  }

  predicate Matches(f: NodeFilter, n: Node) {
    && (f.country != "" ==> Located(n.country) == Wanted(f.country))
    && (f.aliveOnly ==> n.alive)
    && (f.minScore > 0.0 ==> n.score >= f.minScore)
    && (f.highQuality ==> n.score >= 70.0)
    && (f.verifiedOnly ==> n.verified)
    && (f.dialTestedAfter.Some? ==> n.dialTestedAt.Some? && n.dialTestedAt.value >= f.dialTestedAfter.value)
    && (f.dialEngine != "" ==> f.dialEngine in n.passed)
    && (f.seenAfter.Some? && n.lastSeen.Some? ==> n.lastSeen.value >= f.seenAfter.value)
  }

  function Matcher(f: NodeFilter): Node -> bool {
    n => Matches(f, n)
  }

  /** Score down, then latency, name and id up. */
  predicate ListLess(a: Node, b: Node) {
    if a.score != b.score then a.score > b.score
    else if a.latency != b.latency then a.latency < b.latency
    else if a.name != b.name then TextLess(a.name, b.name)
    else TextLess(a.id, b.id)
  }

  /** ListNodes over the stored nodes, in whatever order the map yields them. */
  function List(nodes: seq<Node>, f: NodeFilter): seq<Node> {
    Limit(f.limit, Sort(ListLess, Filter(Matcher(f), nodes)))
  }

  lemma ListLessWeak()
    ensures WeakOrder(ListLess)
  {
    forall a: Node, b: Node | ListLess(a, b) ensures !ListLess(b, a) {
      TextLessTotal(a.name, b.name);
      TextLessTotal(a.id, b.id);
    }
    forall a: Node, b: Node, c: Node | ListLess(a, c) ensures ListLess(a, b) || ListLess(b, c) {
      TextLessNegative(a.name, b.name, c.name);
      TextLessNegative(a.id, b.id, c.id);
    }
  }

  lemma TextLessNegative(a: string, b: string, c: string)
    ensures TextLess(a, c) ==> TextLess(a, b) || TextLess(b, c)
    ensures a != b ==> TextLess(a, b) || TextLess(b, a)
    ensures b != c ==> TextLess(b, c) || TextLess(c, b)
  {
    TextLessTotal(a, b);
    TextLessTotal(b, c);
    if TextLess(a, c) && TextLess(c, b) {
      TextLessTransitive(a, c, b);
    }
  }

  lemma ListLessSeparates(p: Node, q: Node)
    requires p.id != q.id
    ensures ListLess(p, q) || ListLess(q, p)
  {
    TextLessTotal(p.name, q.name);
    TextLessTotal(p.id, q.id);
  }

  /** The listing does not depend on the iteration order of the store's map. */
  lemma ListOrderIrrelevant(a: seq<Node>, b: seq<Node>, f: NodeFilter)
    requires multiset(a) == multiset(b)
    requires forall x, y :: x in a && y in a && x != y ==> x.id != y.id
    ensures List(a, f) == List(b, f)
  {
    var x, y := Filter(Matcher(f), a), Filter(Matcher(f), b);
    FilterRearranged(Matcher(f), a, b);
    ListLessWeak();
    SortSorts(ListLess, x);
    SortSorts(ListLess, y);
    FilterMember(Matcher(f), a);
    var u := Sort(ListLess, x);
    forall p, q | p in u && q in u && p != q ensures ListLess(p, q) || ListLess(q, p) {
      assert p in multiset(u) && q in multiset(u);
      assert p in x && q in x;
      ListLessSeparates(p, q);
    }
    SortedUnique(ListLess, u, Sort(ListLess, y));
  }

  // ------------------------------------------------------ quality filter

  predicate Keeps(cfg: Config, n: Node) {
    var maxLat := if cfg.maxLatencyMs <= 0 then 2500 else cfg.maxLatencyMs;
    && !(cfg.minSuccess && !n.alive)
    && !(n.alive && LatencyMs(n) > maxLat)
    && !(cfg.filterMinScore > 0.0 && n.score > 0.0 && n.score < cfg.filterMinScore)
  }

  function Keeper(cfg: Config): Node -> bool {
    n => Keeps(cfg, n)
  }

  predicate NodeLess(cfg: Config, a: Node, b: Node) {
    if cfg.preferTls && a.tls != b.tls then a.tls
    else match cfg.sortBy
      case ByScore => if a.score != b.score then a.score > b.score else a.latency < b.latency
      case ByProtocol => if a.protocol != b.protocol then TextLess(a.protocol, b.protocol) else a.latency < b.latency
      case ByName => if a.name != b.name then TextLess(a.name, b.name) else a.latency < b.latency
      case ByLatency =>
        if a.alive != b.alive then a.alive
        else if a.latency != b.latency then a.latency < b.latency
        else a.score > b.score
  }

  function Less(cfg: Config): (Node, Node) -> bool {
    (a, b) => NodeLess(cfg, a, b)
  }

  lemma LessWeak(cfg: Config)
    ensures WeakOrder(Less(cfg))
  {
    var less := Less(cfg);
    forall a, b | less(a, b) ensures !less(b, a) {
      TextLessTotal(a.name, b.name);
      TextLessTotal(a.protocol, b.protocol);
    }
    forall a, b, c | less(a, c) ensures less(a, b) || less(b, c) {
      TextLessNegative(a.name, b.name, c.name);
      TextLessNegative(a.protocol, b.protocol, c.protocol);
    }
  }

  function Applied(cfg: Config, nodes: seq<Node>): seq<Node> {
    Limit(cfg.filterMaxNodes, Sort(Less(cfg), Filter(Keeper(cfg), nodes)))
  }

  method Apply(nodes: seq<Node>, cfg: Config) returns (out: seq<Node>)
    ensures out == Applied(cfg, nodes)
  {
    out := [];
    var maxLat := if cfg.maxLatencyMs <= 0 then 2500 else cfg.maxLatencyMs;
    var minScore := if cfg.filterMinScore < 0.0 then 0.0 else cfg.filterMinScore;
    for i := 0 to |nodes|
      invariant out == Filter(Keeper(cfg), nodes[..i])
    {
      var n := nodes[i];
      assert nodes[..i + 1] == nodes[..i] + [n];
      FilterAppend(Keeper(cfg), nodes[..i], [n]);
      if cfg.minSuccess && !n.alive {
        continue;
      }
      if n.alive && LatencyMs(n) > maxLat {
        continue;
      }
      if minScore > 0.0 && n.score > 0.0 && n.score < minScore {
        continue;
      }
      out := out + [n];
    }
    assert nodes[..|nodes|] == nodes;
    out := Sort(Less(cfg), out);
    if cfg.filterMaxNodes > 0 && |out| > cfg.filterMaxNodes {
      out := out[..cfg.filterMaxNodes];
    }
  }

  // ----------------------------------------------------------- selection

  function MinScore(cfg: Config): real {
    if cfg.publishMinScore > 0.0 then cfg.publishMinScore
    else if cfg.filterMinScore > 0.0 then cfg.filterMinScore
    else 70.0
  }

  function MaxPublished(cfg: Config): int {
    if cfg.publishMaxNodes <= 0 then cfg.filterMaxNodes else cfg.publishMaxNodes
  }

  function PublishFilter(cfg: Config, country: string): NodeFilter {
    NodeFilter(
      Upper(Trim(country)),
      if cfg.publishEnabled then cfg.publishAliveOnly else true,
      MinScore(cfg), MinScore(cfg) >= 70.0, cfg.dialEnabled,
      if cfg.dialEnabled then Some(cfg.verifiedAfter) else None,
      if cfg.dialEnabled then cfg.dialEngine else "",
      Some(cfg.seenAfter), MaxPublished(cfg) * 3)
  }

  function FallbackFilter(cfg: Config, minScore: real, limit: int): NodeFilter {
    NodeFilter("", true, minScore, false, false, None, "", Some(cfg.seenAfter), limit)
  }

  function Primary(cfg: Config, nodes: seq<Node>, country: string): seq<Node> {
    List(nodes, PublishFilter(cfg, country))
  }

  /** The pool: with dialing off, an empty global listing falls back to lower scores, twice. */
  function Pool(cfg: Config, nodes: seq<Node>, country: string): seq<Node> {
    var primary := Primary(cfg, nodes, country);
    if primary != [] || country != "" || cfg.dialEnabled then primary
    else
      var low := List(nodes, FallbackFilter(cfg, 50.0, MaxPublished(cfg) * 2));
      if low != [] then low else List(nodes, FallbackFilter(cfg, 0.0, MaxPublished(cfg)))
  }

  predicate HasPrefix(s: string, p: string) {
    p <= s
  }

  /** The optional flag prefix; `flag` gives the emoji of a country, empty if it has none. */
  function Flagged(n: Node, flag: string -> string): Node {
    if n.country == "" || n.country == "XX" then n
    else if flag(n.country) == "" || HasPrefix(n.name, flag(n.country)) then n
    else if Trim(n.name) == "" then n.(name := flag(n.country) + " " + n.country)
    else n.(name := flag(n.country) + " " + Trim(n.name))
  }

  function FlagAll(nodes: seq<Node>, flag: string -> string): (r: seq<Node>)
    ensures |r| == |nodes|
    ensures forall i :: 0 <= i < |nodes| ==> r[i] == Flagged(nodes[i], flag)
  {
    if nodes == [] then [] else [Flagged(nodes[0], flag)] + FlagAll(nodes[1..], flag)
  }

  function Rename(cfg: Config, nodes: seq<Node>, flag: string -> string): seq<Node> {
    if cfg.renameWithFlag then FlagAll(nodes, flag) else nodes
  }

  /** SelectPublishNodesCountry; the empty country selects globally. */
  function Select(cfg: Config, nodes: seq<Node>, country: string, flag: string -> string): seq<Node> {
    Rename(cfg, Limit(MaxPublished(cfg), Applied(cfg, Pool(cfg, nodes, country))), flag)
  }

  method SelectPublishNodesCountry(cfg: Config, nodes: seq<Node>, country: string, flag: string -> string)
    returns (hq: seq<Node>)
    ensures hq == Select(cfg, nodes, country, flag)
    ensures forall n :: n in hq ==>
              exists m :: m in nodes && m.id == n.id && n == m.(name := n.name) && Qualifies(cfg, nodes, country, m)
    ensures cfg.publishMaxNodes > 0 ==> |hq| <= cfg.publishMaxNodes
  {
    var limit := if cfg.publishMaxNodes <= 0 then cfg.filterMaxNodes else cfg.publishMaxNodes;
    hq := List(nodes, PublishFilter(cfg, country));
    if |hq| == 0 && country == "" && !cfg.dialEnabled {
      hq := List(nodes, FallbackFilter(cfg, 50.0, limit * 2));
    }
    if |hq| == 0 && country == "" && !cfg.dialEnabled {
      hq := List(nodes, FallbackFilter(cfg, 0.0, limit));
    }
    hq := Apply(hq, cfg);
    if limit > 0 && |hq| > limit {
      hq := hq[..limit];
    }
    if cfg.renameWithFlag {
      hq := ApplyCountryNamePrefix(hq, flag);
    }
    AllQualify(cfg, nodes, country, flag);
    SelectedSize(cfg, nodes, country, flag);
  }

  lemma AllQualify(cfg: Config, nodes: seq<Node>, country: string, flag: string -> string)
    ensures forall n :: n in Select(cfg, nodes, country, flag) ==>
              exists m :: m in nodes && m.id == n.id && n == m.(name := n.name) && Qualifies(cfg, nodes, country, m)
  {
    forall n | n in Select(cfg, nodes, country, flag)
      ensures exists m :: m in nodes && m.id == n.id && n == m.(name := n.name) && Qualifies(cfg, nodes, country, m)
    {
      var m := SelectedQualify(cfg, nodes, country, flag, n);
    }
  }

  method ApplyCountryNamePrefix(selected: seq<Node>, flag: string -> string) returns (hq: seq<Node>)
    ensures hq == FlagAll(selected, flag)
  {
    hq := selected;
    for i := 0 to |hq|
      invariant |hq| == |selected|
      invariant forall k :: 0 <= k < i ==> hq[k] == Flagged(selected[k], flag)
      invariant forall k :: i <= k < |hq| ==> hq[k] == selected[k]
    {
      hq := hq[i := Flagged(hq[i], flag)];
    }
  }

  // --------------------------------------------------------------- cache

  function GroupKey(country: string): string {
    if country == "" then "XX" else if country == "UK" then "GB" else country
  }

  function InGroup(cc: string): Node -> bool {
    (n: Node) => GroupKey(n.country) == cc
  }

  function Group(nodes: seq<Node>, cc: string): seq<Node> {
    Filter(InGroup(cc), nodes)
  }

  /** The node lists the cache renders: all nodes, and one list per kept country. */
  datatype Blob = Blob(all: seq<Node>, byCountry: map<string, nat>, countries: map<string, seq<Node>>)

  function GroupKeys(nodes: seq<Node>): set<string> {
    set n | n in nodes :: GroupKey(n.country)
  }

  function GroupMap(nodes: seq<Node>): map<string, seq<Node>> {
    map cc | cc in GroupKeys(nodes) :: Group(nodes, cc)
  }

  lemma GroupStep(nodes: seq<Node>, i: nat, cc: string)
    requires i < |nodes|
    ensures Group(nodes[..i + 1], cc) ==
            Group(nodes[..i], cc) + (if GroupKey(nodes[i].country) == cc then [nodes[i]] else [])
  {
    assert nodes[..i + 1] == nodes[..i] + [nodes[i]];
    FilterAppend(InGroup(cc), nodes[..i], [nodes[i]]);
  }

  lemma GroupNonEmpty(nodes: seq<Node>, cc: string)
    ensures Group(nodes, cc) != [] <==> cc in GroupKeys(nodes)
  {
    FilterMember(InGroup(cc), nodes);
    if Group(nodes, cc) != [] {
      assert Group(nodes, cc)[0] in nodes;
    }
    if cc in GroupKeys(nodes) {
      var n :| n in nodes && GroupKey(n.country) == cc;
      assert n in Group(nodes, cc);
    }
  }

  function Entry(groups: map<string, seq<Node>>, cc: string): seq<Node> {
    if cc in groups then groups[cc] else []
  }

  /** Group the nodes by country, preserving order. */
  method GroupByCountry(nodes: seq<Node>) returns (byCountry: map<string, nat>, groups: map<string, seq<Node>>)
    ensures groups == GroupMap(nodes) && byCountry.Keys == groups.Keys
    ensures forall cc :: cc in groups ==> byCountry[cc] == |groups[cc]|
  {
    byCountry, groups := map[], map[];
    for i := 0 to |nodes|
      invariant byCountry.Keys == groups.Keys
      invariant forall cc :: cc in groups ==> groups[cc] != [] && byCountry[cc] == |groups[cc]|
      invariant forall cc :: Entry(groups, cc) == Group(nodes[..i], cc)
    {
      var n := nodes[i];
      var key := n.country;
      if key == "" {
        key := "XX";
      }
      if key == "UK" {
        key := "GB";
      }
      ghost var before := groups;
      byCountry := byCountry[key := (if key in byCountry then byCountry[key] else 0) + 1];
      groups := groups[key := (if key in groups then groups[key] else []) + [n]];
      forall cc ensures Entry(groups, cc) == Group(nodes[..i + 1], cc) {
        GroupStep(nodes, i, cc);
        assert Entry(before, cc) == Group(nodes[..i], cc);
      }
    }
    assert nodes[..|nodes|] == nodes;
    forall cc ensures cc in groups <==> cc in GroupKeys(nodes) {
      assert Entry(groups, cc) == Group(nodes, cc);
      GroupNonEmpty(nodes, cc);
    }
    assert groups == GroupMap(nodes);
  }

  lemma SwapKeepsMultiset<T>(s: seq<T>, i: nat, j: nat)
    requires i < j < |s|
    ensures multiset(s[i := s[j]][j := s[i]]) == multiset(s)
  {
  }

  /** The first `i` pairs are in place: none of the pairs behind one counts more. */
  ghost predicate Placed(s: seq<(string, nat)>, i: int) {
    forall p, q :: 0 <= p < i && p < q < |s| ==> s[p].1 >= s[q].1
  }

  lemma SwapKeepsPlaced(s: seq<(string, nat)>, i: nat, j: nat)
    requires i < j < |s| && Placed(s, i)
    ensures Placed(s[i := s[j]][j := s[i]], i)
  {
  }

  /** The inner loop of the exchange sort: brings the greatest count of the rest to position `i`. */
  method PlaceNext(pairs: seq<(string, nat)>, i: nat) returns (sorted: seq<(string, nat)>)
    requires i < |pairs| && Placed(pairs, i)
    ensures multiset(sorted) == multiset(pairs) && |sorted| == |pairs| && Placed(sorted, i + 1)
  {
    sorted := pairs;
    for j := i + 1 to |sorted|
      invariant |sorted| == |pairs| && multiset(sorted) == multiset(pairs) && Placed(sorted, i)
      invariant forall q :: i < q < j ==> sorted[i].1 >= sorted[q].1
    {
      if sorted[j].1 > sorted[i].1 {
        SwapKeepsMultiset(sorted, i, j);
        SwapKeepsPlaced(sorted, i, j);
        sorted := sorted[i := sorted[j]][j := sorted[i]];
      }
    }
  }

  /** The cache's exchange sort of (country, count) pairs, most nodes first. */
  method SortByCount(pairs: seq<(string, nat)>) returns (sorted: seq<(string, nat)>)
    ensures multiset(sorted) == multiset(pairs) && |sorted| == |pairs|
    ensures forall p, q :: 0 <= p < q < |sorted| ==> sorted[p].1 >= sorted[q].1
  {
    sorted := pairs;
    for i := 0 to |sorted|
      invariant |sorted| == |pairs| && multiset(sorted) == multiset(pairs) && Placed(sorted, i)
    {
      sorted := PlaceNext(sorted, i);
    }
  }

  /** The counted countries other than the unknown one, in some order. */
  method CountedPairs(byCountry: map<string, nat>) returns (pairs: seq<(string, nat)>)
    ensures Distinct(pairs) && |pairs| == |byCountry.Keys - {"XX"}|
    ensures forall cc :: cc in byCountry && cc != "XX" ==> (cc, byCountry[cc]) in pairs
    ensures forall p :: p in pairs ==> p.0 in byCountry && p.0 != "XX" && p.1 == byCountry[p.0]
  {
    pairs := [];
    var todo := byCountry.Keys - {"XX"};
    while todo != {}
      invariant todo <= byCountry.Keys - {"XX"}
      invariant Distinct(pairs) && |pairs| + |todo| == |byCountry.Keys - {"XX"}|
      invariant forall cc :: cc in byCountry && cc != "XX" && cc !in todo ==> (cc, byCountry[cc]) in pairs
      invariant forall p :: p in pairs ==> p.0 in byCountry && p.0 != "XX" && p.0 !in todo && p.1 == byCountry[p.0]
      decreases todo
    {
      var cc :| cc in todo;
      pairs := pairs + [(cc, byCountry[cc])];
      todo := todo - {cc};
    }
  }

  /** The pairs of distinct countries, most nodes first. */
  ghost predicate Ordered(sorted: seq<(string, nat)>, byCountry: map<string, nat>) {
    && (forall p, q :: 0 <= p < q < |sorted| ==> sorted[p].0 != sorted[q].0 && sorted[p].1 >= sorted[q].1)
    && (forall p :: 0 <= p < |sorted| ==>
          sorted[p].0 in byCountry && sorted[p].0 != "XX" && sorted[p].1 == byCountry[sorted[p].0])
    && (forall cc :: cc in byCountry && cc != "XX" ==> exists p :: 0 <= p < |sorted| && sorted[p].0 == cc)
  }

  method CountryOrder(byCountry: map<string, nat>) returns (sorted: seq<(string, nat)>)
    ensures Ordered(sorted, byCountry) && |sorted| == |byCountry.Keys - {"XX"}|
  {
    var pairs := CountedPairs(byCountry);
    sorted := SortByCount(pairs);
    DistinctPart(pairs, sorted);
    forall p | 0 <= p < |sorted| ensures sorted[p] in pairs {
      assert sorted[p] in multiset(sorted);
    }
    forall cc | cc in byCountry && cc != "XX" ensures exists p :: 0 <= p < |sorted| && sorted[p].0 == cc {
      assert (cc, byCountry[cc]) in multiset(pairs);
      assert (cc, byCountry[cc]) in sorted;
    }
  }

  lemma DroppedAreSmaller(sorted: seq<(string, nat)>, m: nat, byCountry: map<string, nat>, kept: set<string>,
                          k: string, d: string)
    requires Ordered(sorted, byCountry) && m <= |sorted|
    requires forall p :: 0 <= p < m ==> sorted[p].0 in kept
    requires exists p :: 0 <= p < m && sorted[p].0 == k
    requires k in byCountry && d in byCountry && d != "XX" && d !in kept
    ensures byCountry[k] >= byCountry[d]
  {
    var p :| 0 <= p < m && sorted[p].0 == k;
    var q :| 0 <= q < |sorted| && sorted[q].0 == d;
  }

  /** `countries` keeps whole groups, and drops a country only for ones with at least as many nodes. */
  ghost predicate Capped(countries: map<string, seq<Node>>, groups: map<string, seq<Node>>) {
    && (forall cc :: cc in countries ==> cc in groups && cc != "XX" && countries[cc] == groups[cc])
    && (forall k, d :: k in countries && d in groups && d != "XX" && d !in countries ==> |groups[k]| >= |groups[d]|)
  }

  ghost predicate HeadsOf(countries: map<string, seq<Node>>, groups: map<string, seq<Node>>,
                          sorted: seq<(string, nat)>, m: nat)
    requires m <= |sorted|
  {
    && (forall p :: 0 <= p < m ==> sorted[p].0 in countries)
    && (forall cc :: cc in countries ==> cc in groups && countries[cc] == groups[cc])
    && (forall cc :: cc in countries ==> exists p :: 0 <= p < m && sorted[p].0 == cc)
  }

  lemma CapHolds(sorted: seq<(string, nat)>, m: nat, byCountry: map<string, nat>,
                 groups: map<string, seq<Node>>, countries: map<string, seq<Node>>)
    requires Ordered(sorted, byCountry) && m <= |sorted| && groups.Keys == byCountry.Keys
    requires forall cc :: cc in groups ==> byCountry[cc] == |groups[cc]|
    requires HeadsOf(countries, groups, sorted, m)
    ensures Capped(countries, groups)
  {
    forall k, d | k in countries && d in groups && d != "XX" && d !in countries ensures |groups[k]| >= |groups[d]| {
      DroppedAreSmaller(sorted, m, byCountry, countries.Keys, k, d);
    }
  }

  /** The countries at the head of the sorted pairs keep their groups. */
  method KeepGroups(sorted: seq<(string, nat)>, m: nat, groups: map<string, seq<Node>>)
    returns (countries: map<string, seq<Node>>)
    requires m <= |sorted|
    requires forall p, q :: 0 <= p < q < |sorted| ==> sorted[p].0 != sorted[q].0
    requires forall p :: 0 <= p < |sorted| ==> sorted[p].0 in groups
    ensures |countries| == m && HeadsOf(countries, groups, sorted, m)
  {
    countries := map[];
    for i := 0 to m
      invariant |countries| == i && HeadsOf(countries, groups, sorted, i)
    {
      countries := countries[sorted[i].0 := groups[sorted[i].0]];
    }
  }

  method CapCountries(byCountry: map<string, nat>, groups: map<string, seq<Node>>, most: nat)
    returns (countries: map<string, seq<Node>>)
    requires groups.Keys == byCountry.Keys
    requires forall cc :: cc in groups ==> byCountry[cc] == |groups[cc]|
    ensures Capped(countries, groups)
    ensures var known := |byCountry.Keys - {"XX"}|; |countries| == if known < most then known else most
  {
    var sorted := CountryOrder(byCountry);
    var m := if |sorted| < most then |sorted| else most;
    countries := KeepGroups(sorted, m, groups);
    CapHolds(sorted, m, byCountry, groups, countries);
  }

  /** Rebuild the cached lists: all nodes, and the groups of the countries with most nodes. */
  method Update(nodes: seq<Node>, maxCountryVariants: int) returns (blob: Blob)
    ensures blob.all == nodes && blob.byCountry.Keys == GroupMap(nodes).Keys
    ensures forall cc :: cc in GroupMap(nodes) ==> blob.byCountry[cc] == |GroupMap(nodes)[cc]|
    ensures Capped(blob.countries, GroupMap(nodes))
    ensures var most := if maxCountryVariants <= 0 then 30 else maxCountryVariants;
            var known := |GroupMap(nodes).Keys - {"XX"}|;
            |blob.countries| == if known < most then known else most
  {
    var most := if maxCountryVariants <= 0 then 30 else maxCountryVariants;
    var byCountry, groups := GroupByCountry(nodes);
    var countries := CapCountries(byCountry, groups, most);
    blob := Blob(nodes, byCountry, countries);
  }

  // ------------------------------------- the cache agrees with selection

  /** An ISO country code, as the geo database writes them. */
  predicate Iso(country: string) {
    forall c :: c in country ==> 'A' <= c <= 'Z'
  }

  ghost predicate IsoCountries(nodes: seq<Node>) {
    forall n :: n in nodes ==> Iso(n.country)
  }

  lemma IsoUpper(country: string)
    requires Iso(country)
    ensures Upper(country) == country && Trim(country) == country
  {
    forall i | 0 <= i < |country| ensures UpperChar(country[i]) == country[i] && !IsSpace(country[i]) {
      assert country[i] in country;
    }
    assert Upper(country) == country;
  }

  /** For ISO codes the store's country test is membership in the cache's group. */
  lemma SameCountryTest(n: Node, cc: string)
    requires Iso(n.country) && Iso(cc) && cc != "" && cc != "UK"
    ensures Located(n.country) == Wanted(Upper(Trim(cc))) <==> GroupKey(n.country) == cc
  {
    IsoUpper(cc);
    IsoUpper(n.country);
  }

  /** The sorted candidates before any truncation. */
  function Candidates(cfg: Config, nodes: seq<Node>, country: string): seq<Node> {
    Sort(ListLess, Filter(Matcher(PublishFilter(cfg, country)), nodes))
  }

  lemma CountryMatches(cfg: Config, n: Node, cc: string)
    requires Iso(n.country) && Iso(cc) && cc != "" && cc != "UK"
    ensures Matches(PublishFilter(cfg, cc), n) == (Matches(PublishFilter(cfg, ""), n) && GroupKey(n.country) == cc)
  {
    IsoUpper(cc);
    IsoUpper("");
    SameCountryTest(n, cc);
  }

  /** A country's candidates are the country's part of the global candidates. */
  lemma CandidatesByCountry(cfg: Config, nodes: seq<Node>, cc: string)
    requires IsoCountries(nodes) && Iso(cc) && cc != "" && cc != "UK"
    ensures Candidates(cfg, nodes, cc) == Group(Candidates(cfg, nodes, ""), cc)
  {
    var f, g := PublishFilter(cfg, cc), PublishFilter(cfg, "");
    forall n | n in nodes ensures Matcher(f)(n) == (Matcher(g)(n) && InGroup(cc)(n)) {
      CountryMatches(cfg, n, cc);
    }
    FilterBoth(Matcher(g), InGroup(cc), Matcher(f), nodes);
    ListLessWeak();
    SortFilter(ListLess, InGroup(cc), Filter(Matcher(g), nodes));
  }

  /** The ranking step leaves a listing as it is, or sees the whole of it. */
  predicate Ranks(cfg: Config, s: seq<Node>) {
    (cfg.sortBy.ByScore? && !cfg.preferTls) || Limit(MaxPublished(cfg) * 3, s) == s
  }

  lemma ScoreOrderKept(cfg: Config, s: seq<Node>)
    requires cfg.sortBy.ByScore? && !cfg.preferTls && SortedBy(ListLess, s)
    ensures Sort(Less(cfg), Filter(Keeper(cfg), s)) == Filter(Keeper(cfg), s)
  {
    FilterSorted(ListLess, Keeper(cfg), s);
    var t := Filter(Keeper(cfg), s);
    forall i, j | 0 <= i < j < |t| ensures !Less(cfg)(t[j], t[i]) {
      assert !ListLess(t[j], t[i]);
    }
    SortIdentity(Less(cfg), t);
  }

  /** What the filter ranks, before its own truncation. */
  function Ranked(cfg: Config, s: seq<Node>): seq<Node> {
    Sort(Less(cfg), Filter(Keeper(cfg), Limit(MaxPublished(cfg) * 3, s)))
  }

  lemma RankedByCountry(cfg: Config, s: seq<Node>, cc: string)
    requires SortedBy(ListLess, s) && Ranks(cfg, s)
    ensures Group(Ranked(cfg, s), cc) <= Ranked(cfg, Group(s, cc))
    ensures Limit(MaxPublished(cfg) * 3, s) == s ==> Group(Ranked(cfg, s), cc) == Ranked(cfg, Group(s, cc))
  {
    var k := MaxPublished(cfg) * 3;
    var t, u := Limit(k, s), Limit(k, Group(s, cc));
    FilterLimit(InGroup(cc), k, s);
    LessWeak(cfg);
    SortFilter(Less(cfg), InGroup(cc), Filter(Keeper(cfg), t));
    FiltersCommute(InGroup(cc), Keeper(cfg), t);
    if t != s {
      FilterSorted(ListLess, InGroup(cc), s);
      FilterSorted(ListLess, InGroup(cc), t);
      ScoreOrderKept(cfg, u);
      ScoreOrderKept(cfg, Group(t, cc));
      FilterPrefix(Keeper(cfg), Group(t, cc), u);
    }
  }

  /** The published list, before renaming. */
  function Published(cfg: Config, s: seq<Node>): seq<Node> {
    Limit(MaxPublished(cfg), Limit(cfg.filterMaxNodes, Ranked(cfg, s)))
  }

  /** No truncation took anything from this selection. */
  predicate Whole(cfg: Config, s: seq<Node>) {
    Limit(MaxPublished(cfg) * 3, s) == s && Published(cfg, s) == Ranked(cfg, s)
  }

  lemma PublishedByCountry(cfg: Config, s: seq<Node>, cc: string)
    requires SortedBy(ListLess, s) && Ranks(cfg, s)
    ensures Group(Published(cfg, s), cc) <= Published(cfg, Group(s, cc))
    ensures Whole(cfg, s) ==> Group(Published(cfg, s), cc) == Published(cfg, Group(s, cc))
  {
    var r, m := Ranked(cfg, s), Limit(cfg.filterMaxNodes, Ranked(cfg, s));
    RankedByCountry(cfg, s, cc);
    FilterLimit(InGroup(cc), MaxPublished(cfg), m);
    FilterLimit(InGroup(cc), cfg.filterMaxNodes, r);
    LimitPrefix(cfg.filterMaxNodes, Group(r, cc), Ranked(cfg, Group(s, cc)));
    LimitPrefix(MaxPublished(cfg), Group(m, cc), Limit(cfg.filterMaxNodes, Ranked(cfg, Group(s, cc))));
  }

  lemma FlaggedStays(n: Node, cc: string, flag: string -> string)
    ensures InGroup(cc)(Flagged(n, flag)) == InGroup(cc)(n)
  {
  }

  lemma {:induction false} FlagGroup(s: seq<Node>, cc: string, flag: string -> string)
    ensures Group(FlagAll(s, flag), cc) == FlagAll(Group(s, cc), flag)
    decreases |s|
  {
    if s != [] {
      FlagGroup(s[1..], cc, flag);
      FlaggedStays(s[0], cc, flag);
      FilterCons(InGroup(cc), Flagged(s[0], flag), FlagAll(s[1..], flag));
      FilterCons(InGroup(cc), s[0], s[1..]);
      assert s == [s[0]] + s[1..];
    }
  }

  /** Whether the global selection came from its own listing, not from a fallback. */
  predicate NoFallback(cfg: Config, nodes: seq<Node>) {
    cfg.dialEnabled || Primary(cfg, nodes, "") != []
  }

  /**
   For one store, instant and configuration, each country list the cache renders is a
   prefix of the live selection of that country, and all of it when nothing was
   truncated: always under the score order, and under any order when the listing
   was not cut to three times the limit.
   */
  lemma CacheAgreesWithLive(cfg: Config, nodes: seq<Node>, cc: string, flag: string -> string)
    requires IsoCountries(nodes) && Iso(cc) && cc != "" && cc != "UK"
    requires NoFallback(cfg, nodes) && Ranks(cfg, Candidates(cfg, nodes, ""))
    ensures Group(Select(cfg, nodes, "", flag), cc) <= Select(cfg, nodes, cc, flag)
    ensures Whole(cfg, Candidates(cfg, nodes, "")) ==>
              Group(Select(cfg, nodes, "", flag), cc) == Select(cfg, nodes, cc, flag)
  {
    var s := Candidates(cfg, nodes, "");
    ListLessWeak();
    SortSorts(ListLess, Filter(Matcher(PublishFilter(cfg, "")), nodes));
    CandidatesByCountry(cfg, nodes, cc);
    PublishedByCountry(cfg, s, cc);
    FlagGroup(Published(cfg, s), cc, flag);
    assert Select(cfg, nodes, "", flag) == Rename(cfg, Published(cfg, s), flag);
    assert Select(cfg, nodes, cc, flag) == Rename(cfg, Published(cfg, Group(s, cc)), flag);
  }

  // ------------------------------------------------ who gets published

  ghost predicate DistinctIds(nodes: seq<Node>) {
    forall i, j :: 0 <= i < j < |nodes| ==> nodes[i].id != nodes[j].id
  }

  lemma IdsSeparate(nodes: seq<Node>)
    requires DistinctIds(nodes)
    ensures Distinct(nodes) && Separates(ListLess, nodes)
  {
    forall x, y | x in nodes && y in nodes && x != y ensures ListLess(x, y) || ListLess(y, x) {
      ListLessSeparates(x, y);
    }
  }

  /** Whether the filter matches the node and few enough matching nodes are listed before it. */
  predicate Listed(nodes: seq<Node>, f: NodeFilter, n: Node) {
    Matches(f, n) && Fits(f.limit, Rank(ListLess, Filter(Matcher(f), nodes), n))
  }

  lemma ListedExactly(nodes: seq<Node>, f: NodeFilter, n: Node)
    requires DistinctIds(nodes)
    ensures n in List(nodes, f) <==> n in nodes && Listed(nodes, f, n)
  {
    var matching := Filter(Matcher(f), nodes);
    IdsSeparate(nodes);
    FilterDistinct(Matcher(f), nodes);
    FilterMember(Matcher(f), nodes);
    ListLessWeak();
    TopByRank(ListLess, matching, f.limit, n);
  }

  /** Listed nodes that the quality filter keeps compete for publication. */
  function Contends(cfg: Config, nodes: seq<Node>, f: NodeFilter): Node -> bool {
    n => Listed(nodes, f, n) && Keeps(cfg, n)
  }

  /** The configured order, with ties in listing order. */
  function PublishOrder(cfg: Config): (Node, Node) -> bool {
    Lex(Less(cfg), ListLess)
  }

  /** Whether the node competes and few enough competitors come before it for both limits. */
  predicate Publishes(cfg: Config, nodes: seq<Node>, f: NodeFilter, n: Node) {
    var rank := Rank(PublishOrder(cfg), Filter(Contends(cfg, nodes, f), nodes), n);
    Contends(cfg, nodes, f)(n) && Fits(cfg.filterMaxNodes, rank) && Fits(MaxPublished(cfg), rank)
  }

  lemma ContendersKept(cfg: Config, nodes: seq<Node>, f: NodeFilter)
    requires DistinctIds(nodes)
    ensures var kept := Filter(Keeper(cfg), List(nodes, f));
            && SortedBy(ListLess, kept) && Distinct(kept) && Separates(ListLess, kept)
            && multiset(kept) == multiset(Filter(Contends(cfg, nodes, f), nodes))
  {
    var matching := Filter(Matcher(f), nodes);
    var listed := List(nodes, f);
    var kept, contenders := Filter(Keeper(cfg), listed), Filter(Contends(cfg, nodes, f), nodes);
    IdsSeparate(nodes);
    ListLessWeak();
    SortSorts(ListLess, matching);
    FilterDistinct(Matcher(f), nodes);
    DistinctPart(matching, Sort(ListLess, matching));
    FilterSorted(ListLess, Keeper(cfg), listed);
    FilterDistinct(Keeper(cfg), listed);
    FilterDistinct(Contends(cfg, nodes, f), nodes);
    FilterMember(Keeper(cfg), listed);
    FilterMember(Contends(cfg, nodes, f), nodes);
    forall n: Node ensures n in kept <==> n in contenders {
      ListedExactly(nodes, f, n);
    }
    forall n: Node ensures n in kept ==> n in nodes {
      ListedExactly(nodes, f, n);
    }
    SameMembers(kept, contenders);
  }

  /** The selection from a listing holds exactly the nodes whose ranks fit. */
  lemma PublishedExactly(cfg: Config, nodes: seq<Node>, f: NodeFilter, n: Node)
    requires DistinctIds(nodes)
    ensures n in Limit(MaxPublished(cfg), Applied(cfg, List(nodes, f))) <==> n in nodes && Publishes(cfg, nodes, f, n)
  {
    var kept := Filter(Keeper(cfg), List(nodes, f));
    var contenders := Filter(Contends(cfg, nodes, f), nodes);
    var m, k := MaxPublished(cfg), cfg.filterMaxNodes;
    ContendersKept(cfg, nodes, f);
    LessWeak(cfg);
    ListLessWeak();
    LexWeak(Less(cfg), ListLess);
    StableSort(Less(cfg), ListLess, kept);
    TwoLimits(m, k, Sort(PublishOrder(cfg), kept));
    TopByRank(PublishOrder(cfg), kept, if k <= 0 || 0 < m <= k then m else k, n);
    RankRearranged(PublishOrder(cfg), kept, contenders, n);
    FilterMember(Contends(cfg, nodes, f), nodes);
    assert n in kept <==> n in multiset(kept);
    assert n in contenders <==> n in multiset(contenders);
  }

  // ------------------------------------------------- when it falls back

  predicate AnyMatch(nodes: seq<Node>, f: NodeFilter) {
    exists n :: n in nodes && Matches(f, n)
  }

  lemma ListedAny(nodes: seq<Node>, f: NodeFilter)
    ensures List(nodes, f) != [] <==> AnyMatch(nodes, f)
  {
    var matching := Filter(Matcher(f), nodes);
    FilterMember(Matcher(f), nodes);
    ListLessWeak();
    var sorted := Sort(ListLess, matching);
    if matching != [] {
      assert matching[0] in matching;
      SortMember(ListLess, matching, matching[0]);
    }
    if sorted != [] {
      assert sorted[0] in sorted;
      SortMember(ListLess, matching, sorted[0]);
    }
  }

  /** The filter a fallback uses: score 50 if any node is that good, otherwise any score. */
  function Fallback(cfg: Config, nodes: seq<Node>): NodeFilter {
    var low := FallbackFilter(cfg, 50.0, MaxPublished(cfg) * 2);
    if AnyMatch(nodes, low) then low else FallbackFilter(cfg, 0.0, MaxPublished(cfg))
  }

  /**
   When the global selection fell back to lower scores, every live country selection is empty.  So the
   cached list of a country is a prefix of the live one exactly when no node of that country makes it
   into the fallback.
   */
  lemma FallbackAgreesExactly(cfg: Config, nodes: seq<Node>, cc: string, flag: string -> string)
    requires DistinctIds(nodes) && IsoCountries(nodes) && Iso(cc) && cc != "" && cc != "UK"
    requires !NoFallback(cfg, nodes)
    ensures Select(cfg, nodes, cc, flag) == []
    ensures Group(Select(cfg, nodes, "", flag), cc) <= Select(cfg, nodes, cc, flag) <==>
            forall n :: n in nodes && Publishes(cfg, nodes, Fallback(cfg, nodes), n) ==> GroupKey(n.country) != cc
  {
    var f := Fallback(cfg, nodes);
    var selected := Limit(MaxPublished(cfg), Applied(cfg, List(nodes, f)));
    NothingInCountry(cfg, nodes, cc, flag);
    FallbackPool(cfg, nodes);
    assert Select(cfg, nodes, "", flag) == Rename(cfg, selected, flag);
    RenamedGroup(cfg, selected, cc, flag);
    forall n ensures n in selected <==> n in nodes && Publishes(cfg, nodes, f, n) {
      PublishedExactly(cfg, nodes, f, n);
    }
  }

  lemma NothingInCountry(cfg: Config, nodes: seq<Node>, cc: string, flag: string -> string)
    requires IsoCountries(nodes) && Iso(cc) && cc != "" && cc != "UK" && !NoFallback(cfg, nodes)
    ensures Select(cfg, nodes, cc, flag) == []
  {
    CandidatesByCountry(cfg, nodes, cc);
    assert Candidates(cfg, nodes, "") == [];
  }

  lemma FallbackPool(cfg: Config, nodes: seq<Node>)
    requires !NoFallback(cfg, nodes)
    ensures Pool(cfg, nodes, "") == List(nodes, Fallback(cfg, nodes))
  {
    ListedAny(nodes, FallbackFilter(cfg, 50.0, MaxPublished(cfg) * 2));
  }

  /** Renaming moves no node to another country. */
  lemma RenamedGroup(cfg: Config, s: seq<Node>, cc: string, flag: string -> string)
    ensures Group(Rename(cfg, s, flag), cc) == [] <==> forall n :: n in s ==> GroupKey(n.country) != cc
  {
    GroupEmpty(s, cc);
    FlagGroup(s, cc, flag);
  }

  lemma GroupEmpty(s: seq<Node>, cc: string)
    ensures Group(s, cc) == [] <==> forall n :: n in s ==> GroupKey(n.country) != cc
  {
    FilterMember(InGroup(cc), s);
    if Group(s, cc) != [] {
      assert Group(s, cc)[0] in Group(s, cc);
    }
  }

  /** With dialing off, a usable node good enough for the fallback and not for publication itself. */
  predicate OnlyFallback(cfg: Config, n: Node) {
    && !cfg.dialEnabled && Iso(n.country) && n.country != "" && n.country != "UK"
    && n.alive && 50.0 <= n.score < MinScore(cfg) && Keeps(cfg, n)
    && (n.lastSeen.Some? ==> n.lastSeen.value >= cfg.seenAfter)
  }

  lemma OnlyFallbackMatches(cfg: Config, n: Node)
    requires OnlyFallback(cfg, n)
    ensures !NoFallback(cfg, [n]) && Matches(Fallback(cfg, [n]), n)
    ensures Publishes(cfg, [n], Fallback(cfg, [n]), n)
  {
    var low := FallbackFilter(cfg, 50.0, MaxPublished(cfg) * 2);
    ListedAny([n], PublishFilter(cfg, ""));
    assert n in [n] && Matches(low, n);
    LessWeak(cfg);
    ListLessWeak();
    LexWeak(Less(cfg), ListLess);
    RankAlone(ListLess, Matcher(low), n);
    RankAlone(PublishOrder(cfg), Contends(cfg, [n], low), n);
  }

  /** In a store with such a node alone, the cache lists it for its country and the live selection does not. */
  lemma FallbackDisagrees(cfg: Config, n: Node, flag: string -> string)
    requires OnlyFallback(cfg, n)
    ensures !(Group(Select(cfg, [n], "", flag), n.country) <= Select(cfg, [n], n.country, flag))
  {
    OnlyFallbackMatches(cfg, n);
    FallbackAgreesExactly(cfg, [n], n.country, flag);
    assert n in [n];
  }

  /** There is one: a US node with score 60 under a minimum of 70. */
  lemma OnlyFallbackExists() returns (cfg: Config, n: Node)
    ensures OnlyFallback(cfg, n) && n.country == "US" && n.score == 60.0 && MinScore(cfg) == 70.0
  {
    cfg := Config(70.0, 0.0, 100, 100, true, true, false, "", 0, 0, true, 2500, ByScore, false, false);
    n := Node("1", "ss", "node", "US", "ss://", 60.0, 1_000_000, true, false, false, None, {}, None);
  }

  /** So the promise fails for some store and configuration. */
  lemma FallbackWitness(flag: string -> string) returns (cfg: Config, nodes: seq<Node>, cc: string)
    ensures !(Group(Select(cfg, nodes, "", flag), cc) <= Select(cfg, nodes, cc, flag))
  {
    var n;
    cfg, n := OnlyFallbackExists();
    FallbackDisagrees(cfg, n, flag);
    nodes, cc := [n], n.country;
  }

  // --------------------------------------------------------- end to end

  function NormalizeCC(country: string): string {
    if Upper(Trim(country)) == "UK" then "GB" else Upper(Trim(country))
  }

  /** What the cache has for a request: all nodes, a country's list, or nothing. */
  method Lookup(blob: Blob, country: string) returns (found: Option<seq<Node>>)
    ensures NormalizeCC(country) == "" ==> found == Some(blob.all)
    ensures NormalizeCC(country) != "" ==>
              var cc := NormalizeCC(country);
              found == if cc in blob.countries then Some(blob.countries[cc]) else None
  {
    var cc := Upper(Trim(country));
    if cc == "UK" {
      cc := "GB";
    }
    if cc != "" {
      return if cc in blob.countries then Some(blob.countries[cc]) else None;
    }
    return Some(blob.all);
  }

  lemma {:induction false} FilterSame<T>(p: T -> bool, q: T -> bool, s: seq<T>)
    requires forall x :: x in s ==> p(x) == q(x)
    ensures Filter(p, s) == Filter(q, s)
    decreases |s|
  {
    if s != [] {
      assert s[0] in s;
      FilterSame(p, q, s[1..]);
    }
  }

  /** A request in any spelling selects what its normalised country code selects. */
  lemma SpellingIrrelevant(cfg: Config, nodes: seq<Node>, country: string, flag: string -> string)
    requires Iso(NormalizeCC(country)) && NormalizeCC(country) != ""
    ensures Select(cfg, nodes, country, flag) == Select(cfg, nodes, NormalizeCC(country), flag)
  {
    var cc := NormalizeCC(country);
    IsoUpper(cc);
    if Upper(Trim(country)) == "UK" {
      IsoUpper("UK");
    }
    var f, g := PublishFilter(cfg, country), PublishFilter(cfg, cc);
    forall n | n in nodes ensures Matcher(f)(n) == Matcher(g)(n) {
    }
    FilterSame(Matcher(f), Matcher(g), nodes);
    assert Primary(cfg, nodes, country) == Primary(cfg, nodes, cc);
    assert country != "" by {
      IsoUpper("");
    }
  }

  /** Nor does the selection depend on the order in which the store yields its nodes. */
  lemma SelectOrderIrrelevant(cfg: Config, a: seq<Node>, b: seq<Node>, country: string, flag: string -> string)
    requires multiset(a) == multiset(b) && DistinctIds(a)
    ensures Select(cfg, a, country, flag) == Select(cfg, b, country, flag)
  {
    ListOrderIrrelevant(a, b, PublishFilter(cfg, country));
    ListOrderIrrelevant(a, b, FallbackFilter(cfg, 50.0, MaxPublished(cfg) * 2));
    ListOrderIrrelevant(a, b, FallbackFilter(cfg, 0.0, MaxPublished(cfg)));
    assert Pool(cfg, a, country) == Pool(cfg, b, country);
  }

  /** A cached country code is an ISO code other than UK. */
  lemma GroupsAreIso(nodes: seq<Node>, cc: string)
    requires IsoCountries(nodes) && cc in GroupMap(nodes)
    ensures Iso(cc) && cc != "" && cc != "UK"
  {
    var n :| n in nodes && GroupKey(n.country) == cc;
  }

  lemma AppliedMember(cfg: Config, nodes: seq<Node>, n: Node)
    ensures n in Applied(cfg, nodes) ==> n in nodes
  {
    LessWeak(cfg);
    SortMember(Less(cfg), Filter(Keeper(cfg), nodes), n);
    FilterMember(Keeper(cfg), nodes);
  }

  lemma ListMember(nodes: seq<Node>, f: NodeFilter, n: Node)
    ensures n in List(nodes, f) ==> n in nodes
  {
    ListLessWeak();
    SortMember(ListLess, Filter(Matcher(f), nodes), n);
    FilterMember(Matcher(f), nodes);
  }

  lemma SelectedIso(cfg: Config, nodes: seq<Node>, flag: string -> string)
    requires IsoCountries(nodes) && NoFallback(cfg, nodes)
    ensures IsoCountries(Select(cfg, nodes, "", flag))
  {
    var t := Limit(MaxPublished(cfg), Applied(cfg, List(nodes, PublishFilter(cfg, ""))));
    forall n | n in t ensures Iso(n.country) {
      AppliedMember(cfg, List(nodes, PublishFilter(cfg, "")), n);
      ListMember(nodes, PublishFilter(cfg, ""), n);
    }
    RenamedIso(cfg, t, flag);
  }

  lemma RenamedIso(cfg: Config, s: seq<Node>, flag: string -> string)
    requires IsoCountries(s)
    ensures IsoCountries(Rename(cfg, s, flag))
  {
    forall n | n in FlagAll(s, flag) ensures Iso(n.country) {
      var i :| 0 <= i < |s| && n == Flagged(s[i], flag);
      assert s[i] in s;
    }
  }

  /**
   What the cache serves for a country, however the request spells it, is a prefix of the live selection for
   that request from the same stored nodes in whatever order, and all of it when nothing was truncated.
   */
  lemma ServedAgreesWithLive(cfg: Config, a: seq<Node>, b: seq<Node>, blob: Blob, country: string,
                             flag: string -> string)
    requires multiset(a) == multiset(b) && DistinctIds(a) && IsoCountries(a)
    requires NoFallback(cfg, a) && Ranks(cfg, Candidates(cfg, a, ""))
    requires Capped(blob.countries, GroupMap(Select(cfg, a, "", flag))) && NormalizeCC(country) in blob.countries
    ensures blob.countries[NormalizeCC(country)] <= Select(cfg, b, country, flag)
    ensures Whole(cfg, Candidates(cfg, a, "")) ==>
              blob.countries[NormalizeCC(country)] == Select(cfg, b, country, flag)
  {
    var cc := NormalizeCC(country);
    SelectedIso(cfg, a, flag);
    GroupsAreIso(Select(cfg, a, "", flag), cc);
    CacheAgreesWithLive(cfg, a, cc, flag);
    SpellingIrrelevant(cfg, a, country, flag);
    SelectOrderIrrelevant(cfg, a, b, country, flag);
  }

  /** The cache rebuilt from one listing of the store and asked once, and the same request served live from another. */
  method CachedAndLive(cfg: Config, a: seq<Node>, b: seq<Node>, maxCountryVariants: int, country: string,
                       flag: string -> string)
    returns (cached: Option<seq<Node>>, live: seq<Node>)
    requires multiset(a) == multiset(b) && DistinctIds(a) && IsoCountries(a)
    requires NoFallback(cfg, a) && Ranks(cfg, Candidates(cfg, a, ""))
    ensures NormalizeCC(country) != "" && cached.Some? ==>
              cached.value <= live && (Whole(cfg, Candidates(cfg, a, "")) ==> cached.value == live)
  {
    var all := SelectPublishNodesCountry(cfg, a, "", flag);
    var blob := Update(all, maxCountryVariants);
    cached := Lookup(blob, country);
    live := SelectPublishNodesCountry(cfg, b, country, flag);
    if NormalizeCC(country) != "" && cached.Some? {
      ServedAgreesWithLive(cfg, a, b, blob, country, flag);
    }
  }

  function RawNodes(nodes: seq<Node>): seq<Names.RawNode> {
    seq(|nodes|, i requires 0 <= i < |nodes| => Names.RawNode(nodes[i].name, nodes[i].uri, nodes[i].protocol))
  }

  /** So the raw body the cache serves for a country is a prefix of the body rendered live for the request. */
  lemma CachedBodyIsPrefix(cfg: Config, a: seq<Node>, b: seq<Node>, blob: Blob, country: string,
                           flag: string -> string, rename: (Names.RawNode, string) -> string)
    requires multiset(a) == multiset(b) && DistinctIds(a) && IsoCountries(a)
    requires NoFallback(cfg, a) && Ranks(cfg, Candidates(cfg, a, ""))
    requires Capped(blob.countries, GroupMap(Select(cfg, a, "", flag))) && NormalizeCC(country) in blob.countries
    ensures Names.RawBody(RawNodes(blob.countries[NormalizeCC(country)]), rename)
            <= Names.RawBody(RawNodes(Select(cfg, b, country, flag)), rename)
  {
    ServedAgreesWithLive(cfg, a, b, blob, country, flag);
    var cached, live := blob.countries[NormalizeCC(country)], Select(cfg, b, country, flag);
    Names.RawBodyPrefix(RawNodes(cached), RawNodes(live), rename);
  }

  // ------------------------------------- under another order, when cut

  /** A node that is published if it ranks high enough. */
  predicate Fit(cfg: Config, n: Node) {
    Matches(PublishFilter(cfg, ""), n) && Keeps(cfg, n) && n.alive && Iso(n.country)
  }

  /**
   Latency order, one node published, three listed.  `a` and `b` crowd `y` out of the global listing, where `x`
   is then the fastest; among the nodes of its own country `y` is faster.
   */
  predicate Crowds(cfg: Config, a: Node, b: Node, x: Node, y: Node) {
    && MaxPublished(cfg) == 1 && cfg.sortBy.ByLatency? && !cfg.preferTls && !cfg.renameWithFlag && cfg.dialEnabled
    && Fit(cfg, a) && Fit(cfg, b) && Fit(cfg, x) && Fit(cfg, y)
    && a.score > b.score > x.score > y.score && y.latency < x.latency < a.latency && x.latency < b.latency
    && x.country == y.country && x.country != "" && x.country != "UK"
    && GroupKey(a.country) != x.country && GroupKey(b.country) != x.country
  }

  /** The ranks of four nodes of descending scores are their positions. */
  lemma ScoreRanks(a: Node, b: Node, x: Node, y: Node)
    requires a.score > b.score > x.score > y.score
    ensures var s := [a, b, x, y];
            && Rank(ListLess, s, a) == 0 && Rank(ListLess, s, b) == 1
            && Rank(ListLess, s, x) == 2 && Rank(ListLess, s, y) == 3
  {
    ListLessWeak();
    FilterFour(Below(ListLess, a), a, b, x, y);
    FilterFour(Below(ListLess, b), a, b, x, y);
    FilterFour(Below(ListLess, x), a, b, x, y);
    FilterFour(Below(ListLess, y), a, b, x, y);
  }

  lemma FilterFour<T>(keep: T -> bool, a: T, b: T, x: T, y: T)
    ensures Filter(keep, [a, b, x, y]) ==
            (if keep(a) then [a] else []) + ((if keep(b) then [b] else [])
            + ((if keep(x) then [x] else []) + (if keep(y) then [y] else [])))
  {
    FilterOne(keep, a);
    FilterOne(keep, b);
    FilterOne(keep, x);
    FilterOne(keep, y);
    FilterAppend(keep, [a], [b] + ([x] + [y]));
    FilterAppend(keep, [b], [x] + [y]);
    FilterAppend(keep, [x], [y]);
    assert [a] + ([b] + ([x] + [y])) == [a, b, x, y];
  }

  lemma FilterOne<T>(keep: T -> bool, a: T)
    ensures Filter(keep, [a]) == if keep(a) then [a] else []
  {
    assert [a][1..] == [];
  }

  lemma ListedGlobally(cfg: Config, a: Node, b: Node, x: Node, y: Node)
    requires Crowds(cfg, a, b, x, y)
    ensures var s, f := [a, b, x, y], PublishFilter(cfg, "");
            Listed(s, f, a) && Listed(s, f, b) && Listed(s, f, x) && !Listed(s, f, y)
  {
    FilterFour(Matcher(PublishFilter(cfg, "")), a, b, x, y);
    assert Filter(Matcher(PublishFilter(cfg, "")), [a, b, x, y]) == [a, b, x, y];
    ScoreRanks(a, b, x, y);
  }

  lemma FastestListed(cfg: Config, a: Node, b: Node, x: Node, y: Node)
    requires Crowds(cfg, a, b, x, y)
    ensures Rank(PublishOrder(cfg), [a, b, x], x) == 0
  {
    var below := Below(PublishOrder(cfg), x);
    LessWeak(cfg);
    ListLessWeak();
    LexWeak(Less(cfg), ListLess);
    assert !below(a) && !below(b) && !below(x);
    FilterNone(below, [a, b, x]);
  }

  lemma PublishedGlobally(cfg: Config, a: Node, b: Node, x: Node, y: Node)
    requires Crowds(cfg, a, b, x, y)
    ensures Publishes(cfg, [a, b, x, y], PublishFilter(cfg, ""), x)
  {
    var contends := Contends(cfg, [a, b, x, y], PublishFilter(cfg, ""));
    ListedGlobally(cfg, a, b, x, y);
    FilterFour(contends, a, b, x, y);
    assert Filter(contends, [a, b, x, y]) == [a, b, x];
    FastestListed(cfg, a, b, x, y);
  }

  lemma ContendsInCountry(cfg: Config, a: Node, b: Node, x: Node, y: Node)
    requires Crowds(cfg, a, b, x, y)
    ensures Contends(cfg, [a, b, x, y], PublishFilter(cfg, x.country))(y)
  {
    var f := PublishFilter(cfg, x.country);
    CountryMatches(cfg, a, x.country);
    CountryMatches(cfg, b, x.country);
    CountryMatches(cfg, x, x.country);
    CountryMatches(cfg, y, x.country);
    FilterFour(Matcher(f), a, b, x, y);
    assert Filter(Matcher(f), [a, b, x, y]) == [x, y];
    FilterMember(Below(ListLess, y), [x, y]);
  }

  lemma NotPublishedInCountry(cfg: Config, a: Node, b: Node, x: Node, y: Node)
    requires Crowds(cfg, a, b, x, y)
    ensures !Publishes(cfg, [a, b, x, y], PublishFilter(cfg, x.country), x)
  {
    var s, contends := [a, b, x, y], Contends(cfg, [a, b, x, y], PublishFilter(cfg, x.country));
    ContendsInCountry(cfg, a, b, x, y);
    RankAbove(PublishOrder(cfg), contends, s, y, x);
  }

  /** With dialing on, under the latency order with a cut listing, the cache serves a node that is not served live. */
  lemma OrderMatters(cfg: Config, a: Node, b: Node, x: Node, y: Node, flag: string -> string)
    requires Crowds(cfg, a, b, x, y) && DistinctIds([a, b, x, y])
    ensures NoFallback(cfg, [a, b, x, y])
    ensures !(Group(Select(cfg, [a, b, x, y], "", flag), x.country) <= Select(cfg, [a, b, x, y], x.country, flag))
  {
    var s := [a, b, x, y];
    PublishedGlobally(cfg, a, b, x, y);
    NotPublishedInCountry(cfg, a, b, x, y);
    PublishedExactly(cfg, s, PublishFilter(cfg, ""), x);
    PublishedExactly(cfg, s, PublishFilter(cfg, x.country), x);
    var all, live := Select(cfg, s, "", flag), Select(cfg, s, x.country, flag);
    assert x in s && x in all && x !in live;
    FilterMember(InGroup(x.country), all);
    assert x in Group(all, x.country);
  }

  function Sample(id: string, country: string, score: real, latency: int): Node {
    Node(id, "ss", id, country, "ss://", score, latency, true, false, true, Some(0), {"mihomo"}, None)
  }

  /** There are such nodes. */
  lemma CrowdsExist() returns (cfg: Config, a: Node, b: Node, x: Node, y: Node)
    ensures Crowds(cfg, a, b, x, y) && DistinctIds([a, b, x, y])
  {
    cfg := Config(70.0, 0.0, 1, 0, true, true, true, "mihomo", 0, 0, true, 2500, ByLatency, false, false);
    a, b := Sample("a", "FR", 95.0, 20_000_000), Sample("b", "FR", 94.0, 30_000_000);
    x, y := Sample("x", "US", 90.0, 10_000_000), Sample("y", "US", 80.0, 5_000_000);
    IsoUpper("");
  }

  // ------------------------------------------- what may be published

  /** The publishing rules on a node's fields; the country rule is separate. */
  predicate MeetsRules(cfg: Config, n: Node) {
    && (cfg.dialEnabled ==>
          && n.verified && n.dialTestedAt.Some? && n.dialTestedAt.value >= cfg.verifiedAfter
          && (cfg.dialEngine != "" ==> cfg.dialEngine in n.passed))
    && (cfg.publishAliveOnly || !cfg.publishEnabled ==> n.alive)
    && n.score >= (if cfg.publishMinScore > 0.0 then cfg.publishMinScore
                   else if cfg.filterMinScore > 0.0 then cfg.filterMinScore else 70.0)
    && (n.lastSeen.Some? ==> n.lastSeen.value >= cfg.seenAfter)
  }

  function Alias(country: string): string {
    if EqualFold(country, "UK") then "GB" else country
  }

  /** Of the requested country: equal up to case, UK standing for GB and a missing country for XX. */
  predicate OfCountry(n: Node, country: string) {
    EqualFold(Alias(if n.country == "" then "XX" else n.country), Alias(Trim(country)))
  }

  lemma AliasUpper(country: string)
    ensures Upper(Alias(country)) == if Upper(country) == "UK" then "GB" else Upper(country)
  {
    UpperFolds(country, "UK");
    assert Upper("UK") == "UK" && Upper("GB") == "GB";
  }

  lemma CountryTest(n: Node, country: string)
    ensures Located(n.country) == Wanted(Upper(Trim(country))) <==> OfCountry(n, country)
  {
    var got := if n.country == "" then "XX" else n.country;
    UpperTwice(Trim(country));
    AliasUpper(got);
    AliasUpper(Trim(country));
    assert Upper("XX") == "XX";
    UpperFolds(Alias(got), Alias(Trim(country)));
  }

  /** The quality filter's rules. */
  predicate MeetsQuality(cfg: Config, n: Node) {
    && (cfg.minSuccess ==> n.alive)
    && (n.alive ==> n.latency < (if cfg.maxLatencyMs > 0 then cfg.maxLatencyMs + 1 else 2501) * 1_000_000)
    && (cfg.filterMinScore > 0.0 && n.score > 0.0 ==> n.score >= cfg.filterMinScore)
  }

  /** The rules of the fallback: alive and recently seen, with score 50 if any such node has that much. */
  predicate MeetsFallback(cfg: Config, nodes: seq<Node>, n: Node) {
    && n.alive && (n.lastSeen.Some? ==> n.lastSeen.value >= cfg.seenAfter)
    && ((exists m :: m in nodes && m.score >= 50.0 && m.alive
                     && (m.lastSeen.Some? ==> m.lastSeen.value >= cfg.seenAfter))
        ==> n.score >= 50.0)
  }

  lemma UpperTwice(s: string)
    ensures Upper(Upper(s)) == Upper(s)
  {
  }

  lemma RulesMatch(cfg: Config, n: Node, country: string)
    ensures Matches(PublishFilter(cfg, country), n) <==>
            MeetsRules(cfg, n) && (Trim(country) != "" ==> OfCountry(n, country))
  {
    CountryTest(n, country);
  }

  lemma QualityKeeps(cfg: Config, n: Node)
    ensures Keeps(cfg, n) <==> MeetsQuality(cfg, n)
  {
  }

  lemma FallbackMatch(cfg: Config, nodes: seq<Node>, n: Node)
    ensures Matches(Fallback(cfg, nodes), n) <==> MeetsFallback(cfg, nodes, n)
  {
    var low := FallbackFilter(cfg, 50.0, MaxPublished(cfg) * 2);
    assert forall m :: Matches(low, m) <==>
        m.alive && m.score >= 50.0 && (m.lastSeen.Some? ==> m.lastSeen.value >= cfg.seenAfter);
  }

  /** Whether the selection falls back: a global request, dialing off, and no node meets the publishing rules. */
  predicate FallsBack(cfg: Config, nodes: seq<Node>, country: string) {
    country == "" && !cfg.dialEnabled && !exists m :: m in nodes && MeetsRules(cfg, m)
  }

  /** The rules a node must meet to be selected for a request. */
  predicate Qualifies(cfg: Config, nodes: seq<Node>, country: string, n: Node) {
    && MeetsQuality(cfg, n)
    && (if FallsBack(cfg, nodes, country) then MeetsFallback(cfg, nodes, n)
        else MeetsRules(cfg, n) && (Trim(country) != "" ==> OfCountry(n, country)))
  }

  /** The filter whose listing the selection uses. */
  function PoolFilter(cfg: Config, nodes: seq<Node>, country: string): NodeFilter {
    if FallsBack(cfg, nodes, country) then Fallback(cfg, nodes) else PublishFilter(cfg, country)
  }

  lemma PoolListed(cfg: Config, nodes: seq<Node>, country: string)
    ensures Pool(cfg, nodes, country) == List(nodes, PoolFilter(cfg, nodes, country))
  {
    if country == "" && !cfg.dialEnabled {
      assert Trim("") == "" && Upper("") == "";
      forall m | m in nodes ensures Matches(PublishFilter(cfg, ""), m) <==> MeetsRules(cfg, m) {
        RulesMatch(cfg, m, "");
      }
      ListedAny(nodes, PublishFilter(cfg, ""));
      if FallsBack(cfg, nodes, country) {
        FallbackPool(cfg, nodes);
      }
    }
  }

  lemma PoolMatches(cfg: Config, nodes: seq<Node>, country: string, n: Node)
    ensures Matches(PoolFilter(cfg, nodes, country), n) && Keeps(cfg, n) <==> Qualifies(cfg, nodes, country, n)
  {
    QualityKeeps(cfg, n);
    if FallsBack(cfg, nodes, country) {
      FallbackMatch(cfg, nodes, n);
    } else {
      RulesMatch(cfg, n, country);
    }
  }

  /** The selection before renaming. */
  function Chosen(cfg: Config, nodes: seq<Node>, country: string): seq<Node> {
    Limit(MaxPublished(cfg), Applied(cfg, Pool(cfg, nodes, country)))
  }

  lemma ChosenQualify(cfg: Config, nodes: seq<Node>, country: string, n: Node)
    requires n in Chosen(cfg, nodes, country)
    ensures n in nodes && Qualifies(cfg, nodes, country, n)
  {
    var f := PoolFilter(cfg, nodes, country);
    PoolListed(cfg, nodes, country);
    PoolMatches(cfg, nodes, country, n);
    AppliedKeeps(cfg, List(nodes, f), n);
    ListMatches(nodes, f, n);
  }

  lemma AppliedKeeps(cfg: Config, nodes: seq<Node>, n: Node)
    ensures n in Applied(cfg, nodes) ==> n in nodes && Keeps(cfg, n)
    ensures n in nodes && Keeps(cfg, n) && (cfg.filterMaxNodes <= 0 || |nodes| <= cfg.filterMaxNodes) ==>
              n in Applied(cfg, nodes)
  {
    LessWeak(cfg);
    SortMember(Less(cfg), Filter(Keeper(cfg), nodes), n);
    SortSize(Less(cfg), Filter(Keeper(cfg), nodes));
    FilterMember(Keeper(cfg), nodes);
  }

  lemma ListMatches(nodes: seq<Node>, f: NodeFilter, n: Node)
    ensures n in List(nodes, f) ==> n in nodes && Matches(f, n)
    ensures n in nodes && Matches(f, n) && (f.limit <= 0 || |nodes| <= f.limit) ==> n in List(nodes, f)
    ensures |List(nodes, f)| <= |nodes|
  {
    ListLessWeak();
    SortMember(ListLess, Filter(Matcher(f), nodes), n);
    SortSize(ListLess, Filter(Matcher(f), nodes));
    FilterMember(Matcher(f), nodes);
  }

  /** Whoever is selected meets the rules, and is a stored node, at most renamed. */
  lemma SelectedQualify(cfg: Config, nodes: seq<Node>, country: string, flag: string -> string, n: Node)
      returns (m: Node)
    requires n in Select(cfg, nodes, country, flag)
    ensures m in nodes && Qualifies(cfg, nodes, country, m)
    ensures n == m.(name := n.name) && (!cfg.renameWithFlag ==> n == m)
  {
    m := RenamedFrom(cfg, Chosen(cfg, nodes, country), flag, n);
    ChosenQualify(cfg, nodes, country, m);
  }

  lemma RenamedFrom(cfg: Config, chosen: seq<Node>, flag: string -> string, n: Node) returns (m: Node)
    requires n in Rename(cfg, chosen, flag)
    ensures m in chosen && n == m.(name := n.name) && (!cfg.renameWithFlag ==> n == m)
  {
    var i :| 0 <= i < |chosen| && Rename(cfg, chosen, flag)[i] == n;
    m := chosen[i];
    if cfg.renameWithFlag {
      FlaggedKeeps(m, flag);
    }
  }

  lemma FlaggedKeeps(n: Node, flag: string -> string)
    ensures Flagged(n, flag) == n.(name := Flagged(n, flag).name)
  {
  }

  lemma RenamedInto(cfg: Config, chosen: seq<Node>, flag: string -> string, m: Node) returns (n: Node)
    requires m in chosen
    ensures n in Rename(cfg, chosen, flag) && n == m.(name := n.name)
  {
    var i :| 0 <= i < |chosen| && chosen[i] == m;
    n := Rename(cfg, chosen, flag)[i];
    if cfg.renameWithFlag {
      FlaggedKeeps(m, flag);
    }
  }

  /** When the limits are no smaller than the store, whoever meets the rules is selected. */
  lemma QualifiedSelected(cfg: Config, nodes: seq<Node>, country: string, flag: string -> string, m: Node)
    requires MaxPublished(cfg) <= 0 || |nodes| <= MaxPublished(cfg)
    requires cfg.filterMaxNodes <= 0 || |nodes| <= cfg.filterMaxNodes
    requires m in nodes && Qualifies(cfg, nodes, country, m)
    ensures exists n :: n in Select(cfg, nodes, country, flag) && n == m.(name := n.name)
  {
    QualifiedChosen(cfg, nodes, country, m);
    var n := RenamedInto(cfg, Chosen(cfg, nodes, country), flag, m);
  }

  lemma QualifiedChosen(cfg: Config, nodes: seq<Node>, country: string, m: Node)
    requires MaxPublished(cfg) <= 0 || |nodes| <= MaxPublished(cfg)
    requires cfg.filterMaxNodes <= 0 || |nodes| <= cfg.filterMaxNodes
    requires m in nodes && Qualifies(cfg, nodes, country, m)
    ensures m in Chosen(cfg, nodes, country)
  {
    var f := PoolFilter(cfg, nodes, country);
    PoolListed(cfg, nodes, country);
    PoolMatches(cfg, nodes, country, m);
    ListMatches(nodes, f, m);
    AppliedKeeps(cfg, List(nodes, f), m);
    AppliedSize(cfg, List(nodes, f));
  }

  lemma AppliedSize(cfg: Config, nodes: seq<Node>)
    ensures |Applied(cfg, nodes)| <= |nodes|
    ensures cfg.filterMaxNodes > 0 ==> |Applied(cfg, nodes)| <= cfg.filterMaxNodes
  {
    LessWeak(cfg);
    SortSize(Less(cfg), Filter(Keeper(cfg), nodes));
    FilterMember(Keeper(cfg), nodes);
  }

  /** No more are selected than either limit allows. */
  lemma SelectedSize(cfg: Config, nodes: seq<Node>, country: string, flag: string -> string)
    ensures cfg.publishMaxNodes > 0 ==> |Select(cfg, nodes, country, flag)| <= cfg.publishMaxNodes
    ensures cfg.filterMaxNodes > 0 ==> |Select(cfg, nodes, country, flag)| <= cfg.filterMaxNodes
  {
    AppliedSize(cfg, Pool(cfg, nodes, country));
  }

  // ------------------------------------------------------ in which order

  /** `a` may stand before `b` in a list ordered by this key, with latency deciding ties. */
  predicate Orderly(key: SortBy, a: Node, b: Node) {
    match key
    case ByScore => a.score > b.score || (a.score == b.score && a.latency <= b.latency)
    case ByProtocol => TextLess(a.protocol, b.protocol) || (a.protocol == b.protocol && a.latency <= b.latency)
    case ByName => TextLess(a.name, b.name) || (a.name == b.name && a.latency <= b.latency)
    case ByLatency =>
      || (a.alive && !b.alive)
      || (a.alive == b.alive && (a.latency < b.latency || (a.latency == b.latency && a.score >= b.score)))
  }

  /** TLS nodes first if they are preferred, and otherwise by the configured key. */
  predicate InOrder(cfg: Config, a: Node, b: Node) {
    if cfg.preferTls && a.tls != b.tls then a.tls else Orderly(cfg.sortBy, a, b)
  }

  lemma NotLessInOrder(cfg: Config, a: Node, b: Node)
    ensures !NodeLess(cfg, b, a) <==> InOrder(cfg, a, b)
  {
    TextLessTotal(a.name, b.name);
    TextLessTotal(a.protocol, b.protocol);
  }

  /** What the filter returns is in the configured order. */
  lemma AppliedInOrder(cfg: Config, nodes: seq<Node>, i: nat, j: nat)
    requires i < j < |Applied(cfg, nodes)|
    ensures InOrder(cfg, Applied(cfg, nodes)[i], Applied(cfg, nodes)[j])
  {
    LessWeak(cfg);
    var sorted := Sort(Less(cfg), Filter(Keeper(cfg), nodes));
    SortSorts(Less(cfg), Filter(Keeper(cfg), nodes));
    assert !Less(cfg)(sorted[j], sorted[i]);
    NotLessInOrder(cfg, sorted[i], sorted[j]);
  }

  /** A listing goes down in score, then up in latency, then in name and id. */
  lemma ListInOrder(nodes: seq<Node>, f: NodeFilter, i: nat, j: nat)
    requires i < j < |List(nodes, f)|
    ensures ListedSo(List(nodes, f)[i], List(nodes, f)[j])
  {
    ListLessWeak();
    var sorted := Sort(ListLess, Filter(Matcher(f), nodes));
    SortSorts(ListLess, Filter(Matcher(f), nodes));
    assert !ListLess(sorted[j], sorted[i]);
    NotLessListed(sorted[i], sorted[j]);
  }

  predicate ListedSo(a: Node, b: Node) {
    || a.score > b.score
    || (a.score == b.score && a.latency < b.latency)
    || (a.score == b.score && a.latency == b.latency && TextLess(a.name, b.name))
    || (a.score == b.score && a.latency == b.latency && a.name == b.name && (TextLess(a.id, b.id) || a.id == b.id))
  }

  lemma NotLessListed(a: Node, b: Node)
    ensures !ListLess(b, a) <==> ListedSo(a, b)
  {
    TextLessTotal(a.name, b.name);
    TextLessTotal(a.id, b.id);
  }

  /** A renamed node shows its country's flag, if it has one, once, and is the same node otherwise. */
  lemma FlaggedMeans(n: Node, flag: string -> string)
    ensures var r := Flagged(n, flag);
            && r == n.(name := r.name) && Flagged(r, flag) == r
            && (n.country != "" && n.country != "XX" && flag(n.country) != "" ==>
                  var emoji := flag(n.country);
                  && emoji <= r.name && (emoji <= n.name ==> r.name == n.name)
                  && (!(emoji <= n.name) && Trim(n.name) != "" ==> r.name == emoji + " " + Trim(n.name))
                  && (!(emoji <= n.name) && Trim(n.name) == "" ==> r.name == emoji + " " + n.country))
            && (n.country == "" || n.country == "XX" || flag(n.country) == "" ==> r == n)
  {
  }

  /** However a request spells the United Kingdom, it asks for GB. */
  lemma NormalizeMeans(country: string)
    ensures EqualFold(NormalizeCC(country), Alias(Trim(country)))
    ensures forall c :: c in NormalizeCC(country) ==> !('a' <= c <= 'z')
  {
    AliasUpper(Trim(country));
    CaseMeans(Trim(country));
    UpperTwice(Alias(Trim(country)));
    UpperTwice(Trim(country));
    assert Upper("GB") == "GB";
    UpperFolds(NormalizeCC(country), Alias(Trim(country)));
  }
}
