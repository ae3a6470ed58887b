/**
 Choosing which nodes to dial: candidates are ranked by an adjusted score, then
 taken in two passes under quotas per country and protocol and per server.
 */
module DialCandidates {
  import opened Text
  import opened Wrappers
  import opened Sequences

  datatype Node = Node(
    id: string, server: string, country: string, protocol: string, score: real, latency: int,
    avgLatencyMs: Option<int>, verified: bool, dialFailed: bool, supported: bool, recentlyDialed: bool)

  // -------------------------------------------------------------- ranking

  function LatencyBonus(lat: int): real {
    if 0 < lat < 8 then -25.0 else if 15 <= lat <= 800 then 8.0 else if lat > 1500 then -10.0 else 0.0
  }

  function AdjustedScore(n: Node): real {
    var ms := if n.latency <= 0 then 0 else n.latency / 1_000_000;
    var lat := if ms <= 0 && n.avgLatencyMs.Some? then n.avgLatencyMs.value else ms;
    n.score
    + LatencyBonus(lat)
    + (if n.verified then 5.0 else 0.0)
    + (if n.protocol in {"ss", "trojan", "hysteria2"} then 3.0 else 0.0)
    + (if n.dialFailed then -5.0 else 0.0)
  }

  predicate RankLess(a: Node, b: Node) {
    if AdjustedScore(a) != AdjustedScore(b) then AdjustedScore(a) > AdjustedScore(b) else a.latency < b.latency
  }

  function Eligible(onlyUnverified: bool): Node -> bool {
    (n: Node) => n.supported && !(onlyUnverified && n.recentlyDialed)
  }

  function Ranking(candidates: seq<Node>, onlyUnverified: bool): seq<Node> {
    Sort(RankLess, Filter(Eligible(onlyUnverified), candidates))
  }

  // --------------------------------------------------------------- quotas

  function CountryKey(n: Node): string {
    (if Upper(n.country) == "" then "XX" else Upper(n.country)) + "|" + n.protocol
  }

  function PerKey(maxDial: int): int {
    var k := maxDial / 8 + 2;
    if k < 3 then 3 else if k > 12 then 12 else k
  }

  /** The classes of nodes that quotas count. */
  datatype Class = Everything | OfKey(key: string) | OnServer(server: string)

  predicate In(c: Class, n: Node) {
    match c
    case Everything => true
    case OfKey(key) => CountryKey(n) == key
    case OnServer(server) => n.server == server
  }

  /** How many of the taken nodes fall in a class; `took` marks a prefix of the ranking. */
  function Uses(ranked: seq<Node>, took: seq<bool>, c: Class): nat
    requires |took| <= |ranked|
  {
    if took == [] then 0
    else
      var i := |took| - 1;
      Uses(ranked, took[..i], c) + (if took[i] && In(c, ranked[i]) then 1 else 0)
  }

  function Picked(ranked: seq<Node>, took: seq<bool>): seq<Node>
    requires |took| <= |ranked|
  {
    if took == [] then []
    else
      var i := |took| - 1;
      Picked(ranked, took[..i]) + (if took[i] then [ranked[i]] else [])
  }

  /** First pass: room left, the country and protocol under their quota, at most two per server. */
  predicate FirstTakes(ranked: seq<Node>, before: seq<bool>, maxDial: int)
    requires |before| < |ranked|
  {
    var n := ranked[|before|];
    && Uses(ranked, before, Everything) < maxDial
    && Uses(ranked, before, OfKey(CountryKey(n))) < PerKey(maxDial)
    && Uses(ranked, before, OnServer(n.server)) < 2
  }

  ghost predicate IsFirstPass(ranked: seq<Node>, took: seq<bool>, maxDial: int)
    requires |took| <= |ranked|
  {
    forall i :: 0 <= i < |took| ==> took[i] == FirstTakes(ranked, took[..i], maxDial)
  }

  /** Second pass: whatever the first pass left, while there is room, at most three per server. */
  predicate SecondTakes(ranked: seq<Node>, first: seq<bool>, before: seq<bool>, maxDial: int)
    requires |before| < |ranked| == |first|
  {
    var n := ranked[|before|];
    && !first[|before|]
    && Uses(ranked, first, Everything) + Uses(ranked, before, Everything) < maxDial
    && Uses(ranked, first, OnServer(n.server)) + Uses(ranked, before, OnServer(n.server)) < 3
  }

  ghost predicate IsSecondPass(ranked: seq<Node>, first: seq<bool>, took: seq<bool>, maxDial: int)
    requires |took| <= |ranked| == |first|
  {
    forall i :: 0 <= i < |took| ==> took[i] == SecondTakes(ranked, first, took[..i], maxDial)
  }

  // ------------------------------------------------------------ the picker

  function Lookup(m: map<string, nat>, k: string): nat {
    if k in m then m[k] else 0
  }

  function Bump(m: map<string, nat>, k: string): map<string, nat> {
    m[k := Lookup(m, k) + 1]
  }

  lemma UsesSnoc(ranked: seq<Node>, took: seq<bool>, t: bool, c: Class)
    requires |took| < |ranked|
    ensures Uses(ranked, took + [t], c) == Uses(ranked, took, c) + (if t && In(c, ranked[|took|]) then 1 else 0)
    ensures Picked(ranked, took + [t]) == Picked(ranked, took) + (if t then [ranked[|took|]] else [])
  {
    assert (took + [t])[..|took|] == took;
  }

  /** `used` counts the taken nodes of every server, on top of what it counted before. */
  ghost predicate CountsServers(used: map<string, nat>, before: map<string, nat>, ranked: seq<Node>, took: seq<bool>)
    requires |took| <= |ranked|
  {
    forall s :: Lookup(used, s) == Lookup(before, s) + Uses(ranked, took, OnServer(s))
  }

  ghost predicate CountsKeys(used: map<string, nat>, ranked: seq<Node>, took: seq<bool>)
    requires |took| <= |ranked|
  {
    forall k :: Lookup(used, k) == Uses(ranked, took, OfKey(k))
  }

  lemma ServerStep(used: map<string, nat>, before: map<string, nat>, ranked: seq<Node>, took: seq<bool>, t: bool)
    requires |took| < |ranked| && CountsServers(used, before, ranked, took)
    ensures CountsServers(if t then Bump(used, ranked[|took|].server) else used, before, ranked, took + [t])
  {
    forall s ensures Lookup(if t then Bump(used, ranked[|took|].server) else used, s)
                     == Lookup(before, s) + Uses(ranked, took + [t], OnServer(s))
    {
      UsesSnoc(ranked, took, t, OnServer(s));
    }
  }

  lemma KeyStep(used: map<string, nat>, ranked: seq<Node>, took: seq<bool>, t: bool)
    requires |took| < |ranked| && CountsKeys(used, ranked, took)
    ensures CountsKeys(if t then Bump(used, CountryKey(ranked[|took|])) else used, ranked, took + [t])
  {
    forall k ensures Lookup(if t then Bump(used, CountryKey(ranked[|took|])) else used, k)
                     == Uses(ranked, took + [t], OfKey(k))
    {
      UsesSnoc(ranked, took, t, OfKey(k));
    }
  }

  lemma {:induction false} PickedSize(ranked: seq<Node>, took: seq<bool>)
    requires |took| <= |ranked|
    ensures |Picked(ranked, took)| == Uses(ranked, took, Everything)
    decreases |took|
  {
    if took != [] {
      PickedSize(ranked, took[..|took| - 1]);
    }
  }

  lemma FirstPassSnoc(ranked: seq<Node>, took: seq<bool>, t: bool, maxDial: int)
    requires |took| < |ranked| && IsFirstPass(ranked, took, maxDial) && t == FirstTakes(ranked, took, maxDial)
    ensures IsFirstPass(ranked, took + [t], maxDial)
  {
    var next := took + [t];
    forall i | 0 <= i < |next| ensures next[i] == FirstTakes(ranked, next[..i], maxDial) {
      assert next[..i] == took[..i];
      if i == |took| {
        assert took[..i] == took;
      }
    }
  }

  lemma SecondPassSnoc(ranked: seq<Node>, first: seq<bool>, took: seq<bool>, t: bool, maxDial: int)
    requires |took| < |ranked| == |first| && IsSecondPass(ranked, first, took, maxDial)
    requires t == SecondTakes(ranked, first, took, maxDial)
    ensures IsSecondPass(ranked, first, took + [t], maxDial)
  {
    var next := took + [t];
    forall i | 0 <= i < |next| ensures next[i] == SecondTakes(ranked, first, next[..i], maxDial) {
      assert next[..i] == took[..i];
      if i == |took| {
        assert took[..i] == took;
      }
    }
  }

  method FirstPass(ranked: seq<Node>, maxDial: int)
    returns (out: seq<Node>, usedServer: map<string, nat>, took: seq<bool>)
    ensures |took| == |ranked| && IsFirstPass(ranked, took, maxDial) && out == Picked(ranked, took)
    ensures CountsServers(usedServer, map[], ranked, took)
  {
    var perKey := PerKey(maxDial);
    var usedKey: map<string, nat> := map[];
    usedServer, out, took := map[], [], [];
    for i := 0 to |ranked|
      invariant |took| == i && IsFirstPass(ranked, took, maxDial) && out == Picked(ranked, took)
      invariant CountsKeys(usedKey, ranked, took) && CountsServers(usedServer, map[], ranked, took)
    {
      var n := ranked[i];
      var key := CountryKey(n);
      PickedSize(ranked, took);
      var take := |out| < maxDial && Lookup(usedKey, key) < perKey && Lookup(usedServer, n.server) < 2;
      FirstPassSnoc(ranked, took, take, maxDial);
      UsesSnoc(ranked, took, take, Everything);
      KeyStep(usedKey, ranked, took, take);
      ServerStep(usedServer, map[], ranked, took, take);
      if take {
        usedKey, usedServer, out := Bump(usedKey, key), Bump(usedServer, n.server), out + [n];
      }
      took := took + [take];
    }
  }

  ghost predicate DistinctIds(nodes: seq<Node>) {
    forall i, j :: 0 <= i < j < |nodes| ==> nodes[i].id != nodes[j].id
  }

  method SecondPass(ranked: seq<Node>, maxDial: int, first: seq<bool>, picked: seq<Node>, used: map<string, nat>)
    returns (out: seq<Node>, took: seq<bool>)
    requires |first| == |ranked| && picked == Picked(ranked, first) && DistinctIds(ranked)
    requires CountsServers(used, map[], ranked, first)
    ensures |took| == |ranked| && IsSecondPass(ranked, first, took, maxDial)
    ensures out == picked + Picked(ranked, took)
  {
    var seen := set n | n in picked :: n.id;
    PickedSize(ranked, first);
    out, took := picked, [];
    var usedServer := used;
    for i := 0 to |ranked|
      invariant |took| == i && IsSecondPass(ranked, first, took, maxDial) && out == picked + Picked(ranked, took)
      invariant CountsServers(usedServer, used, ranked, took)
    {
      var n := ranked[i];
      PickedSize(ranked, took);
      SeenIsTaken(ranked, first, i);
      var take := |out| < maxDial && n.id !in seen && Lookup(usedServer, n.server) < 3;
      SecondPassSnoc(ranked, first, took, take, maxDial);
      UsesSnoc(ranked, took, take, Everything);
      ServerStep(usedServer, used, ranked, took, take);
      if take {
        usedServer, out := Bump(usedServer, n.server), out + [n];
      }
      took := took + [take];
    }
  }

  lemma {:induction false} PickedIndex(ranked: seq<Node>, took: seq<bool>, n: Node)
    requires |took| <= |ranked|
    ensures n in Picked(ranked, took) ==> exists i :: 0 <= i < |took| && took[i] && ranked[i] == n
    ensures forall i :: 0 <= i < |took| && took[i] ==> ranked[i] in Picked(ranked, took)
    decreases |took|
  {
    if took != [] {
      var i := |took| - 1;
      PickedIndex(ranked, took[..i], n);
      if n in Picked(ranked, took[..i]) {
        var k :| 0 <= k < i && took[..i][k] && ranked[k] == n;
        assert took[k];
      }
      forall k | 0 <= k < |took| && took[k] ensures ranked[k] in Picked(ranked, took) {
        if k < i {
          assert took[..i][k];
        }
      }
    }
  }

  /** With distinct ids, the `seen` set marks exactly the positions the first pass took. */
  lemma SeenIsTaken(ranked: seq<Node>, first: seq<bool>, i: nat)
    requires i < |ranked| == |first| && DistinctIds(ranked)
    ensures ranked[i].id in (set n | n in Picked(ranked, first) :: n.id) <==> first[i]
  {
    PickedIndex(ranked, first, ranked[i]);
    if ranked[i].id in (set n | n in Picked(ranked, first) :: n.id) {
      var n :| n in Picked(ranked, first) && n.id == ranked[i].id;
      PickedIndex(ranked, first, n);
      var k :| 0 <= k < |first| && first[k] && ranked[k] == n;
    }
  }

  /** The selected nodes in order, with the marks of the two passes. */
  method PickDialCandidates(candidates: seq<Node>, maxDial: int, onlyUnverified: bool, allHq: bool)
    returns (out: seq<Node>, first: seq<bool>, second: seq<bool>)
    requires DistinctIds(candidates)
    ensures var ranked := Ranking(candidates, onlyUnverified);
            if allHq || maxDial <= 0 then out == ranked
            else
              && |first| == |second| == |ranked|
              && IsFirstPass(ranked, first, maxDial) && IsSecondPass(ranked, first, second, maxDial)
              && out == Picked(ranked, first) + Picked(ranked, second)
    ensures forall n :: n in out ==> n in candidates && MayDial(n, onlyUnverified)
    ensures allHq || maxDial <= 0 ==> forall n :: n in candidates && MayDial(n, onlyUnverified) ==> n in out
    ensures forall a, b :: Beats(candidates, onlyUnverified, a, b) ==>
              && (allHq || maxDial <= 0 ==> Before(out, a, b))
              && (SameQuotas(a, b) && b in out ==> a in out)
  {
    var ranked := Sort(RankLess, Filter(Eligible(onlyUnverified), candidates));
    if allHq || maxDial <= 0 {
      UnlimitedPreference(candidates, onlyUnverified);
      return ranked, [], [];
    }
    out, first, second := PickLimited(candidates, ranked, maxDial, onlyUnverified);
    LimitedPreference(candidates, onlyUnverified, first, second, maxDial);
  }

  /** Limited mode: the two passes over the ranking. */
  method PickLimited(candidates: seq<Node>, ranked: seq<Node>, maxDial: int, onlyUnverified: bool)
    returns (out: seq<Node>, first: seq<bool>, second: seq<bool>)
    requires DistinctIds(candidates) && ranked == Ranking(candidates, onlyUnverified)
    ensures |first| == |second| == |ranked|
    ensures IsFirstPass(ranked, first, maxDial) && IsSecondPass(ranked, first, second, maxDial)
    ensures out == Picked(ranked, first) + Picked(ranked, second)
  {
    RankingDistinct(candidates, onlyUnverified);
    var usedServer;
    out, usedServer, first := FirstPass(ranked, maxDial);
    if |out| < maxDial {
      out, second := SecondPass(ranked, maxDial, first, out, usedServer);
    } else {
      second := seq(|ranked|, i => false);
      PickedSize(ranked, first);
      NoneTaken(ranked, second);
    }
  }

  lemma UnlimitedPreference(candidates: seq<Node>, onlyUnverified: bool)
    ensures var ranked := Ranking(candidates, onlyUnverified);
            && (forall n :: n in ranked <==> n in candidates && MayDial(n, onlyUnverified))
            && forall a, b :: Beats(candidates, onlyUnverified, a, b) ==> Before(ranked, a, b)
  {
    var ranked := Ranking(candidates, onlyUnverified);
    forall n: Node ensures n in ranked <==> n in candidates && MayDial(n, onlyUnverified) {
      RankingMembers(candidates, onlyUnverified, n);
    }
    forall a, b | Beats(candidates, onlyUnverified, a, b) ensures Before(ranked, a, b) {
      var i, j := RankedBefore(candidates, onlyUnverified, a, b);
    }
  }

  /** What the passes pick may be dialed, and they pick no node without one that is preferred to it under its quotas. */
  lemma LimitedPreference(candidates: seq<Node>, onlyUnverified: bool, first: seq<bool>, second: seq<bool>,
                          maxDial: int)
    requires DistinctIds(candidates)
    requires var ranked := Ranking(candidates, onlyUnverified);
             && |first| == |second| == |ranked|
             && IsFirstPass(ranked, first, maxDial) && IsSecondPass(ranked, first, second, maxDial)
    ensures var ranked := Ranking(candidates, onlyUnverified);
            var out := Picked(ranked, first) + Picked(ranked, second);
            && (forall n :: n in out ==> n in candidates && MayDial(n, onlyUnverified))
            && forall a, b :: Beats(candidates, onlyUnverified, a, b) && SameQuotas(a, b) && b in out ==> a in out
  {
    var ranked := Ranking(candidates, onlyUnverified);
    var out := Picked(ranked, first) + Picked(ranked, second);
    forall n | n in out ensures n in candidates && MayDial(n, onlyUnverified) {
      var k := PickedAt(ranked, first, second, n);
      assert ranked[k] in ranked;
      RankingMembers(candidates, onlyUnverified, n);
    }
    forall a, b | Beats(candidates, onlyUnverified, a, b) && SameQuotas(a, b) && b in out ensures a in out {
      TwinPicked(candidates, onlyUnverified, first, second, maxDial, a, b);
    }
  }

  lemma PickedAt(ranked: seq<Node>, first: seq<bool>, second: seq<bool>, n: Node) returns (k: nat)
    requires |first| == |second| == |ranked| && n in Picked(ranked, first) + Picked(ranked, second)
    ensures k < |ranked| && ranked[k] == n && (first[k] || second[k])
  {
    PickedIndex(ranked, first, n);
    PickedIndex(ranked, second, n);
    k :| 0 <= k < |ranked| && ranked[k] == n && (first[k] || second[k]);
  }

  lemma TwinPicked(candidates: seq<Node>, onlyUnverified: bool, first: seq<bool>, second: seq<bool>, maxDial: int,
                   a: Node, b: Node)
    requires DistinctIds(candidates) && Beats(candidates, onlyUnverified, a, b) && SameQuotas(a, b)
    requires var ranked := Ranking(candidates, onlyUnverified);
             && |first| == |second| == |ranked|
             && IsFirstPass(ranked, first, maxDial) && IsSecondPass(ranked, first, second, maxDial)
             && b in Picked(ranked, first) + Picked(ranked, second)
    ensures var ranked := Ranking(candidates, onlyUnverified);
            a in Picked(ranked, first) + Picked(ranked, second)
  {
    var ranked := Ranking(candidates, onlyUnverified);
    var i, j := RankedBefore(candidates, onlyUnverified, a, b);
    var k := PickedAt(ranked, first, second, b);
    RankingDistinct(candidates, onlyUnverified);
    assert k == j;
    EarlierTaken(ranked, first, second, maxDial, i, j);
    PickedIndex(ranked, first, a);
    PickedIndex(ranked, second, a);
  }

  lemma {:induction false} NoneTaken(ranked: seq<Node>, took: seq<bool>)
    requires |took| <= |ranked| && forall i :: 0 <= i < |took| ==> !took[i]
    ensures Picked(ranked, took) == []
    decreases |took|
  {
    if took != [] {
      NoneTaken(ranked, took[..|took| - 1]);
    }
  }

  lemma RankLessWeak()
    ensures WeakOrder(RankLess)
  {
  }

  /** Ranking rearranges some of the candidates, so ids stay distinct. */
  lemma RankingDistinct(candidates: seq<Node>, onlyUnverified: bool)
    requires DistinctIds(candidates)
    ensures DistinctIds(Ranking(candidates, onlyUnverified))
  {
    var kept := Filter(Eligible(onlyUnverified), candidates);
    var ranked := Sort(RankLess, kept);
    RankLessWeak();
    SortSorts(RankLess, kept);
    forall n: Node ensures multiset(kept)[n] <= multiset(candidates)[n] {
      FilterMultiset(Eligible(onlyUnverified), candidates, n);
    }
    assert multiset(kept) <= multiset(candidates);
    DistinctPart(candidates, ranked);
    forall i, j | 0 <= i < j < |ranked| ensures ranked[i].id != ranked[j].id {
      assert ranked[i] in multiset(ranked) && ranked[j] in multiset(ranked);
      assert ranked[i] in candidates && ranked[j] in candidates;
    }
  }

  // ------------------------------------------------------------- theorems

  /** A class that is only taken from below its cap stays within it. */
  lemma {:induction false} CapHolds(ranked: seq<Node>, took: seq<bool>, c: Class, extra: nat, cap: nat)
    requires |took| <= |ranked| && extra <= cap
    requires forall i :: 0 <= i < |took| && took[i] && In(c, ranked[i]) ==> Uses(ranked, took[..i], c) + extra < cap
    ensures Uses(ranked, took, c) + extra <= cap
    decreases |took|
  {
    if took != [] {
      var init := took[..|took| - 1];
      forall i | 0 <= i < |init| && init[i] && In(c, ranked[i]) ensures Uses(ranked, init[..i], c) + extra < cap {
        assert init[..i] == took[..i];
      }
      CapHolds(ranked, init, c, extra, cap);
    }
  }

  /** The first pass keeps every quota: the limit, per country and protocol, and two per server. */
  lemma FirstPassCaps(ranked: seq<Node>, first: seq<bool>, maxDial: nat, key: string, server: string)
    requires |first| == |ranked| && IsFirstPass(ranked, first, maxDial) && maxDial > 0
    ensures Uses(ranked, first, Everything) <= maxDial
    ensures Uses(ranked, first, OfKey(key)) <= PerKey(maxDial)
    ensures Uses(ranked, first, OnServer(server)) <= 2
  {
    CapHolds(ranked, first, Everything, 0, maxDial);
    CapHolds(ranked, first, OfKey(key), 0, PerKey(maxDial));
    CapHolds(ranked, first, OnServer(server), 0, 2);
  }

  lemma BothPassCaps(ranked: seq<Node>, first: seq<bool>, second: seq<bool>, maxDial: nat, server: string)
    requires |first| == |second| == |ranked| && maxDial > 0
    requires IsFirstPass(ranked, first, maxDial) && IsSecondPass(ranked, first, second, maxDial)
    ensures Uses(ranked, first, Everything) + Uses(ranked, second, Everything) <= maxDial
    ensures Uses(ranked, first, OnServer(server)) + Uses(ranked, second, OnServer(server)) <= 3
  {
    FirstPassCaps(ranked, first, maxDial, "", server);
    CapHolds(ranked, second, Everything, Uses(ranked, first, Everything), maxDial);
    CapHolds(ranked, second, OnServer(server), Uses(ranked, first, OnServer(server)), 3);
  }

  function Count(nodes: seq<Node>, c: Class): nat {
    if nodes == [] then 0
    else Count(nodes[..|nodes| - 1], c) + (if In(c, nodes[|nodes| - 1]) then 1 else 0)
  }

  lemma {:induction false} UsesGrow(ranked: seq<Node>, took: seq<bool>, i: nat, c: Class)
    requires i <= |took| <= |ranked|
    ensures Uses(ranked, took[..i], c) <= Uses(ranked, took, c)
    decreases |took| - i
  {
    if i < |took| {
      assert took[..i + 1][..i] == took[..i];
      UsesGrow(ranked, took, i + 1, c);
    } else {
      assert took[..i] == took;
    }
  }

  /** Disjoint passes take at most what there is, and all of it when no member is left out. */
  lemma {:induction false} UsesCount(ranked: seq<Node>, a: seq<bool>, b: seq<bool>, c: Class)
    requires |a| == |b| == |ranked|
    requires forall i :: 0 <= i < |ranked| ==> !(a[i] && b[i])
    ensures Uses(ranked, a, c) + Uses(ranked, b, c) <= Count(ranked, c)
    ensures (forall i :: 0 <= i < |ranked| && In(c, ranked[i]) ==> a[i] || b[i]) ==>
              Uses(ranked, a, c) + Uses(ranked, b, c) == Count(ranked, c)
    decreases |ranked|
  {
    if ranked != [] {
      var k := |ranked| - 1;
      var r, x, y := ranked[..k], a[..k], b[..k];
      UsesCount(r, x, y, c);
      UsesPrefix(ranked, r, x, c);
      UsesPrefix(ranked, r, y, c);
    }
  }

  lemma {:induction false} UsesPrefix(ranked: seq<Node>, r: seq<Node>, took: seq<bool>, c: Class)
    requires |took| <= |r| && r <= ranked
    ensures Uses(ranked, took, c) == Uses(r, took, c)
    decreases |took|
  {
    if took != [] {
      UsesPrefix(ranked, r, took[..|took| - 1], c);
    }
  }

  /** If there was room to spare, every server contributed as much as it could. */
  lemma ServerSaturated(ranked: seq<Node>, first: seq<bool>, second: seq<bool>, maxDial: nat, server: string)
    requires |first| == |second| == |ranked| && maxDial > 0
    requires IsFirstPass(ranked, first, maxDial) && IsSecondPass(ranked, first, second, maxDial)
    ensures var used := Uses(ranked, first, OnServer(server)) + Uses(ranked, second, OnServer(server));
            var most := Min3(Count(ranked, OnServer(server)));
            && used <= most
            && (Uses(ranked, first, Everything) + Uses(ranked, second, Everything) < maxDial ==> used == most)
  {
    var c := OnServer(server);
    BothPassCaps(ranked, first, second, maxDial, server);
    UsesCount(ranked, first, second, c);
    if Uses(ranked, first, Everything) + Uses(ranked, second, Everything) < maxDial &&
       Uses(ranked, first, c) + Uses(ranked, second, c) < 3
    {
      forall i | 0 <= i < |ranked| && In(c, ranked[i]) ensures first[i] || second[i] {
        UsesGrow(ranked, second, i, Everything);
        UsesGrow(ranked, second, i, c);
      }
    }
  }

  function Min3(n: nat): nat {
    if n < 3 then n else 3
  }

  /** The sum over servers of what each may contribute: at most three. */
  function Quota(ranked: seq<Node>, servers: seq<string>): nat {
    if servers == [] then 0 else Min3(Count(ranked, OnServer(servers[0]))) + Quota(ranked, servers[1..])
  }

  function SumUses(ranked: seq<Node>, took: seq<bool>, servers: seq<string>): nat
    requires |took| <= |ranked|
  {
    if servers == [] then 0 else Uses(ranked, took, OnServer(servers[0])) + SumUses(ranked, took, servers[1..])
  }

  lemma {:induction false} SumUsesSnoc(ranked: seq<Node>, took: seq<bool>, servers: seq<string>)
    requires 0 < |took| <= |ranked| && Distinct(servers)
    ensures var i := |took| - 1;
            SumUses(ranked, took, servers) ==
            SumUses(ranked, took[..i], servers) + (if took[i] && ranked[i].server in servers then 1 else 0)
    decreases |servers|
  {
    if servers != [] {
      SumUsesSnoc(ranked, took, servers[1..]);
      assert servers == [servers[0]] + servers[1..];
      assert servers[0] !in servers[1..];
    }
  }

  lemma {:induction false} UsesByServer(ranked: seq<Node>, took: seq<bool>, servers: seq<string>)
    requires |took| <= |ranked| && Distinct(servers)
    requires forall n :: n in ranked ==> n.server in servers
    ensures Uses(ranked, took, Everything) == SumUses(ranked, took, servers)
    decreases |took|
  {
    if took == [] {
      NoUses(ranked, servers);
    } else {
      SumUsesSnoc(ranked, took, servers);
      UsesByServer(ranked, took[..|took| - 1], servers);
      assert ranked[|took| - 1] in ranked;
    }
  }

  lemma {:induction false} NoUses(ranked: seq<Node>, servers: seq<string>)
    ensures SumUses(ranked, [], servers) == 0
    decreases |servers|
  {
    if servers != [] {
      NoUses(ranked, servers[1..]);
    }
  }

  lemma {:induction false} SumAgainstQuota(ranked: seq<Node>, a: seq<bool>, b: seq<bool>, servers: seq<string>,
                                           exact: bool)
    requires |a| == |b| == |ranked|
    requires forall s :: s in servers ==>
               var used := Uses(ranked, a, OnServer(s)) + Uses(ranked, b, OnServer(s));
               used <= Min3(Count(ranked, OnServer(s))) && (exact ==> used == Min3(Count(ranked, OnServer(s))))
    ensures SumUses(ranked, a, servers) + SumUses(ranked, b, servers) <= Quota(ranked, servers)
    ensures exact ==> SumUses(ranked, a, servers) + SumUses(ranked, b, servers) == Quota(ranked, servers)
    decreases |servers|
  {
    if servers != [] {
      assert servers[0] in servers;
      SumAgainstQuota(ranked, a, b, servers[1..], exact);
    }
  }

  lemma {:induction false} PickedPart(ranked: seq<Node>, a: seq<bool>, b: seq<bool>)
    requires |a| == |b| <= |ranked|
    requires forall i :: 0 <= i < |a| ==> !(a[i] && b[i])
    ensures multiset(Picked(ranked, a)) + multiset(Picked(ranked, b)) <= multiset(ranked[..|a|])
    decreases |a|
  {
    if a != [] {
      var i := |a| - 1;
      PickedPart(ranked, a[..i], b[..i]);
      assert ranked[..i + 1] == ranked[..i] + [ranked[i]];
    }
  }

  lemma {:induction false} PickedCount(ranked: seq<Node>, took: seq<bool>, c: Class)
    requires |took| <= |ranked|
    ensures Count(Picked(ranked, took), c) == Uses(ranked, took, c)
    decreases |took|
  {
    if took != [] {
      var i := |took| - 1;
      var init := Picked(ranked, took[..i]);
      PickedCount(ranked, took[..i], c);
      assert (init + [ranked[i]])[..|init|] == init;
      assert init + [] == init;
    }
  }

  lemma {:induction false} CountAppend(a: seq<Node>, b: seq<Node>, c: Class)
    ensures Count(a + b, c) == Count(a, c) + Count(b, c)
    decreases |b|
  {
    if b == [] {
      assert a + b == a;
    } else {
      assert (a + b)[..|a + b| - 1] == a + b[..|b| - 1];
      CountAppend(a, b[..|b| - 1], c);
    }
  }

  /**
   Limited mode takes no node twice, at most three per server, in its first pass at most the
   quota per country and protocol, and exactly as many nodes as the limit and the servers
   allow: min(maxDial, sum over servers of min(3, candidates there)).
   `servers` is any duplicate-free list of the servers.
   */
  lemma PickedExactly(ranked: seq<Node>, first: seq<bool>, second: seq<bool>, maxDial: nat, servers: seq<string>)
    requires |first| == |second| == |ranked| && maxDial > 0 && Distinct(ranked)
    requires IsFirstPass(ranked, first, maxDial) && IsSecondPass(ranked, first, second, maxDial)
    requires Distinct(servers) && forall n :: n in ranked ==> n.server in servers
    ensures var out := Picked(ranked, first) + Picked(ranked, second);
            && Distinct(out)
            && |out| == if Quota(ranked, servers) < maxDial then Quota(ranked, servers) else maxDial
    ensures var out := Picked(ranked, first) + Picked(ranked, second);
            forall s :: Count(out, OnServer(s)) <= 3
    ensures forall key :: Count(Picked(ranked, first), OfKey(key)) <= PerKey(maxDial)
  {
    var total := Uses(ranked, first, Everything) + Uses(ranked, second, Everything);
    PickedSize(ranked, first);
    PickedSize(ranked, second);
    PickedPart(ranked, first, second);
    assert ranked[..|first|] == ranked;
    DistinctPart(ranked, Picked(ranked, first) + Picked(ranked, second));
    UsesByServer(ranked, first, servers);
    UsesByServer(ranked, second, servers);
    forall s ensures Count(Picked(ranked, first) + Picked(ranked, second), OnServer(s)) <= 3 {
      BothPassCaps(ranked, first, second, maxDial, s);
      CountAppend(Picked(ranked, first), Picked(ranked, second), OnServer(s));
      PickedCount(ranked, first, OnServer(s));
      PickedCount(ranked, second, OnServer(s));
    }
    forall key ensures Count(Picked(ranked, first), OfKey(key)) <= PerKey(maxDial) {
      FirstPassCaps(ranked, first, maxDial, key, "");
      PickedCount(ranked, first, OfKey(key));
    }
    BothPassCaps(ranked, first, second, maxDial, "");
    forall s | s in servers
      ensures var used := Uses(ranked, first, OnServer(s)) + Uses(ranked, second, OnServer(s));
              && used <= Min3(Count(ranked, OnServer(s)))
              && (total < maxDial ==> used == Min3(Count(ranked, OnServer(s))))
    {
      ServerSaturated(ranked, first, second, maxDial, s);
    }
    SumAgainstQuota(ranked, first, second, servers, total < maxDial);
  }

  // ---------------------------------------------------------- preferences

  function Millis(n: Node): int {
    if n.latency <= 0 then 0 else n.latency / 1_000_000
  }

  /** The same node but for its id and the fields that `changed` may have. */
  predicate OnlyDiffers(a: Node, b: Node, changed: Node) {
    b == changed.(id := b.id) && a.id != b.id
  }

  predicate ByScore(a: Node, b: Node) {
    OnlyDiffers(a, b, a.(score := b.score)) && a.score > b.score
  }

  predicate ByDialResult(a: Node, b: Node) {
    || (OnlyDiffers(a, b, a.(verified := false)) && a.verified)
    || (OnlyDiffers(a, b, a.(dialFailed := true)) && !a.dialFailed)
  }

  predicate ByProtocol(a: Node, b: Node) {
    && OnlyDiffers(a, b, a.(protocol := b.protocol))
    && a.protocol in {"ss", "trojan", "hysteria2"} && b.protocol !in {"ss", "trojan", "hysteria2"}
  }

  predicate ByLatency(a: Node, b: Node) {
    || (OnlyDiffers(a, b, a.(latency := b.latency)) && FasterBand(a, b))
    || (OnlyDiffers(a, b, a.(avgLatencyMs := b.avgLatencyMs)) && Millis(a) == 0 && MeasuredBand(a, b))
  }

  /** One node beats another that differs in a single respect. */
  predicate Preferred(a: Node, b: Node) {
    ByScore(a, b) || ByDialResult(a, b) || ByProtocol(a, b) || ByLatency(a, b)
  }

  /** Plausible latencies beat implausibly small ones, very large ones and the rest; within a band the faster wins. */
  predicate FasterBand(a: Node, b: Node) {
    || (15 <= Millis(a) <= 800 && Millis(b) > 0 && !(15 <= Millis(b) <= 800))
    || (8 <= Millis(a) < 15 && (0 < Millis(b) < 8 || Millis(b) > 1500))
    || (800 < Millis(a) <= 1500 && (0 < Millis(b) < 8 || Millis(b) > 1500))
    || (Millis(a) > 1500 && 0 < Millis(b) < 8)
    || (15 <= Millis(a) <= 800 && 15 <= Millis(b) <= 800 && a.latency < b.latency)
  }

  /** A node without a latency of its own is judged by its average. */
  predicate MeasuredBand(a: Node, b: Node) {
    && a.avgLatencyMs.Some? && 15 <= a.avgLatencyMs.value <= 800
    && (b.avgLatencyMs.None? || !(15 <= b.avgLatencyMs.value <= 800))
  }

  lemma ScoreRanks(a: Node, b: Node)
    requires ByScore(a, b)
    ensures RankLess(a, b)
  {
  }

  lemma DialResultRanks(a: Node, b: Node)
    requires ByDialResult(a, b)
    ensures RankLess(a, b)
  {
  }

  lemma ProtocolRanks(a: Node, b: Node)
    requires ByProtocol(a, b)
    ensures RankLess(a, b)
  {
  }

  lemma LatencyRanks(a: Node, b: Node)
    requires ByLatency(a, b)
    ensures RankLess(a, b)
  {
  }

  lemma PreferredRanks(a: Node, b: Node)
    requires Preferred(a, b)
    ensures RankLess(a, b)
  {
    if ByScore(a, b) {
      ScoreRanks(a, b);
    } else if ByDialResult(a, b) {
      DialResultRanks(a, b);
    } else if ByProtocol(a, b) {
      ProtocolRanks(a, b);
    } else {
      LatencyRanks(a, b);
    }
  }

  /** `a` stands before `b`. */
  ghost predicate Before(s: seq<Node>, a: Node, b: Node) {
    exists i, j :: 0 <= i < j < |s| && s[i] == a && s[j] == b
  }

  predicate MayDial(n: Node, onlyUnverified: bool) {
    n.supported && (onlyUnverified ==> !n.recentlyDialed)
  }

  /** Both may be dialed, and the first is preferred. */
  predicate Beats(candidates: seq<Node>, onlyUnverified: bool, a: Node, b: Node) {
    && a in candidates && MayDial(a, onlyUnverified)
    && b in candidates && MayDial(b, onlyUnverified) && Preferred(a, b)
  }

  lemma RankingMembers(candidates: seq<Node>, onlyUnverified: bool, n: Node)
    ensures n in Ranking(candidates, onlyUnverified) <==> n in candidates && MayDial(n, onlyUnverified)
  {
    RankLessWeak();
    SortMember(RankLess, Filter(Eligible(onlyUnverified), candidates), n);
    FilterMember(Eligible(onlyUnverified), candidates);
  }

  lemma RankedBefore(candidates: seq<Node>, onlyUnverified: bool, a: Node, b: Node) returns (i: nat, j: nat)
    requires Beats(candidates, onlyUnverified, a, b)
    ensures var ranked := Ranking(candidates, onlyUnverified); i < j < |ranked| && ranked[i] == a && ranked[j] == b
  {
    var kept := Filter(Eligible(onlyUnverified), candidates);
    var ranked := Ranking(candidates, onlyUnverified);
    RankingMembers(candidates, onlyUnverified, a);
    RankingMembers(candidates, onlyUnverified, b);
    RankLessWeak();
    SortSorts(RankLess, kept);
    PreferredRanks(a, b);
    i :| 0 <= i < |ranked| && ranked[i] == a;
    j :| 0 <= j < |ranked| && ranked[j] == b;
  }

  predicate SameQuotas(a: Node, b: Node) {
    a.server == b.server && a.country == b.country && a.protocol == b.protocol
  }

  /** Of two nodes under the same quotas, the passes take the one that ranks first if they take the other. */
  lemma EarlierTaken(ranked: seq<Node>, first: seq<bool>, second: seq<bool>, maxDial: int, i: nat, j: nat)
    requires |first| == |second| == |ranked| && i < j < |ranked| && SameQuotas(ranked[i], ranked[j])
    requires IsFirstPass(ranked, first, maxDial) && IsSecondPass(ranked, first, second, maxDial)
    ensures first[j] ==> first[i]
    ensures second[j] ==> first[i] || second[i]
  {
    var n := ranked[i];
    assert first[..j][..i] == first[..i] && second[..j][..i] == second[..i];
    if first[j] {
      UsesGrow(ranked, first[..j], i, Everything);
      UsesGrow(ranked, first[..j], i, OfKey(CountryKey(n)));
      UsesGrow(ranked, first[..j], i, OnServer(n.server));
    }
    if second[j] && !first[i] {
      UsesGrow(ranked, second[..j], i, Everything);
      UsesGrow(ranked, second[..j], i, OnServer(n.server));
    }
  }

  /** A node is passed over only for want of room, or because its quota or its server's is used up. */
  lemma PassesGreedy(ranked: seq<Node>, first: seq<bool>, second: seq<bool>, maxDial: int, i: nat)
    requires |first| == |second| == |ranked| && i < |ranked|
    requires IsFirstPass(ranked, first, maxDial) && IsSecondPass(ranked, first, second, maxDial)
    ensures !first[i] ==>
              || Uses(ranked, first[..i], Everything) >= maxDial
              || Uses(ranked, first[..i], OfKey(CountryKey(ranked[i]))) >= PerKey(maxDial)
              || Uses(ranked, first[..i], OnServer(ranked[i].server)) >= 2
    ensures !first[i] && !second[i] ==>
              var here := OnServer(ranked[i].server);
              || Uses(ranked, first, Everything) + Uses(ranked, second[..i], Everything) >= maxDial
              || Uses(ranked, first, here) + Uses(ranked, second[..i], here) >= 3
  {
    assert first[i] == FirstTakes(ranked, first[..i], maxDial);
    assert second[i] == SecondTakes(ranked, first, second[..i], maxDial);
  }

  // ------------------------------------------------------ quotas in numbers

  lemma PerKeyNumbers(maxDial: nat)
    ensures maxDial < 16 ==> PerKey(maxDial) == 3
    ensures maxDial >= 80 ==> PerKey(maxDial) == 12
    ensures PerKey(maxDial) <= PerKey(maxDial + 1) <= PerKey(maxDial) + 1
    ensures 16 <= maxDial < 80 ==> PerKey(maxDial) * 8 <= maxDial + 16 < PerKey(maxDial) * 8 + 8
  {
  }

  function CountryOrUnknown(n: Node): string {
    if n.country == "" then "XX" else n.country
  }

  /** Nodes share a quota exactly when they agree on the protocol and, up to case, on the country. */
  lemma SharedQuota(a: Node, b: Node)
    requires '|' !in a.country && '|' !in b.country
    ensures CountryKey(a) == CountryKey(b) <==>
            a.protocol == b.protocol && EqualFold(CountryOrUnknown(a), CountryOrUnknown(b))
  {
    var x, y := Upper(CountryOrUnknown(a)), Upper(CountryOrUnknown(b));
    UpperFolds(CountryOrUnknown(a), CountryOrUnknown(b));
    assert Upper("XX") == "XX";
    assert CountryKey(a) == x + "|" + a.protocol && CountryKey(b) == y + "|" + b.protocol;
    assert '|' !in x && '|' !in y;
    if CountryKey(a) == CountryKey(b) {
      SplitAtBar(x, a.protocol, y, b.protocol);
    }
  }

  lemma SplitAtBar(x: string, p: string, y: string, q: string)
    requires '|' !in x && '|' !in y && x + "|" + p == y + "|" + q
    ensures x == y && p == q
  {
    var s, t := x + "|" + p, y + "|" + q;
    assert s[|x|] == '|' && t[|y|] == '|';
    assert |x| == |y|;
    assert x == s[..|x|] && y == t[..|y|] && p == s[|x| + 1..] && q == t[|y| + 1..];
  }
}
