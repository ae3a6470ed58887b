/**
 Cleaning: normalise every fetched node, drop unusable ones, and keep one node per
 key, remembering every source that offered it.
 */
module Cleaner {
  import opened Text
  import opened Wrappers
  import opened Sequences
  import opened Identity

  /** Configuration; the host tests stand for IP address parsing. */
  datatype Config = Config(
    dropInvalid: bool, collapseSameIpPorts: bool, sources: seq<(string, int)>,
    allowed: string -> bool, isIp: string -> bool, badHost: string -> bool)

  // -------------------------------------------------------------- sources

  /** First occurrences of the non-empty names. */
  function FirstNames(names: seq<string>): seq<string> {
    if names == [] then []
    else
      var init, last := FirstNames(names[..|names| - 1]), names[|names| - 1];
      if last == "" || last in names[..|names| - 1] then init else init + [last]
  }

  function Named(names: seq<string>): set<string> {
    set s | s in names && s != ""
  }

  lemma {:induction false} FirstNamesNamed(names: seq<string>)
    ensures Named(FirstNames(names)) == Named(names)
    ensures Distinct(FirstNames(names)) && "" !in FirstNames(names)
    decreases |names|
  {
    if names != [] {
      var init, last := names[..|names| - 1], names[|names| - 1];
      FirstNamesNamed(init);
      assert names == init + [last];
      var first := FirstNames(init);
      assert forall x :: x in first ==> x in Named(first);
      assert Named(names) == Named(init) + (if last == "" then {} else {last});
      assert Named(first + [last]) == Named(first) + (if last == "" then {} else {last});
    }
  }

  lemma NamesSnoc(names: seq<string>, i: nat)
    requires i < |names|
    ensures FirstNames(names[..i + 1]) ==
            if names[i] == "" || names[i] in Named(names[..i]) then FirstNames(names[..i])
            else FirstNames(names[..i]) + [names[i]]
    ensures Named(names[..i + 1]) == Named(names[..i]) + (if names[i] == "" then {} else {names[i]})
  {
    assert names[..i + 1] == names[..i] + [names[i]] && names[..i + 1][..i] == names[..i];
  }

  method MergeSources(a: seq<string>, b: seq<string>) returns (out: seq<string>)
    ensures out == FirstNames(a + b)
  {
    var names := a + b;
    var seen: set<string> := {};
    out := [];
    for i := 0 to |names|
      invariant out == FirstNames(names[..i]) && seen == Named(names[..i])
    {
      var source := names[i];
      NamesSnoc(names, i);
      if source != "" && source !in seen {
        seen := seen + {source};
        out := out + [source];
      }
    }
    assert names[..|names|] == names;
  }

  // -------------------------------------------------------- normalisation

  function DropControls(s: string): string {
    if s == [] then [] else (if s[0] as int < 32 then [] else [s[0]]) + DropControls(s[1..])
  }

  function Normalized(n: Node): Node {
    var server := Trim(n.server);
    var trimmed := Trim(n.name);
    var name := if trimmed == "" then server + ":" + IntText(n.port) else trimmed;
    n.(server := server, name := DropControls(name), uuid := Trim(n.uuid), password := Trim(n.password),
       cipher := Trim(n.cipher), network := Lower(Trim(n.network)), security := Lower(Trim(n.security)),
       sni := Trim(n.sni), host := Trim(n.host), path := Trim(n.path),
       protocol := if n.protocol == "hy2" then "hysteria2" else n.protocol,
       sources := if n.source == "" then n.sources else FirstNames(n.sources + [n.source]))
  }

  predicate IsValid(n: Node) {
    n.protocol != "" && n.protocol != "unknown" && Trim(n.server) != "" && 0 < n.port <= 65535
  }

  predicate Acceptable(cfg: Config, n: Node) {
    (cfg.dropInvalid ==> IsValid(n)) && cfg.allowed(n.protocol) && !cfg.badHost(n.server)
  }

  /** The accepted inputs, normalised, in order. */
  function Usable(cfg: Config): Option<Node> -> seq<Node> {
    (input: Option<Node>) =>
      if input.Some? && Acceptable(cfg, Normalized(input.value)) then [Normalized(input.value)] else []
  }

  function Accepted(cfg: Config, nodes: seq<Option<Node>>): seq<Node> {
    Gather(Usable(cfg), nodes)
  }

  // ------------------------------------------------------------- choosing

  function Bit(b: bool): int {
    if b then 1 else 0
  }

  /** How complete a node's metadata is. */
  function ScoreMeta(n: Node): int {
    Bit(n.name != "") + Bit(n.tls) + Bit(n.sni != "") + Bit(n.uuid != "" || n.password != "")
    + Bit(n.network != "") + Bit(n.rawUri != "")
  }

  /** The configured priority of a source: the last entry with its name, else zero. */
  function Priority(sources: seq<(string, int)>, name: string): int {
    if sources == [] then 0
    else
      var i := |sources| - 1;
      if sources[i].0 == name then sources[i].1 else Priority(sources[..i], name)
  }

  /** Nodes on one IP may be merged across ports. */
  ghost function DedupKey(cfg: Config, n: Node): string {
    if cfg.collapseSameIpPorts && cfg.isIp(n.server) then KeyText(n.(port := 0)) else KeyText(n)
  }

  /** What decides between two nodes: whether they collide, and which ranks higher. */
  datatype Choice = Choice(key: Node -> string, score: Node -> int, priority: Node -> int)

  ghost function ChoiceOf(cfg: Config): Choice {
    Choice(n => DedupKey(cfg, n), n => ScoreMeta(n), (n: Node) => Priority(cfg.sources, n.source))
  }

  predicate Better(how: Choice, a: Node, b: Node) {
    how.score(a) > how.score(b) || (how.score(a) == how.score(b) && how.priority(a) > how.priority(b))
  }

  ghost function Absorb(how: Choice, best: map<string, Node>, n: Node): map<string, Node> {
    var key := how.key(n);
    if key !in best then best[key := n]
    else
      var prior := best[key];
      best[key := (if Better(how, n, prior) then n else prior).(sources := FirstNames(prior.sources + n.sources))]
  }

  ghost function Best(how: Choice, accepted: seq<Node>): map<string, Node> {
    if accepted == [] then map[]
    else Absorb(how, Best(how, accepted[..|accepted| - 1]), accepted[|accepted| - 1])
  }

  /** The source priorities as the map Clean builds. */
  method Priorities(sources: seq<(string, int)>) returns (m: map<string, int>)
    ensures forall name :: (if name in m then m[name] else 0) == Priority(sources, name)
  {
    m := map[];
    for i := 0 to |sources|
      invariant forall name :: (if name in m then m[name] else 0) == Priority(sources[..i], name)
    {
      assert sources[..i + 1][..i] == sources[..i];
      m := m[sources[i].0 := sources[i].1];
    }
    assert sources[..|sources|] == sources;
  }

  method DedupKeyOf(cfg: Config, n: Node) returns (key: string)
    ensures key == ChoiceOf(cfg).key(n)
  {
    key := Key(n);
    if cfg.collapseSameIpPorts && cfg.isIp(n.server) {
      key := Key(n.(port := 0));
    }
  }

  /** Whether `n` displaces the node kept so far. */
  method Displaces(cfg: Config, priorities: map<string, int>, n: Node, prior: Node) returns (yes: bool)
    requires forall name :: (if name in priorities then priorities[name] else 0) == Priority(cfg.sources, name)
    ensures yes == Better(ChoiceOf(cfg), n, prior)
  {
    var pn := if n.source in priorities then priorities[n.source] else 0;
    var po := if prior.source in priorities then priorities[prior.source] else 0;
    yes := ScoreMeta(n) > ScoreMeta(prior) || (ScoreMeta(n) == ScoreMeta(prior) && pn > po);
  }

  /** Keep `n`, or merge it into the node already kept for its key. */
  method AbsorbNode(best: map<string, Node>, n: Node, cfg: Config, priorities: map<string, int>)
    returns (after: map<string, Node>)
    requires forall name :: (if name in priorities then priorities[name] else 0) == Priority(cfg.sources, name)
    ensures after == Absorb(ChoiceOf(cfg), best, n)
  {
    var key := DedupKeyOf(cfg, n);
    if key in best {
      var prior := best[key];
      var sources := MergeSources(prior.sources, n.sources);
      var displaced := Displaces(cfg, priorities, n, prior);
      if displaced {
        after := best[key := n.(sources := sources)];
      } else {
        after := best[key := prior.(sources := sources)];
      }
    } else {
      after := best[key := n];
    }
  }

  /** The kept nodes, one per key, in whatever order the map yields them. */
  method Clean(nodes: seq<Option<Node>>, cfg: Config) returns (out: seq<Node>, keys: seq<string>)
    ensures var best := Best(ChoiceOf(cfg), Accepted(cfg, nodes));
            && Distinct(keys) && (forall k :: k in keys <==> k in best)
            && |out| == |keys| && forall i :: 0 <= i < |keys| ==> out[i] == best[keys[i]]
  {
    var best: map<string, Node> := map[];
    var priorities := Priorities(cfg.sources);
    for i := 0 to |nodes|
      invariant best == Best(ChoiceOf(cfg), Accepted(cfg, nodes[..i]))
    {
      AcceptedSnoc(cfg, nodes, i);
      if nodes[i].None? {
        continue;
      }
      var n, usable := Admit(cfg, nodes[i].value);
      if !usable {
        continue;
      }
      BestSnoc(ChoiceOf(cfg), Accepted(cfg, nodes[..i]), n);
      best := AbsorbNode(best, n, cfg, priorities);
    }
    assert nodes[..|nodes|] == nodes;
    out, keys := Values(best);
  }

  /** Normalise a node and decide whether it is usable. */
  method Admit(cfg: Config, raw: Node) returns (n: Node, usable: bool)
    ensures n == Normalized(raw) && usable == Acceptable(cfg, n)
  {
    n := Normalized(raw);
    if cfg.dropInvalid && !IsValid(n) {
      return n, false;
    }
    if !cfg.allowed(n.protocol) {
      return n, false;
    }
    usable := !cfg.badHost(n.server);
  }

  lemma AcceptedSnoc(cfg: Config, nodes: seq<Option<Node>>, i: nat)
    requires i < |nodes|
    ensures nodes[i].None? ==> Accepted(cfg, nodes[..i + 1]) == Accepted(cfg, nodes[..i])
    ensures nodes[i].Some? && !Acceptable(cfg, Normalized(nodes[i].value)) ==>
              Accepted(cfg, nodes[..i + 1]) == Accepted(cfg, nodes[..i])
    ensures nodes[i].Some? && Acceptable(cfg, Normalized(nodes[i].value)) ==>
              Accepted(cfg, nodes[..i + 1]) == Accepted(cfg, nodes[..i]) + [Normalized(nodes[i].value)]
  {
    GatherSnoc(Usable(cfg), nodes, i);
  }

  lemma BestSnoc(how: Choice, accepted: seq<Node>, n: Node)
    ensures Best(how, accepted + [n]) == Absorb(how, Best(how, accepted), n)
  {
    assert (accepted + [n])[..|accepted|] == accepted;
  }

  method Values(best: map<string, Node>) returns (out: seq<Node>, keys: seq<string>)
    ensures Distinct(keys) && (forall k :: k in keys <==> k in best)
    ensures |out| == |keys| && forall i :: 0 <= i < |keys| ==> out[i] == best[keys[i]]
  {
    out, keys := [], [];
    var todo := best.Keys;
    while todo != {}
      invariant todo <= best.Keys && Distinct(keys)
      invariant forall k :: k in keys <==> k in best && k !in todo
      invariant |out| == |keys| && forall i :: 0 <= i < |keys| ==> keys[i] in best && out[i] == best[keys[i]]
      decreases todo
    {
      var k :| k in todo;
      out, keys := out + [best[k]], keys + [k];
      todo := todo - {k};
    }
  }

  // ------------------------------------------------------------ meaning

  /** Ranking looks at neither node's sources. */
  ghost predicate IgnoresSources(how: Choice) {
    forall n: Node, s: seq<string> ::
      how.score(n.(sources := s)) == how.score(n) && how.priority(n.(sources := s)) == how.priority(n)
  }

  lemma ChoiceIgnoresSources(cfg: Config)
    ensures IgnoresSources(ChoiceOf(cfg))
  {
    forall n: Node, s: seq<string> ensures ScoreMeta(n.(sources := s)) == ScoreMeta(n) {
    }
  }

  /** `w` is the earliest accepted node with key `k` that no other with that key beats. */
  ghost predicate IsWinner(how: Choice, accepted: seq<Node>, k: string, w: nat) {
    && w < |accepted| && how.key(accepted[w]) == k
    && forall i :: 0 <= i < |accepted| && how.key(accepted[i]) == k ==>
         !Better(how, accepted[i], accepted[w]) && (i < w ==> Better(how, accepted[w], accepted[i]))
  }

  /** Every source named by an accepted node with key `k`. */
  ghost function SourcesOf(how: Choice, accepted: seq<Node>, k: string): set<string> {
    set n, s | n in accepted && how.key(n) == k && s in Named(n.sources) :: s
  }

  ghost function KeysOf(how: Choice, accepted: seq<Node>): set<string> {
    set n | n in accepted :: how.key(n)
  }

  lemma SourcesSnoc(how: Choice, init: seq<Node>, n: Node, k: string)
    ensures SourcesOf(how, init + [n], k) ==
            SourcesOf(how, init, k) + (if how.key(n) == k then Named(n.sources) else {})
    ensures KeysOf(how, init + [n]) == KeysOf(how, init) + {how.key(n)}
  {
    assert forall x :: x in init + [n] <==> x in init || x == n;
  }

  /** Merging two source lists names what either names. */
  lemma MergedNames(a: seq<string>, b: seq<string>)
    ensures Named(FirstNames(a + b)) == Named(a) + Named(b)
  {
    FirstNamesNamed(a + b);
  }

  /** Extending the accepted list by `n`: the winner of a key stays or becomes `n`. */
  lemma WinnerSnoc(how: Choice, init: seq<Node>, n: Node, k: string, w: nat)
    requires IsWinner(how, init, k, w)
    ensures how.key(n) != k || !Better(how, n, init[w]) ==> IsWinner(how, init + [n], k, w)
    ensures how.key(n) == k && Better(how, n, init[w]) ==> IsWinner(how, init + [n], k, |init|)
  {
    var all := init + [n];
    assert all[w] == init[w] && all[|init|] == n;
    assert forall i :: 0 <= i < |init| ==> all[i] == init[i];
  }

  lemma FreshWinner(how: Choice, init: seq<Node>, n: Node, k: string)
    requires k !in KeysOf(how, init) && how.key(n) == k
    ensures IsWinner(how, init + [n], k, |init|)
    ensures SourcesOf(how, init, k) == {}
  {
    var all := init + [n];
    assert forall i :: 0 <= i < |init| ==>
        all[i] == init[i] && init[i] in init && how.key(init[i]) in KeysOf(how, init);
  }

  /** What is kept under `k` after the accepted nodes. */
  ghost predicate KeptRight(how: Choice, accepted: seq<Node>, k: string, w: nat, kept: Node) {
    && IsWinner(how, accepted, k, w)
    && kept == accepted[w].(sources := kept.sources)
    && Named(kept.sources) == SourcesOf(how, accepted, k)
  }

  /**
   Clean keeps one node per key of the accepted inputs: the earliest with the greatest
   (metadata score, source priority), unchanged but for its sources, which name exactly
   what the accepted nodes with that key name.
   */
  lemma {:induction false} CleanMeaning(how: Choice, accepted: seq<Node>, k: string) returns (w: nat)
    requires IgnoresSources(how)
    ensures k in Best(how, accepted) <==> k in KeysOf(how, accepted)
    ensures k in Best(how, accepted) ==> KeptRight(how, accepted, k, w, Best(how, accepted)[k])
    decreases |accepted|
  {
    w := 0;
    if accepted != [] {
      var init, n := accepted[..|accepted| - 1], accepted[|accepted| - 1];
      assert accepted == init + [n];
      w := CleanMeaning(how, init, k);
      SourcesSnoc(how, init, n, k);
      var before := Best(how, init);
      if k in before {
        WinnerSnoc(how, init, n, k, w);
        MergedNames(before[k].sources, n.sources);
        assert Better(how, n, before[k]) == Better(how, n, init[w]);
        if how.key(n) == k && Better(how, n, init[w]) {
          w := |init|;
        }
      } else if how.key(n) == k {
        w := |init|;
        FreshWinner(how, init, n, k);
      }
    }
  }

  /** What of a cleaned node is settled by the set of accepted nodes alone. */
  ghost predicate SameOutcome(how: Choice, x: map<string, Node>, y: map<string, Node>, k: string) {
    && (k in x <==> k in y)
    && (k in x ==>
          && Named(x[k].sources) == Named(y[k].sources)
          && how.score(x[k]) == how.score(y[k]) && how.priority(x[k]) == how.priority(y[k]))
  }

  /** The kept keys, their sources and the rank of the kept node do not depend on order or repetition. */
  lemma CleanOrderIrrelevant(how: Choice, a: seq<Node>, b: seq<Node>, k: string)
    requires IgnoresSources(how) && forall n: Node :: n in a <==> n in b
    ensures SameOutcome(how, Best(how, a), Best(how, b), k)
  {
    assert KeysOf(how, a) == KeysOf(how, b) && SourcesOf(how, a, k) == SourcesOf(how, b, k);
    var v := CleanMeaning(how, a, k);
    var w := CleanMeaning(how, b, k);
    if k in Best(how, a) {
      SameRank(how, a, b, k, v, w);
    }
  }

  /** Cleaning the same inputs in another order keeps the same keys, with the same sources and ranks. */
  lemma InputOrderIrrelevant(cfg: Config, a: seq<Option<Node>>, b: seq<Option<Node>>, k: string)
    requires multiset(a) == multiset(b)
    ensures var how := ChoiceOf(cfg);
            SameOutcome(how, Best(how, Accepted(cfg, a)), Best(how, Accepted(cfg, b)), k)
  {
    forall n: Node ensures n in Accepted(cfg, a) <==> n in Accepted(cfg, b) {
      if n in Accepted(cfg, a) {
        GatherRearranged(Usable(cfg), a, b, n);
      }
      if n in Accepted(cfg, b) {
        GatherRearranged(Usable(cfg), b, a, n);
      }
    }
    ChoiceIgnoresSources(cfg);
    CleanOrderIrrelevant(ChoiceOf(cfg), Accepted(cfg, a), Accepted(cfg, b), k);
  }

  lemma SameRank(how: Choice, a: seq<Node>, b: seq<Node>, k: string, v: nat, w: nat)
    requires forall n: Node :: n in a <==> n in b
    requires IsWinner(how, a, k, v) && IsWinner(how, b, k, w)
    ensures how.score(a[v]) == how.score(b[w]) && how.priority(a[v]) == how.priority(b[w])
  {
    assert a[v] in b && b[w] in a;
    var i :| 0 <= i < |b| && b[i] == a[v];
    var j :| 0 <= j < |a| && a[j] == b[w];
  }

  /** Both facts for the configuration's own choice of key and rank. */
  lemma CleanedNodes(cfg: Config, nodes: seq<Option<Node>>, k: string) returns (w: nat)
    ensures var how, accepted := ChoiceOf(cfg), Accepted(cfg, nodes);
            && (k in Best(how, accepted) <==> k in KeysOf(how, accepted))
            && (k in Best(how, accepted) ==> KeptRight(how, accepted, k, w, Best(how, accepted)[k]))
  {
    ChoiceIgnoresSources(cfg);
    w := CleanMeaning(ChoiceOf(cfg), Accepted(cfg, nodes), k);
  }

  // --------------------------------------------------------- in plain terms

  /** The metadata score counts six things, each for one point; `x` is any text. */
  lemma ScoreMetaCounts(n: Node, x: string)
    requires x != ""
    ensures ScoreMeta(n.(name := x)) == ScoreMeta(n.(name := "")) + 1
    ensures ScoreMeta(n.(tls := true)) == ScoreMeta(n.(tls := false)) + 1
    ensures ScoreMeta(n.(sni := x)) == ScoreMeta(n.(sni := "")) + 1
    ensures ScoreMeta(n.(network := x)) == ScoreMeta(n.(network := "")) + 1
    ensures ScoreMeta(n.(rawUri := x)) == ScoreMeta(n.(rawUri := "")) + 1
  {
  }

  /** An id or a password counts, and both count no more than one. */
  lemma CredentialsCount(n: Node, x: string)
    requires x != ""
    ensures 0 <= ScoreMeta(n) <= 6
    ensures n.password == "" ==> ScoreMeta(n.(uuid := x)) == ScoreMeta(n.(uuid := "")) + 1
    ensures n.uuid == "" ==> ScoreMeta(n.(password := x)) == ScoreMeta(n.(password := "")) + 1
    ensures n.password != "" ==> ScoreMeta(n.(uuid := x)) == ScoreMeta(n.(uuid := ""))
  {
  }

  /** The last configured entry for a source gives its priority. */
  lemma {:induction false} PriorityMeans(sources: seq<(string, int)>, name: string) returns (i: int)
    ensures -1 <= i < |sources| && (forall j :: i < j < |sources| ==> sources[j].0 != name)
    ensures if i >= 0 then sources[i].0 == name && Priority(sources, name) == sources[i].1
            else Priority(sources, name) == 0
    decreases |sources|
  {
    i := -1;
    if sources != [] {
      var k := |sources| - 1;
      if sources[k].0 == name {
        i := k;
      } else {
        i := PriorityMeans(sources[..k], name);
      }
    }
  }

  lemma {:induction false} NoControls(s: string)
    ensures forall c :: c in DropControls(s) ==> c in s && c as int >= 32
    ensures (forall c :: c in s ==> c as int >= 32) ==> DropControls(s) == s
  {
    if s != [] {
      NoControls(s[1..]);
      assert s == [s[0]] + s[1..] && s[0] in s;
      assert forall c :: c in s[1..] ==> c in s;
    }
  }

  /** White space at neither end. */
  predicate Tidy(s: string) {
    s != "" ==> !IsSpace(s[0]) && !IsSpace(s[|s| - 1])
  }

  lemma TrimTidy(s: string)
    ensures Tidy(Trim(s)) && (Blank(s) <==> Trim(s) == "")
  {
    var before, after := TrimMeans(s);
    assert s == before + (Trim(s) + after);
    if Trim(s) != "" {
      assert Trim(s)[0] in s;
    }
  }

  /** What normalising leaves alone, and what it does to protocol, name and sources. */
  lemma NormalizedMeans(n: Node)
    ensures var r := Normalized(n);
            && r.port == n.port && r.tls == n.tls && r.flow == n.flow && r.alpn == n.alpn && r.extra == n.extra
            && r.rawUri == n.rawUri && r.source == n.source
            && r.protocol == (if n.protocol == "hy2" then "hysteria2" else n.protocol)
            && (forall c :: c in r.name ==> c as int >= 32)
            && (n.source != "" ==> Named(r.sources) == Named(n.sources) + {n.source})
            && (n.source == "" ==> r.sources == n.sources)
  {
    NoControls(if Trim(n.name) == "" then Trim(n.server) + ":" + IntText(n.port) else Trim(n.name));
    FirstNamesNamed(n.sources + [n.source]);
  }

  /** Normalising trims the text fields. */
  lemma NormalizedTidy(n: Node)
    ensures var r := Normalized(n);
            && Tidy(r.server) && Tidy(r.uuid) && Tidy(r.password) && Tidy(r.cipher) && Tidy(r.sni)
            && Tidy(r.host) && Tidy(r.path)
            && EqualFold(r.network, Trim(n.network)) && EqualFold(r.security, Trim(n.security))
  {
    TrimTidy(n.server);
    TrimTidy(n.uuid);
    TrimTidy(n.password);
    TrimTidy(n.cipher);
    TrimTidy(n.sni);
    TrimTidy(n.host);
    TrimTidy(n.path);
    CaseMeans(Trim(n.network));
    CaseMeans(Trim(n.security));
  }

  /**
   Which nodes compete: with NUL-free texts, those of one connection; where ports are merged,
   nodes on addresses compete across ports.
   */
  lemma CompetingNodes(cfg: Config, a: Node, b: Node)
    requires NulFreeNode(a) && NulFreeNode(b)
    ensures var compete := DedupKey(cfg, a) == DedupKey(cfg, b);
            if !cfg.collapseSameIpPorts || (!cfg.isIp(a.server) && !cfg.isIp(b.server))
            then compete <==> SameConnection(a, b)
            else if cfg.isIp(a.server) && cfg.isIp(b.server)
            then compete <==> SameConnection(a, b.(port := a.port))
            else if cfg.isIp(a.server) then compete <==> SameConnection(a.(port := 0), b)
            else compete <==> SameConnection(a, b.(port := 0))
  {
    CanonicalIdentity(a, b);
    CanonicalIdentity(a.(port := 0), b);
    CanonicalIdentity(a, b.(port := 0));
    CanonicalIdentity(a.(port := 0), b.(port := 0));
  }

  /** The kept node has the fullest metadata among its competitors, and then the highest source priority. */
  lemma KeptIsBest(cfg: Config, nodes: seq<Option<Node>>, m: Node)
    requires m in Accepted(cfg, nodes)
    ensures DedupKey(cfg, m) in Best(ChoiceOf(cfg), Accepted(cfg, nodes))
    ensures var n := Best(ChoiceOf(cfg), Accepted(cfg, nodes))[DedupKey(cfg, m)];
            && ScoreMeta(n) >= ScoreMeta(m)
            && (ScoreMeta(n) == ScoreMeta(m) ==> Priority(cfg.sources, n.source) >= Priority(cfg.sources, m.source))
  {
    var how, accepted := ChoiceOf(cfg), Accepted(cfg, nodes);
    assert how.key(m) in KeysOf(how, accepted);
    var w := CleanedNodes(cfg, nodes, how.key(m));
    ChoiceIgnoresSources(cfg);
    var i :| 0 <= i < |accepted| && accepted[i] == m;
    assert !Better(how, accepted[i], accepted[w]);
    var n := Best(how, accepted)[how.key(m)];
    assert how.score(n) == how.score(accepted[w]) && how.priority(n) == how.priority(accepted[w]);
  }

  lemma AcceptedUsable(cfg: Config, nodes: seq<Option<Node>>, n: Node)
    requires n in Accepted(cfg, nodes)
    ensures Acceptable(cfg, n)
  {
    GatherMember(Usable(cfg), nodes, n);
  }

  /** Whatever is kept is allowed, not on a bad host, and complete if incomplete nodes are dropped. */
  lemma KeptIsUsable(cfg: Config, nodes: seq<Option<Node>>, k: string)
    requires k in Best(ChoiceOf(cfg), Accepted(cfg, nodes))
    ensures var n := Best(ChoiceOf(cfg), Accepted(cfg, nodes))[k];
            && cfg.allowed(n.protocol) && !cfg.badHost(n.server)
            && (cfg.dropInvalid ==>
                  n.protocol != "" && n.protocol != "unknown" && !Blank(n.server) && 1 <= n.port <= 65535)
  {
    var w := CleanedNodes(cfg, nodes, k);
    var accepted := Accepted(cfg, nodes);
    AcceptedUsable(cfg, nodes, accepted[w]);
    TrimTidy(accepted[w].server);
  }
}
