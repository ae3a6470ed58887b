/** The in-memory store: its index, and the deep copies at its boundary. */
module NodeStore {
  import opened NodeParts
  import opened Wrappers
  import opened StoreMeaning
  import opened Sequences
  import Publish

  lemma MergeMeans(parts: set<Part>, s: Scalars, own: Own, os: Scalars, other: Own)
    requires Owns(parts, own) && Owns(parts, other)
    ensures var own' := Taken(Carried(own.Keys, s.test.testedAt == 0), own, other);
            Owns(parts, own') &&
            NodeV(MergedScalars(s, os, Dial !in own), OwnValue(parts, own'))
            == Merged(NodeV(s, OwnValue(parts, own)), NodeV(os, OwnValue(parts, other)))
  {
    var present := OwnValue(parts, own).Keys;
    forall f | f in {Ai, Dial, Purity} ensures f in present <==> f in own {
    }
    assert Carried(own.Keys, s.test.testedAt == 0) == Carried(present, s.test.testedAt == 0);
    TakenReads(parts, Carried(present, s.test.testedAt == 0), own, other);
  }

  /** Carries the observations of `o` over to `d`, which then shares parts with it. */
  method MergeObservations(d: Node, o: Node)
    requires d != o
    modifies d
    ensures d.s == MergedScalars(old(d.s), o.s, Dial !in old(d.own))
    ensures d.own == Taken(Carried(old(d.own).Keys, old(d.s.test.testedAt) == 0), old(d.own), o.own)
  {
    var s := d.s;
    var taken: set<Field> := {};
    if s.firstSeenAt == 0 {
      s := s.(firstSeenAt := o.s.firstSeenAt);
    }
    if s.lastSeenAt == 0 {
      s := s.(lastSeenAt := o.s.lastSeenAt);
    }
    if s.test.testedAt == 0 {
      s := s.(test := o.s.test);
      taken := taken + {Quality, Tags};
    }
    if s.geo.country == "" {
      s := s.(geo := o.s.geo);
    }
    if Ai !in d.own {
      taken := taken + {Ai};
    }
    if Dial !in d.own {
      taken := taken + {Dial};
      s := s.(verified := o.s.verified);
    }
    if Purity !in d.own {
      taken := taken + {Purity};
    }
    assert taken == Carried(d.own.Keys, d.s.test.testedAt == 0);
    d.s, d.own := s, Taken(taken, d.own, o.own);
  }

  /**
   Writes the observation `n` into a stored node, which takes over its parts; `n` is a clone, so an
   empty tag list is nil.
   */
  method Refresh(o: Node, n: Node)
    requires o != n
    modifies o
    ensures o.s == RefreshedScalars(old(o.s), n.s, Dial !in n.own)
    ensures o.own == Taken(Written(n.own.Keys), old(o.own), n.own)
  {
    var taken := WrittenBy(n.own);
    var s := o.s.(test := n.s.test);
    if n.s.firstSeenAt != 0 {
      s := s.(firstSeenAt := n.s.firstSeenAt);
    }
    if n.s.lastSeenAt != 0 {
      s := s.(lastSeenAt := n.s.lastSeenAt);
    }
    s := s.(geo := Located(n.s.geo, s.geo));
    if Dial in n.own {
      s := s.(verified := n.s.verified);
    }
    if n.s.verified {
      s := s.(verified := true);
    }
    if n.s.rawUri != "" {
      s := s.(rawUri := n.s.rawUri);
    }
    o.s, o.own := s, Taken(taken, o.own, n.own);
  }

  /** The references an observation with these references writes. */
  method WrittenBy(own: Own) returns (taken: set<Field>)
    ensures taken == Written(own.Keys)
  {
    taken := {Quality, Ai};
    if Tags in own {
      taken := taken + {Tags};
    }
    if Dial in own {
      taken := taken + {Dial};
    }
    if Purity in own {
      taken := taken + {Purity};
    }
  }

  lemma RefreshMeans(parts: set<Part>, os: Scalars, own: Own, s: Scalars, seen: Own)
    requires Owns(parts, own) && Owns(parts, seen) && seen.Keys == OwnValue(parts, seen).Keys
    ensures var own' := Taken(Written(seen.Keys), own, seen);
            Owns(parts, own') &&
            NodeV(RefreshedScalars(os, s, Dial !in seen), OwnValue(parts, own'))
            == Refreshed(NodeV(os, OwnValue(parts, own)), NodeV(s, OwnValue(parts, seen)))
  {
    TakenReads(parts, Written(seen.Keys), own, seen);
  }

  /** A caller's node, if there is one, reads as `v`, or as the optional second value. */
  ghost predicate ReadsAs(parts: set<Part>, n: Node?, v: Option<NodeV>, w: Option<NodeV>)
    requires Closed(parts)
    reads parts, n
  {
    if n == null then v.None?
    else n.own.Values <= parts && (v == Some(NodeValue(parts, n)) || w == Some(NodeValue(parts, n)))
  }

  /** The values a caller's nodes read as. */
  ghost predicate Reads(parts: set<Part>, batch: seq<Node?>, vs: seq<Option<NodeV>>)
    reads parts, batch
  {
    && |vs| == |batch| && Closed(parts)
    && forall i :: 0 <= i < |batch| ==> ReadsAs(parts, batch[i], vs[i], None)
  }

  /** The first `done` nodes read as `ts` now; the others do too if they repeat one of them, or as before. */
  ghost predicate Turned(parts: set<Part>, batch: seq<Node?>, vs: seq<Option<NodeV>>, ts: seq<Option<NodeV>>, done: nat)
    reads parts, batch
  {
    && |vs| == |ts| == |batch| && Closed(parts)
    && forall i :: 0 <= i < |batch| ==> ReadsAs(parts, batch[i], ts[i], if i < done then None else vs[i])
  }

  /** A node given twice has one value. */
  ghost predicate Agrees(batch: seq<Node?>, vs: seq<Option<NodeV>>) {
    |vs| == |batch| && forall i, j :: 0 <= i < |batch| && 0 <= j < |batch| && batch[i] == batch[j] ==> vs[i] == vs[j]
  }

  lemma ReadsAgree(parts: set<Part>, batch: seq<Node?>, vs: seq<Option<NodeV>>)
    requires Reads(parts, batch, vs)
    ensures Agrees(batch, vs)
  {
    forall i, j | 0 <= i < |batch| && 0 <= j < |batch| && batch[i] == batch[j] ensures vs[i] == vs[j] {
      assert ReadsAs(parts, batch[i], vs[i], None) && ReadsAs(parts, batch[j], vs[j], None);
    }
  }

  /** Before the first step no node has turned yet, and repeated nodes will turn alike. */
  lemma ImportStarts(world: set<Part>, h: Hash, c: Catalog, batch: seq<Node?>, vs: seq<Option<NodeV>>, now: int)
    requires Reads(world, batch, vs)
    ensures Turned(world, batch, vs, ImportedAll(h, c, vs, now), 0) && Agrees(batch, ImportedAll(h, c, vs, now))
  {
    var ts := ImportedAll(h, c, vs, now);
    ReadsAgree(world, batch, vs);
    forall i | 0 <= i < |batch| ensures ReadsAs(world, batch[i], ts[i], vs[i]) {
      assert ReadsAs(world, batch[i], vs[i], None);
    }
  }

  ghost function Somes(vs: seq<NodeV>): seq<Option<NodeV>> {
    seq(|vs|, i requires 0 <= i < |vs| => Some(vs[i]))
  }

  lemma UpsertStarts(held: set<Part>, h: Hash, batch: seq<Node>, vs: seq<NodeV>)
    requires Reads(held, batch, Somes(vs))
    ensures Turned(held, batch, Somes(vs), Somes(NamedAll(h, vs)), 0) && Agrees(batch, Somes(NamedAll(h, vs)))
  {
    ReadsAgree(held, batch, Somes(vs));
    forall i | 0 <= i < |batch| ensures ReadsAs(held, batch[i], Somes(NamedAll(h, vs))[i], Somes(vs)[i]) {
      assert ReadsAs(held, batch[i], Somes(vs)[i], None);
    }
    forall i, j | 0 <= i < |batch| && 0 <= j < |batch| && batch[i] == batch[j]
      ensures Somes(NamedAll(h, vs))[i] == Somes(NamedAll(h, vs))[j]
    {
      assert Somes(vs)[i] == Somes(vs)[j];
    }
  }

  lemma BatchGrows(a: set<Part>, b: set<Part>, batch: seq<Node?>, vs: seq<Option<NodeV>>)
    requires Reads(a, batch, vs) && Closed(b) && a <= b
    ensures Reads(b, batch, vs)
  {
    forall i | 0 <= i < |batch| ensures ReadsAs(b, batch[i], vs[i], None) {
      assert ReadsAs(a, batch[i], vs[i], None);
      if batch[i] != null {
        OwnGrows(a, b, batch[i].own);
      }
    }
  }

  /** All that the nodes of an index refer to lies in `parts`. */
  ghost predicate Holds(parts: set<Part>, nodes: map<string, Node>)
    reads parts, nodes.Values
  {
    Closed(parts) && forall id :: id in nodes ==> nodes[id].own.Values <= parts
  }

  ghost function Listed(parts: set<Part>, nodes: map<string, Node>): Catalog
    requires Holds(parts, nodes)
    reads parts, nodes.Values
  {
    map id | id in nodes :: NodeValue(parts, nodes[id])
  }

  ghost predicate Files(parts: set<Part>, nodes: map<string, Node>, c: Catalog)
    reads parts, nodes.Values
  {
    Holds(parts, nodes) && Listed(parts, nodes) == c
  }

  lemma ListedGrows(a: set<Part>, b: set<Part>, nodes: map<string, Node>)
    requires Holds(a, nodes) && Closed(b) && a <= b
    ensures Holds(b, nodes) && Listed(a, nodes) == Listed(b, nodes)
  {
    forall id | id in nodes ensures NodeValue(a, nodes[id]) == NodeValue(b, nodes[id]) {
      OwnGrows(a, b, nodes[id].own);
    }
  }

  lemma ListedPut(parts: set<Part>, nodes: map<string, Node>, id: string, c: Node)
    requires Holds(parts, nodes) && Owns(parts, c.own)
    ensures Holds(parts, nodes[id := c])
    ensures Listed(parts, nodes[id := c]) == Listed(parts, nodes)[id := NodeValue(parts, c)]
  {
  }

  /** Adding a node with parts of its own changes its entry and no other. */
  lemma PutMeans(parts: set<Part>, copies: set<Part>, nodes: map<string, Node>, id: string, c: Node)
    requires Holds(parts, nodes) && Owns(copies, c.own)
    ensures Holds(parts + copies, nodes[id := c])
    ensures Listed(parts + copies, nodes[id := c]) == Listed(parts, nodes)[id := NodeValue(copies, c)]
  {
    ClosedUnion(parts, copies);
    ListedGrows(parts, parts + copies, nodes);
    OwnGrows(copies, parts + copies, c.own);
    ListedPut(parts + copies, nodes, id, c);
  }

  /** A stored node is stored under one id: without it, the index holds the other nodes. */
  lemma OthersFiled(parts: set<Part>, nodes: map<string, Node>, cat: Catalog, h: Hash, id: string)
    requires Files(parts, nodes, cat) && Indexed(h, cat) && id in nodes
    ensures Files(parts, nodes - {id}, cat - {id}) && nodes[id] !in (nodes - {id}).Values
  {
    forall k | k in nodes && k != id ensures nodes[k] != nodes[id] {
      assert cat[k].s.id == k && cat[id].s.id == id;
    }
  }

  lemma FiledPut(parts: set<Part>, nodes: map<string, Node>, id: string, cat: Catalog, w: NodeV)
    requires id in nodes && nodes.Keys == cat.Keys && Files(parts, nodes - {id}, cat - {id})
    requires Owns(parts, nodes[id].own) && NodeValue(parts, nodes[id]) == w
    ensures Files(parts, nodes, cat[id := w])
  {
    ListedPut(parts, nodes - {id}, id, nodes[id]);
    assert (nodes - {id})[id := nodes[id]] == nodes;
    assert (cat - {id})[id := w] == cat[id := w];
  }

  // -------------------------------------------------------------- pruning

  datatype PruneOptions = PruneOptions(dropDead: bool, minScoreKeep: real, maxNodes: int)

  predicate Keeps(opt: PruneOptions, s: Scalars) {
    var tested := s.test.testedAt != 0;
    && !(opt.dropDead && tested && !s.test.alive && s.test.qualityFailures >= 3)
    && !(opt.minScoreKeep > 0.0 && tested && s.test.score < opt.minScoreKeep)
  }

  /** Alive first, then score down, then latency up. */
  predicate PruneLess(a: Scalars, b: Scalars) {
    if a.test.alive != b.test.alive then a.test.alive
    else if a.test.score != b.test.score then a.test.score > b.test.score
    else a.test.latency < b.test.latency
  }

  lemma PruneLessWeak()
    ensures WeakOrder(PruneLess)
  {
  }

  function Ids(list: seq<Scalars>): set<string> {
    set s | s in list :: s.id
  }

  /** `kept` lists the plain fields of the nodes the rules keep, each once. */
  ghost predicate ListsKept(opt: PruneOptions, c: Catalog, kept: seq<Scalars>) {
    && Distinct(kept)
    && (forall s :: s in kept ==> s.id in c && c[s.id].s == s && Keeps(opt, s))
    && (forall id :: id in c && Keeps(opt, c[id].s) ==> c[id].s in kept)
  }

  /** `d` is what pruning leaves of `c`: kept by the rules, at most so many, none of those capped ranking above. */
  ghost predicate Survivors(opt: PruneOptions, c: Catalog, d: Catalog) {
    && (forall id :: id in d ==> id in c && d[id] == c[id] && Keeps(opt, c[id].s))
    && (opt.maxNodes > 0 ==> |d| <= opt.maxNodes)
    && (forall id :: id in c && id !in d && Keeps(opt, c[id].s) ==>
          && opt.maxNodes > 0 && |d| == opt.maxNodes
          && forall k :: k in d ==> !PruneLess(c[id].s, c[k].s))
  }

  lemma {:induction false} IdCount(list: seq<Scalars>, c: Catalog)
    requires Distinct(list) && forall s :: s in list ==> s.id in c && c[s.id].s == s
    ensures |Ids(list)| == |list|
    decreases |list|
  {
    if list != [] {
      var i := |list| - 1;
      assert list == list[..i] + [list[i]];
      IdCount(list[..i], c);
      assert Ids(list) == Ids(list[..i]) + {list[i].id};
      assert list[i].id !in Ids(list[..i]);
    } else {
      assert Ids(list) == {};
    }
  }

  /** What the cap drops does not rank above what it leaves. */
  lemma CappedRank(kept: seq<Scalars>, n: int, s: Scalars)
    requires s in kept && s !in Limit(n, Sort(PruneLess, kept))
    ensures n > 0 && |Limit(n, Sort(PruneLess, kept))| == n
    ensures forall t :: t in Limit(n, Sort(PruneLess, kept)) ==> !PruneLess(s, t)
  {
    var sorted := Sort(PruneLess, kept);
    PruneLessWeak();
    SortMember(PruneLess, kept, s);
    SortSorts(PruneLess, kept);
    var j :| 0 <= j < |sorted| && sorted[j] == s;
    assert n <= j;
  }

  lemma CappedNames(opt: PruneOptions, c: Catalog, kept: seq<Scalars>, capped: seq<Scalars>)
    requires ListsKept(opt, c, kept) && capped == Limit(opt.maxNodes, Sort(PruneLess, kept))
    ensures Distinct(capped) && forall s :: s in capped ==> s in kept
    ensures |Ids(capped)| == |capped|
  {
    PruneLessWeak();
    SortSorts(PruneLess, kept);
    DistinctPart(kept, Sort(PruneLess, kept));
    forall s | s in capped ensures s in kept {
      SortMember(PruneLess, kept, s);
    }
    IdCount(capped, c);
  }

  lemma CappedSurvive(opt: PruneOptions, c: Catalog, kept: seq<Scalars>, capped: seq<Scalars>) returns (d: Catalog)
    requires ListsKept(opt, c, kept) && capped == Limit(opt.maxNodes, Sort(PruneLess, kept))
    requires forall id :: id in c ==> c[id].s.id == id
    ensures forall s :: s in capped ==> s.id in c
    ensures d == Restricted(c, capped) && Survivors(opt, c, d)
  {
    CappedNames(opt, c, kept, capped);
    d := Restricted(c, capped);
    assert d.Keys == Ids(capped);
    forall id | id in c && id !in d && Keeps(opt, c[id].s)
      ensures opt.maxNodes > 0 && |d| == opt.maxNodes && forall k :: k in d ==> !PruneLess(c[id].s, c[k].s)
    {
      assert c[id].s.id == id;
      CappedRank(kept, opt.maxNodes, c[id].s);
    }
  }

  function Restricted<T>(m: map<string, T>, list: seq<Scalars>): map<string, T> {
    map id | id in m && id in Ids(list) :: m[id]
  }

  /** Dropped by the rules: tested and dead three times over, or tested and scored too low. */
  predicate Hopeless(opt: PruneOptions, t: Tested) {
    && t.testedAt != 0
    && ((opt.dropDead && !t.alive && t.qualityFailures >= 3) || (opt.minScoreKeep > 0.0 && t.score < opt.minScoreKeep))
  }

  /** At least as good: alive before dead, then the greater score, then the smaller latency. */
  predicate AsGood(a: Tested, b: Tested) {
    || (a.alive && !b.alive)
    || (a.alive == b.alive && a.score > b.score)
    || (a.alive == b.alive && a.score == b.score && a.latency <= b.latency)
  }

  /** What pruning leaves, on the nodes' fields. */
  ghost predicate Pruned(opt: PruneOptions, c: Catalog, d: Catalog) {
    && (forall id :: id in d ==> id in c && d[id] == c[id] && !Hopeless(opt, c[id].s.test))
    && (opt.maxNodes > 0 ==> |d| <= opt.maxNodes)
    && (forall id :: id in c && id !in d && !Hopeless(opt, c[id].s.test) ==>
          opt.maxNodes > 0 && |d| == opt.maxNodes && forall k :: k in d ==> AsGood(c[k].s.test, c[id].s.test))
  }

  lemma SurvivorsPruned(opt: PruneOptions, c: Catalog, d: Catalog)
    ensures Survivors(opt, c, d) <==> Pruned(opt, c, d)
  {
    assert forall s: Scalars :: Keeps(opt, s) <==> !Hopeless(opt, s.test);
    assert forall s: Scalars, t: Scalars :: !PruneLess(s, t) <==> AsGood(t.test, s.test);
  }

  lemma RestrictedListing(parts: set<Part>, nodes: map<string, Node>, list: seq<Scalars>)
    requires Holds(parts, nodes)
    ensures Files(parts, Restricted(nodes, list), Restricted(Listed(parts, nodes), list))
  {
  }

  // -------------------------------------------------------------- listing

  function Views(view: NodeV -> Publish.Node, c: Catalog, order: seq<string>): seq<Publish.Node>
    requires forall id :: id in order ==> id in c
  {
    seq(|order|, i requires 0 <= i < |order| => view(c[order[i]]))
  }

  lemma ViewsGrow(f: Publish.NodeFilter, view: NodeV -> Publish.Node, c: Catalog, order: seq<string>, id: string)
    requires id in c && forall k :: k in order ==> k in c
    ensures Filter(Publish.Matcher(f), Views(view, c, order + [id])) ==
            Filter(Publish.Matcher(f), Views(view, c, order))
            + (if Publish.Matches(f, view(c[id])) then [view(c[id])] else [])
  {
    assert Views(view, c, order + [id]) == Views(view, c, order) + [view(c[id])];
    FilterAppend(Publish.Matcher(f), Views(view, c, order), [view(c[id])]);
  }

  /** A view keeps the id. */
  ghost predicate Viewed(view: NodeV -> Publish.Node, c: Catalog) {
    forall id :: id in c ==> view(c[id]).id == id && c[id].s.id == id
  }

  /** `vs` are the stored nodes whose views make up the listing of all views, in its order. */
  ghost predicate Lists(f: Publish.NodeFilter, view: NodeV -> Publish.Node, c: Catalog, order: seq<string>,
                        vs: seq<NodeV>)
    requires forall id :: id in order ==> id in c
  {
    var listed := Publish.List(Views(view, c, order), f);
    && |vs| == |listed|
    && forall i :: 0 <= i < |vs| ==> vs[i].s.id in c && vs[i] == c[vs[i].s.id] && view(vs[i]) == listed[i]
  }

  /** Every listed view is the view of a stored node. */
  lemma ListedViews(f: Publish.NodeFilter, view: NodeV -> Publish.Node, c: Catalog, order: seq<string>,
                    picked: seq<Publish.Node>)
    returns (vs: seq<NodeV>)
    requires (forall id :: id in order ==> id in c) && Viewed(view, c)
    requires picked == Publish.List(Views(view, c, order), f)
    ensures forall p :: p in picked ==> p.id in c
    ensures Lists(f, view, c, order, vs) && vs == Entries(c, picked)
  {
    var all := Views(view, c, order);
    var found := Filter(Publish.Matcher(f), all);
    FilterMember(Publish.Matcher(f), all);
    Publish.ListLessWeak();
    forall p | p in picked ensures p.id in c && view(c[p.id]) == p {
      SortMember(Publish.ListLess, found, p);
      var k :| 0 <= k < |all| && all[k] == p;
      assert order[k] in order && view(c[order[k]]) == p;
    }
    vs := Entries(c, picked);
    forall i | 0 <= i < |vs| ensures vs[i].s.id in c && vs[i] == c[vs[i].s.id] && view(vs[i]) == picked[i] {
      assert picked[i] in picked;
    }
  }

  /** The stored nodes with the ids of `picked`. */
  function Entries(c: Catalog, picked: seq<Publish.Node>): seq<NodeV>
    requires forall p :: p in picked ==> p.id in c
  {
    seq(|picked|, i requires 0 <= i < |picked| => c[picked[i].id])
  }

  lemma OutGrows(parts: set<Part>, copies: set<Part>, out: seq<Node>, vs: seq<NodeV>, c: Node)
    requires Reads(parts, out, Somes(vs)) && Owns(copies, c.own)
    ensures Reads(parts + copies, out + [c], Somes(vs + [NodeValue(copies, c)]))
  {
    ClosedUnion(parts, copies);
    OwnGrows(copies, parts + copies, c.own);
    BatchGrows(parts, parts + copies, out, Somes(vs));
    forall i | 0 <= i <= |out|
      ensures ReadsAs(parts + copies, (out + [c])[i], Somes(vs + [NodeValue(copies, c)])[i], None)
    {
      if i < |out| {
        assert ReadsAs(parts + copies, out[i], Somes(vs)[i], None);
      }
    }
  }

  class Store {
    const h: Hash
    var nodes: map<string, Node>
    ghost var repr: set<Part>

    ghost function Contents(): Catalog
      requires Holds(repr, nodes)
      reads this, nodes.Values, repr
    {
      Listed(repr, nodes)
    }

    ghost predicate Valid()
      reads this, nodes.Values, repr
    {
      Holds(repr, nodes) && Indexed(h, Contents())
    }

    constructor (h: Hash)
      ensures Valid() && this.h == h && Contents() == map[] && repr == {} && nodes == map[]
    {
      this.h := h;
      nodes, repr := map[], {};
    }

    /** Finds stored nodes by key; no two share one. */
    method IndexByKey() returns (byKey: map<string, Node>)
      requires Valid()
      ensures forall k :: k in byKey <==> WithKey(h, Contents(), k).Some?
      ensures forall k :: k in byKey ==> h.digest(k) in nodes && byKey[k] == nodes[h.digest(k)]
    {
      byKey := map[];
      var todo := nodes.Keys;
      while todo != {}
        invariant todo <= nodes.Keys
        invariant forall k :: k in byKey ==> WithKey(h, Contents(), k).Some? && byKey[k] == nodes[h.digest(k)]
        invariant forall id :: id in nodes && id !in todo ==> KeyV(h, Contents()[id]) in byKey
        decreases todo
      {
        var id :| id in todo;
        assert IdV(h, Contents()[id]) == id;
        byKey := byKey[KeyV(h, NodeValue(repr, nodes[id])) := nodes[id]];
        todo := todo - {id};
      }
    }

    /** The caller's node itself is completed, from the stored node `known` with its key if there is one. */
    method Import(n: Node, known: Node?, key: string, now: int, ghost world: set<Part>, ghost o: Option<NodeV>)
      requires Owns(world, n.own) && key == KeyV(h, NodeValue(world, n))
      requires known == null ==> o == None
      requires known != null ==> known != n && Owns(world, known.own) && o == Some(NodeValue(world, known))
      modifies n
      ensures Owns(world, n.own)
      ensures NodeValue(world, n) == ImportedWith(h, o, old(NodeValue(world, n)), now)
    {
      if known != null {
        CarryOver(n, known, world, o.value);
      }
      Stamp(n, key, now);
    }

    method CarryOver(n: Node, known: Node, ghost world: set<Part>, ghost o: NodeV)
      requires known != n && Owns(world, n.own) && Owns(world, known.own) && NodeValue(world, known) == o
      modifies n
      ensures Owns(world, n.own) && NodeValue(world, n) == Merged(old(NodeValue(world, n)), o)
    {
      MergeMeans(world, n.s, n.own, known.s, known.own);
      MergeObservations(n, known);
    }

    /** The step of ReplaceNodes for one node, before its copy is stored. */
    method Complete(n: Node, byKey: map<string, Node>, now: int, ghost world: set<Part>, ghost c: Catalog,
                    ghost v: NodeV)
      requires Closed(world) && ReadsAs(world, n, Some(Imported(h, c, v, now)), Some(v))
      requires Knows(byKey, world, c) && n !in nodes.Values
      modifies n
      ensures ReadsAs(world, n, Some(Imported(h, c, v, now)), None)
    {
      var key := KeyV(h, NodeValue(world, n));
      var known := if key in byKey then byKey[key] else null;
      ImportSettles(h, c, v, now);
      Import(n, known, key, now, world, WithKey(h, c, key));
    }

    method Stamp(n: Node, key: string, now: int)
      modifies n
      ensures n.own == old(n.own)
      ensures n.s == old(n.s).(id := h.digest(key), fingerprint := key,
                               firstSeenAt := if old(n.s.firstSeenAt) == 0 then now else old(n.s.firstSeenAt),
                               lastSeenAt := if old(n.s.lastSeenAt) == 0 then now else old(n.s.lastSeenAt))
    {
      if n.s.firstSeenAt == 0 {
        n.s := n.s.(firstSeenAt := now);
      }
      if n.s.lastSeenAt == 0 {
        n.s := n.s.(lastSeenAt := now);
      }
      n.s := n.s.(id := h.digest(key), fingerprint := key);
    }

    /** The index with a copy of `n` under its id. */
    method Put(n: Node, ghost world: set<Part>, ghost v: NodeV, index: map<string, Node>,
               ghost parts: set<Part>, ghost c: Catalog)
      returns (index': map<string, Node>, ghost parts': set<Part>)
      requires Files(parts, index, c) && Closed(world) && ReadsAs(world, n, Some(v), None)
      ensures fresh(parts' - parts) && fresh(index'.Values - index.Values)
      ensures Files(parts', index', c[v.s.id := v])
    {
      var copy, copies := CloneNode(world, n);
      assert Files(parts, index, c);
      PutMeans(parts, copies, index, n.s.id, copy);
      index', parts' := index[n.s.id := copy], parts + copies;
      assert index'.Values <= index.Values + {copy};
    }

    method Install(index: map<string, Node>, ghost parts: set<Part>, ghost c: Catalog)
      requires Files(parts, index, c)
      modifies this
      ensures nodes == index && repr == parts && Files(parts, index, c)
    {
      nodes, repr := index, parts;
    }

    /** The lookup of stored nodes by key, for whoever can reach `world`. */
    ghost predicate Knows(byKey: map<string, Node>, world: set<Part>, c: Catalog)
      reads this, nodes.Values, world
    {
      && Files(world, nodes, c)
      && (forall k :: k in byKey <==> WithKey(h, c, k).Some?)
      && (forall k :: k in byKey ==> h.digest(k) in nodes && byKey[k] == nodes[h.digest(k)])
    }

    method LookUp(batch: seq<Node?>, ghost held: set<Part>, ghost vs: seq<Option<NodeV>>, ghost c: Catalog)
      returns (byKey: map<string, Node>)
      requires Files(repr, nodes, c) && Indexed(h, c) && Reads(held, batch, vs)
      ensures Knows(byKey, held + repr, c) && Reads(held + repr, batch, vs)
    {
      byKey := IndexByKey();
      ClosedUnion(held, repr);
      ListedGrows(repr, held + repr, nodes);
      BatchGrows(held, held + repr, batch, vs);
    }

    method CompleteAt(batch: seq<Node?>, i: nat, byKey: map<string, Node>, now: int, ghost world: set<Part>,
                      ghost c: Catalog, ghost vs: seq<Option<NodeV>>, ghost ts: seq<Option<NodeV>>)
      requires i < |batch| && batch[i] != null && batch[i] !in nodes.Values && Knows(byKey, world, c)
      requires Turned(world, batch, vs, ts, i) && Agrees(batch, ts)
      requires vs[i].Some? && ts[i] == Some(Imported(h, c, vs[i].value, now))
      modifies batch[i]
      ensures Turned(world, batch, vs, ts, i + 1) && ReadsAs(world, batch[i], ts[i], None)
    {
      assert ReadsAs(world, batch[i], ts[i], vs[i]);
      Complete(batch[i], byKey, now, world, c, vs[i].value);
      forall j | 0 <= j < |batch| ensures ReadsAs(world, batch[j], ts[j], if j < i + 1 then None else vs[j]) {
        assert batch[j] == batch[i] ==> ts[j] == ts[i];
      }
    }

    method FileAt(batch: seq<Node?>, i: nat, byKey: map<string, Node>, now: int, ghost world: set<Part>,
                  ghost c: Catalog, ghost vs: seq<Option<NodeV>>, ghost ts: seq<Option<NodeV>>,
                  index: map<string, Node>, ghost parts: set<Part>, ghost filed: Catalog)
      returns (index': map<string, Node>, ghost parts': set<Part>)
      requires i < |batch| && batch[i] != null && batch[i] !in nodes.Values && batch[i] !in index.Values
      requires Knows(byKey, world, c) && Files(parts, index, filed)
      requires Turned(world, batch, vs, ts, i) && Agrees(batch, ts) && vs[i].Some?
      requires ts[i] == Some(Imported(h, c, vs[i].value, now))
      modifies batch[i]
      ensures Turned(world, batch, vs, ts, i + 1)
      ensures fresh(parts' - parts) && fresh(index'.Values - index.Values)
      ensures Files(parts', index', filed[ts[i].value.s.id := ts[i].value])
    {
      CompleteAt(batch, i, byKey, now, world, c, vs, ts);
      assert Files(parts, index, filed);
      index', parts' := Put(batch[i], world, ts[i].value, index, parts, filed);
    }

    method Step(batch: seq<Node?>, i: nat, byKey: map<string, Node>, now: int, ghost world: set<Part>,
                ghost c: Catalog, ghost vs: seq<Option<NodeV>>, ghost ts: seq<Option<NodeV>>,
                index: map<string, Node>, ghost parts: set<Part>, ghost filed: Catalog)
      returns (index': map<string, Node>, ghost parts': set<Part>)
      requires i < |batch| && batch[i] !in nodes.Values && batch[i] !in index.Values
      requires Knows(byKey, world, c) && Turned(world, batch, vs, ts, i) && Agrees(batch, ts)
      requires ts == ImportedAll(h, c, vs, now) && Files(parts, index, filed)
      modifies if batch[i] == null then {} else {batch[i]}
      ensures Knows(byKey, world, c) && Turned(world, batch, vs, ts, i + 1)
      ensures fresh(parts' - parts) && fresh(index'.Values - index.Values)
      ensures Files(parts', index', FiledAlso(filed, ts[i]))
    {
      assert ReadsAs(world, batch[i], ts[i], vs[i]);
      index', parts' := index, parts;
      if batch[i] != null {
        index', parts' := FileAt(batch, i, byKey, now, world, c, vs, ts, index, parts, filed);
      }
    }

    /** The loop of ReplaceNodes: completes the caller's nodes and files copies of them. */
    method ImportBatch(batch: seq<Node?>, byKey: map<string, Node>, now: int, ghost world: set<Part>,
                       ghost c: Catalog, ghost vs: seq<Option<NodeV>>, ghost ts: seq<Option<NodeV>>)
      returns (index: map<string, Node>, ghost parts: set<Part>)
      requires forall i :: 0 <= i < |batch| && batch[i] != null ==> batch[i] !in nodes.Values
      requires Knows(byKey, world, c) && Turned(world, batch, vs, ts, 0) && Agrees(batch, ts)
      requires ts == ImportedAll(h, c, vs, now)
      modifies batch
      ensures Reads(world, batch, ts)
      ensures fresh(parts) && fresh(index.Values) && Files(parts, index, Filed(ts))
    {
      index, parts := map[], {};
      ghost var filed: Catalog := map[];
      for i := 0 to |batch|
        invariant filed == Filed(ts[..i]) && Knows(byKey, world, c) && Turned(world, batch, vs, ts, i)
        invariant fresh(parts) && fresh(index.Values) && Files(parts, index, filed)
      {
        FiledSnoc(ts, i);
        index, parts := Step(batch, i, byKey, now, world, c, vs, ts, index, parts, filed);
        filed := FiledAlso(filed, ts[i]);
      }
      assert ts[..|ts|] == ts;
    }

    method ReplaceNodes(batch: seq<Node?>, now: int, ghost held: set<Part>, ghost vs: seq<Option<NodeV>>)
      requires Valid() && Reads(held, batch, vs)
      requires forall i :: 0 <= i < |batch| && batch[i] != null ==> batch[i] !in nodes.Values
      modifies this, batch
      ensures Valid() && fresh(repr) && fresh(nodes.Values)
      ensures Contents() == Replaced(h, old(Contents()), vs, now)
      ensures Reads(held + old(repr), batch, ImportedAll(h, old(Contents()), vs, now))
    {
      ReplaceFiled(batch, now, held, vs, Contents());
      ReplacedIndexed(h, old(Contents()), vs, now);
    }

    method ReplaceFiled(batch: seq<Node?>, now: int, ghost held: set<Part>, ghost vs: seq<Option<NodeV>>,
                        ghost c: Catalog)
      requires Files(repr, nodes, c) && Indexed(h, c) && Reads(held, batch, vs)
      requires forall i :: 0 <= i < |batch| && batch[i] != null ==> batch[i] !in nodes.Values
      modifies this, batch
      ensures Files(repr, nodes, Replaced(h, c, vs, now)) && fresh(repr) && fresh(nodes.Values)
      ensures Reads(held + old(repr), batch, ImportedAll(h, c, vs, now))
    {
      ghost var world, ts := held + repr, ImportedAll(h, c, vs, now);
      var byKey := LookUp(batch, held, vs, c);
      ImportStarts(world, h, c, batch, vs, now);
      var index, parts := ImportBatch(batch, byKey, now, world, c, vs, ts);
      ReplacedFiled(h, c, vs, now);
      InstallBeside(index, parts, Replaced(h, c, vs, now), world, batch, ts);
    }

    /** Takes over an index, which the caller's nodes do not notice. */
    method InstallBeside(index: map<string, Node>, ghost parts: set<Part>, ghost c: Catalog,
                         ghost world: set<Part>, batch: seq<Node?>, ghost ts: seq<Option<NodeV>>)
      requires Files(parts, index, c) && Reads(world, batch, ts)
      modifies this
      ensures nodes == index && repr == parts && Files(parts, index, c) && Reads(world, batch, ts)
    {
      Install(index, parts, c);
    }

    /** Refreshes the stored node with the id of the copy `c`; the others stay as they are. */
    method RefreshStored(id: string, c: Node, ghost parts: set<Part>, ghost v: NodeV, ghost cat: Catalog)
      requires id in nodes && Files(parts, nodes, cat) && Indexed(h, cat)
      requires c !in nodes.Values && Owns(parts, c.own) && NodeValue(parts, c) == v && c.own.Keys == v.own.Keys
      modifies nodes[id]
      ensures Files(parts, nodes, cat[id := Refreshed(cat[id], v)])
    {
      OthersFiled(parts, nodes, cat, h, id);
      RefreshApart(nodes[id], c, parts, cat[id], v, nodes - {id}, cat - {id});
      FiledPut(parts, nodes, id, cat, Refreshed(cat[id], v));
    }

    /** Refreshes one node beside an index of others. */
    method RefreshApart(o: Node, c: Node, ghost parts: set<Part>, ghost w: NodeV, ghost v: NodeV,
                        ghost others: map<string, Node>, ghost rest: Catalog)
      requires Files(parts, others, rest) && o !in others.Values && o != c
      requires Owns(parts, o.own) && NodeValue(parts, o) == w
      requires Owns(parts, c.own) && NodeValue(parts, c) == v && c.own.Keys == v.own.Keys
      modifies o
      ensures Files(parts, others, rest) && Owns(parts, o.own) && NodeValue(parts, o) == Refreshed(w, v)
    {
      RefreshMeans(parts, o.s, o.own, c.s, c.own);
      Refresh(o, c);
    }

    /** The index that stores the copy `c` of an observation, or in which the node it observes is refreshed. */
    method Absorb(c: Node, ghost parts: set<Part>, ghost v: NodeV, ghost cat: Catalog)
      returns (index: map<string, Node>)
      requires Files(parts, nodes, cat) && Indexed(h, cat)
      requires c !in nodes.Values && Owns(parts, c.own) && NodeValue(parts, c) == v && c.own.Keys == v.own.Keys
      modifies nodes.Values
      ensures index.Values <= nodes.Values + {c}
      ensures Files(parts, index, Absorbed(cat, v))
    {
      if c.s.id in nodes {
        index := nodes;
        RefreshStored(c.s.id, c, parts, v, cat);
      } else {
        index := nodes[c.s.id := c];
        ListedPut(parts, nodes, c.s.id, c);
      }
    }

    /** A copy of the caller's node, which is given its id first. */
    method CopyNamed(n: Node, ghost held: set<Part>, ghost v: NodeV) returns (c: Node, ghost copies: set<Part>)
      requires Closed(held) && ReadsAs(held, n, Some(Named(h, v)), Some(v))
      modifies n`s
      ensures ReadsAs(held, n, Some(Named(h, v)), None)
      ensures fresh(c) && fresh(copies) && Owns(copies, c.own)
      ensures NodeValue(copies, c) == Named(h, v) && c.own.Keys == v.own.Keys
    {
      NameNode(n, held, v);
      c, copies := CloneNode(held, n);
      assert ReadsAs(held, n, Some(Named(h, v)), None);
    }

    method NameNode(n: Node, ghost held: set<Part>, ghost v: NodeV)
      requires Closed(held) && ReadsAs(held, n, Some(Named(h, v)), Some(v))
      modifies n`s
      ensures ReadsAs(held, n, Some(Named(h, v)), None)
    {
      n.s := n.s.(id := IdV(h, NodeValue(held, n)));
      assert NodeValue(held, n) == Named(h, v);
    }

    /** Absorbs a copy with parts of its own. */
    method Take(c: Node, ghost copies: set<Part>, ghost v: NodeV, ghost cat: Catalog)
      requires Files(repr, nodes, cat) && Indexed(h, cat)
      requires c !in nodes.Values && Owns(copies, c.own) && NodeValue(copies, c) == v && c.own.Keys == v.own.Keys
      modifies this, nodes.Values
      ensures nodes.Values <= old(nodes.Values) + {c} && repr == old(repr) + copies
      ensures Files(repr, nodes, Absorbed(cat, v))
    {
      ClosedUnion(repr, copies);
      ListedGrows(repr, repr + copies, nodes);
      OwnGrows(copies, repr + copies, c.own);
      var index := Absorb(c, repr + copies, v, cat);
      Install(index, repr + copies, Absorbed(cat, v));
    }

    method CopyAt(batch: seq<Node>, i: nat, ghost held: set<Part>, ghost vs: seq<Option<NodeV>>,
                  ghost ts: seq<Option<NodeV>>)
      returns (c: Node, ghost copies: set<Part>)
      requires i < |batch| && Agrees(batch, ts) && Turned(held, batch, vs, ts, i)
      requires vs[i].Some? && ts[i] == Some(Named(h, vs[i].value))
      modifies {batch[i]}`s
      ensures Turned(held, batch, vs, ts, i + 1)
      ensures fresh(c) && fresh(copies) && Owns(copies, c.own)
      ensures NodeValue(copies, c) == ts[i].value && c.own.Keys == ts[i].value.own.Keys
    {
      assert ReadsAs(held, batch[i], ts[i], vs[i]);
      c, copies := CopyNamed(batch[i], held, vs[i].value);
      forall j | 0 <= j < |batch| ensures ReadsAs(held, batch[j], ts[j], if j < i + 1 then None else vs[j]) {
        assert batch[j] == batch[i] ==> ts[j] == ts[i];
      }
    }

    /** One observation: names the caller's node, and absorbs a copy of it. */
    method UpsertAt(batch: seq<Node>, i: nat, ghost held: set<Part>, ghost vs: seq<Option<NodeV>>,
                    ghost ts: seq<Option<NodeV>>, ghost cat: Catalog)
      requires i < |batch| && forall j :: 0 <= j < |batch| ==> batch[j] !in nodes.Values
      requires Files(repr, nodes, cat) && Indexed(h, cat)
      requires Agrees(batch, ts) && Turned(held, batch, vs, ts, i)
      requires vs[i].Some? && ts[i] == Some(Named(h, vs[i].value))
      modifies this, nodes.Values, {batch[i]}`s
      ensures Turned(held, batch, vs, ts, i + 1)
      ensures fresh(repr - old(repr)) && fresh(nodes.Values - old(nodes.Values))
      ensures Files(repr, nodes, Upserted(h, cat, vs[i].value))
    {
      var c, copies := CopyAt(batch, i, held, vs, ts);
      TakeBeside(c, copies, ts[i].value, cat, batch, held, vs, ts, i + 1);
    }

    /** Absorbs a copy, which the caller's nodes do not notice. */
    method TakeBeside(c: Node, ghost copies: set<Part>, ghost v: NodeV, ghost cat: Catalog, batch: seq<Node>,
                      ghost held: set<Part>, ghost vs: seq<Option<NodeV>>, ghost ts: seq<Option<NodeV>>,
                      ghost done: nat)
      requires Files(repr, nodes, cat) && Indexed(h, cat) && forall j :: 0 <= j < |batch| ==> batch[j] !in nodes.Values
      requires c !in nodes.Values && Owns(copies, c.own) && NodeValue(copies, c) == v && c.own.Keys == v.own.Keys
      requires Turned(held, batch, vs, ts, done)
      modifies this, nodes.Values
      ensures Turned(held, batch, vs, ts, done)
      ensures nodes.Values <= old(nodes.Values) + {c} && repr == old(repr) + copies
      ensures Files(repr, nodes, Absorbed(cat, v))
    {
      Take(c, copies, v, cat);
    }

    method UpsertNodes(batch: seq<Node>, ghost held: set<Part>, ghost vs: seq<NodeV>)
      requires Valid() && Reads(held, batch, Somes(vs))
      requires forall i :: 0 <= i < |batch| ==> batch[i] !in nodes.Values
      modifies this, nodes.Values, batch`s
      ensures Valid() && fresh(repr - old(repr)) && fresh(nodes.Values - old(nodes.Values))
      ensures Contents() == UpsertedAll(h, old(Contents()), vs)
      ensures Reads(held, batch, Somes(NamedAll(h, vs)))
    {
      UpsertFiled(batch, held, vs, Contents());
      UpsertsIndexed(h, old(Contents()), vs);
    }

    method UpsertFiled(batch: seq<Node>, ghost held: set<Part>, ghost vs: seq<NodeV>, ghost c: Catalog)
      requires Files(repr, nodes, c) && Indexed(h, c) && Reads(held, batch, Somes(vs))
      requires forall i :: 0 <= i < |batch| ==> batch[i] !in nodes.Values
      modifies this, nodes.Values, batch`s
      ensures Files(repr, nodes, UpsertedAll(h, c, vs))
      ensures fresh(repr - old(repr)) && fresh(nodes.Values - old(nodes.Values))
      ensures Reads(held, batch, Somes(NamedAll(h, vs)))
    {
      ghost var os, ts, cat := Somes(vs), Somes(NamedAll(h, vs)), c;
      UpsertStarts(held, h, batch, vs);
      for i := 0 to |batch|
        invariant cat == UpsertedAll(h, c, vs[..i]) && Files(repr, nodes, cat) && Indexed(h, cat)
        invariant forall p :: p in repr ==> p in old(repr) || fresh(p)
        invariant forall n :: n in nodes.Values ==> n in old(nodes.Values) || fresh(n)
        invariant Turned(held, batch, os, ts, i)
      {
        assert os[i] == Some(vs[i]) && ts[i] == Some(Named(h, vs[i]));
        assert forall j :: 0 <= j < |batch| ==> batch[j] !in nodes.Values;
        UpsertAt(batch, i, held, os, ts, cat);
        UpsertedSnoc(h, c, vs, i);
        UpsertIndexed(h, cat, vs[i]);
        cat := Upserted(h, cat, vs[i]);
      }
      assert vs[..|vs|] == vs;
    }

    /** A copy of the node with this id, if it is stored. */
    method GetNode(id: string) returns (n: Node?, ghost parts: set<Part>)
      requires Valid()
      ensures n == null <==> id !in Contents()
      ensures n != null ==> fresh(n) && fresh(parts) && Owns(parts, n.own) && NodeValue(parts, n) == Contents()[id]
    {
      n, parts := null, {};
      if id in nodes {
        n, parts := CloneNode(repr, nodes[id]);
      }
    }

    /** The views of the matching nodes, in whatever order the map yields them. */
    method Matching(f: Publish.NodeFilter, view: NodeV -> Publish.Node, ghost c: Catalog)
      returns (found: seq<Publish.Node>, ghost order: seq<string>)
      requires Files(repr, nodes, c)
      ensures Distinct(order) && (forall id :: id in order <==> id in c)
      ensures found == Filter(Publish.Matcher(f), Views(view, c, order))
    {
      found, order := [], [];
      var todo := nodes.Keys;
      while todo != {}
        invariant todo <= nodes.Keys
        invariant Distinct(order) && forall id :: id in order <==> id in c && id !in todo
        invariant found == Filter(Publish.Matcher(f), Views(view, c, order))
        decreases todo
      {
        var id :| id in todo;
        var p := view(NodeValue(repr, nodes[id]));
        assert p == view(c[id]);
        ViewsGrow(f, view, c, order, id);
        if Publish.Matches(f, p) {
          found := found + [p];
        }
        order := order + [id];
        todo := todo - {id};
      }
    }

    method CloneAll(picked: seq<Publish.Node>, ghost c: Catalog) returns (out: seq<Node>, ghost parts: set<Part>)
      requires Files(repr, nodes, c) && forall p :: p in picked ==> p.id in c
      ensures Distinct(out) && fresh(out) && fresh(parts) && Reads(parts, out, Somes(Entries(c, picked)))
    {
      out, parts := [], {};
      for i := 0 to |picked|
        invariant Distinct(out) && fresh(out) && fresh(parts)
        invariant Reads(parts, out, Somes(Entries(c, picked[..i])))
      {
        assert Entries(c, picked[..i + 1]) == Entries(c, picked[..i]) + [c[picked[i].id]];
        var copy, more := CloneOneMore(picked[i].id, c, out, parts, Entries(c, picked[..i]));
        out, parts := out + [copy], parts + more;
      }
      assert picked[..|picked|] == picked;
    }

    method CloneOneMore(id: string, ghost c: Catalog, out: seq<Node>, ghost parts: set<Part>, ghost vs: seq<NodeV>)
      returns (copy: Node, ghost copies: set<Part>)
      requires Files(repr, nodes, c) && id in c && Distinct(out) && Reads(parts, out, Somes(vs))
      ensures fresh(copy) && fresh(copies) && Distinct(out + [copy])
      ensures Reads(parts + copies, out + [copy], Somes(vs + [c[id]]))
    {
      copy, copies := CloneNode(repr, nodes[id]);
      OutGrows(parts, copies, out, vs, copy);
    }

    /** Copies of the stored nodes that the publishing listing names, in its order. */
    method ListNodes(f: Publish.NodeFilter, view: NodeV -> Publish.Node)
      returns (out: seq<Node>, ghost parts: set<Part>, ghost vs: seq<NodeV>, ghost order: seq<string>)
      requires Valid() && Viewed(view, Contents())
      ensures Distinct(out) && fresh(out) && fresh(parts) && Reads(parts, out, Somes(vs))
      ensures Distinct(order) && (forall id :: id in order <==> id in Contents())
      ensures Lists(f, view, Contents(), order, vs)
    {
      out, parts, vs, order := ListFiled(f, view, Contents());
    }

    method ListFiled(f: Publish.NodeFilter, view: NodeV -> Publish.Node, ghost c: Catalog)
      returns (out: seq<Node>, ghost parts: set<Part>, ghost vs: seq<NodeV>, ghost order: seq<string>)
      requires Files(repr, nodes, c) && Viewed(view, c)
      ensures Distinct(out) && fresh(out) && fresh(parts) && Reads(parts, out, Somes(vs))
      ensures Distinct(order) && (forall id :: id in order <==> id in c)
      ensures Lists(f, view, c, order, vs)
    {
      var found;
      found, order := Matching(f, view, c);
      var picked := Limit(f.limit, Sort(Publish.ListLess, found));
      vs := ListedViews(f, view, c, order, picked);
      out, parts := CloneAll(picked, c);
    }

    /** The plain fields of the nodes the rules keep, in whatever order the map yields them. */
    method Eligible(opt: PruneOptions, ghost c: Catalog) returns (kept: seq<Scalars>)
      requires Files(repr, nodes, c) && Indexed(h, c)
      ensures ListsKept(opt, c, kept)
    {
      kept := [];
      var todo := nodes.Keys;
      while todo != {}
        invariant todo <= nodes.Keys && Distinct(kept)
        invariant forall s :: s in kept ==> s.id in c && s.id !in todo && c[s.id].s == s && Keeps(opt, s)
        invariant forall id :: id in c && id !in todo && Keeps(opt, c[id].s) ==> c[id].s in kept
        decreases todo
      {
        var id :| id in todo;
        var s := nodes[id].s;
        assert c[id].s == s && s.id == id;
        if Keeps(opt, s) {
          kept := kept + [s];
        }
        todo := todo - {id};
      }
    }

    method Rebuild(capped: seq<Scalars>) returns (index: map<string, Node>)
      requires forall s :: s in capped ==> s.id in nodes
      ensures index == Restricted(nodes, capped)
    {
      index := map[];
      for i := 0 to |capped|
        invariant index == Restricted(nodes, capped[..i])
      {
        assert capped[i] in capped && Ids(capped[..i + 1]) == Ids(capped[..i]) + {capped[i].id};
        index := index[capped[i].id := nodes[capped[i].id]];
      }
      assert capped[..|capped|] == capped;
    }

    method Select(opt: PruneOptions, ghost c: Catalog) returns (index: map<string, Node>, ghost d: Catalog)
      requires Files(repr, nodes, c) && Indexed(h, c)
      ensures index.Keys <= nodes.Keys && (forall id :: id in index ==> index[id] == nodes[id])
      ensures Files(repr, index, d) && Survivors(opt, c, d) && Indexed(h, d)
    {
      var kept := Eligible(opt, c);
      var capped := Limit(opt.maxNodes, Sort(PruneLess, kept));
      d := CappedSurvive(opt, c, kept, capped);
      index := Rebuild(capped);
      assert Files(repr, nodes, c);
      RestrictedListing(repr, nodes, capped);
    }

    /** Drops what the rules drop and what ranks too low, and counts it. */
    method Prune(opt: PruneOptions) returns (removed: int)
      requires Valid()
      modifies this
      ensures Valid() && repr == old(repr)
      ensures forall id :: id in nodes ==> id in old(nodes) && nodes[id] == old(nodes)[id]
      ensures Survivors(opt, old(Contents()), Contents()) && Pruned(opt, old(Contents()), Contents())
      ensures removed == |old(Contents())| - |Contents()|
    {
      ghost var c, d := Contents(), map[];
      removed, d := PruneFiled(opt, c);
      SurvivorsPruned(opt, c, d);
    }

    method PruneFiled(opt: PruneOptions, ghost c: Catalog) returns (removed: int, ghost d: Catalog)
      requires Files(repr, nodes, c) && Indexed(h, c)
      modifies this
      ensures Files(repr, nodes, d) && Indexed(h, d) && repr == old(repr) && Survivors(opt, c, d)
      ensures forall id :: id in nodes ==> id in old(nodes) && nodes[id] == old(nodes)[id]
      ensures removed == |c| - |d|
    {
      var before := |nodes|;
      assert c.Keys == nodes.Keys;
      var index;
      index, d := Select(opt, c);
      assert d.Keys == index.Keys;
      Install(index, repr, d);
      removed := before - |nodes|;
    }
  }
}
