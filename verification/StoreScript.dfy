/** What a caller of the store can do, and what every move means on values. */
module StoreScript {
  import opened NodeParts
  import opened Wrappers
  import opened StoreMeaning
  import opened NodeStore
  import opened Sequences
  import Publish

  /** A part's content as a caller writes it: references are positions among the parts it can name. */
  datatype Shape =
    | ListOf(list: seq<string>)
    | OptionsOf(entries: map<string, string>)
    | WeightsOf(weights: map<string, real>)
    | ProbeResult(ok: bool, latencyMs: int)
    | ProbesOf(results: map<string, nat>)
    | RatingOf(score: real, avgLatencyMs: int, notes: nat, breakdown: nat)
    | DialOf(info: DialInfo, checks: nat)
    | ChecksOf(items: seq<nat>)
    | ExitOf(cleanScore: int, remarks: nat)

  function Nth(parts: seq<Part>, i: nat): Part? {
    if i < |parts| then parts[i] else null
  }

  function Formed(parts: seq<Part>, shape: Shape): (b: Body)
    ensures forall p :: p in Refs(b) ==> p in parts
  {
    match shape
    case ListOf(list) => Strings(list)
    case OptionsOf(entries) => Options(entries)
    case WeightsOf(weights) => Weights(weights)
    case ProbeResult(ok, latencyMs) => Probe(ok, latencyMs)
    case ProbesOf(results) => Probes(map k | k in results :: Nth(parts, results[k]))
    case RatingOf(score, avg, notes, breakdown) => Rating(score, avg, Nth(parts, notes), Nth(parts, breakdown))
    case DialOf(info, checks) => DialRun(info, Nth(parts, checks))
    case ChecksOf(items) => Checks(seq(|items|, i requires 0 <= i < |items| => Nth(parts, items[i])))
    case ExitOf(clean, remarks) => ExitReport(clean, Nth(parts, remarks))
  }

  function Referring(parts: seq<Part>, refs: map<Field, nat>): (own: Own)
    ensures forall p :: p in own.Values ==> p in parts
  {
    map f | f in refs && refs[f] < |parts| :: parts[refs[f]]
  }

  /**
   One move of a caller.  It calls the store with nodes it holds, reads a reference of a node or part
   it can name, makes parts and nodes, and rewrites any node it holds and any part it can name.
   */
  datatype Call =
    | Obtain(id: string)
    | Browse(f: Publish.NodeFilter)
    | Submit(picks: seq<nat>, at: int)
    | Observe(picks: seq<nat>)
    | Shrink(opt: PruneOptions)
    | Grab(pick: nat, field: Field)
    | Follow(i: nat)
    | MakePart(shape: Shape)
    | MakeNode(s: Scalars, refs: map<Field, nat>)
    | RewriteNode(pick: nat, s: Scalars, refs: map<Field, nat>)
    | RewritePart(i: nat, shape: Shape)

  /** What can be read at one moment: the store's contents, and every node the caller holds. */
  datatype Moment = Moment(contents: Catalog, held: seq<NodeV>)

  const START := Moment(map[], [])

  /** What the picked nodes read as; a position out of range stands for nil. */
  function Picked(held: seq<NodeV>, picks: seq<nat>): seq<Option<NodeV>> {
    seq(|picks|, i requires 0 <= i < |picks| => if picks[i] < |held| then Some(held[picks[i]]) else None)
  }

  function InRange(n: nat, picks: seq<nat>): (ps: seq<nat>)
    ensures forall p :: p in ps <==> p in picks && p < n
    ensures forall i :: 0 <= i < |ps| ==> ps[i] < n
  {
    if picks == [] then []
    else (if picks[0] < n then [picks[0]] else []) + InRange(n, picks[1..])
  }

  function Values(held: seq<NodeV>, picks: seq<nat>): seq<NodeV>
    requires forall i :: 0 <= i < |picks| ==> picks[i] < |held|
  {
    seq(|picks|, i requires 0 <= i < |picks| => held[picks[i]])
  }

  function Observed(held: seq<NodeV>, picks: seq<nat>): seq<NodeV> {
    var ps := InRange(|held|, picks);
    Values(held, ps)
  }

  function Submitted(h: Hash, m: Moment, picks: seq<nat>, at: int): Moment {
    Moment(Replaced(h, m.contents, Picked(m.held, picks), at),
           seq(|m.held|, k requires 0 <= k < |m.held| =>
             if k in picks then Imported(h, m.contents, m.held[k], at) else m.held[k]))
  }

  function Upserting(h: Hash, m: Moment, picks: seq<nat>): Moment {
    Moment(UpsertedAll(h, m.contents, Observed(m.held, picks)),
           seq(|m.held|, k requires 0 <= k < |m.held| =>
             if k in picks then Named(h, m.held[k]) else m.held[k]))
  }

  /** `vs` is a listing of the contents. */
  ghost predicate IsListing(f: Publish.NodeFilter, view: NodeV -> Publish.Node, c: Catalog, vs: seq<NodeV>) {
    exists order: seq<string> :: Enumerates(order, c) && Lists(f, view, c, order, vs)
  }

  ghost predicate Enumerates(order: seq<string>, c: Catalog) {
    Distinct(order) && forall id :: id in order <==> id in c
  }

  /** A node with these plain fields and at most these references; what a referenced part reads as is left open. */
  predicate MadeOf(v: NodeV, s: Scalars, refs: map<Field, nat>) {
    v.s == s && v.own.Keys <= refs.Keys
  }

  /**
   What a move does to what can be read.  Only the calls that store something change the contents, and
   then as a function of the contents and of what the picked nodes read as at that moment; a caller's own
   writes change at most what the nodes it holds read as.
   */
  ghost predicate Explains(h: Hash, view: NodeV -> Publish.Node, call: Call, m: Moment, m': Moment) {
    match call
    case Submit(picks, at) => m' == Submitted(h, m, picks, at)
    case Observe(picks) => m' == Upserting(h, m, picks)
    case Shrink(opt) => Survivors(opt, m.contents, m'.contents) && m'.held == m.held
    case Obtain(id) => m' == m.(held := m.held + (if id in m.contents then [m.contents[id]] else []))
    case Browse(f) => m'.contents == m.contents && m.held <= m'.held
                      && IsListing(f, view, m.contents, m'.held[|m.held|..])
    case MakeNode(s, refs) => m'.contents == m.contents && |m'.held| == |m.held| + 1 && m.held <= m'.held
                              && MadeOf(m'.held[|m.held|], s, refs)
    case RewriteNode(pick, s, refs) => m'.contents == m.contents && |m'.held| == |m.held|
                                       && (forall k :: 0 <= k < |m.held| && k != pick ==> m'.held[k] == m.held[k])
                                       && (pick < |m.held| ==> MadeOf(m'.held[pick], s, refs))
    case RewritePart(_, _) => m'.contents == m.contents && |m'.held| == |m.held|
                              && forall k :: 0 <= k < |m.held| ==> m'.held[k].s == m.held[k].s
    case _ => m' == m
  }

  /** The calls that store something. */
  predicate Stores(call: Call) {
    call.Submit? || call.Observe? || call.Shrink?
  }

  // -------------------------------------------------------------- traces

  /** A trace of moments: it starts with nothing stored and held, and each move explains the next moment. */
  ghost predicate IsTrace(h: Hash, view: NodeV -> Publish.Node, script: seq<Call>, trace: seq<Moment>) {
    && |trace| == |script| + 1 && trace[0] == START
    && forall i :: 0 <= i < |script| ==> Explains(h, view, script[i], trace[i], trace[i + 1])
  }

  lemma TraceSnoc(h: Hash, view: NodeV -> Publish.Node, script: seq<Call>, i: nat, trace: seq<Moment>, next: Moment)
    requires i < |script| && IsTrace(h, view, script[..i], trace) && Explains(h, view, script[i], trace[i], next)
    ensures IsTrace(h, view, script[..i + 1], trace + [next])
  {
    var longer := trace + [next];
    forall j | 0 <= j < i + 1 ensures Explains(h, view, script[..i + 1][j], longer[j], longer[j + 1]) {
      if j < i {
        assert Explains(h, view, script[..i][j], trace[j], trace[j + 1]);
      }
    }
  }

  /** Every moment of every trace keeps the index: each node under its id, which recomputes. */
  lemma {:induction false} TraceIndexed(h: Hash, view: NodeV -> Publish.Node, script: seq<Call>,
                                        trace: seq<Moment>, i: nat)
    requires IsTrace(h, view, script, trace) && i < |trace|
    ensures Indexed(h, trace[i].contents)
    decreases i
  {
    if i > 0 {
      TraceIndexed(h, view, script, trace, i - 1);
      var m := trace[i - 1];
      assert Explains(h, view, script[i - 1], m, trace[i]);
      match script[i - 1] {
        case Submit(picks, at) => ReplacedIndexed(h, m.contents, Picked(m.held, picks), at);
        case Observe(picks) => UpsertsIndexed(h, m.contents, Observed(m.held, picks));
        case _ =>
      }
    }
  }

  /** Between two storing calls the contents stand still, whatever the caller reads, makes and rewrites. */
  lemma {:induction false} StandsStill(h: Hash, view: NodeV -> Publish.Node, script: seq<Call>,
                                       trace: seq<Moment>, i: nat, j: nat)
    requires IsTrace(h, view, script, trace) && i <= j < |trace|
    requires forall k :: i <= k < j ==> !Stores(script[k])
    ensures trace[j].contents == trace[i].contents
    decreases j - i
  {
    if i < j {
      StandsStill(h, view, script, trace, i, j - 1);
      assert Explains(h, view, script[j - 1], trace[j - 1], trace[j]);
    }
  }

  /** Scripts do store: making a node and submitting it leaves it in the store, read as it was made. */
  lemma FirstSubmission(h: Hash, view: NodeV -> Publish.Node, s: Scalars, at: int, trace: seq<Moment>)
    requires IsTrace(h, view, [MakeNode(s, map[]), Submit([0], at)], trace)
    ensures trace[1].held == [NodeV(s, map[])]
    ensures var v := NodeV(s, map[]); trace[2].contents == map[IdV(h, v) := Imported(h, map[], v, at)]
  {
    var script := [MakeNode(s, map[]), Submit([0], at)];
    assert Explains(h, view, script[0], trace[0], trace[1]);
    assert Explains(h, view, script[1], trace[1], trace[2]);
    var batch := Picked(trace[1].held, [0]);
    assert batch[..0] == [];
    assert Replaced(h, map[], batch[..0], at) == map[];
  }
}
