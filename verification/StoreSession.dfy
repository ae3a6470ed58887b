/** A caller and the store it uses, on one heap: what either can reach stays apart, whatever is called. */
module StoreSession {
  import opened NodeParts
  import opened Wrappers
  import opened StoreMeaning
  import opened NodeStore
  import opened StoreScript
  import opened Sequences
  import Publish

  /** The nodes read as `vs`, and every part they refer to is in `parts`. */
  ghost predicate Holding(parts: set<Part>, nodes: seq<Node>, vs: seq<NodeV>)
    reads parts, nodes
  {
    Distinct(nodes) && Reads(parts, nodes, Somes(vs))
  }

  lemma HoldingOne(parts: set<Part>, nodes: seq<Node>, vs: seq<NodeV>, k: nat)
    requires Holding(parts, nodes, vs) && k < |nodes|
    ensures Owns(parts, nodes[k].own) && NodeValue(parts, nodes[k]) == vs[k]
  {
    assert ReadsAs(parts, nodes[k], Somes(vs)[k], None);
  }

  lemma HoldingGrows(a: set<Part>, b: set<Part>, nodes: seq<Node>, vs: seq<NodeV>)
    requires Holding(a, nodes, vs) && Closed(b) && a <= b
    ensures Holding(b, nodes, vs)
  {
    BatchGrows(a, b, nodes, Somes(vs));
  }

  lemma HoldingMore(parts: set<Part>, nodes: seq<Node>, vs: seq<NodeV>, more: seq<Node>, ws: seq<NodeV>)
    requires Holding(parts, nodes, vs) && Reads(parts, more, Somes(ws)) && Distinct(nodes + more)
    ensures Holding(parts, nodes + more, vs + ws)
  {
    var all := Somes(vs + ws);
    forall i | 0 <= i < |nodes + more| ensures ReadsAs(parts, (nodes + more)[i], all[i], None) {
      if i < |nodes| {
        assert ReadsAs(parts, nodes[i], Somes(vs)[i], None);
      } else {
        assert ReadsAs(parts, more[i - |nodes|], Somes(ws)[i - |nodes|], None);
      }
    }
  }

  lemma ReadsOwned(parts: set<Part>, nodes: seq<Node>, vs: seq<Option<NodeV>>)
    requires Reads(parts, nodes, vs)
    ensures forall n :: n in nodes ==> n.own.Values <= parts
  {
    forall i | 0 <= i < |nodes| ensures nodes[i].own.Values <= parts {
      assert ReadsAs(parts, nodes[i], vs[i], None);
    }
  }

  /** Whatever nodes a caller holds, they read as something. */
  lemma {:induction false} ValuesOf(parts: set<Part>, nodes: seq<Node>) returns (vs: seq<NodeV>)
    requires Closed(parts) && forall n :: n in nodes ==> n.own.Values <= parts
    ensures Reads(parts, nodes, Somes(vs))
    decreases |nodes|
  {
    vs := [];
    if nodes != [] {
      var k := |nodes| - 1;
      var rest := ValuesOf(parts, nodes[..k]);
      assert nodes[k] in nodes;
      vs := rest + [NodeValue(parts, nodes[k])];
      forall i | 0 <= i < |nodes| ensures ReadsAs(parts, nodes[i], Somes(vs)[i], None) {
        assert i < k ==> ReadsAs(parts, nodes[..k][i], Somes(rest)[i], None);
      }
    }
  }

  /** The nodes a caller passes; a position out of range stands for nil. */
  function Chosen(held: seq<Node>, picks: seq<nat>): seq<Node?> {
    seq(|picks|, i requires 0 <= i < |picks| => if picks[i] < |held| then held[picks[i]] else null)
  }

  function NodesAt(held: seq<Node>, picks: seq<nat>): seq<Node>
    requires forall i :: 0 <= i < |picks| ==> picks[i] < |held|
  {
    seq(|picks|, i requires 0 <= i < |picks| => held[picks[i]])
  }

  lemma AllChosen(held: seq<Node>, vs: seq<NodeV>, picks: seq<nat>)
    requires |vs| == |held| && forall i :: 0 <= i < |picks| ==> picks[i] < |held|
    ensures Chosen(held, picks) == NodesAt(held, picks) && Picked(vs, picks) == Somes(Values(vs, picks))
  {
  }

  lemma ChosenReads(parts: set<Part>, held: seq<Node>, vs: seq<NodeV>, picks: seq<nat>)
    requires Holding(parts, held, vs)
    ensures Reads(parts, Chosen(held, picks), Picked(vs, picks))
  {
    forall i | 0 <= i < |picks| ensures ReadsAs(parts, Chosen(held, picks)[i], Picked(vs, picks)[i], None) {
      if picks[i] < |held| {
        assert ReadsAs(parts, held[picks[i]], Somes(vs)[picks[i]], None);
      }
    }
  }

  lemma NotChosen(held: seq<Node>, picks: seq<nat>, k: nat)
    requires Distinct(held) && k < |held| && k !in picks
    ensures held[k] !in Chosen(held, picks)
  {
  }

  /** After a call the picked nodes read as the call left them, and the others as before. */
  lemma Completed(a: set<Part>, b: set<Part>, held: seq<Node>, vs: seq<NodeV>, picks: seq<nat>,
                  ts: seq<Option<NodeV>>, ws: seq<NodeV>)
    requires Distinct(held) && |held| == |vs| == |ws| && Closed(a) && Closed(b) && a <= b
    requires Reads(b, Chosen(held, picks), ts)
    requires forall k :: 0 <= k < |held| && k !in picks ==> ws[k] == vs[k] && ReadsAs(a, held[k], Some(vs[k]), None)
    requires forall i :: 0 <= i < |picks| && picks[i] < |held| ==> ts[i] == Some(ws[picks[i]])
    ensures Holding(b, held, ws)
  {
    forall k | 0 <= k < |held| ensures ReadsAs(b, held[k], Somes(ws)[k], None) {
      if k in picks {
        var i :| 0 <= i < |picks| && picks[i] == k;
        assert ReadsAs(b, Chosen(held, picks)[i], ts[i], None);
      } else {
        assert ReadsAs(a, held[k], Some(vs[k]), None);
        OwnGrows(a, b, held[k].own);
      }
    }
  }

  class Session {
    const store: Store
    /** The nodes the caller holds, and the parts it can name. */
    var held: seq<Node>
    var handles: seq<Part>
    /** Every part the caller can reach from anything it ever held. */
    ghost var reach: set<Part>

    /** Neither a node nor a part is both in the caller's reach and the store's. */
    ghost predicate Apart()
      reads this, held, store
    {
      && reach !! store.repr && (forall n :: n in held ==> n !in store.nodes.Values)
      && (forall p :: p in handles ==> p in reach)
    }

    /** What can be read now is `m`, and caller and store are apart. */
    ghost predicate At(m: Moment)
      reads this, held, reach, store, store.nodes.Values, store.repr
    {
      && Apart() && Files(store.repr, store.nodes, m.contents) && Indexed(store.h, m.contents)
      && Holding(reach, held, m.held)
    }

    constructor (h: Hash)
      ensures At(START) && store.h == h && fresh(store)
      ensures held == [] && reach == {} && store.nodes == map[] && store.repr == {}
    {
      store := new Store(h);
      held, handles, reach := [], [], {};
    }

    // ---------------------------------------------------- the caller's own moves

    method TakePart(shape: Shape, ghost m: Moment)
      requires At(m)
      modifies this
      ensures At(m) && held == old(held) && old(reach) <= reach && fresh(reach - old(reach))
    {
      var p := new Part(Formed(handles, shape));
      ghost var parts := reach + {p};
      assert Closed(parts);
      HoldingGrows(reach, parts, held, m.held);
      handles, reach := handles + [p], parts;
    }

    method GrabField(pick: nat, f: Field, ghost m: Moment)
      requires At(m)
      modifies this`handles
      ensures At(m)
    {
      if pick < |held| && f in held[pick].own {
        HoldingOne(reach, held, m.held, pick);
        handles := handles + [held[pick].own[f]];
      }
    }

    /** Follows some reference of a part the caller can name. */
    method FollowPart(i: nat, ghost m: Moment)
      requires At(m)
      modifies this`handles
      ensures At(m)
    {
      if i < |handles| && Refs(handles[i].body) != {} {
        var p :| p in Refs(handles[i].body);
        assert handles[i] in handles;
        handles := handles + [p];
      }
    }

    method TakeNode(s: Scalars, refs: map<Field, nat>, ghost m: Moment) returns (ghost m': Moment)
      requires At(m)
      modifies this
      ensures At(m') && reach == old(reach) && m'.contents == m.contents
      ensures |held| == |old(held)| + 1 && held[..|old(held)|] == old(held) && fresh(held[|old(held)|])
      ensures |m'.held| == |m.held| + 1 && m.held <= m'.held && MadeOf(m'.held[|m.held|], s, refs)
    {
      var n := new Node(s, Referring(handles, refs));
      assert n.own.Values <= reach;
      ghost var v := NodeValue(reach, n);
      assert Reads(reach, [n], Somes([v])) by {
        assert ReadsAs(reach, n, Some(v), None);
      }
      HoldingMore(reach, held, m.held, [n], [v]);
      held := held + [n];
      m' := m.(held := m.held + [v]);
    }

    method ChangeNode(pick: nat, s: Scalars, refs: map<Field, nat>, ghost m: Moment) returns (ghost m': Moment)
      requires At(m)
      modifies held
      ensures At(m') && m'.contents == m.contents && |m'.held| == |m.held|
      ensures forall k :: 0 <= k < |m.held| && k != pick ==> m'.held[k] == m.held[k]
      ensures pick < |m.held| ==> MadeOf(m'.held[pick], s, refs)
    {
      m' := m;
      if pick < |held| {
        var n := held[pick];
        n.s, n.own := s, Referring(handles, refs);
        ghost var v := NodeValue(reach, n);
        m' := m.(held := m.held[pick := v]);
        forall k | 0 <= k < |held| ensures ReadsAs(reach, held[k], Somes(m'.held)[k], None) {
          assert k != pick ==> ReadsAs(reach, held[k], Somes(m.held)[k], None);
        }
      }
    }

    /** Rewrites a part, which any number of the caller's nodes may share. */
    method ChangePart(i: nat, shape: Shape, ghost m: Moment) returns (ghost m': Moment)
      requires At(m)
      modifies handles
      ensures At(m') && m'.contents == m.contents && |m'.held| == |m.held|
      ensures forall k :: 0 <= k < |m.held| ==> m'.held[k].s == m.held[k].s
    {
      m' := m;
      if i < |handles| {
        assert handles[i] in handles;
        ReadsOwned(reach, held, Somes(m.held));
        handles[i].body := Formed(handles, shape);
        ghost var vs := ValuesOf(reach, held);
        m' := m.(held := vs);
        forall k | 0 <= k < |held| ensures vs[k].s == m.held[k].s {
          HoldingOne(reach, held, vs, k);
        }
      }
    }

    // ------------------------------------------------------ calls that read

    /** The caller comes to hold nodes made of parts nobody had. */
    method Receive(out: seq<Node>, ghost parts: set<Part>, ghost vs: seq<NodeV>, ghost m: Moment)
      requires At(m) && Reads(parts, out, Somes(vs)) && Distinct(held + out)
      requires parts !! store.repr && forall n :: n in out ==> n !in store.nodes.Values
      modifies this
      ensures held == old(held) + out && reach == old(reach) + parts && At(m.(held := m.held + vs))
    {
      ClosedUnion(reach, parts);
      HoldingGrows(reach, reach + parts, held, m.held);
      BatchGrows(parts, reach + parts, out, Somes(vs));
      HoldingMore(reach + parts, held, m.held, out, vs);
      reach := reach + parts;
      held := held + out;
    }

    method Get(id: string, ghost m: Moment) returns (ghost m': Moment)
      requires At(m)
      modifies this
      ensures At(m') && m' == m.(held := m.held + (if id in m.contents then [m.contents[id]] else []))
      ensures (forall n :: n in held ==> n in old(held) || fresh(n)) && fresh(reach - old(reach))
    {
      var n, parts := store.GetNode(id);
      m' := m;
      if n != null {
        ghost var v := m.contents[id];
        assert ReadsAs(parts, n, Some(v), None);
        Receive([n], parts, [v], m);
        m' := m.(held := m.held + [v]);
      }
    }

    method List(f: Publish.NodeFilter, view: NodeV -> Publish.Node, ghost m: Moment) returns (ghost m': Moment)
      requires At(m) && forall v: NodeV :: view(v).id == v.s.id
      modifies this
      ensures At(m') && m'.contents == m.contents && m.held <= m'.held
      ensures IsListing(f, view, m.contents, m'.held[|m.held|..])
      ensures (forall n :: n in held ==> n in old(held) || fresh(n)) && fresh(reach - old(reach))
    {
      var out, parts, vs, order := store.ListNodes(f, view);
      assert Enumerates(order, m.contents);
      Receive(out, parts, vs, m);
      m' := m.(held := m.held + vs);
      assert m'.held[|m.held|..] == vs;
    }

    // ----------------------------------------------------- calls that store

    method Shrink(opt: PruneOptions, ghost m: Moment) returns (ghost m': Moment)
      requires At(m)
      modifies store
      ensures At(m') && Survivors(opt, m.contents, m'.contents) && m'.held == m.held
      ensures store.nodes.Values <= old(store.nodes.Values) && store.repr == old(store.repr)
    {
      var _ := store.Prune(opt);
      m' := m.(contents := store.Contents());
    }

    /** The nodes that are not picked read as they did. */
    ghost predicate OthersRead(m: Moment, picks: seq<nat>)
      reads this, held, reach
    {
      && Distinct(held) && Closed(reach) && |held| == |m.held|
      && forall k :: 0 <= k < |held| && k !in picks ==> ReadsAs(reach, held[k], Some(m.held[k]), None)
    }

    lemma OthersStay(m: Moment, picks: seq<nat>)
      requires At(m)
      ensures OthersRead(m, picks)
    {
      forall k | 0 <= k < |held| ensures ReadsAs(reach, held[k], Some(m.held[k]), None) {
        assert ReadsAs(reach, held[k], Somes(m.held)[k], None);
      }
    }

    /** Hands the picked nodes to the store. */
    method HandOver(picks: seq<nat>, at: int, ghost m: Moment)
      requires At(m)
      modifies held, store
      ensures OthersRead(m, picks)
      ensures var vs := Picked(m.held, picks);
              && Files(store.repr, store.nodes, Replaced(store.h, m.contents, vs, at))
              && Reads(reach + old(store.repr), Chosen(held, picks), ImportedAll(store.h, m.contents, vs, at))
      ensures fresh(store.repr) && fresh(store.nodes.Values)
    {
      var batch := Chosen(held, picks);
      ChosenReads(reach, held, m.held, picks);
      OthersStay(m, picks);
      store.ReplaceNodes(batch, at, reach, Picked(m.held, picks));
      forall k | 0 <= k < |held| && k !in picks ensures ReadsAs(reach, held[k], Some(m.held[k]), None) {
        NotChosen(held, picks, k);
      }
    }

    /** The caller's nodes end up sharing parts of nodes the store has let go of, and only of those. */
    method Submit(picks: seq<nat>, at: int, ghost m: Moment) returns (ghost m': Moment)
      requires At(m)
      modifies this`reach, held, store
      ensures At(m') && m' == Submitted(store.h, m, picks, at)
      ensures reach == old(reach) + old(store.repr) && fresh(store.repr) && fresh(store.nodes.Values)
    {
      m' := Submitted(store.h, m, picks, at);
      ghost var vs, all := Picked(m.held, picks), reach + store.repr;
      HandOver(picks, at, m);
      ReplacedIndexed(store.h, m.contents, vs, at);
      Completed(reach, all, held, m.held, picks, ImportedAll(store.h, m.contents, vs, at), m'.held);
      reach := all;
    }

    /** Hands the picked nodes to the store as observations. */
    method Report(picks: seq<nat>, ghost m: Moment)
      requires At(m) && forall i :: 0 <= i < |picks| ==> picks[i] < |held|
      modifies store, store.nodes.Values, held`s
      ensures OthersRead(m, picks)
      ensures var vs := Values(m.held, picks);
              && Files(store.repr, store.nodes, UpsertedAll(store.h, m.contents, vs))
              && Reads(reach, Chosen(held, picks), Somes(NamedAll(store.h, vs)))
      ensures fresh(store.repr - old(store.repr)) && fresh(store.nodes.Values - old(store.nodes.Values))
    {
      var batch := NodesAt(held, picks);
      ghost var vs := Values(m.held, picks);
      ChosenReads(reach, held, m.held, picks);
      AllChosen(held, m.held, picks);
      OthersStay(m, picks);
      store.UpsertNodes(batch, reach, vs);
      forall k | 0 <= k < |held| && k !in picks ensures ReadsAs(reach, held[k], Some(m.held[k]), None) {
        NotChosen(held, picks, k);
      }
    }

    method Observe(picks: seq<nat>, ghost m: Moment) returns (ghost m': Moment)
      requires At(m)
      modifies store, store.nodes.Values, held
      ensures At(m') && m' == Upserting(store.h, m, picks)
      ensures fresh(store.repr - old(store.repr)) && fresh(store.nodes.Values - old(store.nodes.Values))
    {
      m' := Upserting(store.h, m, picks);
      var ps := InRange(|held|, picks);
      ghost var vs := Values(m.held, ps);
      Report(ps, m);
      UpsertsIndexed(store.h, m.contents, vs);
      Completed(reach, reach, held, m.held, ps, Somes(NamedAll(store.h, vs)), m'.held);
    }

    // ------------------------------------------------------------- any move

    /** Whatever is reachable was reachable before, or is new. */
    twostate predicate Grows()
      reads this, store
    {
      && (forall n :: n in held ==> n in old(held) || fresh(n))
      && (forall n :: n in store.nodes.Values ==> n in old(store.nodes.Values) || fresh(n))
      && (forall p :: p in reach ==> p in old(reach) || p in old(store.repr) || fresh(p))
      && (forall p :: p in store.repr ==> p in old(reach) || p in old(store.repr) || fresh(p))
    }

    method Read(call: Call, view: NodeV -> Publish.Node, ghost m: Moment) returns (ghost m': Moment)
      requires At(m) && (call.Obtain? || call.Browse?) && forall v: NodeV :: view(v).id == v.s.id
      modifies this
      ensures At(m') && Explains(store.h, view, call, m, m') && Grows()
    {
      match call {
        case Obtain(id) => m' := Get(id, m);
        case Browse(f) => m' := List(f, view, m);
      }
    }

    method Write(call: Call, view: NodeV -> Publish.Node, ghost m: Moment) returns (ghost m': Moment)
      requires At(m) && Stores(call)
      modifies this, held, store, store.nodes.Values
      ensures At(m') && Explains(store.h, view, call, m, m') && Grows()
    {
      match call {
        case Submit(picks, at) => m' := Submit(picks, at, m);
        case Observe(picks) => m' := Observe(picks, m);
        case Shrink(opt) => m' := Shrink(opt, m);
      }
    }

    method Own(call: Call, view: NodeV -> Publish.Node, ghost m: Moment) returns (ghost m': Moment)
      requires At(m) && !Stores(call) && !call.Obtain? && !call.Browse?
      modifies this, held, handles
      ensures At(m') && Explains(store.h, view, call, m, m') && Grows()
    {
      m' := m;
      match call {
        case Grab(pick, field) => GrabField(pick, field, m);
        case Follow(i) => FollowPart(i, m);
        case MakePart(shape) => TakePart(shape, m);
        case MakeNode(s, refs) => m' := TakeNode(s, refs, m);
        case RewriteNode(pick, s, refs) => m' := ChangeNode(pick, s, refs, m);
        case RewritePart(i, shape) => m' := ChangePart(i, shape, m);
      }
    }

    /** Every move keeps caller and store apart, and what can be read afterwards is what the move means. */
    method Step(call: Call, view: NodeV -> Publish.Node, ghost m: Moment) returns (ghost m': Moment)
      requires At(m) && forall v: NodeV :: view(v).id == v.s.id
      modifies this, held, reach, store, store.nodes.Values
      ensures At(m') && Explains(store.h, view, call, m, m') && Grows()
    {
      if Stores(call) {
        m' := Write(call, view, m);
      } else if call.Obtain? || call.Browse? {
        m' := Read(call, view, m);
      } else {
        m' := Own(call, view, m);
      }
    }

    /** One move of a script, and the trace it lengthens. */
    method Advance(script: seq<Call>, i: nat, view: NodeV -> Publish.Node, ghost trace: seq<Moment>)
      returns (ghost trace': seq<Moment>)
      requires i < |script| && IsTrace(store.h, view, script[..i], trace) && At(trace[i])
      requires forall v: NodeV :: view(v).id == v.s.id
      modifies this, held, reach, store, store.nodes.Values
      ensures IsTrace(store.h, view, script[..i + 1], trace') && At(trace'[i + 1]) && Grows()
    {
      ghost var next := Step(script[i], view, trace[i]);
      TraceSnoc(store.h, view, script, i, trace, next);
      trace' := trace + [next];
    }

    /** Any script, from any moment without a past. */
    method Play(script: seq<Call>, view: NodeV -> Publish.Node) returns (ghost trace: seq<Moment>)
      requires At(START) && forall v: NodeV :: view(v).id == v.s.id
      modifies this, held, reach, store, store.nodes.Values, store.repr
      ensures IsTrace(store.h, view, script, trace) && At(trace[|script|])
    {
      trace := [START];
      for i := 0 to |script|
        invariant IsTrace(store.h, view, script[..i], trace) && At(trace[i]) && Grows()
      {
        assert fresh((set n | n in held) - (set n | n in old(held)));
        trace := Advance(script, i, view, trace);
      }
      assert script[..|script|] == script;
    }
  }

  /**
   Any script from a new store: at every moment caller and store are apart, and the moments form a trace.
   So the contents change at storing calls only, and then to what the contents before and the picked
   nodes, as they read at that moment, determine.
   */
  method Run(h: Hash, script: seq<Call>, view: NodeV -> Publish.Node) returns (s: Session, ghost trace: seq<Moment>)
    requires forall v: NodeV :: view(v).id == v.s.id
    ensures fresh(s) && s.store.h == h && IsTrace(h, view, script, trace) && s.At(trace[|script|])
  {
    s := new Session(h);
    trace := s.Play(script, view);
  }
}
