/**
 Nodes as the store keeps them.  A node refers to slices, maps and nested results that
 Go shares by reference, so each of these is an object of its own here: what a clone
 copies, and what a stored node and a caller's node share, is explicit.
 */
module NodeParts {

  import opened Wrappers

  /** The plain fields of a dial result. */
  datatype DialInfo = DialInfo(ok: bool, engine: string, testedAt: int)

  /** What one shared object holds: a slice's elements, a map, or a nested result. */
  datatype Body =
    | Strings(list: seq<string>)
    | Options(entries: map<string, string>)
    | Weights(weights: map<string, real>)
    | Probe(ok: bool, latencyMs: int)
    | Probes(results: map<string, Part?>)
    | Rating(score: real, avgLatencyMs: int, notes: Part?, breakdown: Part?)
    | DialRun(info: DialInfo, checks: Part?)
    | Checks(items: seq<Part?>)
    | ExitReport(cleanScore: int, remarks: Part?)

  class Part {
    var body: Body

    constructor (body: Body)
      ensures this.body == body
    {
      this.body := body;
    }
  }

  /** The fields of a node that are references. */
  datatype Field = Sources | Tags | Extra | Quality | Ai | Dial | Purity

  /** A node's references; a field that is nil is absent. */
  type Own = map<Field, Part>

  /** What a quality test writes; times are 0 when unset. */
  datatype Tested = Tested(
    alive: bool, latency: int, error: string, testedAt: int, score: real, grade: string,
    qualityFailures: int, successStreak: int, nextTestAt: int)

  datatype Geo = Geo(country: string, city: string, isp: string, asn: string, entryType: string)

  /** A node's plain fields; `conn` stands for its connection fields. */
  datatype Scalars = Scalars(
    id: string, conn: string, name: string, rawUri: string, fingerprint: string,
    test: Tested, geo: Geo, verified: bool, firstSeenAt: int, lastSeenAt: int)

  class Node {
    var s: Scalars
    var own: Own

    constructor (s: Scalars, own: Own)
      ensures this.s == s && this.own == own
    {
      this.s, this.own := s, own;
    }
  }

  // ----------------------------------------------------------- ownership

  function Opt(p: Part?): set<Part> {
    if p == null then {} else {p}
  }

  function Refs(b: Body): set<Part> {
    match b
    case Probes(results) => set k | k in results && results[k] != null :: results[k]
    case Rating(_, _, notes, breakdown) => Opt(notes) + Opt(breakdown)
    case DialRun(_, checks) => Opt(checks)
    case Checks(items) => set p | p in items && p != null
    case ExitReport(_, remarks) => Opt(remarks)
    case _ => {}
  }

  /** No reference leaves `parts`: whoever can reach only `parts` never gets further. */
  ghost predicate Closed(parts: set<Part>)
    reads parts
  {
    forall p :: p in parts ==> Refs(p.body) <= parts
  }

  ghost predicate Owns(parts: set<Part>, own: Own)
    reads parts
  {
    Closed(parts) && own.Values <= parts
  }

  lemma ClosedUnion(a: set<Part>, b: set<Part>)
    requires Closed(a) && Closed(b)
    ensures Closed(a + b)
  {
  }

  // -------------------------------------------------------------- values

  datatype ProbeV = ProbeV(ok: bool, latencyMs: int)

  /** What a reader sees of one part of a node. */
  datatype PartV =
    | ListV(list: seq<string>)
    | OptionsV(entries: map<string, string>)
    | ProbesV(results: map<string, ProbeV>)
    | RatingV(score: real, avgLatencyMs: int, notes: seq<string>, breakdown: Option<map<string, real>>)
    | DialV(info: DialInfo, checks: seq<DialInfo>)
    | ExitV(cleanScore: int, remarks: seq<string>)
    | InnerV

  type OwnV = map<Field, PartV>

  datatype NodeV = NodeV(s: Scalars, own: OwnV)

  function StringsV(p: Part?): seq<string>
    reads p
  {
    if p != null && p.body.Strings? then p.body.list else []
  }

  function WeightsV(p: Part?): Option<map<string, real>>
    reads p
  {
    if p == null then None else if p.body.Weights? then Some(p.body.weights) else Some(map[])
  }

  function ProbeOf(p: Part): ProbeV
    reads p
  {
    if p.body.Probe? then ProbeV(p.body.ok, p.body.latencyMs) else ProbeV(false, 0)
  }

  function InfoOf(p: Part): DialInfo
    reads p
  {
    if p.body.DialRun? then p.body.info else DialInfo(false, "", 0)
  }

  function Items(p: Part?): seq<Part?>
    reads p
  {
    if p != null && p.body.Checks? then p.body.items else []
  }

  /** Missing checks do not count, nor do the checks of a check. */
  function ChecksV(items: seq<Part?>): seq<DialInfo>
    reads items
  {
    if items == [] then []
    else
      var i := |items| - 1;
      ChecksV(items[..i]) + (if items[i] == null then [] else [InfoOf(items[i])])
  }

  /** Missing probe results do not count. */
  function PartValue(ghost parts: set<Part>, p: Part): PartV
    requires Closed(parts) && p in parts
    reads parts
  {
    match p.body
    case Strings(list) => ListV(list)
    case Options(entries) => OptionsV(entries)
    case Probes(results) => ProbesV(map k | k in results && results[k] != null :: ProbeOf(results[k]))
    case Rating(score, avg, notes, breakdown) => RatingV(score, avg, StringsV(notes), WeightsV(breakdown))
    case DialRun(info, checks) => DialV(info, ChecksV(Items(checks)))
    case ExitReport(clean, remarks) => ExitV(clean, StringsV(remarks))
    case _ => InnerV
  }

  /** An empty list reads like a missing one. */
  predicate Shows(f: Field, p: Part)
    reads p
  {
    (f == Sources || f == Tags) && p.body.Strings? ==> p.body.list != []
  }

  function OwnValue(ghost parts: set<Part>, own: Own): OwnV
    requires Owns(parts, own)
    reads parts
  {
    map f | f in own && Shows(f, own[f]) :: PartValue(parts, own[f])
  }

  /** How a part reads does not depend on how much else is in reach. */
  lemma PartGrows(a: set<Part>, b: set<Part>, p: Part)
    requires Closed(a) && Closed(b) && p in a && a <= b
    ensures PartValue(a, p) == PartValue(b, p)
  {
  }

  lemma OwnGrows(a: set<Part>, b: set<Part>, own: Own)
    requires Owns(a, own) && Closed(b) && a <= b
    ensures Owns(b, own) && OwnValue(a, own) == OwnValue(b, own)
  {
    forall f | f in own ensures PartValue(a, own[f]) == PartValue(b, own[f]) {
      PartGrows(a, b, own[f]);
    }
  }

  function NodeValue(ghost parts: set<Part>, n: Node): NodeV
    requires Owns(parts, n.own)
    reads n, parts
  {
    NodeV(n.s, OwnValue(parts, n.own))
  }

  /** Parts that read the same agree on all their contents, nested ones included. */
  lemma ReadingTells(a: set<Part>, p: Part, b: set<Part>, q: Part)
    requires Closed(a) && p in a && Closed(b) && q in b && PartValue(a, p) == PartValue(b, q)
    ensures p.body.Strings? ==> q.body == p.body
    ensures p.body.Options? ==> q.body == p.body
    ensures p.body.Rating? ==>
              && q.body.Rating? && q.body.score == p.body.score && q.body.avgLatencyMs == p.body.avgLatencyMs
              && StringsV(q.body.notes) == StringsV(p.body.notes)
              && (q.body.breakdown == null <==> p.body.breakdown == null)
              && WeightsV(q.body.breakdown) == WeightsV(p.body.breakdown)
    ensures p.body.DialRun? ==>
              && q.body.DialRun? && q.body.info.ok == p.body.info.ok && q.body.info.engine == p.body.info.engine
              && q.body.info.testedAt == p.body.info.testedAt
              && ChecksV(Items(q.body.checks)) == ChecksV(Items(p.body.checks))
    ensures p.body.ExitReport? ==>
              && q.body.ExitReport? && q.body.cleanScore == p.body.cleanScore
              && StringsV(q.body.remarks) == StringsV(p.body.remarks)
  {
  }

  /** And probe results agree name by name. */
  lemma ProbesTell(a: set<Part>, p: Part, b: set<Part>, q: Part, k: string)
    requires Closed(a) && p in a && Closed(b) && q in b && PartValue(a, p) == PartValue(b, q) && p.body.Probes?
    ensures q.body.Probes?
    ensures (k in p.body.results && p.body.results[k] != null) <==> (k in q.body.results && q.body.results[k] != null)
    ensures k in p.body.results && p.body.results[k] != null ==>
              ProbeOf(q.body.results[k]) == ProbeOf(p.body.results[k])
  {
    var x, y := PartValue(a, p).results, PartValue(b, q).results;
    assert k in x <==> k in y;
    if k in x {
      assert x[k] == ProbeOf(p.body.results[k]) && y[k] == ProbeOf(q.body.results[k]);
    }
  }

  /** Every part a node refers to is read, but for empty source and tag lists. */
  lemma FieldTells(parts: set<Part>, own: Own, f: Field)
    requires Owns(parts, own)
    ensures f in OwnValue(parts, own) ==> f in own && OwnValue(parts, own)[f] == PartValue(parts, own[f])
    ensures f in own && (f == Sources || f == Tags ==> StringsV(own[f]) != [] || !own[f].body.Strings?) ==>
              f in OwnValue(parts, own)
  {
  }

  // -------------------------------------------------------------- clones

  /** `append([]string(nil), x...)`: a new backing array, or nil for an empty list. */
  method CopyList(p: Part?) returns (c: Part?)
    ensures fresh(Opt(c)) && (c != null ==> Refs(c.body) == {})
    ensures StringsV(c) == StringsV(p)
  {
    c := null;
    if StringsV(p) != [] {
      c := new Part(Strings(StringsV(p)));
    }
  }

  method CopyWeights(p: Part?) returns (c: Part?)
    ensures fresh(Opt(c)) && (c != null ==> Refs(c.body) == {})
    ensures WeightsV(c) == WeightsV(p)
  {
    c := null;
    if p != null {
      c := new Part(Weights(WeightsV(p).value));
    }
  }

  /** A new map of new results; missing results are not carried over. */
  method CopyProbes(results: map<string, Part?>) returns (out: map<string, Part?>, ghost parts: set<Part>)
    ensures fresh(parts) && Closed(parts) && Refs(Probes(out)) <= parts
    ensures forall k :: k in out <==> k in results && results[k] != null
    ensures forall k :: k in out ==> out[k] != null && ProbeOf(out[k]) == ProbeOf(results[k])
  {
    out, parts := map[], {};
    var todo := results.Keys;
    while todo != {}
      invariant todo <= results.Keys
      invariant forall k :: k in out <==> k in results && k !in todo && results[k] != null
      invariant fresh(parts) && forall x :: x in parts ==> Refs(x.body) == {}
      invariant forall k :: k in out ==> out[k] != null && out[k] in parts && ProbeOf(out[k]) == ProbeOf(results[k])
      decreases todo
    {
      var k :| k in todo;
      var result := results[k];
      if result != null {
        var copy := new Part(Probe(ProbeOf(result).ok, ProbeOf(result).latencyMs));
        out := out[k := copy];
        parts := parts + {copy};
      }
      todo := todo - {k};
    }
  }

  /** Checks out of `parts` without checks of their own, with this information. */
  ghost predicate Bare(checks: seq<Part>, infos: seq<DialInfo>, parts: set<Part>)
    reads checks, parts
  {
    && |checks| == |infos|
    && (forall k :: 0 <= k < |checks| ==> checks[k] in parts && checks[k].body == DialRun(infos[k], null))
    && (forall p :: p in parts ==> Refs(p.body) == {})
  }

  /** New checks in order; missing checks are skipped, and a copied check has no checks of its own. */
  method CopyChecks(items: seq<Part?>, ghost infos: seq<DialInfo>) returns (out: seq<Part>, ghost parts: set<Part>)
    requires infos == ChecksV(items)
    ensures fresh(parts) && Bare(out, infos, parts)
  {
    out, parts := [], {};
    ghost var seen := [];
    for i := 0 to |items|
      invariant seen == ChecksV(items[..i]) && fresh(parts) && Bare(out, seen, parts)
    {
      ChecksSnoc(items, i);
      if items[i] != null {
        out, parts := CopyOneMore(items[i], out, parts, seen);
        seen := seen + [InfoOf(items[i])];
      }
    }
    assert items[..|items|] == items;
  }

  method CopyOneMore(check: Part, out: seq<Part>, ghost parts: set<Part>, ghost seen: seq<DialInfo>)
    returns (out': seq<Part>, ghost parts': set<Part>)
    requires Bare(out, seen, parts)
    ensures fresh(parts' - parts) && Bare(out', seen + [InfoOf(check)], parts')
  {
    var item := new Part(DialRun(InfoOf(check), null));
    out', parts' := out + [item], parts + {item};
  }

  lemma ChecksSnoc(items: seq<Part?>, i: nat)
    requires i < |items|
    ensures ChecksV(items[..i + 1]) == ChecksV(items[..i]) + (if items[i] == null then [] else [InfoOf(items[i])])
  {
    assert items[..i + 1][..i] == items[..i];
  }

  lemma {:induction false} BareReads(checks: seq<Part>, infos: seq<DialInfo>, parts: set<Part>)
    requires Bare(checks, infos, parts)
    ensures ChecksV(checks) == infos
    decreases |checks|
  {
    if checks != [] {
      var i := |checks| - 1;
      BareReads(checks[..i], infos[..i], parts);
      assert infos == infos[..i] + [infos[i]];
      assert InfoOf(checks[i]) == infos[i];
    }
  }

  /** A list of bare checks reaches nothing but them. */
  lemma BareClosed(list: Part, checks: seq<Part>, infos: seq<DialInfo>, parts: set<Part>)
    requires list.body == Checks(checks) && Bare(checks, infos, parts)
    ensures Closed(parts + {list}) && ChecksV(list.body.items) == infos
  {
    BareReads(checks, infos, parts);
    forall p | p in Refs(list.body) ensures p in parts {
      var k :| 0 <= k < |checks| && checks[k] == p;
    }
  }

  method CopyCheckList(items: seq<Part?>, ghost infos: seq<DialInfo>) returns (list: Part, ghost parts: set<Part>)
    requires infos == ChecksV(items)
    ensures fresh(parts) && Closed(parts) && list in parts
    ensures list.body.Checks? && ChecksV(list.body.items) == infos
  {
    var out, checks := CopyChecks(items, infos);
    list := new Part(Checks(out));
    BareClosed(list, out, infos, checks);
    parts := checks + {list};
  }

  lemma DialReads(parts: set<Part>, list: Part, c: Part)
    requires Closed(parts) && list in parts && list.body.Checks? && c.body.DialRun? && c.body.checks == list
    ensures Closed(parts + {c}) && PartValue(parts + {c}, c) == DialV(c.body.info, ChecksV(list.body.items))
  {
  }

  method CopyRating(p: Part, ghost have: set<Part>) returns (c: Part, ghost parts: set<Part>)
    requires Closed(have) && p in have && p.body.Rating?
    ensures fresh(parts) && Closed(parts) && c in parts && PartValue(parts, c) == PartValue(have, p)
  {
    var notes := CopyList(p.body.notes);
    var breakdown := CopyWeights(p.body.breakdown);
    c := new Part(p.body.(notes := notes, breakdown := breakdown));
    parts := {c} + Opt(notes) + Opt(breakdown);
  }

  method CopyResults(p: Part, ghost have: set<Part>) returns (c: Part, ghost parts: set<Part>)
    requires Closed(have) && p in have && p.body.Probes?
    ensures fresh(parts) && Closed(parts) && c in parts && PartValue(parts, c) == PartValue(have, p)
  {
    var out, copies := CopyProbes(p.body.results);
    c := new Part(Probes(out));
    parts := copies + {c};
    SameProbes(parts, c, have, p);
  }

  lemma SameProbes(a: set<Part>, c: Part, b: set<Part>, p: Part)
    requires Closed(a) && c in a && c.body.Probes? && Closed(b) && p in b && p.body.Probes?
    requires forall k :: k in c.body.results <==> k in p.body.results && p.body.results[k] != null
    requires forall k :: k in c.body.results ==>
               c.body.results[k] != null && ProbeOf(c.body.results[k]) == ProbeOf(p.body.results[k])
    ensures PartValue(a, c) == PartValue(b, p)
  {
    var x, y := PartValue(a, c).results, PartValue(b, p).results;
    assert x.Keys == y.Keys;
    assert forall k :: k in x ==> x[k] == y[k];
  }

  method CopyDial(p: Part, ghost have: set<Part>) returns (c: Part, ghost parts: set<Part>)
    requires Closed(have) && p in have && p.body.DialRun?
    ensures fresh(parts) && Closed(parts) && c in parts && PartValue(parts, c) == PartValue(have, p)
  {
    var list, copies := CopyCheckList(Items(p.body.checks), PartValue(have, p).checks);
    c := new Part(p.body.(checks := list));
    DialReads(copies, list, c);
    parts := copies + {c};
  }

  method CopyExit(p: Part, ghost have: set<Part>) returns (c: Part, ghost parts: set<Part>)
    requires Closed(have) && p in have && p.body.ExitReport?
    ensures fresh(parts) && Closed(parts) && c in parts && PartValue(parts, c) == PartValue(have, p)
  {
    var remarks := CopyList(p.body.remarks);
    c := new Part(p.body.(remarks := remarks));
    parts := {c} + Opt(remarks);
  }

  /** Copies the object `p` and the objects it refers to, one by one: nothing new refers to anything old. */
  method CopyPart(p: Part, ghost have: set<Part>) returns (c: Part, ghost parts: set<Part>)
    requires Closed(have) && p in have
    ensures fresh(parts) && Closed(parts) && c in parts && PartValue(parts, c) == PartValue(have, p)
  {
    match p.body {
      case Strings(_) =>
        c := new Part(p.body);
        parts := {c};
      case Options(_) =>
        c := new Part(p.body);
        parts := {c};
      case Weights(_) =>
        c := new Part(p.body);
        parts := {c};
      case Probe(_, _) =>
        c := new Part(p.body);
        parts := {c};
      case Probes(_) =>
        c, parts := CopyResults(p, have);
      case Rating(_, _, _, _) =>
        c, parts := CopyRating(p, have);
      case DialRun(_, _) =>
        c, parts := CopyDial(p, have);
      case Checks(items) =>
        c, parts := CopyCheckList(items, ChecksV(items));
      case ExitReport(_, _) =>
        c, parts := CopyExit(p, have);
    }
  }

  /** The reference fields in the order the clone replaces them. */
  const FIELDS := [Sources, Tags, Extra, Quality, Ai, Dial, Purity]

  /** Where the clone gets to a field: it forgets none. */
  function Turn(f: Field): (i: nat)
    ensures i < |FIELDS| && FIELDS[i] == f
    ensures forall j :: 0 <= j < |FIELDS| && FIELDS[j] == f ==> j == i
  {
    match f
    case Sources => 0
    case Tags => 1
    case Extra => 2
    case Quality => 3
    case Ai => 4
    case Dial => 5
    case Purity => 6
  }

  /** A field of the clone is settled when it holds a copy that reads the same, or nothing to read. */
  ghost predicate Settled(f: Field, own: Own, have: set<Part>, c: Own, copies: set<Part>)
    requires Owns(have, own) && Closed(copies)
    reads have, copies
  {
    && (f in c <==> f in own && Shows(f, own[f]))
    && (f in c ==> c[f] in copies && Shows(f, c[f]) && PartValue(copies, c[f]) == PartValue(have, own[f]))
  }

  /** A field of the clone that still shares the original's part. */
  predicate Shared(f: Field, own: Own, c: Own) {
    (f in c <==> f in own) && (f in own ==> c[f] == own[f])
  }

  /** Halfway through a clone: the first fields are settled, and the others are still shared. */
  ghost predicate Halfway(own: Own, have: set<Part>, c: Own, copies: set<Part>, i: nat)
    reads have, copies
  {
    && Owns(have, own) && Closed(copies)
    && (forall f: Field :: Turn(f) < i ==> Settled(f, own, have, c, copies))
    && (forall f: Field :: Turn(f) >= i ==> Shared(f, own, c))
  }

  lemma SettledGrows(f: Field, own: Own, have: set<Part>, c: Own, c': Own, copies: set<Part>, copies': set<Part>)
    requires Owns(have, own) && Closed(copies) && Settled(f, own, have, c, copies) && Shared(f, c, c')
    requires Closed(copies') && copies <= copies'
    ensures Settled(f, own, have, c', copies')
  {
    if f in c {
      PartGrows(copies, copies', c[f]);
    }
  }

  /** Settling the next field leaves the others as they were. */
  lemma OneSettled(own: Own, have: set<Part>, c: Own, c': Own, copies: set<Part>, copies': set<Part>, i: nat)
    requires Halfway(own, have, c, copies, i) && i < |FIELDS| && Closed(copies') && copies <= copies'
    requires forall g: Field :: Turn(g) != i ==> Shared(g, c, c')
    requires Settled(FIELDS[i], own, have, c', copies')
    ensures Halfway(own, have, c', copies', i + 1)
  {
    forall g: Field | Turn(g) < i + 1 ensures Settled(g, own, have, c', copies') {
      if Turn(g) < i {
        SettledGrows(g, own, have, c, c', copies, copies');
      }
    }
    forall g: Field | Turn(g) >= i + 1 ensures Shared(g, own, c') {
      assert Shared(g, own, c) && Shared(g, c, c');
    }
  }

  /** A copy shows as much as its original. */
  lemma CopyShows(f: Field, have: set<Part>, p: Part, more: set<Part>, c: Part)
    requires Closed(have) && p in have && Closed(more) && c in more
    requires PartValue(more, c) == PartValue(have, p) && Shows(f, p)
    ensures Shows(f, c)
  {
    assert PartValue(more, c).ListV? == c.body.Strings?;
    assert PartValue(have, p).ListV? == p.body.Strings?;
  }

  /** Replaces one field: the copy of its part, or nil for a list with nothing in it. */
  method ReplaceField(i: nat, own: Own, ghost have: set<Part>, c: Own, ghost copies: set<Part>)
    returns (c': Own, ghost copies': set<Part>)
    requires i < |FIELDS| && Halfway(own, have, c, copies, i)
    ensures copies <= copies' && fresh(copies' - copies)
    ensures Halfway(own, have, c', copies', i + 1)
  {
    var f := FIELDS[i];
    assert Turn(f) == i && Shared(f, own, c);
    if f in c && Shows(f, c[f]) {
      var part, more := CopyPart(c[f], have);
      CopyShows(f, have, own[f], more, part);
      c', copies' := c[f := part], copies + more;
      ClosedUnion(copies, more);
      PartGrows(more, copies', part);
    } else {
      c', copies' := c - {f}, copies;
    }
    OneSettled(own, have, c, c', copies, copies', i);
  }

  /** When every field is settled the clone reads the same and refers to copies only. */
  lemma AllSettled(own: Own, have: set<Part>, c: Own, copies: set<Part>)
    requires Halfway(own, have, c, copies, |FIELDS|)
    ensures Owns(copies, c) && OwnValue(copies, c) == OwnValue(have, own) && c.Keys == OwnValue(have, own).Keys
  {
    forall p | p in c.Values ensures p in copies {
      var f :| f in c && c[f] == p;
      assert Turn(f) < |FIELDS| && Settled(f, own, have, c, copies);
    }
    var u, v := OwnValue(copies, c), OwnValue(have, own);
    forall f: Field ensures (f in u <==> f in v) && (f in v ==> f in u && u[f] == v[f]) && (f in c <==> f in v) {
      assert Turn(f) < |FIELDS| && Settled(f, own, have, c, copies);
    }
  }

  /** A copy that reads the same and shares no object with anything that existed. */
  method CloneNode(ghost parts: set<Part>, n: Node) returns (c: Node, ghost copies: set<Part>)
    requires Owns(parts, n.own)
    ensures fresh(c) && fresh(copies) && Owns(copies, c.own)
    ensures NodeValue(copies, c) == NodeValue(parts, n) && c.own.Keys == NodeValue(parts, n).own.Keys
  {
    c := new Node(n.s, n.own);
    copies := {};
    for i := 0 to |FIELDS|
      invariant fresh(c) && fresh(copies) && c.s == n.s && Halfway(n.own, parts, c.own, copies, i)
    {
      var own;
      own, copies := ReplaceField(i, n.own, parts, c.own, copies);
      c.own := own;
    }
    AllSettled(n.own, parts, c.own, copies);
  }

  // ------------------------------------------------- assigning references

  /** `a` with the fields `fs` assigned from `b`, nil ones included: the same on references and on values. */
  function Taken<T>(fs: set<Field>, a: map<Field, T>, b: map<Field, T>): map<Field, T> {
    (a - fs) + map f | f in b && f in fs :: b[f]
  }

  lemma TakenTwice<T>(fs: set<Field>, gs: set<Field>, a: map<Field, T>, b: map<Field, T>)
    ensures Taken(fs, Taken(gs, a, b), b) == Taken(gs + fs, a, b)
  {
  }

  /** Assigning references and then reading is reading and then assigning values. */
  lemma TakenReads(parts: set<Part>, fs: set<Field>, a: Own, b: Own)
    requires Owns(parts, a) && Owns(parts, b)
    ensures Owns(parts, Taken(fs, a, b))
    ensures OwnValue(parts, Taken(fs, a, b)) == Taken(fs, OwnValue(parts, a), OwnValue(parts, b))
  {
    var t := Taken(fs, a, b);
    assert t.Values <= a.Values + b.Values;
    TakenField(parts, fs, a, b, t, OwnValue(parts, a), OwnValue(parts, b));
  }

  lemma TakenField(parts: set<Part>, fs: set<Field>, a: Own, b: Own, t: Own, u: OwnV, v: OwnV)
    requires Owns(parts, a) && Owns(parts, b) && Owns(parts, t) && t == Taken(fs, a, b)
    requires u == OwnValue(parts, a) && v == OwnValue(parts, b)
    ensures OwnValue(parts, t) == Taken(fs, u, v)
  {
    forall f: Field ensures (f in OwnValue(parts, t) <==> f in Taken(fs, u, v))
      && (f in Taken(fs, u, v) ==> OwnValue(parts, t)[f] == Taken(fs, u, v)[f])
    {
      if f in fs {
        assert f in t <==> f in b;
      } else {
        assert f in t <==> f in a;
      }
    }
  }
}
