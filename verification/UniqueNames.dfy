/**
 The exporter's proxy names: every name handed out in one rendering is new.  A
 repeated name gets the first unused suffix " #2", " #3", ...; a memo remembers
 where the last search for each base name stopped.
 */
module UniqueNames {
  import opened Text
  import opened Wrappers

  const RESERVED := {"DIRECT", "REJECT", "REJECT-DROP", "PASS", "COMPATIBLE", "GLOBAL"}

  function CleanChar(c: char): char {
    if c == '"' then '\'' else if c == '\n' then ' ' else c
  }

  function Sanitize(name: string, idx: nat): string {
    var clean := seq(|name|, i requires 0 <= i < |name| => CleanChar(name[i]));
    if Blank(clean) then "node-" + Decimal(idx + 1) else clean
  }

  function Suffixed(base: string, k: nat): string {
    base + " #" + Decimal(k)
  }

  /** Quotes and line breaks are replaced; other names stay, and a blank one becomes its position. */
  lemma SanitizeMeans(name: string, idx: nat)
    ensures '"' !in Sanitize(name, idx) && '\n' !in Sanitize(name, idx)
    ensures '"' !in name && '\n' !in name && !Blank(name) ==> Sanitize(name, idx) == name
    ensures Blank(name) ==> "node-" <= Sanitize(name, idx) && Number(Sanitize(name, idx)[5..]) == idx + 1
    ensures !Blank(name) && '"' !in name ==>
              |Sanitize(name, idx)| == |name|
              && forall i :: 0 <= i < |name| ==> Sanitize(name, idx)[i] == if name[i] == '\n' then ' ' else name[i]
    ensures !Blank(name) ==> forall i :: 0 <= i < |name| && name[i] == '"' ==>
              |Sanitize(name, idx)| == |name| && Sanitize(name, idx)[i] == '\''
  {
    var clean := seq(|name|, i requires 0 <= i < |name| => CleanChar(name[i]));
    DecimalReadsBack(idx + 1);
    assert ("node-" + Decimal(idx + 1))[5..] == Decimal(idx + 1);
    CleanBlank(name);
    forall i | 0 <= i < |clean| ensures clean[i] != '"' && clean[i] != '\n' {
    }
    assert '"' !in Decimal(idx + 1) && '\n' !in Decimal(idx + 1);
    assert '"' !in "node-" && '\n' !in "node-";
    if '"' !in name && '\n' !in name {
      assert clean == name;
    }
  }

  lemma CleanBlank(name: string)
    ensures Blank(seq(|name|, i requires 0 <= i < |name| => CleanChar(name[i]))) <==> Blank(name)
  {
    var clean := seq(|name|, i requires 0 <= i < |name| => CleanChar(name[i]));
    forall i | 0 <= i < |name| ensures IsSpace(clean[i]) <==> IsSpace(name[i]) {
    }
    if Blank(clean) {
      forall c | c in name ensures IsSpace(c) {
        var i :| 0 <= i < |name| && name[i] == c;
        assert clean[i] in clean;
      }
    }
    if Blank(name) {
      forall c | c in clean ensures IsSpace(c) {
        var i :| 0 <= i < |name| && clean[i] == c;
        assert name[i] in name;
      }
    }
  }

  /** A suffixed name is the base, " #" and the number. */
  lemma SuffixedMeans(base: string, k: nat)
    ensures base + " #" <= Suffixed(base, k) && Number(Suffixed(base, k)[|base| + 2..]) == k
  {
    DecimalReadsBack(k);
    assert Suffixed(base, k)[|base| + 2..] == Decimal(k);
  }

  lemma SuffixedInjective(base: string, j: nat, k: nat)
    requires Suffixed(base, j) == Suffixed(base, k)
    ensures j == k
  {
    var p := |base + " #"|;
    assert Suffixed(base, j)[p..] == Decimal(j) && Suffixed(base, k)[p..] == Decimal(k);
    DecimalInjective(j, k);
  }

  // ------------------------------------------------ the naive search

  /** The used names a search starting at suffix `k` could still meet: finitely many. */
  ghost function Ahead(used: set<string>, base: string, k: nat): set<string> {
    set name | name in used && exists j: nat :: j >= k && name == Suffixed(base, j)
  }

  lemma AheadShrinks(used: set<string>, base: string, k: nat)
    requires Suffixed(base, k) in used
    ensures Ahead(used, base, k + 1) < Ahead(used, base, k)
  {
    var name := Suffixed(base, k);
    assert name in Ahead(used, base, k);
    if name in Ahead(used, base, k + 1) {
      var j: nat :| j >= k + 1 && name == Suffixed(base, j);
      SuffixedInjective(base, j, k);
    }
  }

  /** The least unused suffix from `k` on. */
  ghost function FreeSuffix(used: set<string>, base: string, k: nat): (free: nat)
    ensures free >= k && Suffixed(base, free) !in used
    ensures forall j :: k <= j < free ==> Suffixed(base, j) in used
    decreases Ahead(used, base, k)
  {
    if Suffixed(base, k) !in used then k
    else
      AheadShrinks(used, base, k);
      FreeSuffix(used, base, k + 1)
  }

  /** What a rendering should hand out: the base if free, else its first free suffix from 2. */
  ghost function Unique(used: set<string>, base: string): (name: string)
    ensures name !in used
  {
    if base !in used then base else Suffixed(base, FreeSuffix(used, base, 2))
  }

  lemma FreeSuffixIsLeast(used: set<string>, base: string, k: nat, free: nat)
    requires k <= free && Suffixed(base, free) !in used
    requires forall j :: k <= j < free ==> Suffixed(base, j) in used
    ensures FreeSuffix(used, base, k) == free
  {
    assert FreeSuffix(used, base, k) < free ==> Suffixed(base, FreeSuffix(used, base, k)) in used;
  }

  // -------------------------------------------------- the memoised search

  class Names {
    var used: set<string>
    var next: map<string, nat>

    /** Every suffix before a remembered start is taken. */
    ghost predicate Valid()
      reads this
    {
      forall base, j :: base in next && 2 <= j < next[base] ==> Suffixed(base, j) in used
    }

    constructor ()
      ensures Valid() && used == RESERVED && next == map[]
    {
      used := RESERVED;
      next := map[];
    }

    /** The memo never changes the answer: the claimed name is the naive search's. */
    method Claim(name: string, idx: nat) returns (candidate: string)
      requires Valid()
      modifies this
      ensures Valid()
      ensures candidate == Unique(old(used), Sanitize(name, idx))
      ensures used == old(used) + {candidate}
    {
      var base := Sanitize(name, idx);
      candidate := base;
      if candidate in used {
        var suffix: nat := if base in next && next[base] > 2 then next[base] else 2;
        candidate := Suffixed(base, suffix);
        suffix := suffix + 1;
        while candidate in used
          invariant used == old(used) && next == old(next)
          invariant suffix >= 3 && candidate == Suffixed(base, suffix - 1)
          invariant forall j :: 2 <= j < suffix - 1 ==> Suffixed(base, j) in used
          decreases Ahead(used, base, suffix - 1)
        {
          AheadShrinks(used, base, suffix - 1);
          candidate := Suffixed(base, suffix);
          suffix := suffix + 1;
        }
        FreeSuffixIsLeast(used, base, 2, suffix - 1);
        next := next[base := suffix];
      }
      used := used + {candidate};
    }
  }

  // --------------------------------------------- naming a whole rendering

  /** The used names after one position; a `None` position claims nothing. */
  ghost function Use(used: set<string>, base: Option<string>): set<string> {
    if base.None? then used else used + {Unique(used, base.value)}
  }

  /** The names a rendering claims, position by position. */
  ghost function ClaimAll(used: set<string>, bases: seq<Option<string>>): (names: seq<Option<string>>)
    ensures |names| == |bases|
    ensures forall i :: 0 <= i < |bases| ==> names[i].Some? == bases[i].Some?
    decreases |bases|
  {
    if bases == [] then []
    else
      [if bases[0].None? then None else Some(Unique(used, bases[0].value))]
      + ClaimAll(Use(used, bases[0]), bases[1..])
  }

  ghost function UseAll(used: set<string>, bases: seq<Option<string>>): set<string>
    decreases |bases|
  {
    if bases == [] then used else UseAll(Use(used, bases[0]), bases[1..])
  }

  /** Claimed names are new, pairwise distinct, and recorded as used. */
  lemma {:induction false} ClaimsDistinct(used: set<string>, bases: seq<Option<string>>, i: nat, j: nat)
    requires i < |bases| && bases[i].Some?
    ensures ClaimAll(used, bases)[i].value !in used
    ensures ClaimAll(used, bases)[i].value in UseAll(used, bases)
    ensures i < j < |bases| && bases[j].Some? ==> ClaimAll(used, bases)[i] != ClaimAll(used, bases)[j]
    decreases |bases|
  {
    var used' := Use(used, bases[0]);
    UseAllGrows(used', bases[1..]);
    if i > 0 {
      ClaimsDistinct(used', bases[1..], i - 1, if j > i then j - 1 else 0);
    } else if i < j < |bases| && bases[j].Some? {
      ClaimsDistinct(used', bases[1..], j - 1, 0);
    }
  }

  lemma {:induction false} UseAllGrows(used: set<string>, bases: seq<Option<string>>)
    ensures used <= UseAll(used, bases)
    decreases |bases|
  {
    if bases != [] {
      UseAllGrows(Use(used, bases[0]), bases[1..]);
    }
  }

  /** Names depend only on what came before: a prefix of the input claims a prefix of the names. */
  lemma {:induction false} ClaimsAppend(used: set<string>, a: seq<Option<string>>, b: seq<Option<string>>)
    ensures ClaimAll(used, a + b) == ClaimAll(used, a) + ClaimAll(UseAll(used, a), b)
    decreases |a|
  {
    if a == [] {
      assert a + b == b;
    } else {
      assert (a + b)[1..] == a[1..] + b && (a + b)[0] == a[0];
      ClaimsAppend(Use(used, a[0]), a[1..], b);
    }
  }

  lemma {:induction false} UniqueNotBlank(used: set<string>, name: string, idx: nat)
    ensures !Blank(Unique(used, Sanitize(name, idx)))
  {
    var base := Sanitize(name, idx);
    var claimed := Unique(used, base);
    assert base <= claimed;
    var fallback := "node-" + Decimal(idx + 1);
    assert fallback[0] == 'n' && fallback[0] in fallback;
    assert !Blank(base);
    var i :| 0 <= i < |base| && !IsSpace(base[i]);
    assert claimed[i] == base[i];
  }

  // ------------------------------------------------------ Clash profiles

  /** A node as the Clash builder sees it: its display name, and whether it converts to a proxy. */
  datatype ClashNode = ClashNode(name: string, convertible: bool)

  datatype Profile = Profile(proxies: seq<string>, group: Option<string>, members: seq<string>)

  function Bases(nodes: seq<Option<ClashNode>>): seq<Option<string>> {
    seq(|nodes|, i requires 0 <= i < |nodes| =>
      if nodes[i].None? then None else Some(Sanitize(nodes[i].value.name, i)))
  }

  /** BuildClashProxy falls back to the node's own name when handed a blank one. */
  function ProxyName(node: ClashNode, name: string): string {
    if Blank(name) then node.name else name
  }

  /** The claimed names of the nodes that converted, in order. */
  function Converted(nodes: seq<Option<ClashNode>>, names: seq<Option<string>>): seq<string>
    requires |nodes| == |names|
    requires forall i :: 0 <= i < |nodes| ==> nodes[i].Some? == names[i].Some?
  {
    if nodes == [] then []
    else
      (if nodes[0].Some? && nodes[0].value.convertible then [names[0].value] else [])
      + Converted(nodes[1..], names[1..])
  }

  lemma {:induction false} ConvertedAppend(nodes: seq<Option<ClashNode>>, names: seq<Option<string>>, k: nat)
    requires |nodes| == |names| && k < |nodes|
    requires forall i :: 0 <= i < |nodes| ==> nodes[i].Some? == names[i].Some?
    ensures Converted(nodes[..k + 1], names[..k + 1]) ==
            Converted(nodes[..k], names[..k])
            + (if nodes[k].Some? && nodes[k].value.convertible then [names[k].value] else [])
    decreases k
  {
    if k > 0 {
      ConvertedAppend(nodes[1..], names[1..], k - 1);
      assert nodes[..k + 1][1..] == nodes[1..][..k] && names[..k + 1][1..] == names[1..][..k];
      assert nodes[..k][1..] == nodes[1..][..k - 1] && names[..k][1..] == names[1..][..k - 1];
    }
  }

  /** Each converted name comes from a position, and positions keep their order. */
  lemma {:induction false} ConvertedSource(nodes: seq<Option<ClashNode>>, names: seq<Option<string>>, p: nat, q: nat)
      returns (i: nat, j: nat)
    requires |nodes| == |names|
    requires forall i :: 0 <= i < |nodes| ==> nodes[i].Some? == names[i].Some?
    requires p < q < |Converted(nodes, names)| || p == q < |Converted(nodes, names)|
    ensures i < |nodes| && j < |nodes| && names[i].Some? && names[j].Some?
    ensures Converted(nodes, names)[p] == names[i].value && Converted(nodes, names)[q] == names[j].value
    ensures p < q ==> i < j
    ensures p == q ==> i == j
    decreases |nodes|
  {
    var here := nodes[0].Some? && nodes[0].value.convertible;
    var d := if here then 1 else 0;
    if p >= d {
      i, j := ConvertedSource(nodes[1..], names[1..], p - d, q - d);
      i, j := i + 1, j + 1;
    } else {
      i, j := 0, 0;
      if q > 0 {
        var a, b := ConvertedSource(nodes[1..], names[1..], q - 1, q - 1);
        j := b + 1;
      }
    }
  }

  /** What buildClash renders, in terms of the naive search. */
  ghost function ProfileOf(nodes: seq<Option<ClashNode>>): Profile {
    var claimed := ClaimAll(RESERVED, Bases(nodes));
    var names := Converted(nodes, claimed);
    if names == [] then Profile([], None, [])
    else Profile(names, Some(Unique(UseAll(RESERVED, Bases(nodes)), Sanitize("NodeHarvest", |nodes|))), names)
  }

  /** Proxy names are pairwise distinct and never reserved, the group name is neither a proxy's
      nor reserved, and the group lists the proxies in order: skipped nodes change none of it. */
  lemma ProfileWellNamed(nodes: seq<Option<ClashNode>>)
    ensures var p := ProfileOf(nodes);
            && (forall i, j :: 0 <= i < j < |p.proxies| ==> p.proxies[i] != p.proxies[j])
            && (forall i :: 0 <= i < |p.proxies| ==> p.proxies[i] !in RESERVED)
            && (forall i :: 0 <= i < |p.proxies| ==>
                  p.proxies[i] !in {"DIRECT", "REJECT", "REJECT-DROP", "PASS", "COMPATIBLE", "GLOBAL"})
            && p.members == p.proxies
            && (p.group.Some? <==> p.proxies != [])
            && (p.group.Some? ==> p.group.value !in p.proxies && p.group.value !in RESERVED)
  {
    var bases := Bases(nodes);
    var claimed := ClaimAll(RESERVED, bases);
    var p := ProfileOf(nodes);
    forall a, b | 0 <= a < b < |p.proxies| ensures p.proxies[a] != p.proxies[b] {
      var i, j := ConvertedSource(nodes, claimed, a, b);
      ClaimsDistinct(RESERVED, bases, i, j);
    }
    forall a | 0 <= a < |p.proxies|
      ensures p.proxies[a] !in RESERVED && p.proxies[a] in UseAll(RESERVED, bases)
    {
      var i, j := ConvertedSource(nodes, claimed, a, a);
      ClaimsDistinct(RESERVED, bases, i, i);
    }
    UseAllGrows(RESERVED, bases);
  }

  /** Where the claims from position `i` on stand after that position. */
  lemma ClaimsStep(used: set<string>, bases: seq<Option<string>>, claimed: seq<Option<string>>, i: nat)
    requires i < |bases| == |claimed| && claimed[i..] == ClaimAll(used, bases[i..])
    ensures claimed[i] == if bases[i].Some? then Some(Unique(used, bases[i].value)) else None
    ensures claimed[i + 1..] == ClaimAll(Use(used, bases[i]), bases[i + 1..])
    ensures UseAll(used, bases[i..]) == UseAll(Use(used, bases[i]), bases[i + 1..])
  {
    assert bases[i..][0] == bases[i] && bases[i..][1..] == bases[i + 1..];
    assert claimed[i..][0] == claimed[i] && claimed[i..][1..] == claimed[i + 1..];
  }

  method BuildClash(nodes: seq<Option<ClashNode>>) returns (profile: Profile)
    ensures profile == ProfileOf(nodes)
  {
    var names := new Names();
    var proxies: seq<string>, members: seq<string> := [], [];
    ghost var bases := Bases(nodes);
    ghost var claimed := ClaimAll(RESERVED, bases);
    for i := 0 to |nodes|
      invariant names.Valid() && fresh(names)
      invariant claimed[i..] == ClaimAll(names.used, bases[i..])
      invariant UseAll(RESERVED, bases) == UseAll(names.used, bases[i..])
      invariant proxies == Converted(nodes[..i], claimed[..i]) && members == proxies
    {
      ConvertedAppend(nodes, claimed, i);
      ClaimsStep(names.used, bases, claimed, i);
      if nodes[i].Some? {
        var n := nodes[i].value;
        UniqueNotBlank(names.used, n.name, i);
        var name := names.Claim(n.name, i);
        if n.convertible {
          proxies := proxies + [ProxyName(n, name)];
          members := members + [name];
        }
      }
    }
    assert nodes[..|nodes|] == nodes && claimed[..|nodes|] == claimed;
    var group := ClaimGroup(names, |members| > 0, |nodes|);
    profile := Profile(proxies, group, members);
  }

  /** The group's name, claimed only if there is anything to group. */
  method ClaimGroup(names: Names, any: bool, idx: nat) returns (group: Option<string>)
    requires names.Valid()
    modifies names
    ensures group == if any then Some(Unique(old(names.used), Sanitize("NodeHarvest", idx))) else None
  {
    group := None;
    if any {
      var name := names.Claim("NodeHarvest", idx);
      group := Some(name);
    }
  }

  // ------------------------------------------------------- raw renderings

  /** A node as the raw list sees it; an empty URI is skipped and claims no name. */
  datatype RawNode = RawNode(name: string, uri: string, protocol: string)

  function RawBases(nodes: seq<RawNode>): seq<Option<string>> {
    seq(|nodes|, i requires 0 <= i < |nodes| =>
      if nodes[i].uri == "" then None else Some(Sanitize(nodes[i].name, i)))
  }

  /** One line per named node; `rename` puts the claimed name into the URI. */
  function RawLines(nodes: seq<RawNode>, names: seq<Option<string>>, rename: (RawNode, string) -> string): string
    requires |nodes| == |names|
  {
    if nodes == [] then ""
    else
      (if names[0].Some? then rename(nodes[0], names[0].value) + "\n" else "")
      + RawLines(nodes[1..], names[1..], rename)
  }

  ghost function RawBody(nodes: seq<RawNode>, rename: (RawNode, string) -> string): string {
    RawLines(nodes, ClaimAll(RESERVED, RawBases(nodes)), rename)
  }

  lemma {:induction false} RawLinesAppend(a: seq<RawNode>, b: seq<RawNode>, x: seq<Option<string>>,
                                          y: seq<Option<string>>,
                                          rename: (RawNode, string) -> string)
    requires |a| == |x| && |b| == |y|
    ensures RawLines(a + b, x + y, rename) == RawLines(a, x, rename) + RawLines(b, y, rename)
    decreases |a|
  {
    if a == [] {
      assert a + b == b && x + y == y;
    } else {
      assert (a + b)[1..] == a[1..] + b && (x + y)[1..] == x[1..] + y;
      RawLinesAppend(a[1..], b, x[1..], y, rename);
    }
  }

  lemma Associative(a: string, b: string, c: string)
    ensures a + (b + c) == (a + b) + c
  {
  }

  method RenderRaw(nodes: seq<RawNode>, rename: (RawNode, string) -> string) returns (body: string)
    ensures body == RawBody(nodes, rename)
  {
    var names := new Names();
    body := "";
    ghost var bases := RawBases(nodes);
    ghost var claimed := ClaimAll(RESERVED, bases);
    for i := 0 to |nodes|
      invariant names.Valid() && fresh(names)
      invariant claimed[i..] == ClaimAll(names.used, bases[i..])
      invariant body + RawLines(nodes[i..], claimed[i..], rename) == RawBody(nodes, rename)
    {
      assert bases[i..][0] == bases[i] && bases[i..][1..] == bases[i + 1..];
      assert claimed[i..][0] == claimed[i] && claimed[i..][1..] == claimed[i + 1..];
      assert nodes[i..][0] == nodes[i] && nodes[i..][1..] == nodes[i + 1..];
      ghost var rest := RawLines(nodes[i + 1..], claimed[i + 1..], rename);
      if nodes[i].uri != "" {
        var name := names.Claim(nodes[i].name, i);
        var line := rename(nodes[i], name) + "\n";
        Associative(body, line, rest);
        body := body + line;
      } else {
        assert "" + rest == rest;
      }
    }
  }

  /** Rendering more nodes only appends: the body of a prefix of the nodes is a prefix of the body. */
  lemma RawBodyPrefix(a: seq<RawNode>, b: seq<RawNode>, rename: (RawNode, string) -> string)
    requires a <= b
    ensures RawBody(a, rename) <= RawBody(b, rename)
  {
    var rest := b[|a|..];
    var x, z := RawBases(a), RawBases(b)[|a|..];
    assert b == a + rest && RawBases(b) == x + z;
    ClaimsAppend(RESERVED, x, z);
    RawLinesAppend(a, rest, ClaimAll(RESERVED, x), ClaimAll(UseAll(RESERVED, x), z), rename);
  }

  // --------------------------------------------------------- in plain terms

  /** The name handed out is the base if it is free, and else the base with the least free number from 2. */
  lemma UniqueMeans(used: set<string>, base: string) returns (k: nat)
    ensures base !in used ==> Unique(used, base) == base
    ensures base in used ==> k >= 2 && Unique(used, base) == base + " #" + Decimal(k)
    ensures base in used ==> forall j :: 2 <= j < k ==> base + " #" + Decimal(j) in used
  {
    k := FreeSuffix(used, base, 2);
    forall j | 2 <= j < k && base in used ensures base + " #" + Decimal(j) in used {
      assert Suffixed(base, j) in used;
    }
  }

  function Convertible(nodes: seq<Option<ClashNode>>): nat {
    if nodes == [] then 0
    else (if nodes[0].Some? && nodes[0].value.convertible then 1 else 0) + Convertible(nodes[1..])
  }

  lemma {:induction false} ConvertedCount(nodes: seq<Option<ClashNode>>, names: seq<Option<string>>)
    requires |nodes| == |names|
    requires forall i :: 0 <= i < |nodes| ==> nodes[i].Some? == names[i].Some?
    ensures |Converted(nodes, names)| == Convertible(nodes)
    decreases |nodes|
  {
    if nodes != [] {
      ConvertedCount(nodes[1..], names[1..]);
    }
  }

  /** Every node that converts has a proxy. */
  lemma ProfileComplete(nodes: seq<Option<ClashNode>>)
    ensures |ProfileOf(nodes).proxies| == Convertible(nodes)
  {
    ConvertedCount(nodes, ClaimAll(RESERVED, Bases(nodes)));
  }

  /** A node that is alone keeps its name, unless that is reserved or blank. */
  lemma ProfileAlone(n: ClashNode)
    requires n.convertible && Sanitize(n.name, 0) !in RESERVED
    ensures ProfileOf([Some(n)]).proxies == [Sanitize(n.name, 0)]
  {
    var nodes := [Some(n)];
    var k := UniqueMeans(RESERVED, Sanitize(n.name, 0));
    var claimed := ClaimAll(RESERVED, Bases(nodes));
    assert Bases(nodes) == [Some(Sanitize(n.name, 0))];
    assert claimed[0] == Some(Sanitize(n.name, 0));
    assert nodes[1..] == [] && claimed[1..] == [];
    assert Converted(nodes[1..], claimed[1..]) == [];
  }

  /** The raw list has a line for each node with a URI, and nothing for one without. */
  lemma RawLine(n: RawNode, rename: (RawNode, string) -> string)
    ensures RawBody([n], rename) ==
            if n.uri == "" then "" else rename(n, Unique(RESERVED, Sanitize(n.name, 0))) + "\n"
  {
    var claimed := ClaimAll(RESERVED, RawBases([n]));
    assert [n][1..] == [] && claimed[1..] == [];
    assert RawLines([n][1..], claimed[1..], rename) == "";
  }
}
