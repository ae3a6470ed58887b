/**
 The canonical identity of a node: the string that is hashed into its key.  The
 hash itself is taken to be injective, so keys are compared by this string.
 */
module Identity {
  import opened Text
  import opened Sequences

  datatype Node = Node(
    protocol: string, server: string, port: int, uuid: string, password: string, cipher: string,
    network: string, tls: bool, sni: string, path: string, host: string, flow: string,
    security: string, alpn: string, extra: map<string, string>,
    name: string, rawUri: string, source: string, sources: seq<string>)

  const NUL := '\0'

  predicate NulFree(s: string) {
    NUL !in s
  }

  function IntText(n: int): string {
    if n < 0 then "-" + Decimal(-n) else Decimal(n)
  }

  // ------------------------------------------------------ extra options

  /** The entries that count: an empty value is as good as none. */
  function Filled(extra: map<string, string>): map<string, string> {
    map key | key in extra && extra[key] != "" :: extra[key]
  }

  /** The entries written out in the order of `keys`, each name and value closed by NUL. */
  function Entries(keys: seq<string>, extra: map<string, string>): string
    requires forall key :: key in keys ==> key in extra
  {
    if keys == [] then ""
    else keys[0] + [NUL] + (extra[keys[0]] + [NUL] + Entries(keys[1..], extra))
  }

  /** `keys` lists the filled entries once each, in text order. */
  ghost predicate ListsFilled(keys: seq<string>, extra: map<string, string>) {
    && Distinct(keys) && SortedBy(TextLess, keys)
    && (forall key :: key in keys ==> key in extra && extra[key] != "")
    && (forall key :: key in extra && extra[key] != "" ==> key in keys)
  }

  lemma TextLessWeak()
    ensures WeakOrder(TextLess)
  {
    forall a: string, b: string | TextLess(a, b) ensures !TextLess(b, a) {
      TextLessTotal(a, b);
    }
    forall a: string, b: string, c: string | TextLess(a, c) ensures TextLess(a, b) || TextLess(b, c) {
      TextLessTotal(a, b);
      TextLessTotal(b, c);
      if TextLess(c, b) {
        TextLessTransitive(a, c, b);
      }
    }
  }

  /** Collect the filled keys in whatever order the map yields them. */
  method FilledKeys(extra: map<string, string>) returns (found: seq<string>)
    ensures Distinct(found)
    ensures forall key :: key in found ==> key in extra && extra[key] != ""
    ensures forall key :: key in extra && extra[key] != "" ==> key in found
  {
    var todo := extra.Keys;
    found := [];
    while todo != {}
      invariant todo <= extra.Keys && Distinct(found)
      invariant forall key :: key in found ==> key in extra && extra[key] != "" && key !in todo
      invariant forall key :: key in extra && extra[key] != "" && key !in todo ==> key in found
      decreases todo
    {
      var key :| key in todo;
      if extra[key] != "" {
        found := found + [key];
      }
      todo := todo - {key};
    }
  }

  lemma SortingLists(found: seq<string>, extra: map<string, string>)
    requires Distinct(found)
    requires forall key :: key in found ==> key in extra && extra[key] != ""
    requires forall key :: key in extra && extra[key] != "" ==> key in found
    ensures ListsFilled(Sort(TextLess, found), extra)
  {
    var keys := Sort(TextLess, found);
    TextLessWeak();
    SortSorts(TextLess, found);
    DistinctPart(found, keys);
    forall key | key in keys ensures key in found {
      assert key in multiset(keys);
    }
    forall key | key in found ensures key in keys {
      assert key in multiset(found);
    }
  }

  method CanonicalExtra(extra: map<string, string>) returns (text: string, keys: seq<string>)
    ensures ListsFilled(keys, extra) && text == Entries(keys, extra)
  {
    var found := FilledKeys(extra);
    SortingLists(found, extra);
    keys := Sort(TextLess, found);
    text := "";
    for i := 0 to |keys|
      invariant text + Entries(keys[i..], extra) == Entries(keys, extra)
    {
      ghost var rest := Entries(keys[i + 1..], extra);
      assert keys[i..][0] == keys[i] && keys[i..][1..] == keys[i + 1..];
      Reassociate(text, keys[i], extra[keys[i]], rest);
      text := text + keys[i] + [NUL] + extra[keys[i]] + [NUL];
    }
  }

  lemma Reassociate(text: string, key: string, value: string, rest: string)
    ensures text + (key + [NUL] + (value + [NUL] + rest)) == (text + key + [NUL] + value + [NUL]) + rest
  {
  }

  // ------------------------------------------------ NUL-closed fields parse

  /** A NUL-free field followed by NUL can be read back. */
  lemma {:induction false} FieldReadsBack(a: string, b: string, x: string, y: string)
    requires NulFree(a) && NulFree(b)
    requires a + [NUL] + x == b + [NUL] + y
    ensures a == b && x == y
  {
    var s, t := a + [NUL] + x, b + [NUL] + y;
    assert s[|a|] == NUL && t[|b|] == NUL;
    assert s[..|a|] == a && t[..|b|] == b;
    assert s[|a| + 1..] == x && t[|b| + 1..] == y;
  }

  ghost predicate NulFreeMap(extra: map<string, string>) {
    forall key :: key in extra ==> NulFree(key) && NulFree(extra[key])
  }

  lemma {:induction false} EntriesReadBack(ks: seq<string>, ls: seq<string>, m: map<string, string>,
                                           n: map<string, string>)
    requires NulFreeMap(m) && NulFreeMap(n)
    requires (forall key :: key in ks ==> key in m) && (forall key :: key in ls ==> key in n)
    requires Entries(ks, m) == Entries(ls, n)
    ensures ks == ls && forall key :: key in ks ==> m[key] == n[key]
    decreases |ks|
  {
    if ks != [] && ls != [] {
      assert ks[0] in ks && ls[0] in ls;
      var x, y := m[ks[0]] + [NUL] + Entries(ks[1..], m), n[ls[0]] + [NUL] + Entries(ls[1..], n);
      FieldReadsBack(ks[0], ls[0], x, y);
      FieldReadsBack(m[ks[0]], n[ls[0]], Entries(ks[1..], m), Entries(ls[1..], n));
      EntriesReadBack(ks[1..], ls[1..], m, n);
      assert ks == [ks[0]] + ks[1..] && ls == [ls[0]] + ls[1..];
    }
  }

  /** Whatever order the maps were iterated in, equal filled entries are listed alike. */
  lemma KeysUnique(ks: seq<string>, ls: seq<string>, m: map<string, string>, n: map<string, string>)
    requires ListsFilled(ks, m) && ListsFilled(ls, n) && Filled(m) == Filled(n)
    ensures ks == ls
  {
    TextLessWeak();
    forall key: string ensures multiset(ks)[key] == multiset(ls)[key] {
      DistinctCount(ks, key);
      DistinctCount(ls, key);
      assert key in ks <==> key in Filled(m);
      assert key in ls <==> key in Filled(n);
    }
    assert multiset(ks) == multiset(ls);
    forall x, y | x in ks && y in ks && x != y ensures TextLess(x, y) || TextLess(y, x) {
      TextLessTotal(x, y);
    }
    SortedUnique(TextLess, ks, ls);
  }

  lemma {:induction false} EntriesAgree(keys: seq<string>, m: map<string, string>, n: map<string, string>)
    requires forall key :: key in keys ==> key in m && key in n && m[key] == n[key]
    ensures Entries(keys, m) == Entries(keys, n)
    decreases |keys|
  {
    if keys != [] {
      assert keys[0] in keys;
      EntriesAgree(keys[1..], m, n);
    }
  }

  lemma ExtraIdentity(ks: seq<string>, ls: seq<string>, m: map<string, string>, n: map<string, string>)
    requires NulFreeMap(m) && NulFreeMap(n)
    requires ListsFilled(ks, m) && ListsFilled(ls, n)
    ensures Entries(ks, m) == Entries(ls, n) <==> Filled(m) == Filled(n)
  {
    if Entries(ks, m) == Entries(ls, n) {
      EntriesReadBack(ks, ls, m, n);
      forall key ensures key in Filled(m) <==> key in Filled(n) {
        assert key in ks <==> key in ls;
      }
      forall key | key in Filled(m) ensures Filled(m)[key] == Filled(n)[key] {
        assert key in ks;
      }
      assert Filled(m) == Filled(n);
    }
    if Filled(m) == Filled(n) {
      KeysUnique(ks, ls, m, n);
      forall key | key in ks ensures key in m && key in n && m[key] == n[key] {
        assert key in Filled(m) && Filled(m)[key] == Filled(n)[key];
      }
      EntriesAgree(ks, m, n);
    }
  }

  // --------------------------------------------------- the canonical string

  /** The connection fields in key order, case-folded where the key ignores case. */
  function Fields(n: Node): seq<string> {
    [Lower(n.protocol), Lower(n.server), IntText(n.port), Lower(n.uuid), n.password, Lower(n.cipher),
     Lower(n.network), if n.tls then "true" else "false", Lower(n.sni), n.path, Lower(n.host),
     Lower(n.flow), Lower(n.security), n.alpn]
  }

  /** Fields each closed by NUL: joining with NUL closes all but the last, which is the extra text. */
  function Closed(fields: seq<string>): string {
    if fields == [] then "" else fields[0] + [NUL] + Closed(fields[1..])
  }

  /** The string Key hashes, given an order of the extra keys. */
  function Canonical(n: Node, keys: seq<string>): string
    requires forall key :: key in keys ==> key in n.extra
  {
    Closed(Fields(n)) + Entries(keys, n.extra)
  }

  /** `strings.Join(fields + [last], "\x00")` has this form. */
  function Join(parts: seq<string>): string
    requires parts != []
  {
    if |parts| == 1 then parts[0] else parts[0] + [NUL] + Join(parts[1..])
  }

  lemma {:induction false} JoinCloses(fields: seq<string>, last: string)
    ensures Join(fields + [last]) == Closed(fields) + last
    decreases |fields|
  {
    if fields != [] {
      JoinCloses(fields[1..], last);
      assert (fields + [last])[1..] == fields[1..] + [last];
      assert fields[0] + [NUL] + (Closed(fields[1..]) + last) == (fields[0] + [NUL] + Closed(fields[1..])) + last;
    }
  }

  /** Some order of a finite set. */
  ghost function AnyOrder(s: set<string>): (order: seq<string>)
    ensures Distinct(order)
    ensures forall x :: x in order ==> x in s
    ensures forall x :: x in s ==> x in order
  {
    if s == {} then []
    else
      var x :| x in s;
      [x] + AnyOrder(s - {x})
  }

  /** The string the key of a node hashes. */
  ghost function KeyText(n: Node): string {
    var keys := Sort(TextLess, AnyOrder(Filled(n.extra).Keys));
    SortingLists(AnyOrder(Filled(n.extra).Keys), n.extra);
    Canonical(n, keys)
  }

  method Key(n: Node) returns (text: string)
    ensures text == KeyText(n)
  {
    var extra, keys := CanonicalExtra(n.extra);
    text := Join(Fields(n) + [extra]);
    JoinCloses(Fields(n), extra);
    SortingLists(AnyOrder(Filled(n.extra).Keys), n.extra);
    KeysUnique(keys, Sort(TextLess, AnyOrder(Filled(n.extra).Keys)), n.extra, n.extra);
  }

  lemma {:induction false} ClosedReadsBack(a: seq<string>, b: seq<string>, x: string, y: string)
    requires |a| == |b|
    requires forall i :: 0 <= i < |a| ==> NulFree(a[i]) && NulFree(b[i])
    requires Closed(a) + x == Closed(b) + y
    ensures a == b && x == y
    decreases |a|
  {
    if a == [] {
      assert Closed(a) + x == x && Closed(b) + y == y;
    } else {
      var u, v := Closed(a[1..]) + x, Closed(b[1..]) + y;
      assert Closed(a) + x == a[0] + [NUL] + u;
      assert Closed(b) + y == b[0] + [NUL] + v;
      FieldReadsBack(a[0], b[0], u, v);
      ClosedReadsBack(a[1..], b[1..], x, y);
      assert a == [a[0]] + a[1..] && b == [b[0]] + b[1..];
    }
  }

  lemma LowerNulFree(s: string)
    requires NulFree(s)
    ensures NulFree(Lower(s))
  {
    forall i | 0 <= i < |s| ensures Lower(s)[i] != NUL {
      assert s[i] in s;
    }
  }

  lemma IntTextInjective(a: int, b: int)
    ensures IntText(a) == IntText(b) <==> a == b
  {
    if IntText(a) == IntText(b) {
      assert a < 0 ==> IntText(a)[0] == '-';
      assert b < 0 ==> IntText(b)[0] == '-';
      assert a >= 0 ==> IntText(a)[0] in Decimal(a);
      assert b >= 0 ==> IntText(b)[0] in Decimal(b);
      if a < 0 {
        assert IntText(a)[1..] == Decimal(-a) && IntText(b)[1..] == Decimal(-b);
        DecimalInjective(-a, -b);
      } else {
        DecimalInjective(a, b);
      }
    }
  }

  ghost predicate NulFreeNode(n: Node) {
    && NulFree(n.protocol) && NulFree(n.server) && NulFree(n.uuid) && NulFree(n.password) && NulFree(n.cipher)
    && NulFree(n.network) && NulFree(n.sni) && NulFree(n.path) && NulFree(n.host) && NulFree(n.flow)
    && NulFree(n.security) && NulFree(n.alpn) && NulFreeMap(n.extra)
  }

  lemma FieldsNulFree(n: Node)
    requires NulFreeNode(n)
    ensures forall i :: 0 <= i < |Fields(n)| ==> NulFree(Fields(n)[i])
  {
    LowerNulFree(n.protocol);
    LowerNulFree(n.server);
    LowerNulFree(n.uuid);
    LowerNulFree(n.cipher);
    LowerNulFree(n.network);
    LowerNulFree(n.sni);
    LowerNulFree(n.host);
    LowerNulFree(n.flow);
    LowerNulFree(n.security);
  }

  function OptionOf(extra: map<string, string>, key: string): string {
    if key in extra then extra[key] else ""
  }

  /** The same options, a missing one being an empty one. */
  ghost predicate SameOptions(m: map<string, string>, n: map<string, string>) {
    forall key :: OptionOf(m, key) == OptionOf(n, key)
  }

  lemma FilledDecides(m: map<string, string>, n: map<string, string>)
    ensures Filled(m) == Filled(n) <==> SameOptions(m, n)
  {
    if Filled(m) == Filled(n) {
      forall key ensures OptionOf(m, key) == OptionOf(n, key) {
        assert key in Filled(m) <==> key in Filled(n);
      }
    }
    if SameOptions(m, n) {
      forall key
        ensures (key in Filled(m) <==> key in Filled(n)) && (key in Filled(m) ==> Filled(m)[key] == Filled(n)[key])
      {
        assert OptionOf(m, key) == OptionOf(n, key);
      }
    }
  }

  /** The same connection: equal up to the case of the case-insensitive fields and empty extras. */
  ghost predicate SameConnection(a: Node, b: Node) {
    && EqualFold(a.protocol, b.protocol) && EqualFold(a.server, b.server) && a.port == b.port
    && EqualFold(a.uuid, b.uuid) && a.password == b.password && EqualFold(a.cipher, b.cipher)
    && EqualFold(a.network, b.network) && a.tls == b.tls && EqualFold(a.sni, b.sni)
    && a.path == b.path && EqualFold(a.host, b.host) && EqualFold(a.flow, b.flow)
    && EqualFold(a.security, b.security) && a.alpn == b.alpn
    && SameOptions(a.extra, b.extra)
  }

  lemma ConnectionFolds(a: Node, b: Node)
    ensures SameConnection(a, b) <==>
            && Lower(a.protocol) == Lower(b.protocol) && Lower(a.server) == Lower(b.server) && a.port == b.port
            && Lower(a.uuid) == Lower(b.uuid) && a.password == b.password && Lower(a.cipher) == Lower(b.cipher)
            && Lower(a.network) == Lower(b.network) && a.tls == b.tls && Lower(a.sni) == Lower(b.sni)
            && a.path == b.path && Lower(a.host) == Lower(b.host) && Lower(a.flow) == Lower(b.flow)
            && Lower(a.security) == Lower(b.security) && a.alpn == b.alpn
            && Filled(a.extra) == Filled(b.extra)
  {
    LowerFolds(a.protocol, b.protocol);
    LowerFolds(a.server, b.server);
    LowerFolds(a.uuid, b.uuid);
    LowerFolds(a.cipher, b.cipher);
    LowerFolds(a.network, b.network);
    LowerFolds(a.sni, b.sni);
    LowerFolds(a.host, b.host);
    LowerFolds(a.flow, b.flow);
    LowerFolds(a.security, b.security);
    FilledDecides(a.extra, b.extra);
  }

  lemma FieldsDecide(a: Node, b: Node)
    ensures Fields(a) == Fields(b) && Filled(a.extra) == Filled(b.extra) <==> SameConnection(a, b)
  {
    ConnectionFolds(a, b);
    IntTextInjective(a.port, b.port);
    assert "true" != "false" by { assert "true"[0] != "false"[0]; }
    if Fields(a) == Fields(b) {
      assert forall i :: 0 <= i < 14 ==> Fields(a)[i] == Fields(b)[i];
      assert Fields(a)[0] == Fields(b)[0] && Fields(a)[1] == Fields(b)[1] && Fields(a)[2] == Fields(b)[2];
      assert Fields(a)[3] == Fields(b)[3] && Fields(a)[4] == Fields(b)[4] && Fields(a)[5] == Fields(b)[5];
      assert Fields(a)[6] == Fields(b)[6] && Fields(a)[7] == Fields(b)[7] && Fields(a)[8] == Fields(b)[8];
      assert Fields(a)[9] == Fields(b)[9] && Fields(a)[10] == Fields(b)[10] && Fields(a)[11] == Fields(b)[11];
      assert Fields(a)[12] == Fields(b)[12] && Fields(a)[13] == Fields(b)[13];
    }
  }

  /** For NUL-free nodes the key decides the connection, whatever order their maps iterate in. */
  lemma CanonicalIdentity(a: Node, b: Node)
    requires NulFreeNode(a) && NulFreeNode(b)
    ensures KeyText(a) == KeyText(b) <==> SameConnection(a, b)
  {
    var p, q := AnyOrder(Filled(a.extra).Keys), AnyOrder(Filled(b.extra).Keys);
    var ks, ls := Sort(TextLess, p), Sort(TextLess, q);
    SortingLists(p, a.extra);
    SortingLists(q, b.extra);
    FieldsNulFree(a);
    FieldsNulFree(b);
    FieldsDecide(a, b);
    ExtraIdentity(ks, ls, a.extra, b.extra);
    if KeyText(a) == KeyText(b) {
      ClosedReadsBack(Fields(a), Fields(b), Entries(ks, a.extra), Entries(ls, b.extra));
    }
  }

  lemma {:induction false} ClosedAppend(a: seq<string>, b: seq<string>)
    ensures Closed(a + b) == Closed(a) + Closed(b)
    decreases |a|
  {
    if a == [] {
      assert a + b == b;
    } else {
      assert (a + b)[1..] == a[1..] + b;
      ClosedAppend(a[1..], b);
    }
  }

  lemma ClosedPair(p: string, q: string)
    ensures Closed([p, q]) == p + [NUL] + (q + [NUL])
  {
    assert [p, q][1..] == [q] && [q][1..] == [];
    assert Closed([q]) == q + [NUL] + "";
  }

  /** Closing does not show where the boundary between two neighbouring fields was. */
  lemma ClosedSwap(head: seq<string>, x: seq<string>, y: seq<string>, tail: seq<string>)
    requires Closed(x) == Closed(y)
    ensures Closed(head + (x + tail)) == Closed(head + (y + tail))
  {
    ClosedAppend(x, tail);
    ClosedAppend(y, tail);
    ClosedAppend(head, x + tail);
    ClosedAppend(head, y + tail);
  }

  lemma PairsMeet(u: string, v: string, w: string)
    requires Lower(v) == v
    ensures Closed([Lower(u + [NUL] + v), w]) == Closed([Lower(u), v + [NUL] + w])
  {
    ClosedPair(Lower(u + [NUL] + v), w);
    ClosedPair(Lower(u), v + [NUL] + w);
    assert Lower(u + [NUL] + v) == Lower(u) + [NUL] + v;
    assert (Lower(u) + [NUL] + v) + [NUL] + (w + [NUL]) == Lower(u) + [NUL] + ((v + [NUL] + w) + [NUL]);
  }

  lemma FieldsAround(n: Node, uuid: string, password: string)
    ensures Fields(n.(uuid := uuid, password := password))
            == Fields(n)[..3] + ([Lower(uuid), password] + Fields(n)[5..])
  {
  }

  /** A NUL inside a field moves a field boundary: NUL-free fields are needed for identity. */
  lemma NulMovesBoundary(n: Node, u: string, v: string, w: string)
    requires Lower(v) == v
    ensures var a, b := n.(uuid := u + [NUL] + v, password := w), n.(uuid := u, password := v + [NUL] + w);
            KeyText(a) == KeyText(b) && !SameConnection(a, b)
  {
    var a, b := n.(uuid := u + [NUL] + v, password := w), n.(uuid := u, password := v + [NUL] + w);
    FieldsAround(n, a.uuid, a.password);
    FieldsAround(n, b.uuid, b.password);
    PairsMeet(u, v, w);
    ClosedSwap(Fields(n)[..3], [Lower(a.uuid), a.password], [Lower(b.uuid), b.password], Fields(n)[5..]);
    assert |a.password| != |b.password|;
  }
}
